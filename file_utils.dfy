/**
 * File-name and CSV helpers: extension, base name and directory of a path,
 * sanitised file names, one column of parsed CSV data, the row-length check
 * applied while reading a CSV file, and the tab-separated rows written by the
 * export.
 *
 * The host is taken to be a Unix system: the path separator is '/'.
 */
module FileUtils {
  import opened Outcomes
  import opened Streams

  const ExtensionSeparator: char := '.'
  /** `File.separatorChar` on a Unix host. */
  const PathSeparator: char := '/'
  /** The separator `basename` falls back to when there is no '/'. */
  const BackSlash: char := '\\'

  /** A `StringIndexOutOfBoundsException` from `substring(begin, end)`. */
  datatype StringError = StringIndexOutOfBounds(begin: int, end: int)

  predicate EndsWith(s: string, suffix: string) {
    |suffix| <= |s| && s[|s| - |suffix|..] == suffix
  }

  /** `s.lastIndexOf(c)`: the position of the last c in s, or -1 when s has none. */
  function LastIndexOf(s: string, c: char): (i: int)
    ensures -1 <= i < |s|
    ensures i >= 0 ==> s[i] == c
    ensures forall k :: i < k < |s| ==> s[k] != c
  {
    if s == [] then -1
    else if s[|s| - 1] == c then |s| - 1
    else LastIndexOf(s[..|s| - 1], c)
  }

  /** The text after the last '.'; a name without '.' is returned whole. */
  function Extension(fileName: string): (ext: string)
    ensures ExtensionSeparator !in ext
    ensures ExtensionSeparator !in fileName ==> ext == fileName
    ensures ExtensionSeparator in fileName ==> EndsWith(fileName, [ExtensionSeparator] + ext)
  {
    var dot := LastIndexOf(fileName, ExtensionSeparator);
    assert ExtensionSeparator in fileName ==> fileName[dot] == ExtensionSeparator;
    fileName[dot + 1..]
  }

  /** The separator `basename` cuts at: the last '/', or the last backslash when there is no '/'. */
  function LastSeparator(fileName: string): (sep: int)
    ensures -1 <= sep < |fileName|
  {
    var slash := LastIndexOf(fileName, PathSeparator);
    if slash == -1 then LastIndexOf(fileName, BackSlash) else slash
  }

  /**
   * The file name without directory and without extension. A name without
   * '.' is returned whole; otherwise `substring` fails when the last '.'
   * comes before the last separator.
   */
  function Basename(fileName: string): (r: Result<string, StringError>)
    ensures ExtensionSeparator !in fileName ==> r == Ok(fileName)
    ensures ExtensionSeparator in fileName ==>
              (r.Ok? <==> LastSeparator(fileName) < LastIndexOf(fileName, ExtensionSeparator))
    ensures ExtensionSeparator in fileName && r.Ok? ==>
              r.value == fileName[LastSeparator(fileName) + 1..LastIndexOf(fileName, ExtensionSeparator)]
    ensures ExtensionSeparator in fileName && r.Ok? ==>
              && EndsWith(fileName, r.value + [ExtensionSeparator] + Extension(fileName))
              && PathSeparator !in r.value
              && (PathSeparator !in fileName ==> BackSlash !in r.value)
  {
    if ExtensionSeparator !in fileName then Ok(fileName)
    else
      var dot := LastIndexOf(fileName, ExtensionSeparator);
      var sep := LastSeparator(fileName);
      if sep + 1 <= dot then
        BaseBeforeExtension(fileName);
        Ok(fileName[sep + 1..dot])
      else Err(StringIndexOutOfBounds(sep + 1, dot))
  }

  /** The text between the last separator and the last '.', when the '.' comes after the separator. */
  lemma BaseBeforeExtension(fileName: string)
    requires ExtensionSeparator in fileName
    requires LastSeparator(fileName) < LastIndexOf(fileName, ExtensionSeparator)
    ensures var base := fileName[LastSeparator(fileName) + 1..LastIndexOf(fileName, ExtensionSeparator)];
            && EndsWith(fileName, base + [ExtensionSeparator] + Extension(fileName))
            && PathSeparator !in base
            && (PathSeparator !in fileName ==> BackSlash !in base)
  {
    var dot := LastIndexOf(fileName, ExtensionSeparator);
    var sep := LastSeparator(fileName);
    var base := fileName[sep + 1..dot];
    var suffix := base + [ExtensionSeparator] + Extension(fileName);
    assert fileName[sep + 1..] == suffix by {
      assert Extension(fileName) == fileName[dot + 1..];
      SplitAround(fileName, sep + 1, dot);
    }
    assert |fileName| - |suffix| == sep + 1;
    AfterSeparator(fileName, base, sep + 1);
  }

  lemma SplitAround(s: string, i: nat, j: nat)
    requires i <= j < |s|
    ensures s[i..] == s[i..j] + [s[j]] + s[j + 1..]
  {
    var t := s[i..j] + [s[j]] + s[j + 1..];
    forall k | 0 <= k < |s| - i
      ensures s[i..][k] == t[k]
    {
      if k < j - i {
        assert t[k] == s[i..j][k];
      } else if k > j - i {
        assert t[k] == s[j + 1..][k - (j - i) - 1];
      }
    }
  }

  /** Text that lies after the last separator holds no '/', and no backslash when the name has no '/'. */
  lemma AfterSeparator(fileName: string, part: string, start: nat)
    requires LastSeparator(fileName) < start <= |fileName|
    requires part <= fileName[start..]
    ensures PathSeparator !in part
    ensures PathSeparator !in fileName ==> BackSlash !in part
  {
    forall k | 0 <= k < |part|
      ensures part[k] != PathSeparator
      ensures PathSeparator !in fileName ==> part[k] != BackSlash
    {
      assert part[k] == fileName[start + k];
    }
  }

  /** A name of the form base.ext, without directory, is its base name, '.', and its extension. */
  lemma BasenameExtensionRoundTrip(fileName: string)
    requires ExtensionSeparator in fileName
    requires PathSeparator !in fileName && BackSlash !in fileName
    ensures Basename(fileName).Ok?
    ensures Basename(fileName).value + [ExtensionSeparator] + Extension(fileName) == fileName
  {
    var dot := LastIndexOf(fileName, ExtensionSeparator);
    assert fileName[dot] == ExtensionSeparator;
    assert LastSeparator(fileName) == -1;
    assert fileName[..dot] + [ExtensionSeparator] + fileName[dot + 1..] == fileName;
  }

  /** The directory part: everything before the last '/'; `substring` fails when there is none. */
  function Path(fileName: string): (r: Result<string, StringError>)
    ensures r.Ok? <==> PathSeparator in fileName
    ensures r.Ok? ==> |r.value| < |fileName| &&
                      var name := fileName[|r.value| + 1..];
                      fileName == r.value + [PathSeparator] + name && PathSeparator !in name
  {
    var sep := LastIndexOf(fileName, PathSeparator);
    if sep == -1 then Err(StringIndexOutOfBounds(0, -1))
    else
      assert fileName == fileName[..sep] + [PathSeparator] + fileName[sep + 1..];
      Ok(fileName[..sep])
  }

  predicate IsAscii(s: string) {
    forall i :: 0 <= i < |s| ==> s[i] as int < 128
  }

  /** Encoding as US-ASCII with '_' for every character that has no ASCII code. */
  function FilterNonAscii(s: string): (r: string)
    ensures |r| == |s| && IsAscii(r)
    ensures forall i :: 0 <= i < |s| ==> r[i] == if s[i] as int < 128 then s[i] else '_'
    ensures IsAscii(s) ==> r == s
  {
    seq(|s|, i requires 0 <= i < |s| => if s[i] as int < 128 then s[i] else '_')
  }

  /** `s.replaceAll(pattern, replacement)` for a pattern that matches the single character c. */
  function ReplaceChar(s: string, c: char, replacement: string): (r: string)
    ensures c !in replacement ==> c !in r
    ensures c !in s ==> r == s
    ensures forall d :: d in r ==> d in s || d in replacement
  {
    if s == [] then []
    else (if s[0] == c then replacement else [s[0]]) + ReplaceChar(s[1..], c, replacement)
  }

  /** What one character becomes when every c is replaced. */
  function ReplacedChar(d: char, c: char, replacement: string): string {
    if d == c then replacement else [d]
  }

  /** A single character becomes `ReplacedChar` of it. */
  lemma ReplaceCharOfChar(d: char, c: char, replacement: string)
    ensures ReplaceChar([d], c, replacement) == ReplacedChar(d, c, replacement)
  {
    assert [d][1..] == [];
  }

  /**
   * With a one-character replacement, every c is replaced in place by it
   * and every other character stays where it was.
   */
  lemma {:induction false} ReplaceCharPointwise(s: string, c: char, replacement: string)
    requires |replacement| == 1
    ensures |ReplaceChar(s, c, replacement)| == |s|
    ensures forall i :: 0 <= i < |s| ==>
              ReplaceChar(s, c, replacement)[i] == if s[i] == c then replacement[0] else s[i]
    decreases |s|
  {
    if s != [] {
      ReplaceCharPointwise(s[1..], c, replacement);
      var head := if s[0] == c then replacement else [s[0]];
      var rest := ReplaceChar(s[1..], c, replacement);
      assert ReplaceChar(s, c, replacement) == head + rest;
      forall i | 0 < i < |s|
        ensures (head + rest)[i] == if s[i] == c then replacement[0] else s[i]
      {
        assert (head + rest)[i] == rest[i - 1];
        assert s[1..][i - 1] == s[i];
      }
    }
  }

  /** The first character is replaced on its own, then the rest. */
  lemma ReplaceCharFirst(s: string, c: char, replacement: string)
    requires s != []
    ensures ReplaceChar(s, c, replacement) == ReplacedChar(s[0], c, replacement) + ReplaceChar(s[1..], c, replacement)
  {
  }

  /** Replacing in a concatenation replaces in each part. */
  lemma {:induction false} ReplaceCharAppend(a: string, b: string, c: char, replacement: string)
    ensures ReplaceChar(a + b, c, replacement) == ReplaceChar(a, c, replacement) + ReplaceChar(b, c, replacement)
    decreases |a|
  {
    if a == [] {
      assert a + b == b;
    } else {
      var ab := a + b;
      assert ab[0] == a[0] && ab[1..] == a[1..] + b;
      var head := ReplacedChar(a[0], c, replacement);
      ReplaceCharFirst(ab, c, replacement);
      ReplaceCharFirst(a, c, replacement);
      ReplaceCharAppend(a[1..], b, c, replacement);
      var front, back := ReplaceChar(a[1..], c, replacement), ReplaceChar(b, c, replacement);
      assert head + (front + back) == (head + front) + back;
    }
  }

  /** A base name that sanitising leaves as it is. */
  predicate IsCleanBaseName(base: string) {
    IsAscii(base) && ' ' !in base && '(' !in base && ')' !in base && '&' !in base
  }

  /** What sanitising makes of one character of a base name. */
  function SanitizedChar(d: char): string {
    if d == ' ' then "_"
    else if d == '(' || d == ')' then "-"
    else if d == '&' then "and"
    else if d as int < 128 then [d]
    else "_"
  }

  /** The base name sanitised character by character, as a reference for the staged replacements. */
  function SanitizedByChar(base: string): string {
    if base == [] then [] else SanitizedChar(base[0]) + SanitizedByChar(base[1..])
  }

  /** The replacements of `sanitizedFileName`, in the order it applies them, then the ASCII filter. */
  function Stages(base: string): string {
    FilterNonAscii(ReplaceChar(ReplaceChar(ReplaceChar(ReplaceChar(base, ' ', "_"), '(', "-"), ')', "-"), '&', "and"))
  }

  /**
   * The sanitised base name: ' ' becomes '_', '(' and ')' become '-', '&'
   * becomes "and", every non-ASCII character becomes '_', and every other
   * character stays, in order.
   */
  function SanitizedBaseName(base: string): (r: string)
    ensures r == SanitizedByChar(base)
    ensures IsAscii(r) && ' ' !in r && '(' !in r && ')' !in r && '&' !in r
    ensures IsCleanBaseName(base) ==> r == base
  {
    StagesAreCharwise(base);
    ByCharIsClean(base);
    Stages(base)
  }

  /** The reference gives a clean base name, and leaves a clean one as it is. */
  lemma {:induction false} ByCharIsClean(base: string)
    ensures IsCleanBaseName(SanitizedByChar(base))
    ensures IsCleanBaseName(base) ==> SanitizedByChar(base) == base
    decreases |base|
  {
    if base != [] {
      ByCharIsClean(base[1..]);
      var head, rest := SanitizedChar(base[0]), SanitizedByChar(base[1..]);
      assert IsAscii(head) && ' ' !in head && '(' !in head && ')' !in head && '&' !in head;
      assert IsAscii(head + rest) by {
        forall i | 0 <= i < |head + rest|
          ensures (head + rest)[i] as int < 128
        {
          if i >= |head| {
            assert (head + rest)[i] == rest[i - |head|];
          }
        }
      }
      if IsCleanBaseName(base) {
        assert IsCleanBaseName(base[1..]) by {
          forall i | 0 <= i < |base[1..]|
            ensures base[1..][i] as int < 128
          {
            assert base[1..][i] == base[i + 1];
          }
        }
        assert base == [base[0]] + base[1..];
      }
    }
  }

  /** Filtering a concatenation filters each part. */
  lemma FilterNonAsciiAppend(a: string, b: string)
    ensures FilterNonAscii(a + b) == FilterNonAscii(a) + FilterNonAscii(b)
  {
    var r := FilterNonAscii(a + b);
    var q := FilterNonAscii(a) + FilterNonAscii(b);
    forall i | 0 <= i < |r|
      ensures r[i] == q[i]
    {
      if i < |a| {
        assert (a + b)[i] == a[i];
      } else {
        assert (a + b)[i] == b[i - |a|];
      }
    }
  }

  /** Every stage is a character-by-character map, so the stages split over a concatenation. */
  lemma StagesAppend(a: string, b: string)
    ensures Stages(a + b) == Stages(a) + Stages(b)
  {
    ReplaceCharAppend(a, b, ' ', "_");
    var a1, b1 := ReplaceChar(a, ' ', "_"), ReplaceChar(b, ' ', "_");
    ReplaceCharAppend(a1, b1, '(', "-");
    var a2, b2 := ReplaceChar(a1, '(', "-"), ReplaceChar(b1, '(', "-");
    ReplaceCharAppend(a2, b2, ')', "-");
    var a3, b3 := ReplaceChar(a2, ')', "-"), ReplaceChar(b2, ')', "-");
    ReplaceCharAppend(a3, b3, '&', "and");
    FilterNonAsciiAppend(ReplaceChar(a3, '&', "and"), ReplaceChar(b3, '&', "and"));
  }

  /** The stages turn one character into `SanitizedChar` of it. */
  lemma StagesOfChar(d: char)
    ensures Stages([d]) == SanitizedChar(d)
  {
    ReplaceCharAppend([], [], ' ', "_");
    ReplaceCharAppend([], [], '(', "-");
    ReplaceCharAppend([], [], ')', "-");
    ReplaceCharAppend([], [], '&', "and");
    var s1 := ReplaceChar([d], ' ', "_");
    var s2 := ReplaceChar(s1, '(', "-");
    var s3 := ReplaceChar(s2, ')', "-");
    var s4 := ReplaceChar(s3, '&', "and");
    if d == ' ' {
      assert s1 == "_" && s4 == "_";
    } else if d == '(' {
      assert s1 == [d] && s2 == "-" && s4 == "-";
    } else if d == ')' {
      assert s2 == [d] && s3 == "-" && s4 == "-";
    } else if d == '&' {
      assert s3 == [d] && s4 == "and";
      assert IsAscii("and");
    } else {
      assert s4 == [d];
    }
  }

  /** The staged replacements agree with the character-by-character reference. */
  lemma {:induction false} StagesAreCharwise(base: string)
    ensures Stages(base) == SanitizedByChar(base)
    decreases |base|
  {
    if base == [] {
      ReplaceCharAppend([], [], ' ', "_");
      ReplaceCharAppend([], [], '(', "-");
      ReplaceCharAppend([], [], ')', "-");
      ReplaceCharAppend([], [], '&', "and");
    } else {
      assert base == [base[0]] + base[1..];
      StagesAppend([base[0]], base[1..]);
      StagesOfChar(base[0]);
      StagesAreCharwise(base[1..]);
    }
  }

  /** Sanitising neither adds nor removes a '.', a '/' or a backslash. */
  lemma SanitizedKeepsSeparators(base: string)
    ensures ExtensionSeparator in SanitizedBaseName(base) <==> ExtensionSeparator in base
    ensures PathSeparator in SanitizedBaseName(base) <==> PathSeparator in base
    ensures BackSlash in SanitizedBaseName(base) <==> BackSlash in base
  {
    ByCharKeepsSeparators(base);
  }

  lemma {:induction false} ByCharKeepsSeparators(base: string)
    ensures ExtensionSeparator in SanitizedByChar(base) <==> ExtensionSeparator in base
    ensures PathSeparator in SanitizedByChar(base) <==> PathSeparator in base
    ensures BackSlash in SanitizedByChar(base) <==> BackSlash in base
    decreases |base|
  {
    if base != [] {
      ByCharKeepsSeparators(base[1..]);
      assert base == [base[0]] + base[1..];
    }
  }

  /** Filtering keeps characters of `s` or puts in '_'. */
  lemma FilterNonAsciiKeeps(s: string)
    ensures forall d :: d in FilterNonAscii(s) ==> d in s || d == '_'
  {
    var r := FilterNonAscii(s);
    forall d | d in r
      ensures d in s || d == '_'
    {
      var i :| 0 <= i < |r| && r[i] == d;
    }
  }

  /**
   * `s.replace(target, replacement)`: every occurrence of target, from left
   * to right and without overlap, is replaced; an empty target matches
   * before every character and at the end.
   */
  function Replace(s: string, target: string, replacement: string): string
    decreases |s|
  {
    if target == [] then
      if s == [] then replacement else replacement + [s[0]] + Replace(s[1..], target, replacement)
    else if |target| <= |s| && s[..|target|] == target then
      replacement + Replace(s[|target|..], target, replacement)
    else if s == [] then []
    else [s[0]] + Replace(s[1..], target, replacement)
  }

  /** Replacing a text by itself changes nothing, also for the empty text. */
  lemma {:induction false} ReplaceWithItself(s: string, target: string)
    ensures Replace(s, target, target) == s
    decreases |s|
  {
    if target == [] {
      if s != [] {
        ReplaceWithItself(s[1..], target);
        assert [s[0]] + s[1..] == s;
      }
    } else if |target| <= |s| && s[..|target|] == target {
      ReplaceWithItself(s[|target|..], target);
      assert s[..|target|] + s[|target|..] == s;
    } else if s != [] {
      ReplaceWithItself(s[1..], target);
      assert [s[0]] + s[1..] == s;
    }
  }

  /**
   * The path with its base name sanitised wherever that base name occurs;
   * fails where `basename` fails. A path whose base name is already clean
   * comes back unchanged.
   */
  function SanitizedFileName(fileName: string): (r: Result<string, StringError>)
    ensures r.Ok? <==> Basename(fileName).Ok?
    ensures r.Err? ==> r == Basename(fileName)
    ensures r.Ok? ==> r.value == Replace(fileName, Basename(fileName).value, SanitizedBaseName(Basename(fileName).value))
    ensures r.Ok? && IsCleanBaseName(Basename(fileName).value) ==> r.value == fileName
  {
    match Basename(fileName)
    case Err(e) => Err(e)
    case Ok(base) =>
      ReplaceWithItself(fileName, base);
      Ok(Replace(fileName, base, SanitizedBaseName(base)))
  }

  /** The separator `basename` looks for: '/' when there is one, the backslash otherwise. */
  function SeparatorOf(fileName: string): char {
    if PathSeparator in fileName then PathSeparator else BackSlash
  }

  /** Some '.' of the text has no separator c after it. */
  predicate DotAfter(s: string, c: char) {
    exists i :: 0 <= i < |s| && s[i] == ExtensionSeparator && c !in s[i..]
  }

  /** `basename` succeeds on a name with '.' exactly when some '.' has no separator after it. */
  lemma BasenameNeedsDotAfter(fileName: string)
    requires ExtensionSeparator in fileName
    ensures Basename(fileName).Ok? <==> DotAfter(fileName, SeparatorOf(fileName))
  {
    var c := SeparatorOf(fileName);
    var dot := LastIndexOf(fileName, ExtensionSeparator);
    var sep := LastSeparator(fileName);
    assert dot >= 0 by {
      var k :| 0 <= k < |fileName| && fileName[k] == ExtensionSeparator;
    }
    assert sep == LastIndexOf(fileName, c) by {
      if PathSeparator !in fileName {
        assert LastIndexOf(fileName, PathSeparator) == -1;
      }
    }
    if sep < dot {
      assert c !in fileName[dot..] by {
        forall k | dot <= k < |fileName|
          ensures fileName[k] != c
        {
        }
      }
    }
    if DotAfter(fileName, c) {
      var i :| 0 <= i < |fileName| && fileName[i] == ExtensionSeparator && c !in fileName[i..];
      assert i <= dot;
    }
  }

  /** `Replace` introduces no character that neither the text nor the replacement has. */
  lemma {:induction false} ReplaceKeepsAbsent(s: string, target: string, replacement: string, c: char)
    requires c !in s && c !in replacement
    ensures c !in Replace(s, target, replacement)
    decreases |s|
  {
    if target == [] {
      if s != [] {
        ReplaceKeepsAbsent(s[1..], target, replacement, c);
      }
    } else if |target| <= |s| && s[..|target|] == target {
      ReplaceKeepsAbsent(s[|target|..], target, replacement, c);
    } else if s != [] {
      ReplaceKeepsAbsent(s[1..], target, replacement, c);
    }
  }

  /** `Replace` keeps every character that the target does not have. */
  lemma {:induction false} ReplaceKeepsPresent(s: string, target: string, replacement: string, c: char)
    requires c in s && c !in target
    ensures c in Replace(s, target, replacement)
    decreases |s|
  {
    if target == [] {
      if s[0] != c {
        ReplaceKeepsPresent(s[1..], target, replacement, c);
      }
    } else if |target| <= |s| && s[..|target|] == target {
      var k :| 0 <= k < |s| && s[k] == c;
      assert s[|target|..][k - |target|] == c;
      ReplaceKeepsPresent(s[|target|..], target, replacement, c);
    } else if s[0] != c {
      ReplaceKeepsPresent(s[1..], target, replacement, c);
    }
  }

  /** A '.' with no separator after it in the tail is one in the whole text. */
  lemma DotAfterInTail(head: string, tail: string, c: char)
    requires DotAfter(tail, c)
    ensures DotAfter(head + tail, c)
  {
    var j :| 0 <= j < |tail| && tail[j] == ExtensionSeparator && c !in tail[j..];
    assert (head + tail)[|head| + j..] == tail[j..];
  }

  /** A '.' in a head without separators, followed by a tail without separators. */
  lemma DotAfterInHead(head: string, tail: string, c: char)
    requires ExtensionSeparator in head && c !in head && c !in tail
    ensures DotAfter(head + tail, c)
  {
    var j :| 0 <= j < |head| && head[j] == ExtensionSeparator;
    assert (head + tail)[j..] == head[j..] + tail;
  }

  /**
   * A '.' with no separator after it survives `Replace` when the replacement
   * brings no separator and keeps a '.' wherever the target had one.
   */
  lemma {:induction false} ReplaceKeepsDotAfter(s: string, target: string, replacement: string, c: char)
    requires DotAfter(s, c)
    requires c !in replacement
    requires ExtensionSeparator in target ==> ExtensionSeparator in replacement
    ensures DotAfter(Replace(s, target, replacement), c)
    decreases |s|
  {
    var i :| 0 <= i < |s| && s[i] == ExtensionSeparator && c !in s[i..];
    if target == [] || !(|target| <= |s| && s[..|target|] == target) {
      var rest := Replace(s[1..], target, replacement);
      var head := if target == [] then replacement + [s[0]] else [s[0]];
      assert Replace(s, target, replacement) == head + rest;
      if i == 0 {
        assert c !in s[1..] by { assert s[1..] == s[i..][1..]; }
        ReplaceKeepsAbsent(s[1..], target, replacement, c);
        DotAfterInHead(head, rest, c);
      } else {
        assert s[1..][i - 1..] == s[i..];
        ReplaceKeepsDotAfter(s[1..], target, replacement, c);
        DotAfterInTail(head, rest, c);
      }
    } else {
      var tail := s[|target|..];
      var rest := Replace(tail, target, replacement);
      if i >= |target| {
        assert tail[i - |target|..] == s[i..];
        ReplaceKeepsDotAfter(tail, target, replacement, c);
        DotAfterInTail(replacement, rest, c);
      } else {
        assert target[i] == ExtensionSeparator;
        assert c !in tail by { assert tail == s[i..][|target| - i..]; }
        ReplaceKeepsAbsent(tail, target, replacement, c);
        DotAfterInHead(replacement, rest, c);
      }
    }
  }

  /** Replacing the whole text gives the replacement. */
  lemma ReplaceWhole(s: string, replacement: string)
    ensures Replace(s, s, replacement) == replacement
  {
    if s != [] {
      assert s[..|s|] == s && s[|s|..] == [];
    }
  }

  /**
   * Sanitising keeps the name well-formed: wherever `basename` succeeds on a
   * name, it succeeds on the sanitised name too.
   */
  lemma SanitizedFileNameKeepsBasename(fileName: string)
    ensures SanitizedFileName(fileName).Ok? ==> Basename(SanitizedFileName(fileName).value).Ok?
  {
    if Basename(fileName).Ok? {
      var base := Basename(fileName).value;
      var clean := SanitizedBaseName(base);
      var r := Replace(fileName, base, clean);
      SanitizedKeepsSeparators(base);
      if ExtensionSeparator !in fileName {
        ReplaceWhole(fileName, clean);
      } else {
        var c := SeparatorOf(fileName);
        BasenameNeedsDotAfter(fileName);
        ReplaceKeepsDotAfter(fileName, base, clean, c);
        if PathSeparator in fileName {
          ReplaceKeepsPresent(fileName, base, clean, PathSeparator);
        } else {
          ReplaceKeepsAbsent(fileName, base, clean, PathSeparator);
        }
        assert SeparatorOf(r) == c;
        var j :| 0 <= j < |r| && r[j] == ExtensionSeparator && c !in r[j..];
        BasenameNeedsDotAfter(r);
      }
    }
  }

  // ---------------------------------------------------------------------
  // CSV data

  /** One row of a CSV file, already split at the separator. */
  type Row = seq<string>

  datatype CsvError =
    | ArrayIndexOutOfBounds(index: int)                              // row[columnIndex] outside the row
    | UnexpectedRowLength(line: nat, expected: int, actual: nat)   // the Error thrown by readCSVFile

  /** The filter used when none is given: every row is accepted. */
  function AcceptAll(row: Row): bool {
    true
  }

  function FilterOrAcceptAll(filter: Option<Row -> bool>): Row -> bool {
    if filter.None? then AcceptAll else filter.value
  }

  /** The rows the filter accepts, in their order. */
  function Accepted(data: seq<Row>, accept: Row -> bool): seq<Row> {
    if data == [] then []
    else (if accept(data[0]) then [data[0]] else []) + Accepted(data[1..], accept)
  }

  /** The filter used in place of a missing one keeps every row. */
  lemma {:induction false} MissingFilterKeepsAllRows(data: seq<Row>)
    ensures Accepted(data, FilterOrAcceptAll(None)) == data
  {
    if data != [] {
      MissingFilterKeepsAllRows(data[1..]);
      assert [data[0]] + data[1..] == data;
    }
  }

  /** Puts `front` before a successful result; an error stays as it is. */
  function Prepend<T>(front: seq<T>, r: Result<seq<T>, CsvError>): Result<seq<T>, CsvError> {
    match r
    case Ok(rest) => Ok(front + rest)
    case Err(e) => Err(e)
  }

  lemma PrependNothing<T>(r: Result<seq<T>, CsvError>)
    ensures Prepend([], r) == r
  {
    if r.Ok? {
      assert [] + r.value == r.value;
    }
  }

  lemma PrependTwice<T>(front: seq<T>, next: seq<T>, r: Result<seq<T>, CsvError>)
    ensures Prepend(front, Prepend(next, r)) == Prepend(front + next, r)
  {
    if r.Ok? {
      assert front + (next + r.value) == (front + next) + r.value;
    }
  }

  /** The column of the accepted rows, or the failure at the first accepted row that is too short. */
  function ColumnOf(data: seq<Row>, columnIndex: int, accept: Row -> bool): Result<seq<string>, CsvError> {
    if data == [] then Ok([])
    else if !accept(data[0]) then ColumnOf(data[1..], columnIndex, accept)
    else if 0 <= columnIndex < |data[0]| then
      Prepend([data[0][columnIndex]], ColumnOf(data[1..], columnIndex, accept))
    else Err(ArrayIndexOutOfBounds(columnIndex))
  }

  /**
   * `r` is the column `columnIndex` of `rows`: row[columnIndex] of each row,
   * in row order, or a failure exactly when some row has no such cell.
   */
  predicate IsColumnOf(rows: seq<Row>, columnIndex: int, r: Result<seq<string>, CsvError>) {
    && (r.Ok? <==> forall j :: 0 <= j < |rows| ==> 0 <= columnIndex < |rows[j]|)
    && (r.Ok? ==> |r.value| == |rows| && forall j :: 0 <= j < |rows| ==>
                                                     0 <= columnIndex < |rows[j]| && r.value[j] == rows[j][columnIndex])
  }

  /** One more row in front of the rows of a column. */
  lemma ColumnOfOneMoreRow(row: Row, rest: seq<Row>, columnIndex: int, r: Result<seq<string>, CsvError>)
    requires IsColumnOf(rest, columnIndex, r)
    ensures IsColumnOf([row] + rest, columnIndex,
                       if 0 <= columnIndex < |row| then Prepend([row[columnIndex]], r)
                       else Err(ArrayIndexOutOfBounds(columnIndex)))
  {
    var rows := [row] + rest;
    assert rows[0] == row;
    if 0 <= columnIndex < |row| {
      match r
      case Ok(column) =>
        var w := [row[columnIndex]] + column;
        forall j | 0 <= j < |rows|
          ensures 0 <= columnIndex < |rows[j]| && w[j] == rows[j][columnIndex]
        {
          if j > 0 {
            assert w[j] == column[j - 1] && rows[j] == rest[j - 1];
          }
        }
      case Err(_) =>
        var j :| 0 <= j < |rest| && !(0 <= columnIndex < |rest[j]|);
        assert rows[j + 1] == rest[j];
    }
  }

  /** The column read from the rows the filter accepts. */
  lemma {:induction false} ColumnOfAcceptedRows(data: seq<Row>, columnIndex: int, accept: Row -> bool)
    ensures IsColumnOf(Accepted(data, accept), columnIndex, ColumnOf(data, columnIndex, accept))
  {
    if data != [] {
      ColumnOfAcceptedRows(data[1..], columnIndex, accept);
      if accept(data[0]) {
        assert Accepted(data, accept) == [data[0]] + Accepted(data[1..], accept);
        ColumnOfOneMoreRow(data[0], Accepted(data[1..], accept), columnIndex, ColumnOf(data[1..], columnIndex, accept));
      } else {
        assert Accepted(data, accept) == Accepted(data[1..], accept);
      }
    }
  }

  /** `readColumnFromCSVData`: the given column of every row the filter accepts. */
  method ReadColumnFromCsvData(data: seq<Row>, columnIndex: int, filter: Option<Row -> bool>)
    returns (r: Result<seq<string>, CsvError>)
    ensures r == ColumnOf(data, columnIndex, FilterOrAcceptAll(filter))
  {
    var accept := FilterOrAcceptAll(filter);
    var columnData: seq<string> := [];
    assert data[0..] == data;
    PrependNothing(ColumnOf(data, columnIndex, accept));
    for i := 0 to |data|
      invariant ColumnOf(data, columnIndex, accept) == Prepend(columnData, ColumnOf(data[i..], columnIndex, accept))
    {
      var row := data[i];
      assert data[i..][0] == row;
      assert data[i..][1..] == data[i + 1..];
      if accept(row) {
        if columnIndex < 0 || columnIndex >= |row| {
          return Err(ArrayIndexOutOfBounds(columnIndex));
        }
        PrependTwice(columnData, [row[columnIndex]], ColumnOf(data[i + 1..], columnIndex, accept));
        columnData := columnData + [row[columnIndex]];
      }
    }
    assert data[|data|..] == [];
    assert columnData + [] == columnData;
    return Ok(columnData);
  }

  /**
   * The rows of a CSV file after the length check, the first line being
   * `lineNumber` + 1: an expected length of -1 accepts every row.
   */
  function CheckedRows(rows: seq<Row>, expected: int, lineNumber: nat): Result<seq<Row>, CsvError> {
    if rows == [] then Ok([])
    else if expected == -1 || expected == |rows[0]| then
      Prepend([rows[0]], CheckedRows(rows[1..], expected, lineNumber + 1))
    else Err(UnexpectedRowLength(lineNumber + 1, expected, |rows[0]|))
  }

  /**
   * The row-length check keeps every row when all have the expected length
   * (or -1 is expected); otherwise it names the 1-based line of the first
   * row of another length.
   */
  lemma {:induction false} CheckedRowsOutcome(rows: seq<Row>, expected: int, lineNumber: nat)
    ensures var r := CheckedRows(rows, expected, lineNumber);
            && (r.Ok? <==> expected == -1 || forall j :: 0 <= j < |rows| ==> |rows[j]| == expected)
            && (r.Ok? ==> r.value == rows)
            && (r.Err? ==> r.error.UnexpectedRowLength?
                           && var bad := r.error.line - lineNumber - 1;
                           && 0 <= bad < |rows|
                           && r.error.expected == expected
                           && r.error.actual == |rows[bad]| != expected
                           && forall j :: 0 <= j < bad ==> |rows[j]| == expected)
  {
    if rows != [] {
      CheckedRowsOutcome(rows[1..], expected, lineNumber + 1);
      assert [rows[0]] + rows[1..] == rows;
      assert forall j :: 0 < j < |rows| ==> rows[j] == rows[1..][j - 1];
    }
  }

  /**
   * The lines `readCSVFile` reads, each already split at the separator: a
   * read is a line (`Chunk`), the end of the file, or an `IOException`.
   * Reading stops at the first read that is not a line; after an
   * `IOException` the rows read so far are kept.
   */
  function RowsRead(lines: seq<ReadOutcome<string>>): (rows: seq<Row>)
    ensures |rows| <= |lines|
    ensures forall i :: 0 <= i < |rows| ==> lines[i] == Chunk(rows[i])
    ensures |rows| < |lines| ==> !lines[|rows|].Chunk?
  {
    if lines == [] || !lines[0].Chunk? then []
    else [lines[0].data] + RowsRead(lines[1..])
  }

  /**
   * The reading loop of `readCSVFile`: every line read is checked for its
   * number of columns, and the rows read until the end of the file or until
   * a read fails are returned.
   */
  method ReadCsvFile(lines: seq<ReadOutcome<string>>, expectedNumberOfColumns: int)
    returns (r: Result<seq<Row>, CsvError>)
    ensures r == CheckedRows(RowsRead(lines), expectedNumberOfColumns, 0)
  {
    ghost var rows := RowsRead(lines);
    var data: seq<Row> := [];
    var lineNumber := 0;
    assert rows[0..] == rows;
    PrependNothing(CheckedRows(rows, expectedNumberOfColumns, 0));
    while lineNumber < |lines| && lines[lineNumber].Chunk?
      invariant 0 <= lineNumber <= |rows|
      invariant CheckedRows(rows, expectedNumberOfColumns, 0)
                == Prepend(data, CheckedRows(rows[lineNumber..], expectedNumberOfColumns, lineNumber))
    {
      var row := lines[lineNumber].data;
      assert row == rows[lineNumber];
      assert rows[lineNumber..][1..] == rows[lineNumber + 1..];
      lineNumber := lineNumber + 1;
      if expectedNumberOfColumns == -1 || expectedNumberOfColumns == |row| {
        PrependTwice(data, [row], CheckedRows(rows[lineNumber..], expectedNumberOfColumns, lineNumber));
        data := data + [row];
      } else {
        return Err(UnexpectedRowLength(lineNumber, expectedNumberOfColumns, |row|));
      }
    }
    assert lineNumber == |rows|;
    assert rows[|rows|..] == [];
    assert data + [] == data;
    return Ok(data);
  }

  // ---------------------------------------------------------------------
  // Export

  /** A header or data value: null, or the text it is written as. */
  datatype Cell = Null | Text(text: string)

  const Tab: char := '\t'
  const NewLine: char := '\n'

  /** A cell as written: null becomes "", and tabs are removed. */
  function CellField(cell: Cell): (r: string)
    ensures Tab !in r
    ensures cell.Null? ==> r == []
    ensures cell.Text? && Tab !in cell.text ==> r == cell.text
  {
    match cell
    case Null => []
    case Text(text) => ReplaceChar(text, Tab, [])
  }

  /** The text printed for each cell of a row, in column order. */
  function CellFields(cells: seq<Cell>): (fields: seq<string>)
    ensures |fields| == |cells|
    ensures forall i :: 0 <= i < |cells| ==> fields[i] == CellField(cells[i])
  {
    seq(|cells|, i requires 0 <= i < |cells| => CellField(cells[i]))
  }

  /** The fields, each followed by one tab. */
  function Joined(fields: seq<string>): string {
    if fields == [] then [] else fields[0] + [Tab] + Joined(fields[1..])
  }

  lemma {:induction false} JoinedAppend(fields: seq<string>, field: string)
    ensures Joined(fields + [field]) == Joined(fields) + field + [Tab]
  {
    var longer := fields + [field];
    if fields != [] {
      assert longer[0] == fields[0] && longer[1..] == fields[1..] + [field];
      JoinedAppend(fields[1..], field);
      var head := fields[0] + [Tab];
      assert Joined(longer) == head + (Joined(fields[1..]) + field + [Tab]);
      assert Joined(fields) == head + Joined(fields[1..]);
    } else {
      assert longer[1..] == [];
    }
  }

  /** One exported line: the text of each cell followed by a tab. */
  function Fields(cells: seq<Cell>): string {
    Joined(CellFields(cells))
  }

  /** The header line of the exported file; there is none without a header. */
  function HeaderText(header: Option<seq<Cell>>): string {
    if header.Some? then Fields(header.value) + [NewLine] else []
  }

  /** One line per data row, in row order, each ended by a newline. */
  function Body(data: seq<seq<Cell>>): string {
    if data == [] then [] else Body(data[..|data| - 1]) + Fields(data[|data| - 1]) + [NewLine]
  }

  /** Position of the first c in s, or |s| when s has none. */
  function IndexOf(s: string, c: char): (i: nat)
    ensures i <= |s|
    ensures i < |s| ==> s[i] == c
    ensures forall k :: 0 <= k < i ==> s[k] != c
  {
    if s == [] then 0 else if s[0] == c then 0 else 1 + IndexOf(s[1..], c)
  }

  /** Reads the tab-terminated fields of a line back. */
  function SplitFields(line: string): seq<string>
    decreases |line|
  {
    if line == [] then []
    else
      var i := IndexOf(line, Tab);
      if i == |line| then [line] else [line[..i]] + SplitFields(line[i + 1..])
  }

  /** Splitting a line at its first tab gives the field before it, then the rest split. */
  lemma SplitFirstField(first: string, rest: string)
    requires Tab !in first
    ensures SplitFields(first + [Tab] + rest) == [first] + SplitFields(rest)
  {
    var line := first + [Tab] + rest;
    assert line[|first|] == Tab;
    assert forall k :: 0 <= k < |first| ==> line[k] == first[k];
    assert IndexOf(line, Tab) == |first|;
    assert line[..|first|] == first;
    assert line[|first| + 1..] == rest;
  }

  /** Splitting tab-terminated fields that hold no tab at the tabs gives the fields back. */
  lemma {:induction false} SplitJoinedRoundTrip(fields: seq<string>)
    requires forall i :: 0 <= i < |fields| ==> Tab !in fields[i]
    ensures SplitFields(Joined(fields)) == fields
  {
    if fields != [] {
      SplitFirstField(fields[0], Joined(fields[1..]));
      SplitJoinedRoundTrip(fields[1..]);
      assert fields == [fields[0]] + fields[1..];
    }
  }

  /** Splitting an exported line at its tabs gives back the text of each cell as written. */
  lemma SplitFieldsRoundTrip(cells: seq<Cell>)
    ensures SplitFields(Fields(cells)) == CellFields(cells)
  {
    SplitJoinedRoundTrip(CellFields(cells));
  }



  /**
   * `Export`: writes the header line when there is a header, then one line
   * per data row, into the file named filename + ".csv".
   */
  method Export(filename: string, header: Option<seq<Cell>>, data: seq<seq<Cell>>)
    returns (file: string, contents: string)
    ensures file == filename + ".csv"
    ensures contents == HeaderText(header) + Body(data)
  {
    file := filename + ".csv";
    var headerLine: string := [];
    if header.Some? {
      var line := WriteLine(header.value);
      headerLine := line + [NewLine];
    }
    var rows := WriteRows(data);
    contents := headerLine + rows;
  }

  /** The data rows of the export, one line each, in row order. */
  method WriteRows(data: seq<seq<Cell>>) returns (rows: string)
    ensures rows == Body(data)
  {
    rows := [];
    for r := 0 to |data|
      invariant rows == Body(data[..r])
    {
      var line := WriteLine(data[r]);
      assert data[..r + 1][..r] == data[..r];
      rows := rows + line + [NewLine];
    }
    assert data[..|data|] == data;
  }

  /** The cells of one row, each printed followed by a tab. */
  method WriteLine(cells: seq<Cell>) returns (line: string)
    ensures line == Fields(cells)
  {
    ghost var fields := CellFields(cells);
    line := [];
    for column := 0 to |cells|
      invariant line == Joined(fields[..column])
    {
      var value := if cells[column].Null? then [] else cells[column].text;
      value := ReplaceChar(value, Tab, []);
      assert value == CellField(cells[column]) == fields[column];
      assert fields[..column + 1] == fields[..column] + [fields[column]];
      JoinedAppend(fields[..column], value);
      line := line + value + [Tab];
    }
    assert fields[..|cells|] == fields;
  }
}
