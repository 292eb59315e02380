/**
 * An audio file and the name of its transcoded copy. The transcoded copy
 * lives in the transcoded-audio directory under the sanitised base name of
 * the original, with the configured format as extension.
 *
 * The configuration lookups are passed in as a `Config` value; joining path
 * elements (`combine`), listing a data set's directory (`glob`) and the
 * transcoder's decision whether a copy is needed are functions given by the
 * caller, and the transcoding itself is observed as a request.
 */
module AudioFiles {
  import opened Outcomes
  import opened FileUtils

  /** The configuration values the class reads, and the path join it uses. */
  datatype Config = Config(
    transcodedAudioDir: string,
    audioDir: string,
    transcodedFormat: string,
    combine: (string, string) -> string)

  /** An audio file, known by the path it was created with. */
  datatype AudioFile = AudioFile(path: string)

  /** A call `transcode(source, target)` on the transcoder. */
  datatype Transcode = Transcode(source: string, target: string)

  /** The name of the transcoded copy: the base name, '.', and the format. */
  function TranscodedFileName(baseName: string, format: string): (name: string)
    ensures EndsWith(name, [ExtensionSeparator] + format)
    ensures ExtensionSeparator !in format ==> Extension(name) == format
  {
    var name := baseName + [ExtensionSeparator] + format;
    assert name[|name| - |[ExtensionSeparator] + format|..] == [ExtensionSeparator] + format;
    if ExtensionSeparator !in format then
      TranscodedExtension(baseName, format);
      name
    else name
  }

  lemma TranscodedExtension(baseName: string, format: string)
    requires ExtensionSeparator !in format
    ensures var name := baseName + [ExtensionSeparator] + format;
            LastIndexOf(name, ExtensionSeparator) == |baseName| && Extension(name) == format
  {
    var name := baseName + [ExtensionSeparator] + format;
    var dot := LastIndexOf(name, ExtensionSeparator);
    assert name[|baseName|] == ExtensionSeparator;
    assert name[|baseName| + 1..] == format;
  }

  /**
   * A base name and a format without '.', '/' or backslash make a transcoded
   * file name whose base name and extension are exactly those two again.
   */
  lemma TranscodedFileNameRoundTrip(baseName: string, format: string)
    requires ExtensionSeparator !in format
    requires PathSeparator !in baseName && PathSeparator !in format
    requires BackSlash !in baseName && BackSlash !in format
    ensures Basename(TranscodedFileName(baseName, format)) == Ok(baseName)
    ensures Extension(TranscodedFileName(baseName, format)) == format
  {
    var name := baseName + [ExtensionSeparator] + format;
    TranscodedExtension(baseName, format);
    assert name[|baseName|] == ExtensionSeparator;
    assert PathSeparator !in name;
    assert BackSlash !in name;
    assert LastSeparator(name) == -1;
    assert name[0..|baseName|] == baseName;
  }

  /**
   * `transcodedPath`: the transcoded-audio directory joined with the
   * transcoded file name of the sanitised path's base name. Sanitising
   * keeps the name well-formed, so it fails exactly where `basename` of the
   * path fails.
   */
  function TranscodedPath(config: Config, path: string): (r: Result<string, StringError>)
    ensures r.Ok? <==> Basename(path).Ok?
    ensures r.Ok? ==>
              exists baseName :: Basename(SanitizedFileName(path).value) == Ok(baseName)
                && r.value == config.combine(config.transcodedAudioDir,
                                             TranscodedFileName(baseName, config.transcodedFormat))
  {
    SanitizedFileNameKeepsBasename(path);
    var sanitized :- SanitizedFileName(path);
    var baseName := Basename(sanitized).value;
    Ok(config.combine(config.transcodedAudioDir, TranscodedFileName(baseName, config.transcodedFormat)))
  }

  /** A path whose base name is already clean keeps that base name in its transcoded path. */
  lemma CleanPathKeepsBaseName(config: Config, path: string)
    requires Basename(path).Ok? ==> IsCleanBaseName(Basename(path).value)
    ensures Basename(path).Ok? ==>
              TranscodedPath(config, path)
              == Ok(config.combine(config.transcodedAudioDir,
                                   TranscodedFileName(Basename(path).value, config.transcodedFormat)))
  {
    if Basename(path).Ok? {
      assert SanitizedFileName(path) == Ok(path);
    }
  }

  /**
   * `toString`: the base name of the path, the text between the last
   * separator and the last '.'; it fails when that '.' comes first.
   */
  function ToString(file: AudioFile): (r: Result<string, StringError>)
    ensures ExtensionSeparator !in file.path ==> r == Ok(file.path)
    ensures ExtensionSeparator in file.path ==>
              (r.Ok? <==> LastSeparator(file.path) < LastIndexOf(file.path, ExtensionSeparator))
    ensures ExtensionSeparator in file.path && r.Ok? ==>
              r.value == file.path[LastSeparator(file.path) + 1..LastIndexOf(file.path, ExtensionSeparator)]
    ensures r.Ok? && ExtensionSeparator in file.path ==>
              EndsWith(file.path, r.value + [ExtensionSeparator] + Extension(file.path))
              && PathSeparator !in r.value
  {
    Basename(file.path)
  }

  /** `basename`: the name without directory and extension, the same text `toString` gives. */
  function BaseName(file: AudioFile): (r: Result<string, StringError>)
    ensures r == Basename(file.path)
  {
    ToString(file)
  }

  /**
   * The constructor: the file keeps the given path, and the transcoder is
   * asked to transcode it to the transcoded path exactly when it says a
   * transcoding is required there. It fails where `transcodedPath` fails.
   */
  function Create(config: Config, filePath: string, transcodingRequired: string -> bool)
    : (r: Result<(AudioFile, Option<Transcode>), StringError>)
    ensures r.Ok? <==> TranscodedPath(config, filePath).Ok?
    ensures r.Err? ==> r.error == TranscodedPath(config, filePath).error
    ensures r.Ok? ==>
              var target := TranscodedPath(config, filePath).value;
              && r.value.0.path == filePath
              && (r.value.1.Some? <==> transcodingRequired(target))
              && (r.value.1.Some? ==> r.value.1.value == Transcode(filePath, target))
  {
    var target :- TranscodedPath(config, filePath);
    var request := if transcodingRequired(target) then Some(Transcode(filePath, target)) else None;
    Ok((AudioFile(filePath), request))
  }

  /** The data set directories listed in order, the matches of each in their listed order. */
  function Matches(config: Config, datasets: seq<string>, glob: string -> seq<string>): seq<string> {
    if datasets == [] then []
    else
      Matches(config, datasets[..|datasets| - 1], glob)
      + glob(config.combine(config.audioDir, datasets[|datasets| - 1]))
  }

  /** The matches of two lists of data sets are the matches of the first, then those of the second. */
  lemma {:induction false} MatchesGroupByDataset(config: Config, first: seq<string>, second: seq<string>,
                                                 glob: string -> seq<string>)
    ensures Matches(config, first + second, glob) == Matches(config, first, glob) + Matches(config, second, glob)
    decreases |second|
  {
    if second == [] {
      assert first + second == first;
    } else {
      var front := second[..|second| - 1];
      MatchesGroupByDataset(config, first, front, glob);
      assert (first + second)[..|first + second| - 1] == first + front;
    }
  }

  /** What the constructor yields: the file, and the transcoding it requested if any. */
  datatype Made = Made(file: AudioFile, request: Option<Transcode>)

  /** The transcodings a constructor requested: none or one. */
  function Requested(request: Option<Transcode>): seq<Transcode> {
    if request.Some? then [request.value] else []
  }

  /** The constructor as a function of the path, for a fixed configuration and transcoder. */
  type Constructor = string -> Result<Made, StringError>

  function ConstructorOf(config: Config, transcodingRequired: string -> bool): Constructor {
    path => match Create(config, path, transcodingRequired)
            case Err(e) => Err(e)
            case Ok((file, request)) => Ok(Made(file, request))
  }

  /** The outcome of creating several files, and the transcodings requested on the way. */
  datatype Creation = Creation(outcome: Result<seq<AudioFile>, StringError>, requests: seq<Transcode>)

  /**
   * Creating the files of `paths` in order: every file is created and every
   * required transcoding requested, until a path whose constructor fails
   * stops the creation with that error. The transcodings requested before
   * the failure stay requested.
   */
  function CreateAll(make: Constructor, paths: seq<string>): Creation
    decreases |paths|
  {
    if paths == [] then Creation(Ok([]), [])
    else
      var first := make(paths[0]);
      if first.Err? then Creation(Err(first.error), [])
      else
        var rest := CreateAll(make, paths[1..]);
        var outcome := if rest.outcome.Ok? then Ok([first.value.file] + rest.outcome.value) else rest.outcome;
        Creation(outcome, Requested(first.value.request) + rest.requests)
  }

  /** For a constructor that keeps its path, successful creation gives one file per path, with that path, in order. */
  lemma {:induction false} CreateAllKeepsPathsOf(make: Constructor, paths: seq<string>)
    requires forall p :: make(p).Ok? ==> make(p).value.file.path == p
    ensures var r := CreateAll(make, paths).outcome;
            && (r.Ok? <==> forall i :: 0 <= i < |paths| ==> make(paths[i]).Ok?)
            && (r.Ok? ==> |r.value| == |paths| && forall i :: 0 <= i < |paths| ==> r.value[i].path == paths[i])
    decreases |paths|
  {
    if paths != [] {
      CreateAllKeepsPathsOf(make, paths[1..]);
      var r := CreateAll(make, paths).outcome;
      if r.Ok? {
        var files := r.value;
        forall i | 0 <= i < |paths|
          ensures make(paths[i]).Ok? && files[i].path == paths[i]
        {
          if i > 0 {
            assert paths[i] == paths[1..][i - 1];
          }
        }
      } else if make(paths[0]).Ok? {
        var i :| 0 <= i < |paths[1..]| && !make(paths[1..][i]).Ok?;
        assert paths[i + 1] == paths[1..][i];
      }
    }
  }

  /**
   * Creating audio files succeeds exactly when every path has a transcoded
   * path, and then gives one file per path, with that path, in order.
   */
  lemma CreateAllKeepsPaths(config: Config, paths: seq<string>, transcodingRequired: string -> bool)
    ensures var r := CreateAll(ConstructorOf(config, transcodingRequired), paths).outcome;
            && (r.Ok? <==> forall i :: 0 <= i < |paths| ==> TranscodedPath(config, paths[i]).Ok?)
            && (r.Ok? ==> |r.value| == |paths| && forall i :: 0 <= i < |paths| ==> r.value[i].path == paths[i])
  {
    var make := ConstructorOf(config, transcodingRequired);
    assert forall p :: make(p).Ok? <==> TranscodedPath(config, p).Ok?;
    CreateAllKeepsPathsOf(make, paths);
  }

  /**
   * `audioFiles`: one file per match of every data set directory, grouped by
   * data set in argument order, with the transcodings their constructors
   * request.
   */
  method FilesInDatasets(config: Config, datasets: seq<string>, glob: string -> seq<string>,
                         transcodingRequired: string -> bool)
    returns (r: Result<seq<AudioFile>, StringError>, requests: seq<Transcode>)
    ensures Creation(r, requests) == CreateAll(ConstructorOf(config, transcodingRequired), Matches(config, datasets, glob))
  {
    var make := ConstructorOf(config, transcodingRequired);
    var files: seq<AudioFile> := [];
    requests := [];
    ghost var done: seq<string> := [];
    for d := 0 to |datasets|
      invariant done == Matches(config, datasets[..d], glob)
      invariant CreateAll(make, done) == Creation(Ok(files), requests)
    {
      var matches := glob(config.combine(config.audioDir, datasets[d]));
      assert datasets[..d + 1][..d] == datasets[..d];
      var failure;
      files, requests, failure := CreateEach(make, done, matches, files, requests);
      if failure.Some? {
        r := Err(failure.value);
        CreateAllAfterFailure(make, done, config, datasets, d, matches, glob);
        return;
      }
      done := done + matches;
    }
    assert datasets[..|datasets|] == datasets;
    r := Ok(files);
  }

  /**
   * The inner loop of `audioFiles`: creates the files of one data set's
   * matches after those of `done`, stopping at the first constructor that
   * fails.
   */
  method CreateEach(make: Constructor, ghost done: seq<string>, matches: seq<string>,
                    files: seq<AudioFile>, requests: seq<Transcode>)
    returns (files': seq<AudioFile>, requests': seq<Transcode>, failure: Option<StringError>)
    requires CreateAll(make, done) == Creation(Ok(files), requests)
    ensures failure.None? ==> CreateAll(make, done + matches) == Creation(Ok(files'), requests')
    ensures failure.Some? ==> CreateAll(make, done + matches) == Creation(Err(failure.value), requests')
  {
    files', requests' := files, requests;
    assert done + matches[..0] == done;
    for m := 0 to |matches|
      invariant CreateAll(make, done + matches[..m]) == Creation(Ok(files'), requests')
    {
      var created := make(matches[m]);
      CreateAllAppend(make, done + matches[..m], matches[m]);
      assert done + matches[..m + 1] == done + matches[..m] + [matches[m]];
      if created.Err? {
        failure := Some(created.error);
        ghost var failed := done + matches[..m + 1];
        assert done + matches == failed + matches[m + 1..];
        CreateAllFailureIsFinal(make, failed, matches[m + 1..]);
        return;
      }
      files' := files' + [created.value.file];
      requests' := requests' + Requested(created.value.request);
    }
    assert matches[..|matches|] == matches;
    failure := None;
  }

  /** A successful creation followed by the constructor's outcome on one more path. */
  function Extend(before: Creation, next: Result<Made, StringError>): Creation
    requires before.outcome.Ok?
  {
    if next.Err? then Creation(Err(next.error), before.requests)
    else Creation(Ok(before.outcome.value + [next.value.file]), before.requests + Requested(next.value.request))
  }

  /** Creating one more path after a successful creation. */
  lemma {:induction false} CreateAllAppend(make: Constructor, paths: seq<string>, path: string)
    requires CreateAll(make, paths).outcome.Ok?
    ensures CreateAll(make, paths + [path]) == Extend(CreateAll(make, paths), make(path))
    decreases |paths|
  {
    var whole := paths + [path];
    if paths == [] {
      assert whole == [path] && whole[1..] == [];
      assert CreateAll(make, whole[1..]) == Creation(Ok([]), []);
      if make(path).Ok? {
        var made := make(path).value;
        assert CreateAll(make, whole) == Creation(Ok([made.file] + []), Requested(made.request) + []);
        assert [made.file] + [] == [] + [made.file];
        assert Requested(made.request) + [] == [] + Requested(made.request);
      }
    } else {
      assert whole[0] == paths[0];
      assert whole[1..] == paths[1..] + [path];
      CreateAllAppend(make, paths[1..], path);
      var first := make(paths[0]).value;
      var rest := CreateAll(make, paths[1..]);
      var rest' := CreateAll(make, paths[1..] + [path]);
      assert CreateAll(make, paths).requests == Requested(first.request) + rest.requests;
      assert CreateAll(make, whole).requests == Requested(first.request) + rest'.requests;
      if make(path).Ok? {
        var made := make(path).value;
        assert CreateAll(make, paths).outcome.value == [first.file] + rest.outcome.value;
        assert rest'.outcome.value == rest.outcome.value + [made.file];
        assert CreateAll(make, whole).outcome.value == [first.file] + rest'.outcome.value;
        assert rest'.requests == rest.requests + Requested(made.request);
        assert Requested(first.request) + rest'.requests
               == Requested(first.request) + rest.requests + Requested(made.request);
        assert [first.file] + rest'.outcome.value == [first.file] + rest.outcome.value + [made.file];
      }
    }
  }

  /** A failed creation ends the whole creation: what follows the failing path is never looked at. */
  lemma {:induction false} CreateAllFailureIsFinal(make: Constructor, failed: seq<string>, rest: seq<string>)
    requires CreateAll(make, failed).outcome.Err?
    ensures CreateAll(make, failed + rest) == CreateAll(make, failed)
    decreases |failed|
  {
    assert failed != [];
    assert (failed + rest)[0] == failed[0];
    assert (failed + rest)[1..] == failed[1..] + rest;
    if make(failed[0]).Ok? {
      CreateAllFailureIsFinal(make, failed[1..], rest);
    }
  }

  /** The matches of the data sets before the d-th, of the d-th, and of those after it. */
  lemma MatchesAround(config: Config, datasets: seq<string>, d: nat, glob: string -> seq<string>)
    requires d < |datasets|
    ensures Matches(config, datasets, glob)
            == Matches(config, datasets[..d], glob)
               + glob(config.combine(config.audioDir, datasets[d]))
               + Matches(config, datasets[d + 1..], glob)
  {
    var upTo := datasets[..d + 1];
    assert datasets == upTo + datasets[d + 1..];
    MatchesGroupByDataset(config, upTo, datasets[d + 1..], glob);
    assert upTo[..d] == datasets[..d];
  }

  /** Helper for the early return of `FilesInDatasets`. */
  lemma CreateAllAfterFailure(make: Constructor, done: seq<string>, config: Config,
                              datasets: seq<string>, d: nat, matches: seq<string>,
                              glob: string -> seq<string>)
    requires d < |datasets|
    requires matches == glob(config.combine(config.audioDir, datasets[d]))
    requires done == Matches(config, datasets[..d], glob)
    requires CreateAll(make, done + matches).outcome.Err?
    ensures CreateAll(make, Matches(config, datasets, glob)) == CreateAll(make, done + matches)
  {
    MatchesAround(config, datasets, d, glob);
    CreateAllFailureIsFinal(make, done + matches, Matches(config, datasets[d + 1..], glob));
  }
}
