/**
 * The ambitus histogram keeps, next to its own counts, one tone scale
 * histogram per octave of the configured ambitus, orders the octaves by
 * energy (the number of values collected in them) and folds the ambitus to
 * one octave, either all of it or only its most energy-rich octaves.
 *
 * A tone scale histogram is seen abstractly, as the multiset of the values
 * added to it: its `sumFreq` is the number of those values and adding one
 * histogram to another is multiset union. The counts of the inherited
 * histogram are not part of this model.
 */
module Ambitus {
  import opened Outcomes
  import opened Casts

  /** Cents in one octave. */
  const OctaveCents: int := 1200

  /** A tone scale histogram: the values added to it. */
  type ToneScale = multiset<real>

  /** `getSumFreq`: the number of values collected. */
  function SumFreq(h: ToneScale): nat {
    |h|
  }

  /** An `IndexOutOfBoundsException` of `List.get(index)` on a list of `size` elements. */
  datatype IndexError = IndexOutOfBounds(index: int, size: int)

  // ---------------------------------------------------------------------
  // Octaves of the ambitus

  /** How many of start, start + 1200, start + 2400, ... lie below stop. */
  function OctaveCount(start: int, stop: int): nat
    decreases stop - start
  {
    if start >= stop then 0 else 1 + OctaveCount(start + OctaveCents, stop)
  }

  /** There is one octave for each k with start + 1200 k below stop, and no other. */
  lemma {:induction false} OctaveCountCovers(start: int, stop: int, k: nat)
    ensures k < OctaveCount(start, stop) <==> start + OctaveCents * k < stop
    decreases stop - start
  {
    if start < stop && k > 0 {
      OctaveCountCovers(start + OctaveCents, stop, k - 1);
    }
  }

  /**
   * The octave `add` puts a value in: the value divided by 1200, truncated
   * toward zero. A value of at least 0 lands in the octave that holds it
   * counted from 0 cents, whatever the start of the ambitus; a value between
   * -1200 and 0 lands in octave 0 as well.
   */
  function OctaveIndex(value: real): (index: int)
    ensures 0.0 <= value ==> 0 <= index && (OctaveCents * index) as real <= value < (OctaveCents * (index + 1)) as real
    ensures -(OctaveCents as real) < value < 0.0 ==> index == 0
    ensures value <= -(OctaveCents as real) ==> index < 0
  {
    Truncate(value / OctaveCents as real)
  }

  // ---------------------------------------------------------------------
  // Merging histograms

  /** The histogram of an octave index, empty for an index past the list. */
  function OctaveAt(perOctave: seq<ToneScale>, octave: nat): ToneScale {
    if octave < |perOctave| then perOctave[octave] else multiset{}
  }

  /** The histograms of the listed octaves added together, in list order. */
  function Merged(perOctave: seq<ToneScale>, octaves: seq<nat>): ToneScale {
    if octaves == [] then multiset{}
    else Merged(perOctave, octaves[..|octaves| - 1]) + OctaveAt(perOctave, octaves[|octaves| - 1])
  }

  /** Merging one more octave of a list adds that octave's histogram. */
  lemma MergedStep(perOctave: seq<ToneScale>, octaves: seq<nat>, i: nat)
    requires i < |octaves|
    ensures Merged(perOctave, octaves[..i + 1]) == Merged(perOctave, octaves[..i]) + OctaveAt(perOctave, octaves[i])
  {
    assert octaves[..i + 1][..i] == octaves[..i];
  }

  /** All histograms of the list added together. */
  function MergeAll(perOctave: seq<ToneScale>): ToneScale {
    if perOctave == [] then multiset{}
    else MergeAll(perOctave[..|perOctave| - 1]) + perOctave[|perOctave| - 1]
  }

  /** Merging two lists of octaves one after the other. */
  lemma {:induction false} MergedAppend(perOctave: seq<ToneScale>, first: seq<nat>, second: seq<nat>)
    ensures Merged(perOctave, first + second) == Merged(perOctave, first) + Merged(perOctave, second)
    decreases |second|
  {
    if second == [] {
      assert first + second == first;
    } else {
      var front := second[..|second| - 1];
      assert (first + second)[..|first + second| - 1] == first + front;
      MergedAppend(perOctave, first, front);
    }
  }

  /** Taking the j-th entry out of a list removes one occurrence of it. */
  lemma RemoveAt(b: seq<nat>, j: nat)
    requires j < |b|
    ensures multiset(b[..j] + b[j + 1..]) == multiset(b) - multiset{b[j]}
  {
    assert b == b[..j] + [b[j]] + b[j + 1..];
  }

  /** Merging a list is merging it without its j-th octave, plus that octave. */
  lemma MergedRemoveAt(perOctave: seq<ToneScale>, b: seq<nat>, j: nat)
    requires j < |b|
    ensures Merged(perOctave, b) == Merged(perOctave, b[..j] + b[j + 1..]) + OctaveAt(perOctave, b[j])
  {
    assert b == (b[..j] + [b[j]]) + b[j + 1..];
    MergedAppend(perOctave, b[..j] + [b[j]], b[j + 1..]);
    MergedAppend(perOctave, b[..j], b[j + 1..]);
    assert (b[..j] + [b[j]])[..j] == b[..j];
  }

  /** The merge does not depend on the order in which the octaves are listed. */
  lemma {:induction false} MergedOfPermutation(perOctave: seq<ToneScale>, a: seq<nat>, b: seq<nat>)
    requires multiset(a) == multiset(b)
    ensures Merged(perOctave, a) == Merged(perOctave, b)
    decreases |a|
  {
    if a != [] {
      var x := a[|a| - 1];
      var front := a[..|a| - 1];
      RemoveAt(a, |a| - 1);
      assert a[..|a| - 1] + a[|a|..] == front;
      assert x in multiset(b);
      var j :| 0 <= j < |b| && b[j] == x;
      var rest := b[..j] + b[j + 1..];
      RemoveAt(b, j);
      MergedOfPermutation(perOctave, front, rest);
      MergedRemoveAt(perOctave, b, j);
    }
  }

  /** The octave indexes 0, 1, ..., n - 1 in ascending order. */
  function Indices(n: nat): (s: seq<nat>)
    ensures |s| == n && forall i :: 0 <= i < n ==> s[i] == i
  {
    if n == 0 then [] else Indices(n - 1) + [n - 1]
  }

  /** Merging the first n octaves in ascending order merges the first n histograms. */
  lemma {:induction false} MergedIndices(perOctave: seq<ToneScale>, n: nat)
    requires n <= |perOctave|
    ensures Merged(perOctave, Indices(n)) == MergeAll(perOctave[..n])
  {
    if n > 0 {
      MergedIndices(perOctave, n - 1);
      assert Indices(n)[..n - 1] == Indices(n - 1);
      assert perOctave[..n][..n - 1] == perOctave[..n - 1];
    }
  }

  /** Adding a value to one histogram adds it once to the merge of all of them. */
  lemma {:induction false} MergeAllAfterAdd(perOctave: seq<ToneScale>, index: nat, value: real)
    requires index < |perOctave|
    ensures MergeAll(perOctave[index := perOctave[index] + multiset{value}]) == MergeAll(perOctave) + multiset{value}
    decreases |perOctave|
  {
    var updated := perOctave[index := perOctave[index] + multiset{value}];
    var n := |perOctave|;
    if index == n - 1 {
      assert updated[..n - 1] == perOctave[..n - 1];
    } else {
      assert updated[..n - 1] == perOctave[..n - 1][index := perOctave[index] + multiset{value}];
      MergeAllAfterAdd(perOctave[..n - 1], index, value);
    }
  }

  // ---------------------------------------------------------------------
  // The order of the octaves by energy

  /** The energy of an octave index, 0 for an index past the list. */
  function EnergyAt(energy: seq<int>, octave: nat): int {
    if octave < |energy| then energy[octave] else 0
  }

  /**
   * Octave x comes no later than octave y: it has more energy, or as much
   * and a lower index.
   */
  predicate Precedes(energy: seq<int>, x: nat, y: nat) {
    EnergyAt(energy, x) > EnergyAt(energy, y) || (EnergyAt(energy, x) == EnergyAt(energy, y) && x <= y)
  }

  /** The octaves are listed richest first, ties in ascending index order. */
  predicate Ordered(energy: seq<int>, octaves: seq<nat>) {
    forall p, q :: 0 <= p < q < |octaves| ==> Precedes(energy, octaves[p], octaves[q])
  }

  /** The energy of each octave: its `sumFreq`. */
  function Energies(perOctave: seq<ToneScale>): (energy: seq<int>)
    ensures |energy| == |perOctave|
    ensures forall i :: 0 <= i < |perOctave| ==> energy[i] == SumFreq(perOctave[i])
  {
    seq(|perOctave|, i requires 0 <= i < |perOctave| => SumFreq(perOctave[i]))
  }

  /** Inserts an octave into an ordered list, before the first octave it precedes. */
  function InsertByEnergy(energy: seq<int>, x: nat, s: seq<nat>): (r: seq<nat>)
    ensures multiset(r) == multiset(s) + multiset{x}
    ensures |r| == |s| + 1
  {
    if s == [] then [x]
    else if Precedes(energy, x, s[0]) then [x] + s
    else
      assert s == [s[0]] + s[1..];
      [s[0]] + InsertByEnergy(energy, x, s[1..])
  }

  /** Inserting into an ordered list keeps it ordered. */
  lemma {:induction false} InsertByEnergyKeepsOrder(energy: seq<int>, x: nat, s: seq<nat>)
    requires Ordered(energy, s)
    ensures Ordered(energy, InsertByEnergy(energy, x, s))
  {
    if s != [] && !Precedes(energy, x, s[0]) {
      var rest := InsertByEnergy(energy, x, s[1..]);
      InsertByEnergyKeepsOrder(energy, x, s[1..]);
      forall q | 0 <= q < |rest|
        ensures Precedes(energy, s[0], rest[q])
      {
        assert rest[q] in multiset(s[1..]) + multiset{x};
        if rest[q] != x {
          var k :| 0 <= k < |s[1..]| && s[1..][k] == rest[q];
          assert s[k + 1] == rest[q];
        }
      }
    }
  }

  /** The reference order: the octaves sorted by insertion, richest first, ties by index. */
  function OrderByEnergy(energy: seq<int>, s: seq<nat>): (r: seq<nat>)
    ensures multiset(r) == multiset(s) && |r| == |s|
    ensures Ordered(energy, r)
  {
    if s == [] then []
    else
      assert s == s[..|s| - 1] + [s[|s| - 1]];
      var front := OrderByEnergy(energy, s[..|s| - 1]);
      InsertByEnergyKeepsOrder(energy, s[|s| - 1], front);
      InsertByEnergy(energy, s[|s| - 1], front)
  }

  /** Two ordered lists of the same octaves are the same list. */
  lemma {:induction false} OrderedPermutationsAgree(energy: seq<int>, a: seq<nat>, b: seq<nat>)
    requires Ordered(energy, a) && Ordered(energy, b)
    requires multiset(a) == multiset(b)
    ensures a == b
    decreases |a|
  {
    assert |a| == |multiset(a)| == |multiset(b)| == |b|;
    if a != [] {
      OrderedHeadsAgree(energy, a, b);
      DropHead(a, b);
      OrderedPermutationsAgree(energy, a[1..], b[1..]);
      assert a == [a[0]] + a[1..] && b == [b[0]] + b[1..];
    }
  }

  /** Two non-empty ordered lists of the same octaves start with the same octave, the one that precedes all. */
  lemma OrderedHeadsAgree(energy: seq<int>, a: seq<nat>, b: seq<nat>)
    requires Ordered(energy, a) && Ordered(energy, b)
    requires multiset(a) == multiset(b) && a != [] && b != []
    ensures a[0] == b[0]
  {
    assert a[0] in multiset(b) && b[0] in multiset(a);
    var j :| 0 <= j < |b| && b[j] == a[0];
    var i :| 0 <= i < |a| && a[i] == b[0];
    assert Precedes(energy, b[0], a[0]) && Precedes(energy, a[0], b[0]);
  }

  /** Permutations of each other with the same first element continue with permutations of each other. */
  lemma DropHead(a: seq<nat>, b: seq<nat>)
    requires multiset(a) == multiset(b) && a != [] && b != [] && a[0] == b[0]
    ensures multiset(a[1..]) == multiset(b[1..])
  {
    assert a == [a[0]] + a[1..] && b == [b[0]] + b[1..];
    assert multiset(a[1..]) == multiset(a) - multiset{a[0]};
    assert multiset(b[1..]) == multiset(b) - multiset{b[0]};
  }

  /** Each position of the order of 0..n-1 names one of those octaves. */
  lemma OrderStaysInRange(energy: seq<int>, n: nat, k: nat)
    requires |energy| == n && k < n
    ensures OrderByEnergy(energy, Indices(n))[k] < n
  {
    EnergyOrderIsStable(energy, n);
  }

  /**
   * The order of all n octaves lists each octave exactly once, richest
   * first, and octaves of equal energy in ascending index order.
   */
  lemma EnergyOrderIsStable(energy: seq<int>, n: nat)
    requires |energy| == n
    ensures var order := OrderByEnergy(energy, Indices(n));
            && |order| == n
            && (forall x :: 0 <= x < n ==> x in order)
            && (forall k :: 0 <= k < n ==> order[k] < n)
            && (forall p, q :: 0 <= p < q < n ==>
                  energy[order[p]] >= energy[order[q]]
                  && (energy[order[p]] == energy[order[q]] ==> order[p] < order[q]))
  {
    var order := OrderByEnergy(energy, Indices(n));
    PermutationOfIndices(order, n);
    forall p, q | 0 <= p < q < n
      ensures energy[order[p]] >= energy[order[q]]
      ensures energy[order[p]] == energy[order[q]] ==> order[p] < order[q]
    {
      assert Precedes(energy, order[p], order[q]);
      assert order[p] != order[q];
    }
  }

  /** A permutation of 0..n-1 lists each of those indices exactly once. */
  lemma PermutationOfIndices(order: seq<nat>, n: nat)
    requires multiset(order) == multiset(Indices(n))
    ensures |order| == n
    ensures forall x :: 0 <= x < n ==> x in order
    ensures forall k :: 0 <= k < n ==> order[k] < n
    ensures forall p, q :: 0 <= p < q < n ==> order[p] != order[q]
  {
    assert |order| == |multiset(order)| == |multiset(Indices(n))| == n;
    forall x | 0 <= x < n
      ensures x in order
    {
      assert Indices(n)[x] == x;
      assert x in multiset(Indices(n));
    }
    forall k | 0 <= k < n
      ensures order[k] < n
    {
      assert order[k] in multiset(Indices(n));
    }
    forall p, q | 0 <= p < q < n
      ensures order[p] != order[q]
    {
      IndicesAreDistinct(n, order, p, q);
    }
  }

  /** A permutation of 0..n-1 holds no index twice. */
  lemma IndicesAreDistinct(n: nat, order: seq<nat>, p: nat, q: nat)
    requires multiset(order) == multiset(Indices(n))
    requires p < q < |order|
    ensures order[p] != order[q]
  {
    if order[p] == order[q] {
      var x := order[p];
      assert order == order[..p] + [x] + order[p + 1..];
      assert order[p + 1..][q - p - 1] == x;
      assert multiset(order)[x] >= 2;
      IndicesOnce(n, x);
      assert false;
    }
  }

  /** Every index occurs at most once among 0..n-1. */
  lemma {:induction false} IndicesOnce(n: nat, x: nat)
    ensures multiset(Indices(n))[x] <= 1
  {
    if n > 0 {
      IndicesOnce(n - 1, x);
      assert Indices(n) == Indices(n - 1) + [n - 1];
    }
  }

  /** The indexes among 0..i-1 are below i. */
  lemma IndicesBelow(i: nat, x: nat)
    requires x in multiset(Indices(i))
    ensures x < i
  {
    var k :| 0 <= k < i && Indices(i)[k] == x;
  }

  /** Two permutations of each other that end alike begin with permutations of each other. */
  lemma SamePrefixes(s: seq<nat>, t: seq<nat>, k: nat)
    requires multiset(s) == multiset(t)
    requires k <= |s| && k <= |t| && s[k..] == t[k..]
    ensures multiset(s[..k]) == multiset(t[..k])
  {
    assert s == s[..k] + s[k..] && t == t[..k] + t[k..];
    assert multiset(s[..k]) == multiset(s) - multiset(s[k..]);
    assert multiset(t[..k]) == multiset(t) - multiset(t[k..]);
  }

  /**
   * Half-way through inserting octave x, which came from position i: x now
   * sits at position j, every other octave up to i has a lower index, and
   * those octaves are ordered apart from the ones before x.
   */
  predicate Inserting(energy: seq<int>, s: seq<nat>, i: nat, j: nat, x: nat) {
    && j <= i < |s|
    && s[j] == x
    && (forall p :: 0 <= p <= i && p != j ==> s[p] < x)
    && (forall p, q :: 0 <= p < q <= i && q != j ==> Precedes(energy, s[p], s[q]))
  }

  /** Swapping x with the poorer octave before it moves it one place down and keeps the rest in place. */
  lemma SwapStep(energy: seq<int>, s: seq<nat>, i: nat, j: nat, x: nat)
    requires Inserting(energy, s, i, j, x)
    requires 0 < j && EnergyAt(energy, s[j - 1]) < EnergyAt(energy, s[j])
    ensures var t := s[j - 1 := s[j]][j := s[j - 1]];
            && Inserting(energy, t, i, j - 1, x)
            && multiset(t) == multiset(s)
  {
    var t := s[j - 1 := s[j]][j := s[j - 1]];
    forall p, q | 0 <= p < q <= i && q != j - 1
      ensures Precedes(energy, t[p], t[q])
    {
      if q == j {
        if p < j - 1 {
          assert t[p] == s[p] && t[q] == s[j - 1];
        }
      } else if p == j {
        assert t[p] == s[j - 1] && t[q] == s[q];
      } else if p == j - 1 {
        assert t[p] == s[j] && t[q] == s[q];
      } else {
        assert t[p] == s[p] && t[q] == s[q];
      }
    }
  }

  /**
   * Moves the octave at position i, which is above every octave before it,
   * down past the octaves of lower energy: the insertion step of a stable
   * sort whose comparator looks at the energy only.
   */
  method InsertAt(a: array<nat>, energy: seq<int>, i: nat)
    requires i < a.Length
    requires Ordered(energy, a[..i])
    requires forall p :: 0 <= p < i ==> a[p] < a[i]
    modifies a
    ensures Ordered(energy, a[..i + 1])
    ensures multiset(a[..]) == multiset(old(a[..]))
    ensures forall k :: i < k < a.Length ==> a[k] == old(a[k])
  {
    var x := a[i];
    var j := i;
    InsertingStarts(energy, a[..], i);
    while j > 0 && EnergyAt(energy, a[j - 1]) < EnergyAt(energy, a[j])
      invariant Inserting(energy, a[..], i, j, x)
      invariant multiset(a[..]) == multiset(old(a[..]))
      invariant forall k :: i < k < a.Length ==> a[k] == old(a[k])
    {
      ghost var s := a[..];
      SwapStep(energy, s, i, j, x);
      a[j - 1], a[j] := a[j], a[j - 1];
      assert a[..] == s[j - 1 := s[j]][j := s[j - 1]];
      j := j - 1;
    }
    InsertingDone(energy, a[..], i, j, x);
  }

  /** Before any swap, the octave at position i is being inserted at i. */
  lemma InsertingStarts(energy: seq<int>, s: seq<nat>, i: nat)
    requires i < |s|
    requires Ordered(energy, s[..i])
    requires forall p :: 0 <= p < i ==> s[p] < s[i]
    ensures Inserting(energy, s, i, i, s[i])
  {
    forall p, q | 0 <= p < q < i
      ensures Precedes(energy, s[p], s[q])
    {
      assert s[p] == s[..i][p] && s[q] == s[..i][q];
    }
  }

  /** Once the octave before x has at least x's energy, positions 0..i are ordered. */
  lemma InsertingDone(energy: seq<int>, s: seq<nat>, i: nat, j: nat, x: nat)
    requires Inserting(energy, s, i, j, x)
    requires j == 0 || EnergyAt(energy, s[j - 1]) >= EnergyAt(energy, s[j])
    ensures Ordered(energy, s[..i + 1])
  {
    var prefix := s[..i + 1];
    forall p, q | 0 <= p < q < |prefix|
      ensures Precedes(energy, prefix[p], prefix[q])
    {
      assert prefix[p] == s[p] && prefix[q] == s[q];
      if q == j && p < j - 1 {
        assert Precedes(energy, s[p], s[j - 1]);
      }
    }
  }

  /**
   * `Collections.sort` of the list 0..n-1 with a comparator on descending
   * energy, as a stable insertion sort: afterwards the list holds the same
   * octaves, richest first, ties in ascending index order.
   */
  method SortByEnergy(a: array<nat>, energy: seq<int>)
    requires forall k :: 0 <= k < a.Length ==> a[k] == k
    modifies a
    ensures Ordered(energy, a[..])
    ensures multiset(a[..]) == multiset(Indices(a.Length))
  {
    var n := a.Length;
    for i := 0 to n
      invariant Ordered(energy, a[..i])
      invariant multiset(a[..i]) == multiset(Indices(i))
      invariant forall k :: i <= k < n ==> a[k] == k
    {
      ghost var before := a[..];
      NextIsAboveSorted(before, i);
      InsertAt(a, energy, i);
      SortedPartGrows(a[..], before, i);
    }
    assert a[..n] == a[..];
  }

  /** While sorting 0..n-1, the next octave to insert is above every octave already sorted. */
  lemma NextIsAboveSorted(s: seq<nat>, i: nat)
    requires i < |s| && s[i] == i
    requires multiset(s[..i]) == multiset(Indices(i))
    ensures forall p :: 0 <= p < i ==> s[p] < s[i]
  {
    forall p | 0 <= p < i
      ensures s[p] < i
    {
      assert s[p] in multiset(s[..i]);
      IndicesBelow(i, s[p]);
    }
  }

  /** After inserting position i, the sorted part holds 0..i. */
  lemma SortedPartGrows(s: seq<nat>, before: seq<nat>, i: nat)
    requires i < |s| == |before| && before[i] == i
    requires multiset(before[..i]) == multiset(Indices(i))
    requires multiset(s) == multiset(before)
    requires forall k :: i < k < |s| ==> s[k] == before[k]
    ensures multiset(s[..i + 1]) == multiset(Indices(i + 1))
  {
    assert s[i + 1..] == before[i + 1..];
    SamePrefixes(s, before, i + 1);
    assert before[..i + 1] == before[..i] + [i];
    assert Indices(i + 1) == Indices(i) + [i];
  }

  /** A class holding the per-octave histograms of the ambitus. */
  class AmbitusHistogram {
    /** `ambitus_start`, in cents. */
    const start: int
    /** `ambitus_stop`, in cents. */
    const stop: int
    /** One tone scale histogram per octave, in octave order. */
    var perOctave: seq<ToneScale>

    /** Creates one empty histogram for each octave start, start + 1200, ... below stop. */
    constructor (start: int, stop: int)
      ensures this.start == start && this.stop == stop
      ensures |perOctave| == OctaveCount(start, stop)
      ensures forall i :: 0 <= i < |perOctave| ==> perOctave[i] == multiset{}
    {
      this.start := start;
      this.stop := stop;
      var octaves: seq<ToneScale> := [];
      var value := start;
      while value < stop
        invariant value == start + OctaveCents * |octaves|
        invariant |octaves| + OctaveCount(value, stop) == OctaveCount(start, stop)
        invariant forall i :: 0 <= i < |octaves| ==> octaves[i] == multiset{}
        decreases stop - value
      {
        octaves := octaves + [multiset{}];
        value := value + OctaveCents;
      }
      perOctave := octaves;
    }

    /**
     * Adds the value to the histogram of octave `(int)(value / 1200)` and
     * to no other, and returns this histogram; an octave index outside the
     * list fails and changes nothing.
     */
    method Add(value: real) returns (r: Result<AmbitusHistogram, IndexError>)
      modifies this
      ensures var index := OctaveIndex(value);
              && (r.Ok? <==> 0 <= index < |old(perOctave)|)
              && (r.Ok? ==> r.value == this
                            && perOctave == old(perOctave)[index := old(perOctave)[index] + multiset{value}])
              && (r.Err? ==> r.error == IndexOutOfBounds(index, |old(perOctave)|) && perOctave == old(perOctave))
    {
      var octaveIndex := OctaveIndex(value);
      if octaveIndex < 0 || octaveIndex >= |perOctave| {
        return Err(IndexOutOfBounds(octaveIndex, |perOctave|));
      }
      perOctave := perOctave[octaveIndex := perOctave[octaveIndex] + multiset{value}];
      r := Ok(this);
    }

    /**
     * The octave indexes 0..n-1, sorted by a stable sort on descending
     * energy: the reference order, that is each octave once, richest first,
     * ties in ascending index order.
     */
    method OctavesOrderedByEnergy() returns (octaves: seq<nat>)
      ensures octaves == OrderByEnergy(Energies(perOctave), Indices(|perOctave|))
    {
      var n := |perOctave|;
      var energy := Energies(perOctave);
      var a := new nat[n];
      for i := 0 to n
        invariant forall k :: 0 <= k < i ==> a[k] == k
      {
        a[i] := i;
      }
      SortByEnergy(a, energy);
      octaves := a[..];
      OrderedPermutationsAgree(energy, octaves, OrderByEnergy(energy, Indices(n)));
    }

    /**
     * The merge of the `numberOfOctaves` richest octaves, taken in energy
     * order; a negative count merges none, and a count above the number of
     * octaves fails at the first missing position.
     */
    method MostEnergyRichOctaves(numberOfOctaves: int) returns (r: Result<ToneScale, IndexError>)
      ensures var order := OrderByEnergy(Energies(perOctave), Indices(|perOctave|));
              && (r.Ok? <==> numberOfOctaves <= |perOctave|)
              && (r.Ok? ==> r.value == Merged(perOctave, order[..if numberOfOctaves < 0 then 0 else numberOfOctaves]))
              && (r.Err? ==> r.error == IndexOutOfBounds(|perOctave|, |perOctave|))
    {
      var h: ToneScale := multiset{};
      var order := OctavesOrderedByEnergy();
      ghost var n := |perOctave|;
      var i := 0;
      while i < numberOfOctaves
        invariant 0 <= i <= n
        invariant i <= if numberOfOctaves < 0 then 0 else numberOfOctaves
        invariant h == Merged(perOctave, order[..i])
      {
        if i >= |order| {
          return Err(IndexOutOfBounds(i, |order|));
        }
        OrderStaysInRange(Energies(perOctave), n, i);
        var octaveIndex := order[i];
        MergedStep(perOctave, order, i);
        h := h + perOctave[octaveIndex];
        i := i + 1;
      }
      assert i == if numberOfOctaves < 0 then 0 else numberOfOctaves;
      r := Ok(h);
    }

    /** The whole ambitus folded to one octave: every per-octave histogram added once. */
    method ToneScaleHistogram() returns (summed: ToneScale)
      ensures summed == MergeAll(perOctave)
    {
      summed := multiset{};
      for i := 0 to |perOctave|
        invariant summed == MergeAll(perOctave[..i])
      {
        assert perOctave[..i + 1][..i] == perOctave[..i];
        summed := summed + perOctave[i];
      }
      assert perOctave[..|perOctave|] == perOctave;
    }
  }

  /**
   * Each octave merged by `mostEnergyRichOctaves(k)` has at least the energy
   * of each octave left out.
   */
  lemma RichestOctavesChosen(perOctave: seq<ToneScale>, k: nat, chosen: nat, left: nat)
    requires k <= |perOctave|
    requires var order := OrderByEnergy(Energies(perOctave), Indices(|perOctave|));
             chosen in order[..k] && left in order[k..]
    ensures SumFreq(OctaveAt(perOctave, chosen)) >= SumFreq(OctaveAt(perOctave, left))
  {
    var energy := Energies(perOctave);
    OrderedSplit(energy, OrderByEnergy(energy, Indices(|perOctave|)), k, chosen, left);
    EnergyOfOctave(perOctave, chosen);
    EnergyOfOctave(perOctave, left);
  }

  lemma EnergyOfOctave(perOctave: seq<ToneScale>, x: nat)
    ensures EnergyAt(Energies(perOctave), x) == SumFreq(OctaveAt(perOctave, x))
  {
  }

  /** In an ordered list, what comes before position k precedes what comes from k on. */
  lemma OrderedSplit(energy: seq<int>, order: seq<nat>, k: nat, chosen: nat, left: nat)
    requires Ordered(energy, order)
    requires k <= |order| && chosen in order[..k] && left in order[k..]
    ensures Precedes(energy, chosen, left)
  {
    var p :| 0 <= p < k && order[..k][p] == chosen;
    var q :| 0 <= q < |order| - k && order[k..][q] == left;
    assert order[p] == chosen;
    assert order[k + q] == left;
  }

  /** Merging all octaves in energy order gives the whole ambitus folded to one octave. */
  lemma AllOctavesMergeToToneScale(perOctave: seq<ToneScale>)
    ensures Merged(perOctave, OrderByEnergy(Energies(perOctave), Indices(|perOctave|))) == MergeAll(perOctave)
  {
    var n := |perOctave|;
    MergedOfPermutation(perOctave, OrderByEnergy(Energies(perOctave), Indices(n)), Indices(n));
    MergedIndices(perOctave, n);
    assert perOctave[..n] == perOctave;
  }
}
