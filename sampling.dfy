/** `df.sample(n=...)` without replacement, by its observable result: the
    sample is a list of distinct row positions. Which positions are drawn
    is left to a nondeterministic choice instead of a random generator. */
module Sampling {
  import opened Wrappers

  /** Every position lies inside a table of `size` rows and none repeats. */
  predicate DistinctIndices(picks: seq<nat>, size: nat) {
    && (forall i :: 0 <= i < |picks| ==> picks[i] < size)
    && (forall i, j :: 0 <= i < j < |picks| ==> picks[i] != picks[j])
  }

  /** The rows at the given positions, in the order drawn. */
  function Pick<T>(table: seq<T>, picks: seq<nat>): (r: seq<T>)
    requires forall i :: 0 <= i < |picks| ==> picks[i] < |table|
    ensures |r| == |picks|
    ensures forall i :: 0 <= i < |picks| ==> r[i] == table[picks[i]]
  {
    seq(|picks|, i requires 0 <= i < |picks| => table[picks[i]])
  }

  /** The positions of a table of `n` rows. */
  function Positions(n: nat): (r: set<nat>)
    ensures forall k: nat :: k in r <==> k < n
  {
    if n == 0 then {} else Positions(n - 1) + {n - 1}
  }

  lemma {:induction false} PositionsCardinality(n: nat)
    ensures |Positions(n)| == n
  {
    if n > 0 {
      PositionsCardinality(n - 1);
    }
  }

  lemma {:induction false} SubsetCardinality(a: set<nat>, b: set<nat>)
    requires a <= b
    ensures |a| <= |b|
    decreases a
  {
    if a != {} {
      var x :| x in a;
      SubsetCardinality(a - {x}, b - {x});
    }
  }

  lemma {:induction false} DistinctCardinality(picks: seq<nat>, size: nat)
    requires DistinctIndices(picks, size)
    ensures |set i | 0 <= i < |picks| :: picks[i]| == |picks|
  {
    if picks != [] {
      var init := picks[..|picks| - 1];
      assert DistinctIndices(init, size);
      DistinctCardinality(init, size);
      var last := picks[|picks| - 1];
      assert (set i | 0 <= i < |picks| :: picks[i])
          == (set i | 0 <= i < |init| :: init[i]) + {last};
      assert last !in (set i | 0 <= i < |init| :: init[i]);
    }
  }

  /** While fewer than `size` distinct positions are drawn, an undrawn one
      is left. */
  lemma FreeIndexExists(picks: seq<nat>, size: nat)
    requires DistinctIndices(picks, size)
    requires |picks| < size
    ensures exists k: nat :: k < size && k !in picks
  {
    var drawn := set i | 0 <= i < |picks| :: picks[i];
    DistinctCardinality(picks, size);
    PositionsCardinality(size);
    if Positions(size) <= drawn {
      SubsetCardinality(Positions(size), drawn);
      assert false;
    }
    var k :| k in Positions(size) && k !in drawn;
    assert k !in picks;
  }

  /** Draws `n` distinct positions of a table of `size` rows; drawing more
      rows than the table holds fails, as sampling without replacement
      does. */
  method SampleIndices(size: nat, n: nat) returns (r: Option<seq<nat>>)
    ensures r.None? <==> n > size
    ensures r.Some? ==> |r.value| == n && DistinctIndices(r.value, size)
  {
    if n > size {
      return None;
    }
    var picks: seq<nat> := [];
    while |picks| < n
      invariant |picks| <= n
      invariant DistinctIndices(picks, size)
    {
      FreeIndexExists(picks, size);
      var k: nat :| k < size && k !in picks;
      picks := picks + [k];
    }
    return Some(picks);
  }

  lemma PickAppend<T>(table: seq<T>, a: seq<nat>, b: seq<nat>)
    requires forall i :: 0 <= i < |a| ==> a[i] < |table|
    requires forall i :: 0 <= i < |b| ==> b[i] < |table|
    ensures Pick(table, a + b) == Pick(table, a) + Pick(table, b)
  {
  }

  /** Removing one drawn position keeps the others distinct; when it was
      the last row's position, the others all lie in the shorter table. */
  lemma RemoveAtDistinct(picks: seq<nat>, j: nat, size: nat)
    requires DistinctIndices(picks, size + 1)
    requires j < |picks| && picks[j] == size
    ensures DistinctIndices(picks[..j] + picks[j + 1..], size)
  {
    var rest := picks[..j] + picks[j + 1..];
    forall i | 0 <= i < |rest| ensures rest[i] < size {
      if i < j { assert rest[i] == picks[i]; } else { assert rest[i] == picks[i + 1]; }
    }
    forall i, i' | 0 <= i < i' < |rest| ensures rest[i] != rest[i'] {
      var a := if i < j then i else i + 1;
      var b := if i' < j then i' else i' + 1;
      assert rest[i] == picks[a] && rest[i'] == picks[b] && a < b;
    }
  }

  lemma PickRemoveAt<T>(table: seq<T>, picks: seq<nat>, j: nat)
    requires forall i :: 0 <= i < |picks| ==> picks[i] < |table|
    requires j < |picks|
    ensures multiset(Pick(table, picks))
         == multiset(Pick(table, picks[..j] + picks[j + 1..])) + multiset{table[picks[j]]}
  {
    var a, b := picks[..j], picks[j + 1..];
    assert picks == a + [picks[j]] + b;
    PickAppend(table, a, [picks[j]]);
    PickAppend(table, a + [picks[j]], b);
    PickAppend(table, a, b);
  }

  lemma PickPrefix<T>(table: seq<T>, picks: seq<nat>, n: nat)
    requires n <= |table|
    requires forall i :: 0 <= i < |picks| ==> picks[i] < n
    ensures Pick(table, picks) == Pick(table[..n], picks)
  {
  }

  /** A sample without replacement never holds a row more often than the
      table does. */
  lemma {:induction false} PickIsSubMultiset<T>(table: seq<T>, picks: seq<nat>)
    requires DistinctIndices(picks, |table|)
    ensures multiset(Pick(table, picks)) <= multiset(table)
  {
    if picks != [] {
      assert picks[0] < |table|;
      var n := |table| - 1;
      var init := table[..n];
      assert table == init + [table[n]];
      if n in picks {
        var j :| 0 <= j < |picks| && picks[j] == n;
        var rest := picks[..j] + picks[j + 1..];
        RemoveAtDistinct(picks, j, n);
        PickIsSubMultiset(init, rest);
        PickRemoveAt(table, picks, j);
        PickPrefix(table, rest, n);
      } else {
        assert DistinctIndices(picks, |init|);
        PickIsSubMultiset(init, picks);
        PickPrefix(table, picks, n);
      }
    }
  }
}
