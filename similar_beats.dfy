/**
 * The sliding-window search for repeated runs in one beat's adjacency map
 * (find_similar_beats, main.py:22-34).
 *
 * A beat's adjacency map is the dictionary {neighbour: {'weight': w}} that the
 * similarity graph keeps for it, in insertion order. The routine forms every
 * contiguous window of k (neighbour, weight) pairs, counts equal windows, and
 * returns each window that occurs more than once, in order of first occurrence.
 */
module SimilarBeats {

  /** One entry of an adjacency map: a neighbouring beat and the edge weight to it. */
  datatype Edge = Edge(index: nat, weight: real)

  /** A run of consecutive adjacency entries: the tuple built at main.py:30. */
  type Window = seq<Edge>

  /** The keys of an adjacency map are distinct, as the keys of every dictionary are. */
  predicate DistinctKeys(adj: seq<Edge>) {
    forall i, j | 0 <= i < j < |adj| :: adj[i].index != adj[j].index
  }

  predicate NoDuplicates<T(==)>(s: seq<T>) {
    forall i, j | 0 <= i < j < |s| :: s[i] != s[j]
  }

  /** How many windows `range(len(indices) - (k - 1))` yields: max(0, n - k + 1). */
  function WindowCount(n: nat, k: nat): nat {
    if k <= n + 1 then n + 1 - k else 0
  }

  /** The windows that the loop at main.py:27-31 collects, in the order it collects them. */
  function Windows(adj: seq<Edge>, k: nat): seq<Window> {
    if |adj| < k then []
    else if |adj| == k then [adj]
    else Windows(adj[..|adj| - 1], k) + [adj[|adj| - k..]]
  }

  /** There is one window per start position i with i + k <= |adj|, and the
      window at i is the run of k entries starting there. */
  lemma {:induction false} WindowsAt(adj: seq<Edge>, k: nat)
    ensures |Windows(adj, k)| == WindowCount(|adj|, k)
    ensures forall i | 0 <= i < |Windows(adj, k)| :: i + k <= |adj| && Windows(adj, k)[i] == adj[i..i + k]
  {
    if |adj| > k {
      var front := adj[..|adj| - 1];
      WindowsAt(front, k);
      var ws := Windows(front, k);
      forall i | 0 <= i < |ws| ensures ws[i] == adj[i..i + k] {
        assert ws[i] == front[i..i + k] && i + k <= |front|;
        assert front[i..i + k] == adj[i..i + k];
      }
    }
  }

  /** The distinct elements of s in order of first occurrence: the key order of Counter(s). */
  function Distinct(s: seq<Window>): seq<Window> {
    if s == [] then []
    else
      var d := Distinct(s[..|s| - 1]);
      if s[|s| - 1] in d then d else d + [s[|s| - 1]]
  }

  lemma {:induction false} DistinctMembers(s: seq<Window>)
    ensures forall x :: x in Distinct(s) <==> x in s
    ensures NoDuplicates(Distinct(s))
  {
    if s != [] {
      var front := s[..|s| - 1];
      assert s == front + [s[|s| - 1]];
      DistinctMembers(front);
    }
  }

  /** The elements of keys that occur more than once in s, in the order of keys. */
  function KeepRepeated(keys: seq<Window>, s: seq<Window>): seq<Window> {
    if keys == [] then []
    else
      var r := KeepRepeated(keys[..|keys| - 1], s);
      if multiset(s)[keys[|keys| - 1]] > 1 then r + [keys[|keys| - 1]] else r
  }

  lemma {:induction false} KeepRepeatedMembers(keys: seq<Window>, s: seq<Window>)
    ensures forall x :: x in KeepRepeated(keys, s) <==> x in keys && multiset(s)[x] > 1
    ensures NoDuplicates(keys) ==> NoDuplicates(KeepRepeated(keys, s))
  {
    if keys != [] {
      var front := keys[..|keys| - 1];
      assert keys == front + [keys[|keys| - 1]];
      KeepRepeatedMembers(front, s);
    }
  }

  /** What find_similar_beats returns: the windows of adj that occur more than once,
      each once, in order of first occurrence. */
  function SimilarWindows(adj: seq<Edge>, k: nat): seq<Window> {
    var ws := Windows(adj, k);
    KeepRepeated(Distinct(ws), ws)
  }

  /** The result holds exactly the windows of length k that occur more than once,
      each of them once. */
  lemma SimilarWindowsSpec(adj: seq<Edge>, k: nat)
    ensures forall w :: w in SimilarWindows(adj, k) <==> multiset(Windows(adj, k))[w] > 1
    ensures forall w | w in SimilarWindows(adj, k) :: |w| == k
    ensures NoDuplicates(SimilarWindows(adj, k))
  {
    var ws := Windows(adj, k);
    WindowsAt(adj, k);
    DistinctMembers(ws);
    KeepRepeatedMembers(Distinct(ws), ws);
    forall w | w in SimilarWindows(adj, k) ensures |w| == k {
      assert w in multiset(ws);
    }
  }

  /** find_similar_beats (main.py:22-34): the window loop, the counting done by
      Counter, and the comprehension that keeps the counts above one. */
  method FindSimilarBeats(adj: seq<Edge>, k: nat) returns (similar: seq<Window>)
    ensures similar == SimilarWindows(adj, k)
    ensures forall w :: w in similar <==> multiset(Windows(adj, k))[w] > 1
  {
    // main.py:27-31; zip(indices[i:i+k], weights[i:i+k]) is the slice of entries
    var sequences: seq<Window> := [];
    ghost var ws := Windows(adj, k);
    assert |ws| == WindowCount(|adj|, k) by { WindowsAt(adj, k); }
    for i := 0 to WindowCount(|adj|, k)
      invariant sequences == ws[..i]
    {
      assert ws[i] == adj[i..i + k] by { WindowsAt(adj, k); }
      assert ws[..i + 1] == ws[..i] + [ws[i]];
      sequences := sequences + [adj[i..i + k]];
    }
    assert ws[..|ws|] == ws;

    // main.py:33
    var counts, order := Count(sequences);
    DistinctMembers(sequences);

    // main.py:34
    similar := [];
    for j := 0 to |order|
      invariant similar == KeepRepeated(order[..j], sequences)
    {
      KeepRepeatedPrefix(order, j, sequences);
      if counts[order[j]] > 1 {
        similar := similar + [order[j]];
      }
    }
    assert order[..|order|] == order;
    SimilarWindowsSpec(adj, k);
  }

  lemma DistinctPrefix(s: seq<Window>, j: nat)
    requires j < |s|
    ensures Distinct(s[..j + 1]) == if s[j] in Distinct(s[..j]) then Distinct(s[..j]) else Distinct(s[..j]) + [s[j]]
    ensures multiset(s[..j + 1]) == multiset(s[..j]) + multiset{s[j]}
  {
    assert s[..j + 1] == s[..j] + [s[j]];
    assert s[..j + 1][..j] == s[..j];
  }

  lemma KeepRepeatedPrefix(keys: seq<Window>, j: nat, s: seq<Window>)
    requires j < |keys|
    ensures KeepRepeated(keys[..j + 1], s) == KeepRepeated(keys[..j], s) + if multiset(s)[keys[j]] > 1 then [keys[j]] else []
  {
    assert keys[..j + 1][..j] == keys[..j];
  }

  /** Counter(s) (main.py:33): how often each window occurs, and its keys in
      order of first occurrence. */
  method Count(s: seq<Window>) returns (counts: map<Window, nat>, order: seq<Window>)
    ensures order == Distinct(s)
    ensures forall w :: w in counts <==> w in s
    ensures forall w | w in counts :: counts[w] == multiset(s)[w]
  {
    counts, order := map[], [];
    for j := 0 to |s|
      invariant order == Distinct(s[..j])
      invariant forall w :: w in counts <==> w in order
      invariant forall w | w in counts :: counts[w] == multiset(s[..j])[w]
    {
      var w := s[j];
      DistinctPrefix(s, j);
      DistinctMembers(s[..j]);
      if w in counts {
        counts := counts[w := counts[w] + 1];
      } else {
        counts := counts[w := 1];
        order := order + [w];
      }
    }
    assert s[..|s|] == s;
    DistinctMembers(s);
  }

  /** A sequence without duplicates holds each value at most once. */
  lemma {:induction false} OccursAtMostOnce<T>(s: seq<T>)
    requires NoDuplicates(s)
    ensures forall x :: multiset(s)[x] <= 1
  {
    if s != [] {
      var front := s[..|s| - 1];
      assert s == front + [s[|s| - 1]];
      OccursAtMostOnce(front);
      assert s[|s| - 1] !in front;
    }
  }

  /** Adjacency keys are distinct, so two windows that start at different
      positions differ in their first neighbour: for k >= 1 nothing repeats and
      find_similar_beats always returns the empty list (main.py:23-34). */
  lemma NoRepeatedWindows(adj: seq<Edge>, k: nat)
    requires DistinctKeys(adj) && k >= 1
    ensures SimilarWindows(adj, k) == []
  {
    var ws := Windows(adj, k);
    WindowsAt(adj, k);
    forall i, j | 0 <= i < j < |ws| ensures ws[i] != ws[j] {
      assert ws[i][0] == adj[i] && ws[j][0] == adj[j];
    }
    OccursAtMostOnce(ws);
    NothingRepeated(Distinct(ws), ws);
  }

  lemma {:induction false} NothingRepeated(keys: seq<Window>, s: seq<Window>)
    requires forall x :: multiset(s)[x] <= 1
    ensures KeepRepeated(keys, s) == []
  {
    if keys != [] {
      NothingRepeated(keys[..|keys| - 1], s);
    }
  }

  /** With k = 0 every window is the empty tuple, so find_similar_beats returns
      [()] as soon as the adjacency map has an entry, and [] otherwise. */
  lemma EmptyWindowRepeats(adj: seq<Edge>)
    ensures SimilarWindows(adj, 0) == if adj == [] then [] else [[]]
  {
    var ws := Windows(adj, 0);
    EmptyWindows(adj);
    AllEqualCount(ws, []);
    DistinctOfConstant(ws, []);
    KeepRepeatedOne([], ws);
  }

  lemma {:induction false} EmptyWindows(adj: seq<Edge>)
    ensures |Windows(adj, 0)| == |adj| + 1
    ensures forall w | w in Windows(adj, 0) :: w == []
  {
    if adj != [] {
      EmptyWindows(adj[..|adj| - 1]);
    }
  }

  lemma KeepRepeatedOne(x: Window, s: seq<Window>)
    ensures KeepRepeated([x], s) == if multiset(s)[x] > 1 then [x] else []
  {
    var one := [x];
    assert one[..0] == [];
  }

  lemma {:induction false} DistinctOfConstant(s: seq<Window>, x: Window)
    requires s != [] && forall y | y in s :: y == x
    ensures Distinct(s) == [x]
  {
    var front := s[..|s| - 1];
    assert s == front + [s[|s| - 1]];
    assert s[|s| - 1] in s;
    if front != [] {
      assert forall y | y in front :: y in s;
      DistinctOfConstant(front, x);
    }
  }

  lemma {:induction false} AllEqualCount<T>(s: seq<T>, x: T)
    requires forall y | y in s :: y == x
    ensures multiset(s)[x] == |s|
  {
    if s != [] {
      var front := s[..|s| - 1];
      assert s == front + [s[|s| - 1]];
      assert forall y | y in front :: y in s;
      assert s[|s| - 1] in s;
      assert multiset(s) == multiset(front) + multiset{s[|s| - 1]};
      AllEqualCount(front, x);
    }
  }
}
