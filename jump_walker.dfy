/**
 * The beat-jump walker (compute_jumps, main.py:36-72).
 *
 * The walker plays beats in order and, once a cooldown has elapsed and a random
 * draw succeeds, splices to the neighbour nearest in feature space, landing one
 * beat past it. Audio is abstracted to integer sample offsets: starts[i] stands
 * for int(beat_times[i] * sr) and total for len(y[0]). The random source is the
 * sequence of outcomes of `random.random() < 0.2`, indexed by the number of the
 * draw, and the feature distance np.linalg.norm(beat_features[a] - beat_features[b])
 * is a given function of the two beats.
 *
 * The loop of the source need not terminate, so the method takes a fuel bound
 * and reports OutOfFuel when it runs out; Run is the same walk as a function.
 */
module JumpWalker {
  import opened SimilarBeats

  /** The exceptions compute_jumps lets escape. */
  datatype PyError =
    | IndexError         // beat_times[0] when there are no beats (main.py:41)
    | ZeroDivisionError  // jump_count / jumps in the progress message when jumps == 0 (main.py:44)
    | ValueError         // np.concatenate of an empty list of segments (main.py:72)

  /** The sample range y[:, lo:hi] of one emitted beat (main.py:41-43). */
  datatype Segment = Segment(lo: int, hi: int)

  /** The inputs of compute_jumps, with the module-global features and the random
      source made explicit. */
  datatype Config = Config(
    graph: seq<seq<Edge>>,      // graph[v]: the adjacency map of beat v, in insertion order
    starts: seq<int>,           // starts[i] == int(beat_times[i] * sr)
    total: int,                 // len(y[0])
    jumps: int,                 // the jump budget
    matchLength: nat,           // beat_match_length
    interval: int,              // jump_interval
    dist: (nat, nat) -> real,   // distance between the feature vectors of two beats
    lucky: nat -> bool)         // lucky(n): the n-th random.random() was below 0.2

  /** The adjacency map of beat v in a graph of n beats: distinct keys (it is a
      dictionary), every key a beat, and no self-loop (the distance matrix has a
      zero diagonal, and zero entries give no edge). */
  predicate Adjacency(adj: seq<Edge>, v: nat, n: nat) {
    && DistinctKeys(adj)
    && forall e | e in adj :: e.index < n && e.index != v
  }

  /** The graph has one node per beat, as the graph built from the features does. */
  predicate Shaped(c: Config) {
    |c.graph| == |c.starts|
  }

  /** Each node's adjacency map is one a dictionary of beats can be. */
  predicate WellFormed(c: Config) {
    && Shaped(c)
    && forall v | 0 <= v < |c.graph| :: Adjacency(c.graph[v], v, |c.graph|)
  }

  /** graph.neighbors(v): the keys of the adjacency map, in order (main.py:45). */
  function Neighbours(adj: seq<Edge>): (ns: seq<nat>)
    ensures |ns| == |adj|
    ensures forall i | 0 <= i < |adj| :: ns[i] == adj[i].index
  {
    if adj == [] then [] else Neighbours(adj[..|adj| - 1]) + [adj[|adj| - 1].index]
  }

  /** The neighbours of a beat are other beats, each listed once. */
  lemma NeighboursAreBeats(c: Config, v: nat)
    requires WellFormed(c) && v < |c.graph|
    ensures DistinctKeys(c.graph[v])
    ensures forall j | 0 <= j < |Neighbours(c.graph[v])| ::
      Neighbours(c.graph[v])[j] < |c.graph| && Neighbours(c.graph[v])[j] != v
  {
    var adj := c.graph[v];
    forall j | 0 <= j < |adj| ensures adj[j].index < |c.graph| && adj[j].index != v {
      assert adj[j] in adj;
    }
  }

  /** min(xs, key=lambda x: dist(from, x)) (main.py:63): min keeps the first of
      several elements with the smallest key. */
  function Nearest(xs: seq<nat>, dist: (nat, nat) -> real, from: nat): nat
    requires xs != []
  {
    if |xs| == 1 then xs[0]
    else
      var m := Nearest(xs[..|xs| - 1], dist, from);
      if dist(from, xs[|xs| - 1]) < dist(from, m) then xs[|xs| - 1] else m
  }

  /** Nearest picks an element of xs at the smallest distance from `from`, and
      every element before it is strictly farther. */
  lemma {:induction false} NearestIsFirstClosest(xs: seq<nat>, dist: (nat, nat) -> real, from: nat)
    requires xs != []
    ensures Nearest(xs, dist, from) in xs
    ensures forall x | x in xs :: dist(from, Nearest(xs, dist, from)) <= dist(from, x)
    ensures exists i | 0 <= i < |xs| ::
              xs[i] == Nearest(xs, dist, from) && forall j | 0 <= j < i :: dist(from, xs[i]) < dist(from, xs[j])
  {
    if |xs| == 1 {
      assert xs[0] == Nearest(xs, dist, from);
    } else {
      var front, last := xs[..|xs| - 1], xs[|xs| - 1];
      NearestIsFirstClosest(front, dist, from);
      var m := Nearest(front, dist, from);
      var i :| 0 <= i < |front| && front[i] == m && forall j | 0 <= j < i :: dist(from, front[i]) < dist(from, front[j]);
      var r := Nearest(xs, dist, from);
      forall x | x in xs ensures dist(from, r) <= dist(from, x) {
        var k :| 0 <= k < |xs| && xs[k] == x;
        if k < |xs| - 1 {
          assert front[k] == x;
        }
      }
      if dist(from, last) < dist(from, m) {
        forall j | 0 <= j < |xs| - 1 ensures dist(from, xs[|xs| - 1]) < dist(from, xs[j]) {
          assert xs[j] == front[j];
        }
      } else {
        assert xs[i] == m;
        forall j | 0 <= j < i ensures dist(from, xs[i]) < dist(from, xs[j]) {
          assert xs[j] == front[j];
        }
      }
    }
  }

  /** The sample range emitted for beat i (main.py:41-42). */
  function SegmentOf(c: Config, i: nat): Segment
    requires i < |c.starts|
  {
    Segment(c.starts[i], if i < |c.starts| - 1 then c.starts[i + 1] else c.total)
  }

  /** The segments emitted for the beats played, in order. */
  function Segments(c: Config, beats: seq<nat>): seq<Segment>
    requires forall j | 0 <= j < |beats| :: beats[j] < |c.starts|
  {
    if beats == [] then []
    else
      Segments(c, beats[..|beats| - 1]) + [SegmentOf(c, beats[|beats| - 1])]
  }

  /** The song holds one segment per beat played, the segment of that beat. */
  lemma {:induction false} SegmentsOfBeats(c: Config, beats: seq<nat>)
    requires forall j | 0 <= j < |beats| :: beats[j] < |c.starts|
    ensures |Segments(c, beats)| == |beats|
    ensures forall j | 0 <= j < |beats| :: Segments(c, beats)[j] == SegmentOf(c, beats[j])
  {
    if beats != [] {
      var front := beats[..|beats| - 1];
      SegmentsOfBeats(c, front);
    }
  }

  /** The state of one walk: the locals current_beat, potential_jumps and
      jump_count, the number of random draws made, the beats emitted so far, and
      (for the properties only) the positions in beats of the segments emitted by
      the iterations that jumped. */
  datatype Walk = Walk(current: nat, potential: nat, jumpCount: nat, draws: nat,
                       beats: seq<nat>, jumpsAt: seq<nat>)

  const Start := Walk(0, 0, 0, 0, [], [])

  /** The condition of the loop at main.py:38. */
  predicate Continues(c: Config, w: Walk) {
    w.jumpCount <= c.jumps || w.current < |c.starts| - 1
  }

  datatype Option<T> = None | Some(value: T)

  /** The outcome of one iteration: the state it leaves, or the exception it raises. */
  datatype StepResult = Next(next: Walk) | Raise(error: PyError)

  /** One iteration of the loop body (main.py:39-71): wrap around before the
      last beat, emit the current beat, then move on (see Move). */
  /** The beat an iteration plays when current_beat is x (main.py:39-40). */
  function Wrap(c: Config, x: nat): nat {
    if x >= |c.starts| - 1 then 0 else x
  }

  function Step(c: Config, w: Walk): StepResult
    requires Shaped(c)
  {
    var n := |c.starts|;
    var cur := Wrap(c, w.current);
    if cur >= n then Raise(IndexError)
    else if c.jumps == 0 then Raise(ZeroDivisionError)
    else Next(Move(c, w, cur))
  }

  /** Lines 45-70 after beat cur was emitted: while jumps remain and cur has
      neighbours, every iteration draws a random number, and a lucky draw after
      the cooldown jumps one beat past the nearest neighbour; otherwise the walk
      goes on to the next beat. The sequence matching of lines 49-61 never adds
      a candidate (see MatchRuns), so a considered jump is always taken. */
  function Move(c: Config, w: Walk, cur: nat): Walk
    requires Shaped(c) && cur < |c.graph|
  {
    var beats := w.beats + [cur];
    var nbrs := Neighbours(c.graph[cur]);
    if |nbrs| > 0 && w.jumpCount <= c.jumps then
      if c.lucky(w.draws) && w.potential + 1 >= c.interval then
        Walk(Nearest(nbrs, c.dist, cur) + 1, 0, w.jumpCount + 1, w.draws + 1, beats, w.jumpsAt + [|w.beats|])
      else
        Walk(cur + 1, w.potential + 1, w.jumpCount, w.draws + 1, beats, w.jumpsAt)
    else
      Walk(cur + 1, w.potential, w.jumpCount, w.draws, beats, w.jumpsAt)
  }

  datatype Status = Finished | Raised(error: PyError) | OutOfFuel

  /** How a walk ends, and its state at that point (before the step that raised). */
  datatype Outcome = Outcome(status: Status, last: Walk)

  /** The walk from w for at most fuel iterations. */
  function Run(c: Config, w: Walk, fuel: nat): Outcome
    requires Shaped(c)
    decreases fuel
  {
    if !Continues(c, w) then
      if w.beats == [] then Outcome(Raised(ValueError), w) else Outcome(Finished, w)
    else if fuel == 0 then Outcome(OutOfFuel, w)
    else
      match Step(c, w)
      case Raise(e) => Outcome(Raised(e), w)
      case Next(w') => Run(c, w', fuel - 1)
  }

  /** The dictionary comprehension at main.py:50: the repeated windows of every
      candidate beat. */
  method NeighbourWindows(graph: seq<seq<Edge>>, beats: seq<nat>, k: nat)
    returns (windows: map<nat, seq<Window>>)
    requires forall j | 0 <= j < |beats| :: beats[j] < |graph|
    ensures forall j | 0 <= j < |beats| :: beats[j] in windows
    ensures forall b | b in windows :: b in beats
    ensures forall b | b in windows :: b < |graph| && windows[b] == SimilarWindows(graph[b], k)
  {
    windows := map[];
    for i := 0 to |beats|
      invariant forall j | 0 <= j < i :: beats[j] in windows
      invariant forall b | b in windows :: b in beats[..i]
      invariant forall b | b in windows :: b < |graph| && windows[b] == SimilarWindows(graph[b], k)
    {
      var found := FindSimilarBeats(graph[beats[i]], k);
      windows := windows[beats[i] := found];
    }
  }

  /** Lines 49-61: the repeated windows of the current beat are compared with
      those of every candidate, and a candidate would be appended to
      similar_beats (while the loop iterates over it) when a pair of windows
      matches. Windows never repeat under distinct keys, and with k = 0 they are
      empty tuples, so no pair of entries is ever compared (the comparison would
      raise TypeError, since c and d are tuples) and nothing is appended. */
  method MatchRuns(graph: seq<seq<Edge>>, current: nat, similarBeats: seq<nat>, k: nat)
    returns (similar: seq<nat>)
    requires current < |graph| && DistinctKeys(graph[current])
    requires forall j | 0 <= j < |similarBeats| :: similarBeats[j] < |graph|
    ensures similar == similarBeats
  {
    similar := similarBeats;
    var sequencesCurrent := FindSimilarBeats(graph[current], k);
    var sequencesBeat := NeighbourWindows(graph, similar, k);
    if k > 0 {
      NoRepeatedWindows(graph[current], k);
    } else {
      SimilarWindowsSpec(graph[current], k);
    }
    assert forall a | a in sequencesCurrent :: a == [];
    var i := 0;
    while i < |similar|
      invariant i <= |similar| && similar == similarBeats
    {
      var beat := similar[i];
      if beat != current {
        for ia := 0 to |sequencesCurrent| {
          var a := sequencesCurrent[ia];
          assert a in sequencesCurrent;
          for ib := 0 to |sequencesBeat[beat]| {
            var b := sequencesBeat[beat][ib];
            if |a| > 0 && |b| > 0 {
              // line 57 would index the tuple c by "weight": unreachable, as a is empty
              assert false;
            }
          }
        }
      }
      i := i + 1;
    }
  }

  /** Lines 45-70 of one iteration, after beat cur was emitted: the new values
      of current_beat, potential_jumps and jump_count, the number of draws made,
      and whether the iteration jumped. w is the state before the iteration. */
  method Advance(c: Config, cur: nat, potential: nat, jumpCount: nat, draws: nat, ghost w: Walk)
    returns (cur': nat, potential': nat, jumpCount': nat, draws': nat, jumped: bool)
    requires WellFormed(c) && cur < |c.graph|
    requires w.potential == potential && w.jumpCount == jumpCount && w.draws == draws
    ensures Move(c, w, cur) == Walk(cur', potential', jumpCount', draws', w.beats + [cur],
                                    if jumped then w.jumpsAt + [|w.beats|] else w.jumpsAt)
  {
    potential', jumpCount', draws', jumped := potential, jumpCount, draws, false;
    var similarBeats := Neighbours(c.graph[cur]);
    NeighboursAreBeats(c, cur);
    if |similarBeats| > 0 && jumpCount <= c.jumps {
      potential' := potential + 1;
      var draw := c.lucky(draws);
      draws' := draws + 1;
      if draw && potential' >= c.interval {
        similarBeats := MatchRuns(c.graph, cur, similarBeats, c.matchLength);
        if |similarBeats| > 0 {
          cur' := Nearest(similarBeats, c.dist, cur) + 1;
          potential' := 0;
          jumpCount' := jumpCount + 1;
          jumped := true;
        } else {
          // lines 66-67: unreachable, similar_beats is still the non-empty neighbour list
          assert false;
        }
      } else {
        cur' := cur + 1;
      }
    } else {
      cur' := cur + 1;
    }
  }

  lemma SegmentsSnoc(c: Config, beats: seq<nat>, b: nat)
    requires forall j | 0 <= j < |beats| :: beats[j] < |c.starts|
    requires b < |c.starts|
    ensures Segments(c, beats + [b]) == Segments(c, beats) + [SegmentOf(c, b)]
  {
    assert (beats + [b])[..|beats|] == beats;
  }

  /** An iteration that gets past the beat lookup and the progress message
      leaves the walk in the state Move gives. */
  lemma StepMoves(c: Config, w: Walk, cur: nat)
    requires Shaped(c) && c.jumps != 0
    requires cur == Wrap(c, w.current) && cur < |c.starts|
    ensures Step(c, w) == Next(Move(c, w, cur))
  {
  }

  /** Every emitted beat is a beat of the song, and never its last beat when
      there are two or more (main.py:39-43). */
  predicate Playable(c: Config, beats: seq<nat>) {
    forall j | 0 <= j < |beats| :: beats[j] < |c.starts| && (|c.starts| >= 2 ==> beats[j] <= |c.starts| - 2)
  }

  /** Every emitted beat but the last beat of the song has a successor, so its
      segment ends where the next beat starts; only a song of one beat emits a
      segment that runs to the end of the audio (main.py:41-43). */
  lemma SongSegments(c: Config, beats: seq<nat>)
    requires Playable(c, beats)
    ensures |Segments(c, beats)| == |beats|
    ensures forall j | 0 <= j < |beats| ::
      Segments(c, beats)[j] == if |c.starts| >= 2 then Segment(c.starts[beats[j]], c.starts[beats[j] + 1])
                               else Segment(c.starts[0], c.total)
  {
    SegmentsOfBeats(c, beats);
  }

  /** Lines 41-43: the samples of beat cur, from its start to the start of the
      next beat or to the end of the audio, are appended to the song. */
  method Emit(c: Config, beats: seq<nat>, song: seq<Segment>, cur: nat)
    returns (beats': seq<nat>, song': seq<Segment>)
    requires Playable(c, beats) && song == Segments(c, beats)
    requires cur < |c.starts| && (|c.starts| >= 2 ==> cur <= |c.starts| - 2)
    ensures beats' == beats + [cur]
    ensures Playable(c, beats') && song' == Segments(c, beats')
  {
    var n := |c.starts|;
    var startTime := c.starts[cur];
    var endTime := if cur < n - 1 then c.starts[cur + 1] else c.total;
    SegmentsSnoc(c, beats, cur);
    song' := song + [Segment(startTime, endTime)];
    beats' := beats + [cur];
  }

  /** One pass of the loop body (main.py:39-71) from the walk w, whose fields the
      locals hold. */
  method Iteration(c: Config, ghost w: Walk,
                   currentBeat: nat, potentialJumps: nat, jumpCount: nat, draws: nat,
                   beats: seq<nat>, song: seq<Segment>)
    returns (error: Option<PyError>, currentBeat': nat, potentialJumps': nat, jumpCount': nat,
             draws': nat, beats': seq<nat>, song': seq<Segment>, ghost w': Walk)
    requires WellFormed(c)
    requires w.current == currentBeat && w.potential == potentialJumps && w.jumpCount == jumpCount
    requires w.draws == draws && w.beats == beats
    requires Playable(c, beats) && song == Segments(c, beats)
    ensures Step(c, w) == if error.Some? then Raise(error.value) else Next(w')
    ensures error.None? ==> w'.current == currentBeat' && w'.potential == potentialJumps' && w'.jumpCount == jumpCount'
    ensures error.None? ==> w'.draws == draws' && w'.beats == beats'
    ensures Playable(c, beats') && song' == Segments(c, beats')
  {
    var n := |c.starts|;
    currentBeat', potentialJumps', jumpCount', draws', beats', song', w' :=
      currentBeat, potentialJumps, jumpCount, draws, beats, song, w;
    // line 39
    if currentBeat' >= n - 1 {
      currentBeat' := 0;
    }
    // lines 41-43; beat_times[current_beat] raises IndexError when there are no beats
    if currentBeat' >= n {
      error := Some(IndexError);
      return;
    }
    beats', song' := Emit(c, beats, song, currentBeat');
    // line 44
    if c.jumps == 0 {
      error := Some(ZeroDivisionError);
      return;
    }
    error := None;
    var played := currentBeat';
    var jumped;
    currentBeat', potentialJumps', jumpCount', draws', jumped :=
      Advance(c, played, potentialJumps, jumpCount, draws, w);
    StepMoves(c, w, played);
    w' := Move(c, w, played);
  }

  /** compute_jumps (main.py:36-72), for at most fuel iterations. beats is the
      sequence of emitted beats and song the sample ranges concatenated at line 72. */
  method ComputeJumps(c: Config, fuel: nat) returns (status: Status, beats: seq<nat>, song: seq<Segment>)
    requires WellFormed(c)
    ensures status == Run(c, Start, fuel).status
    ensures !status.Raised? ==> beats == Run(c, Start, fuel).last.beats
    ensures Playable(c, beats)
    ensures song == Segments(c, beats)
  {
    var n := |c.starts|;
    var currentBeat: nat, potentialJumps: nat, jumpCount: nat, draws: nat := 0, 0, 0, 0;
    beats, song := [], [];
    ghost var w := Start;
    var steps: nat := 0;
    while jumpCount <= c.jumps || currentBeat < n - 1
      invariant steps <= fuel
      invariant w.current == currentBeat && w.potential == potentialJumps && w.jumpCount == jumpCount
      invariant w.draws == draws && w.beats == beats
      invariant Playable(c, beats) && song == Segments(c, beats)
      invariant Run(c, Start, fuel) == Run(c, w, fuel - steps)
      decreases fuel - steps
    {
      if steps == fuel {
        status := OutOfFuel;
        return;
      }
      var error;
      error, currentBeat, potentialJumps, jumpCount, draws, beats, song, w :=
        Iteration(c, w, currentBeat, potentialJumps, jumpCount, draws, beats, song);
      if error.Some? {
        status := Raised(error.value);
        return;
      }
      steps := steps + 1;
    }
    // line 72; np.concatenate of no segments raises ValueError
    if beats == [] {
      status := Raised(ValueError);
    } else {
      status := Finished;
    }
  }
}
