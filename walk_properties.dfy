/**
 * What every walk of compute_jumps (main.py:36-72) satisfies: the order in
 * which beats are played, the jump budget, the cooldown between jumps, and how
 * and when the loop can end.
 */
module WalkProperties {
  import opened JumpWalker

  /** Where current_beat goes after beat b was played: one past the nearest
      neighbour of b when the iteration jumped (main.py:63), the next beat
      otherwise (main.py:67, 69, 71). */
  function Landing(c: Config, b: nat, jumped: bool): nat
    requires Shaped(c) && b < |c.graph|
  {
    if jumped && c.graph[b] != [] then Nearest(Neighbours(c.graph[b]), c.dist, b) + 1 else b + 1
  }

  /** The position in beats just after the last jump: where the current run of
      cooldown iterations began. */
  function TailStart(w: Walk): nat {
    if w.jumpsAt == [] then 0 else w.jumpsAt[|w.jumpsAt| - 1] + 1
  }

  /** Every emitted beat is a beat, and never the last beat of the song unless it
      is beat 0. */
  predicate BeatsInRange(c: Config, w: Walk) {
    forall j | 0 <= j < |w.beats| :: w.beats[j] < |c.starts| && (w.beats[j] == 0 || w.beats[j] < |c.starts| - 1)
  }

  /** jump_count counts the jumping iterations, recorded in increasing order,
      each at a beat that has neighbours. */
  predicate JumpsRecorded(c: Config, w: Walk)
    requires Shaped(c) && BeatsInRange(c, w)
  {
    && w.jumpCount == |w.jumpsAt|
    && (forall i, j | 0 <= i < j < |w.jumpsAt| :: w.jumpsAt[i] < w.jumpsAt[j])
    && (forall i | 0 <= i < |w.jumpsAt| :: w.jumpsAt[i] < |w.beats| && c.graph[w.beats[w.jumpsAt[i]]] != [])
  }

  /** The walk starts at beat 0 and every next beat is the wrapped landing of the
      one before; current_beat is the landing of the last beat played. */
  predicate Chained(c: Config, w: Walk)
    requires Shaped(c) && BeatsInRange(c, w)
  {
    && (|w.beats| == 0 ==> w.current == 0)
    && (|w.beats| > 0 ==>
          w.beats[0] == 0 && w.current == Landing(c, w.beats[|w.beats| - 1], |w.beats| - 1 in w.jumpsAt))
    && forall j | 0 <= j < |w.beats| - 1 :: w.beats[j + 1] == Wrap(c, Landing(c, w.beats[j], j in w.jumpsAt))
  }

  /** At least jump_interval iterations separate two jumps; potential_jumps
      counts at most the iterations since the last jump. */
  predicate CooledDown(c: Config, w: Walk) {
    && (forall i | 0 < i < |w.jumpsAt| :: w.jumpsAt[i - 1] + c.interval <= w.jumpsAt[i])
    && (w.jumpsAt != [] ==> c.interval <= w.jumpsAt[0] + 1)
    && TailStart(w) + w.potential <= |w.beats|
  }

  /** Once the budget is spent, every iteration since the last jump went on to
      a beat before the last one: otherwise the loop would have stopped. */
  predicate TailLinear(c: Config, w: Walk) {
    w.jumpCount > c.jumps ==>
      forall j | TailStart(w) <= j < |w.beats| - 1 :: w.beats[j] + 1 < |c.starts| - 1
  }

  predicate Inv(c: Config, w: Walk) {
    && Shaped(c)
    && BeatsInRange(c, w)
    && JumpsRecorded(c, w)
    && Chained(c, w)
    && CooledDown(c, w)
    && TailLinear(c, w)
    && (w.jumpCount == 0 || w.jumpCount <= c.jumps + 1)
  }

  /** w' is the state after an iteration from w that played beat cur and
      jumped or not: the facts about one iteration that Inv depends on. */
  predicate Follows(c: Config, w: Walk, w': Walk, cur: nat, jumped: bool)
    requires Shaped(c)
  {
    && cur == Wrap(c, w.current) && cur < |c.starts|
    && (jumped ==> c.graph[cur] != [] && w.jumpCount <= c.jumps && w.potential + 1 >= c.interval)
    && w'.beats == w.beats + [cur]
    && w'.jumpsAt == (if jumped then w.jumpsAt + [|w.beats|] else w.jumpsAt)
    && w'.jumpCount == (if jumped then w.jumpCount + 1 else w.jumpCount)
    && w'.potential <= (if jumped then 0 else w.potential + 1)
    && w'.current == Landing(c, cur, jumped)
  }

  lemma StepFollows(c: Config, w: Walk) returns (cur: nat, jumped: bool)
    requires Shaped(c) && Step(c, w).Next?
    ensures Follows(c, w, Step(c, w).next, cur, jumped)
  {
    cur := Wrap(c, w.current);
    var nbrs := Neighbours(c.graph[cur]);
    jumped := |nbrs| > 0 && w.jumpCount <= c.jumps && c.lucky(w.draws) && w.potential + 1 >= c.interval;
    assert Step(c, w).next == Move(c, w, cur);
  }

  lemma FollowsKeepsRange(c: Config, w: Walk, w': Walk, cur: nat, jumped: bool)
    requires Shaped(c) && BeatsInRange(c, w) && Follows(c, w, w', cur, jumped)
    ensures BeatsInRange(c, w')
  {
    forall j | 0 <= j < |w'.beats|
      ensures w'.beats[j] < |c.starts| && (w'.beats[j] == 0 || w'.beats[j] < |c.starts| - 1)
    {
      if j < |w.beats| {
        assert w'.beats[j] == w.beats[j];
      }
    }
  }

  /** Appending a position past every recorded jump keeps the record increasing. */
  lemma AppendKeepsIncreasing(js: seq<nat>, x: nat)
    requires forall i, j | 0 <= i < j < |js| :: js[i] < js[j]
    requires forall i | 0 <= i < |js| :: js[i] < x
    ensures forall i, j | 0 <= i < j < |js + [x]| :: (js + [x])[i] < (js + [x])[j]
  {
    var js' := js + [x];
    forall i, j | 0 <= i < j < |js'| ensures js'[i] < js'[j] {
      assert js'[i] == js[i];
      if j < |js| {
        assert js'[j] == js[j];
      }
    }
  }

  lemma FollowsKeepsJumps(c: Config, w: Walk, w': Walk, cur: nat, jumped: bool)
    requires Shaped(c) && BeatsInRange(c, w) && JumpsRecorded(c, w) && Follows(c, w, w', cur, jumped)
    ensures BeatsInRange(c, w') && JumpsRecorded(c, w')
  {
    var js, js' := w.jumpsAt, w'.jumpsAt;
    FollowsKeepsRange(c, w, w', cur, jumped);
    forall i | 0 <= i < |js'| ensures js'[i] < |w'.beats| && c.graph[w'.beats[js'[i]]] != [] {
      if i < |js| {
        assert js'[i] == js[i] && w'.beats[js[i]] == w.beats[js[i]];
      } else {
        assert jumped && js'[i] == |w.beats| && w'.beats[|w.beats|] == cur;
      }
    }
    if jumped {
      AppendKeepsIncreasing(js, |w.beats|);
    }
  }

  lemma FollowsKeepsChain(c: Config, w: Walk, w': Walk, cur: nat, jumped: bool)
    requires Shaped(c) && BeatsInRange(c, w) && JumpsRecorded(c, w) && Chained(c, w)
    requires Follows(c, w, w', cur, jumped)
    requires BeatsInRange(c, w')
    ensures Chained(c, w')
  {
    var n := |w.beats|;
    forall j | 0 <= j < n ensures (j in w'.jumpsAt) == (j in w.jumpsAt) {
    }
    assert n in w'.jumpsAt <==> jumped;
    assert w'.beats[n] == cur;
    if n == 0 {
      assert w'.beats[0] == 0;
    } else {
      assert w'.beats[0] == w.beats[0];
    }
    forall j | 0 <= j < |w'.beats| - 1
      ensures w'.beats[j + 1] == Wrap(c, Landing(c, w'.beats[j], j in w'.jumpsAt))
    {
      assert w'.beats[j] == w.beats[j];
      if j < n - 1 {
        assert w'.beats[j + 1] == w.beats[j + 1];
      }
    }
  }

  lemma FollowsKeepsCooldown(c: Config, w: Walk, w': Walk, cur: nat, jumped: bool)
    requires Shaped(c) && CooledDown(c, w) && (w.jumpCount == 0 || w.jumpCount <= c.jumps + 1)
    requires Follows(c, w, w', cur, jumped)
    ensures CooledDown(c, w') && (w'.jumpCount == 0 || w'.jumpCount <= c.jumps + 1)
  {
    var js, js' := w.jumpsAt, w'.jumpsAt;
    if jumped {
      assert TailStart(w') == |w'.beats|;
      assert forall i | 0 <= i < |js| :: js'[i] == js[i];
      if js != [] {
        assert js'[|js|] == |w.beats| && TailStart(w) == js[|js| - 1] + 1;
      }
    } else {
      assert js' == js && TailStart(w') == TailStart(w);
    }
  }

  /** After the last jump the walk goes on linearly, so while the loop runs on a
      spent budget the last beat played lies two or more before the end. */
  lemma LastWentOn(c: Config, w: Walk)
    requires Shaped(c) && BeatsInRange(c, w) && JumpsRecorded(c, w) && Chained(c, w)
    requires Continues(c, w) && w.jumpCount > c.jumps && TailStart(w) < |w.beats|
    ensures w.beats[|w.beats| - 1] + 1 < |c.starts| - 1
  {
    var js, last := w.jumpsAt, |w.beats| - 1;
    forall i | 0 <= i < |js| ensures js[i] < last {
      if i < |js| - 1 {
        assert js[i] < js[|js| - 1];
      }
    }
    assert last !in js;
  }

  lemma FollowsKeepsTail(c: Config, w: Walk, w': Walk, cur: nat, jumped: bool)
    requires Shaped(c) && BeatsInRange(c, w) && JumpsRecorded(c, w) && Chained(c, w)
    requires TailLinear(c, w) && Continues(c, w) && Follows(c, w, w', cur, jumped)
    ensures TailLinear(c, w')
  {
    if !jumped && w'.jumpCount > c.jumps {
      var js, last := w.jumpsAt, |w.beats| - 1;
      assert w'.jumpsAt == js && TailStart(w') == TailStart(w);
      if TailStart(w) <= last {
        LastWentOn(c, w);
      }
      forall j | TailStart(w') <= j < |w'.beats| - 1 ensures w'.beats[j] + 1 < |c.starts| - 1 {
        assert w'.beats[j] == w.beats[j];
        if j < last {
          assert TailStart(w) <= j < |w.beats| - 1;
        }
      }
    }
  }

  lemma StepKeepsInv(c: Config, w: Walk)
    requires Inv(c, w) && Continues(c, w) && Step(c, w).Next?
    ensures Inv(c, Step(c, w).next)
  {
    var cur, jumped := StepFollows(c, w);
    FollowsKeepsJumps(c, w, Step(c, w).next, cur, jumped);
    FollowsKeepsChain(c, w, Step(c, w).next, cur, jumped);
    FollowsKeepsCooldown(c, w, Step(c, w).next, cur, jumped);
    FollowsKeepsTail(c, w, Step(c, w).next, cur, jumped);
  }

  /** A walk either stops where it is or goes on from the state after one
      iteration. */
  lemma RunOnce(c: Config, w: Walk, fuel: nat)
    requires Shaped(c)
    ensures if Continues(c, w) && fuel > 0 && Step(c, w).Next?
            then Run(c, w, fuel) == Run(c, Step(c, w).next, fuel - 1)
            else Run(c, w, fuel).last == w
  {
  }

  /** A property of states that every iteration keeps holds of every state a
      walk reaches. */
  lemma {:induction false} RunKeeps(c: Config, w: Walk, fuel: nat, inv: Walk -> bool)
    requires Shaped(c) && inv(w)
    requires forall v | inv(v) && Continues(c, v) && Step(c, v).Next? :: inv(Step(c, v).next)
    ensures inv(Run(c, w, fuel).last)
    decreases fuel
  {
    RunOnce(c, w, fuel);
    if Continues(c, w) && fuel > 0 && Step(c, w).Next? {
      RunKeeps(c, Step(c, w).next, fuel - 1, inv);
    }
  }

  /** Every state the walk of compute_jumps reaches satisfies Inv. */
  lemma WalkInvariant(c: Config, fuel: nat)
    requires Shaped(c)
    ensures Inv(c, Run(c, Start, fuel).last)
  {
    forall v | Inv(c, v) && Continues(c, v) && Step(c, v).Next? ensures Inv(c, Step(c, v).next) {
      StepKeepsInv(c, v);
    }
    RunKeeps(c, Start, fuel, v => Inv(c, v));
  }

  /** The walk plays beat 0 first, and after each beat b the wrapped landing of b:
      b + 1 after a linear iteration, one past the first nearest neighbour of b
      after a jump (main.py:39-40, 63, 67-71). */
  lemma PlayOrder(c: Config, fuel: nat)
    requires Shaped(c)
    ensures var w := Run(c, Start, fuel).last;
      forall j | 0 <= j < |w.beats| :: w.beats[j] < |c.starts|
    ensures var w := Run(c, Start, fuel).last;
      && (w.beats != [] ==> w.beats[0] == 0)
      && forall j | 0 <= j < |w.beats| - 1 :: w.beats[j + 1] == Wrap(c, Landing(c, w.beats[j], j in w.jumpsAt))
  {
    WalkInvariant(c, fuel);
  }

  /** A jump goes from a beat with neighbours to one past the first of them at
      the smallest feature distance (main.py:45, 63). */
  lemma JumpTarget(c: Config, b: nat)
    requires Shaped(c) && b < |c.graph| && c.graph[b] != []
    ensures var t, ns := Landing(c, b, true) - 1, Neighbours(c.graph[b]);
      && t in ns
      && (forall x | x in ns :: c.dist(b, t) <= c.dist(b, x))
      && exists i | 0 <= i < |ns| :: ns[i] == t && forall j | 0 <= j < i :: c.dist(b, t) < c.dist(b, ns[j])
  {
    NearestIsFirstClosest(Neighbours(c.graph[b]), c.dist, b);
  }

  /** Between two jumps, and between the last jump and the end, beats are played
      in order, so their sample ranges are contiguous until the walk wraps. */
  lemma LinearStretchContiguous(c: Config, fuel: nat)
    requires Shaped(c)
    ensures var w := Run(c, Start, fuel).last;
      forall j | 0 <= j < |w.beats| :: w.beats[j] < |c.starts|
    ensures var w := Run(c, Start, fuel).last;
      forall j | 0 <= j < |w.beats| - 1 && j !in w.jumpsAt && w.beats[j] + 1 < |c.starts| - 1 ::
        w.beats[j + 1] == w.beats[j] + 1 && SegmentOf(c, w.beats[j]).hi == SegmentOf(c, w.beats[j + 1]).lo
  {
    WalkInvariant(c, fuel);
  }

  /** jump_count counts the jumps made and never exceeds jumps + 1; with a
      negative budget no jump is made (main.py:46, 65). */
  lemma JumpBudget(c: Config, fuel: nat)
    requires Shaped(c)
    ensures var w := Run(c, Start, fuel).last;
      && w.jumpCount == |w.jumpsAt|
      && w.jumpCount <= if c.jumps < 0 then 0 else c.jumps + 1
  {
    WalkInvariant(c, fuel);
  }

  /** Jumps are at least jump_interval emitted beats apart, and the first one is
      made at emitted position jump_interval - 1 or later (main.py:47-48, 64). */
  lemma JumpCooldown(c: Config, fuel: nat)
    requires Shaped(c)
    ensures var w := Run(c, Start, fuel).last;
      && (forall i | 0 < i < |w.jumpsAt| :: w.jumpsAt[i - 1] + c.interval <= w.jumpsAt[i])
      && (w.jumpsAt != [] ==> c.interval <= w.jumpsAt[0] + 1)
  {
    WalkInvariant(c, fuel);
  }

  /** A walk that finishes has left the loop: its condition at main.py:38 is
      false, and at least one beat was emitted. */
  lemma {:induction false} RunStops(c: Config, w: Walk, fuel: nat)
    requires Shaped(c)
    ensures Run(c, w, fuel).status == Finished ==> !Continues(c, Run(c, w, fuel).last) && Run(c, w, fuel).last.beats != []
    decreases fuel
  {
    if Continues(c, w) && fuel > 0 && Step(c, w).Next? {
      RunStops(c, Step(c, w).next, fuel - 1);
    }
  }

  /** With jumps == 0 the progress message divides by zero in the first
      iteration (main.py:44), after the beat lookup at main.py:41 has failed on
      an empty song. */
  lemma ZeroJumpsRaise(c: Config, fuel: nat)
    requires Shaped(c) && c.jumps == 0 && fuel >= 1
    ensures Run(c, Start, fuel).status == Raised(if |c.starts| == 0 then IndexError else ZeroDivisionError)
  {
  }

  /** A song without beats: the lookup at main.py:41 fails, unless a negative
      budget skips the loop and np.concatenate fails on no segments (line 72). */
  lemma NoBeats(c: Config, fuel: nat)
    requires Shaped(c) && |c.starts| == 0 && fuel >= 1
    ensures Run(c, Start, fuel).status == Raised(if c.jumps < 0 then ValueError else IndexError)
  {
  }

  /** How a finished walk ends: the budget is used up exactly (jump_count is
      jumps + 1, or 0 for a negative budget), current_beat has reached the last
      beat, and the last beat played is the second to last of the song unless
      the last iteration jumped. The song has at least two beats. */
  lemma FinishedWalk(c: Config, fuel: nat)
    requires WellFormed(c) && Run(c, Start, fuel).status == Finished
    ensures var w := Run(c, Start, fuel).last;
      && |c.starts| >= 2
      && c.jumps != 0
      && w.jumpCount == |w.jumpsAt| == (if c.jumps < 0 then 0 else c.jumps + 1)
      && w.current >= |c.starts| - 1
      && w.beats != []
      && (w.beats[|w.beats| - 1] == |c.starts| - 2 || |w.beats| - 1 in w.jumpsAt)
  {
    var w := Run(c, Start, fuel).last;
    var n := |c.starts|;
    WalkInvariant(c, fuel);
    RunStops(c, Start, fuel);
    if c.jumps == 0 {
      ZeroJumpsRaise(c, fuel);
      assert false;
    }
    assert n >= 1;
    var last := w.beats[|w.beats| - 1];
    if |w.beats| - 1 !in w.jumpsAt {
      assert w.current == last + 1;
    }
  }

  /** After the last jump of a finished walk the beats run on one by one without
      wrapping and end at the second to last beat; the tail is empty when the
      last jump landed at or past the last beat (main.py:38-39, 46, 71). */
  lemma FinishedTail(c: Config, fuel: nat)
    requires WellFormed(c) && c.jumps >= 0 && Run(c, Start, fuel).status == Finished
    ensures var w := Run(c, Start, fuel).last;
      && w.jumpsAt != [] && TailStart(w) <= |w.beats|
      && (forall j | TailStart(w) <= j < |w.beats| - 1 :: w.beats[j + 1] == w.beats[j] + 1)
      && (TailStart(w) < |w.beats| ==> w.beats[|w.beats| - 1] == |c.starts| - 2)
  {
    var w := Run(c, Start, fuel).last;
    WalkInvariant(c, fuel);
    FinishedWalk(c, fuel);
    var t := TailStart(w);
    forall j | t <= j < |w.beats| - 1 ensures w.beats[j + 1] == w.beats[j] + 1 {
      assert j !in w.jumpsAt;
    }
    if t < |w.beats| {
      assert |w.beats| - 1 !in w.jumpsAt;
    }
  }

  /** With a graph without edges and a non-negative budget, jump_count never
      grows past jumps and the loop never exits: compute_jumps does not return. */
  lemma EdgelessNeverFinishes(c: Config, fuel: nat)
    requires Shaped(c) && c.jumps >= 0
    requires forall v | 0 <= v < |c.graph| :: c.graph[v] == []
    ensures Run(c, Start, fuel).status != Finished
  {
    if Run(c, Start, fuel).status == Finished {
      var w := Run(c, Start, fuel).last;
      assert WellFormed(c);
      FinishedWalk(c, fuel);
      WalkInvariant(c, fuel);
      assert false;
    }
  }

  /** The beats 0, 1, ..., k - 1. */
  function Ascending(k: nat): (s: seq<nat>)
    ensures |s| == k
    ensures forall j | 0 <= j < k :: s[j] == j
  {
    if k == 0 then [] else Ascending(k - 1) + [k - 1]
  }

  lemma {:induction false} PlaysOnFrom(c: Config, i: nat, fuel: nat)
    requires Shaped(c) && c.jumps < 0 && i <= |c.starts| - 1
    requires |c.starts| >= 2 && fuel >= |c.starts| - 1 - i
    ensures Run(c, Walk(i, 0, 0, 0, Ascending(i), []), fuel)
         == Outcome(Finished, Walk(|c.starts| - 1, 0, 0, 0, Ascending(|c.starts| - 1), []))
    decreases |c.starts| - i
  {
    if i < |c.starts| - 1 {
      assert Step(c, Walk(i, 0, 0, 0, Ascending(i), [])) == Next(Walk(i + 1, 0, 0, 0, Ascending(i + 1), []));
      PlaysOnFrom(c, i + 1, fuel - 1);
    }
  }

  /** A negative budget disables jumping: the walk plays beats 0 to N - 2 once and
      stops, never emitting the last beat (main.py:38, 46, 71). */
  lemma NegativeJumpsPlayLinearly(c: Config, fuel: nat)
    requires Shaped(c) && c.jumps < 0 && |c.starts| >= 2 && fuel >= |c.starts| - 1
    ensures Run(c, Start, fuel).status == Finished
    ensures Run(c, Start, fuel).last.beats == Ascending(|c.starts| - 1)
  {
    PlaysOnFrom(c, 0, fuel);
  }

  /** Once jump_count exceeds the budget no iteration can jump, so the walk
      plays current_beat, current_beat + 1, ..., N - 2 and the loop condition
      turns false (main.py:38, 46, 69-71). A jump that landed at or past N - 1
      ends the walk at once. */
  lemma {:induction false} Finishing(c: Config, w: Walk, fuel: nat)
    requires Shaped(c) && c.jumps != 0 && |c.starts| >= 2 && w.jumpCount > c.jumps
    requires w.current < |c.starts| - 1 ==> fuel >= |c.starts| - 1 - w.current
    requires w.current >= |c.starts| - 1 ==> w.beats != []
    ensures Run(c, w, fuel).status == Finished
    ensures w.current >= |c.starts| - 1 ==> Run(c, w, fuel).last == w
    ensures w.current < |c.starts| - 1 ==>
      Run(c, w, fuel).last.beats == w.beats + Ascending(|c.starts| - 1)[w.current..]
    decreases |c.starts| - w.current
  {
    var n := |c.starts|;
    if w.current < n - 1 {
      var w' := Walk(w.current + 1, w.potential, w.jumpCount, w.draws, w.beats + [w.current], w.jumpsAt);
      assert Step(c, w) == Next(w');
      Finishing(c, w', fuel - 1);
      var up := Ascending(n - 1);
      assert up[w.current..] == [w.current] + up[w.current + 1..];
      assert w'.current < n - 1 || up[w.current + 1..] == [];
    }
  }

  /** The fuel bound only cuts a walk short: a walk that ended with some fuel
      ends the same way with more. */
  lemma {:induction false} MoreFuel(c: Config, w: Walk, fuel: nat, more: nat)
    requires Shaped(c) && fuel <= more && Run(c, w, fuel).status != OutOfFuel
    ensures Run(c, w, more) == Run(c, w, fuel)
    decreases fuel
  {
    if Continues(c, w) && fuel > 0 {
      match Step(c, w)
      case Raise(_) =>
      case Next(w') =>
        MoreFuel(c, w', fuel - 1, more - 1);
    }
  }
}
