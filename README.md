# Loop-O-Matic beat walker, modelled in Dafny

Loop-O-Matic makes a longer version of a song. It splits the song into beats
and links every pair of beats whose chroma features differ, weighting each
link by the distance between them. It then walks the beats in
order and now and then jumps to a similar beat, concatenating the audio of
every beat it plays. This project models the two routines that carry the
algorithm, both in `main.py`:

- `find_similar_beats` (module `SimilarBeats`, file `similar_beats.dfy`). It
  slides a window of `beat_match_length` entries over one beat's adjacency
  map, counts equal windows as `Counter` does, and keeps the windows seen more
  than once. `FindSimilarBeats` keeps the source's three steps: the window
  loop, the counting loop and the filtering loop. It is proved equal to the
  function `SimilarWindows`.
- `compute_jumps` (module `JumpWalker`, file `jump_walker.dfy`). This is the
  walker loop.
  - `ComputeJumps` is the imperative loop over the locals `current_beat`,
    `potential_jumps`, `jump_count` and the growing `song`. `Iteration` is one
    pass of its body. `Emit` is lines 41-43 of that pass. `Advance` is lines
    45-71 of that pass: the neighbour-list build, the random draw, the run
    matching of lines 49-61 (`MatchRuns`) and the jump to one past the
    nearest neighbour.
  - The methods are proved against the functions `Step` (one iteration) and
    `Run` (the whole walk, bounded by fuel).
- Properties of every walk are in module `WalkProperties` (file
  `walk_properties.dfy`). They cover:
  - the order in which beats are played;
  - the jump target;
  - the jump budget and the cooldown between jumps;
  - how a finished walk ends;
  - the exceptions it raises;
  - walks that never finish.

How the inputs are represented:

- **Audio.** Each beat's start sample `int(beat_times[i] * sr)` is a given
  integer `starts[i]`, and `len(y[0])` is `total`. Each emitted piece of audio
  `y[:, start:end]` is the sample range `Segment(start, end)`.
- **Graph.** The similarity graph is a list of adjacency maps in insertion
  order. Each is a sequence of `Edge(index, weight)` with distinct keys, keys
  that are beats, and no self-loop (`WellFormed`).
- **Feature distance.** The distance between two beats' features is a given
  function `dist`.
- **Randomness.** The outcome of the n-th `random.random() < 0.2` is a given
  `lucky(n)`. The draw happens before the cooldown test, because Python
  evaluates the left operand of `and` first.

What the code does, which differs from what one might expect of the
program's design:

- The last beat `N - 1` is never played when the song has two or more beats.
  `current_beat >= N - 1` is reset to 0 before the beat is emitted (line 39).
  A finished walk ends at beat `N - 2`, or right after a jump that landed at
  or past `N - 1` (`FinishedWalk`, `FinishedTail`). It does not end at the
  song's final beat.
- With `jumps == 0` the progress message divides by zero in the first
  iteration (line 44). `compute_jumps` raises `ZeroDivisionError`
  (`ZeroJumpsRaise`).
- `jump_count <= jumps` allows a jump while `jump_count == jumps`. A finished
  walk with a non-negative budget therefore made exactly `jumps + 1` jumps
  (`FinishedWalk`).
- The walk need not end. With no edges and a non-negative budget it never
  finishes (`EdgelessNeverFinishes`).
- The run matching of lines 49-61 never adds a candidate, for two reasons:
  - adjacency keys are distinct, so with `k >= 1` no window repeats
    (`NoRepeatedWindows`);
  - with `k = 0` the only repeated window is the empty tuple
    (`EmptyWindowRepeats`), and `zip` of two empty tuples compares nothing.

  The jump therefore always goes to the nearest neighbour, and the branch at
  lines 66-67 is unreachable (`MatchRuns`, `Advance`).

## Model

| member | source | states |
|---|---|---|
| SimilarBeats.WindowsAt | main.py:27-31 | there are max(0, n - k + 1) windows, and window i is the k adjacency entries starting at position i |
| SimilarBeats.EmptyWindows | main.py:27-31 | with k = 0 there are n + 1 windows and every one is the empty tuple |
| SimilarBeats.Count | main.py:33 | Counter maps exactly the windows that occur to their number of occurrences, and lists its keys once each in order of first occurrence |
| SimilarBeats.DistinctMembers | main.py:33 | the keys of the counter are exactly the windows that occur, without duplicates |
| SimilarBeats.KeepRepeatedMembers | main.py:34 | the comprehension keeps exactly the keys counted more than once, and keeps them distinct |
| SimilarBeats.SimilarWindowsSpec | main.py:27-34 | a window is returned if and only if it occurs more than once; every returned window has length k; none is returned twice |
| SimilarBeats.FindSimilarBeats | main.py:22-34 | the loops compute SimilarWindows, so a window is in the result if and only if it occurs more than once among the windows |
| SimilarBeats.NoRepeatedWindows | main.py:23-34 | with distinct adjacency keys and k >= 1 the result is empty |
| SimilarBeats.EmptyWindowRepeats | main.py:27-34 | with k = 0 the result is [()] when the adjacency map has an entry, and [] otherwise |
| JumpWalker.Neighbours | main.py:45 | the neighbour list has one entry per adjacency entry: its key, in insertion order |
| JumpWalker.NeighboursAreBeats | main.py:45 | in a well-formed graph the neighbours of a beat are distinct, are beats, and exclude the beat itself |
| JumpWalker.NearestIsFirstClosest | main.py:63 | min with a distance key returns an element of the list at the smallest distance, and every earlier element is strictly farther |
| JumpWalker.SegmentsOfBeats | main.py:41-43 | the song holds one segment per beat played, in order, and the j-th is the segment of the j-th beat |
| JumpWalker.SongSegments | main.py:41-43 | with two or more beats each emitted segment runs from the start of its beat to the start of the next beat; only a one-beat song emits a segment that ends at the end of the audio |
| JumpWalker.Emit | main.py:41-43 | appending the current beat and its sample range keeps the song equal to the segments of the beats played, and keeps every played beat below N - 1 |
| JumpWalker.NeighbourWindows | main.py:50 | the dictionary has exactly the candidates as keys, and each entry is that beat's repeated windows |
| JumpWalker.MatchRuns | main.py:49-61 | the matching loops leave similar_beats unchanged, and the weight comparison is never reached |
| JumpWalker.Advance | main.py:45-71 | the new current_beat, potential_jumps and jump_count, the draws made and whether a jump happened are those of the specification Move |
| JumpWalker.Iteration | main.py:39-71 | one pass of the loop body performs exactly one Step of the walk (or raises the exception Step raises), and keeps the song equal to the segments of the beats played |
| JumpWalker.ComputeJumps | main.py:36-72 | the loop ends as Run does (finished, IndexError, ZeroDivisionError, ValueError or out of fuel) with the same beats; the song is the segments of the beats played; with two or more beats no beat past N - 2 is played |
| WalkProperties.StepFollows | main.py:39-71 | an iteration plays the wrapped current beat and appends it. It jumps only from a beat with neighbours, with jump_count <= jumps and the cooldown elapsed. jump_count rises by one exactly when it jumps, and a jump resets potential_jumps |
| WalkProperties.StepKeepsInv | main.py:38-71 | every iteration of the loop keeps the walk invariant (beat bounds, recorded jumps, play order, cooldown, budget) |
| WalkProperties.WalkInvariant | main.py:36-71 | every state the walk reaches satisfies the walk invariant |
| WalkProperties.PlayOrder | main.py:39-71 | beat 0 is played first, and after each beat the wrapped landing of that beat: the next beat, or one past the nearest neighbour after a jump |
| WalkProperties.JumpTarget | main.py:45-63 | a jump lands one past a neighbour at the smallest feature distance, the first such neighbour in adjacency order |
| WalkProperties.LinearStretchContiguous | main.py:39-71 | after a beat played without a jump and before the wrap, the next beat is the following one and its samples start where the previous segment ended |
| WalkProperties.JumpBudget | main.py:46-65 | jump_count is the number of jumps made, and is at most jumps + 1, or 0 for a negative budget |
| WalkProperties.JumpCooldown | main.py:46-64 | two jumps are at least jump_interval emitted beats apart, and the first comes at position jump_interval - 1 or later |
| WalkProperties.RunStops | main.py:38-72 | a walk that finished has a false loop condition and emitted at least one beat |
| WalkProperties.ZeroJumpsRaise | main.py:41-44 | with jumps == 0 the first iteration raises ZeroDivisionError, or IndexError if there are no beats |
| WalkProperties.NoBeats | main.py:38-72 | a song without beats raises IndexError, or ValueError from the empty concatenation when the budget is negative |
| WalkProperties.FinishedWalk | main.py:38-71 | a finished walk has at least two beats and jumps != 0, made exactly jumps + 1 jumps (0 for a negative budget), has current_beat >= N - 1, and its last beat is N - 2 unless the last iteration jumped |
| WalkProperties.FinishedTail | main.py:38-71 | after the last jump of a finished walk the beats ascend one by one without wrapping and end at N - 2 |
| WalkProperties.Finishing | main.py:38-71 | once jump_count exceeds jumps, a walk that has played a beat finishes within N - 1 - current_beat more iterations, playing current_beat up to N - 2 in order |
| WalkProperties.EdgelessNeverFinishes | main.py:38-71 | with no edges and a non-negative budget the walk never finishes |
| WalkProperties.NegativeJumpsPlayLinearly | main.py:38-71 | with a negative budget the walk plays beats 0 to N - 2 once each, in order, and finishes |
| WalkProperties.MoreFuel | main.py:38 | the fuel bound only cuts a walk short: a walk that ended within some fuel ends the same way with more |

## Left out

- `analyze_song` (main.py:8-20) is not modelled. Beat tracking and chroma extraction are foreign librosa calls over floating-point audio. Their results enter as `starts` and `dist`.
- Graph construction (main.py:84) is not modelled. `cdist` and `networkx.from_numpy_array` are replaced by given adjacency lists that satisfy `WellFormed`. `np.linalg.norm` over the global `beat_features` (main.py:63) is replaced by the given function `dist`.
- `random.random() < 0.2` (main.py:48) is a given sequence of outcomes `lucky`. The probability 0.2 is not modelled.
- The weight tolerance test `abs(c["weight"] - d["weight"]) >= 10**(-32)` (main.py:56-61) is proved unreachable and is not modelled further. Indexing the tuple `c` by `"weight"` would raise TypeError, and floating-point tolerance is out of scope.
- The text of the progress message (main.py:44) is output and is not modelled. Only its division by `jumps` is kept, because it raises ZeroDivisionError.
- Audio samples, `np.concatenate` (main.py:72) and numpy slice semantics are not modelled. A slice with an end before its start, or bounds past the audio, is not clamped. The song is the list of sample ranges.
- `int(beat_times[i] * sr)` is a given integer. Float truncation is not modelled.
- The script part (main.py:74-88) is not modelled. It covers file loading, the global settings, writing the output file, and line 85, which calls the result array as a function.
- ComputeJumps: the loop need not terminate, so the model takes a fuel bound and reports `OutOfFuel` when the bound is reached. `MoreFuel` shows that the bound only cuts walks short.
- ComputeJumps: when an exception is raised, the model still returns the beats and song built so far. Python discards them together with the frame.
- `beat_match_length` is a natural number. A negative window length, for which Python's slicing would count from the end, is not modelled.
- Edge weights and distances are real numbers. NaN and floating-point rounding are not modelled.
