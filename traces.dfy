/** Runs of turns: a trace of states, each consecutive pair one turn, how
    often the turns of a trace end on each cell, and the reports a run
    takes at its checkpoints. */
module Traces {
  import opened Board
  import opened Histogram
  import opened TurnRules

  /** Turn number `t` of a run takes state `s` to `s'`. A run rolls
      `roll(2 * t)` and `roll(2 * t + 1)` on turn `t`, and a deck that must
      refill on it takes its discard pile in the order `shuffle` gives for
      key `2 * t` (Chance) or `2 * t + 1` (Community Chest). */
  ghost predicate TurnPlayed(strategy: bool, s: State, s': State, t: nat,
                             roll: nat -> int, shuffle: (nat, seq<int>) -> seq<int>)
  {
    TurnStep(strategy, s, s', roll(2 * t), roll(2 * t + 1),
             shuffle(2 * t, s.objects.chance.discard),
             shuffle(2 * t + 1, s.objects.communityChest.discard))
  }

  /** Turn number `first + k` takes `trace[k]` to `trace[k + 1]`. */
  ghost predicate PlayedAt(strategy: bool, trace: seq<State>, first: nat, k: nat,
                           roll: nat -> int, shuffle: (nat, seq<int>) -> seq<int>)
    requires k + 1 < |trace|
  {
    TurnPlayed(strategy, trace[k], trace[k + 1], first + k, roll, shuffle)
  }

  /** Each consecutive pair of `trace` is one turn, the first of them turn
      number `first`. */
  ghost predicate Played(strategy: bool, trace: seq<State>, first: nat,
                         roll: nat -> int, shuffle: (nat, seq<int>) -> seq<int>)
  {
    forall k: nat :: k + 1 < |trace| ==> PlayedAt(strategy, trace, first, k, roll, shuffle)
  }

  /** How many turns of `trace` ended on cell `c`: the states after the
      first that have the token on `c`. */
  function Visits(trace: seq<State>, c: int): nat
  {
    if |trace| <= 1 then 0
    else Visits(trace[..|trace| - 1], c) + (if trace[|trace| - 1].position == c then 1 else 0)
  }

  /** Whether turn `first + k` of a trace was played depends only on the
      two states it joins. */
  lemma PlayedAtSame(strategy: bool, trace: seq<State>, other: seq<State>, first: nat, k: nat,
                     roll: nat -> int, shuffle: (nat, seq<int>) -> seq<int>)
    requires k + 1 < |trace| && k + 1 < |other|
    requires trace[k] == other[k] && trace[k + 1] == other[k + 1]
    requires PlayedAt(strategy, trace, first, k, roll, shuffle)
    ensures PlayedAt(strategy, other, first, k, roll, shuffle)
  {
  }

  /** A trace played from turn `first`, followed by the next turn (number
      `t`) from its last state, is a trace played from `first` one state
      longer. */
  lemma PlayedExtend(strategy: bool, trace: seq<State>, s': State, first: nat, t: nat,
                     roll: nat -> int, shuffle: (nat, seq<int>) -> seq<int>)
    requires |trace| >= 1 && Played(strategy, trace, first, roll, shuffle)
    requires t == first + |trace| - 1 && TurnPlayed(strategy, trace[|trace| - 1], s', t, roll, shuffle)
    ensures Played(strategy, trace + [s'], first, roll, shuffle)
  {
    var longer := trace + [s'];
    forall k: nat | k + 1 < |longer|
      ensures PlayedAt(strategy, longer, first, k, roll, shuffle)
    {
      if k + 1 < |trace| {
        assert PlayedAt(strategy, trace, first, k, roll, shuffle);
        PlayedAtSame(strategy, trace, longer, first, k, roll, shuffle);
      }
    }
  }

  /** Playing a trace and then one that starts where it ends, from the
      turn (number `t`) that follows it, is playing their join. */
  lemma PlayedJoin(strategy: bool, trace: seq<State>, more: seq<State>, first: nat, t: nat,
                   roll: nat -> int, shuffle: (nat, seq<int>) -> seq<int>)
    requires |trace| >= 1 && |more| >= 1 && more[0] == trace[|trace| - 1]
    requires t == first + |trace| - 1
    requires Played(strategy, trace, first, roll, shuffle) && Played(strategy, more, t, roll, shuffle)
    ensures Played(strategy, trace + more[1..], first, roll, shuffle)
  {
    var joined := trace + more[1..];
    forall k: nat | k + 1 < |joined|
      ensures PlayedAt(strategy, joined, first, k, roll, shuffle)
    {
      if k + 1 < |trace| {
        assert PlayedAt(strategy, trace, first, k, roll, shuffle);
        PlayedAtSame(strategy, trace, joined, first, k, roll, shuffle);
      } else {
        var j := k - (|trace| - 1);
        assert PlayedAt(strategy, more, t, j, roll, shuffle);
        assert joined[k] == more[j] && joined[k + 1] == more[j + 1];
      }
    }
  }

  /** Visits adds up over a trace and a continuation of it. */
  lemma {:induction false} VisitsJoin(trace: seq<State>, more: seq<State>, c: int)
    requires |trace| >= 1 && |more| >= 1
    ensures Visits(trace + more[1..], c) == Visits(trace, c) + Visits(more, c)
    decreases |more|
  {
    if |more| > 1 {
      var shorter := more[..|more| - 1];
      VisitsJoin(trace, shorter, c);
      assert (trace + more[1..])[..|trace + more[1..]| - 1] == trace + shorter[1..];
    } else {
      assert trace + more[1..] == trace;
    }
  }

  /** The histogram `hist` is the histogram `base` with the turns of
      `trace` counted, cell by cell. */
  ghost predicate Counted(hist: seq<int>, base: seq<int>, trace: seq<State>)
  {
    |hist| == |base| && forall c :: 0 <= c < |hist| ==> hist[c] == base[c] + Visits(trace, c)
  }

  /** Counting one more turn, which ends on the cell of `s'`, keeps the
      histogram in step with the trace that turn extends. */
  lemma CountedExtend(hist: seq<int>, base: seq<int>, trace: seq<State>, s': State)
    requires Counted(hist, base, trace) && |trace| >= 1 && 0 <= s'.position < |hist|
    ensures Counted(hist[s'.position := hist[s'.position] + 1], base, trace + [s'])
  {
    assert (trace + [s'])[..|trace|] == trace;
  }

  /** The histogram of a trace: for each cell, how many of its turns ended there. */
  function Tally(trace: seq<State>): seq<int>
  {
    seq(Size, c => Visits(trace, c))
  }

  /** The tally of a trace whose turns all end on the board counts every
      turn once: its total is the number of turns. */
  lemma {:induction false} TallySum(trace: seq<State>)
    requires |trace| >= 1
    requires forall k :: 0 < k < |trace| ==> 0 <= trace[k].position < Size
    ensures Sum(Tally(trace)) == |trace| - 1
    decreases |trace|
  {
    if |trace| == 1 {
      SumZero(Tally(trace));
    } else {
      var prefix, p := trace[..|trace| - 1], trace[|trace| - 1].position;
      TallySum(prefix);
      assert Tally(trace) == Tally(prefix)[p := Tally(prefix)[p] + 1];
      SumIncrement(Tally(prefix), p);
    }
  }

  /** A histogram that is the tally of a trace with the turns of a
      continuation counted is the tally of their join. */
  lemma TallyJoin(hist: seq<int>, trace: seq<State>, more: seq<State>)
    requires |trace| >= 1 && |more| >= 1 && Counted(hist, Tally(trace), more)
    ensures hist == Tally(trace + more[1..])
  {
    forall c | 0 <= c < Size
      ensures hist[c] == Tally(trace + more[1..])[c]
    {
      VisitsJoin(trace, more, c);
    }
  }

  /** A longer prefix of a trace ends no fewer turns on any cell. */
  lemma {:induction false} VisitsPrefix(trace: seq<State>, m: nat, n: nat, c: int)
    requires m <= n <= |trace|
    ensures Visits(trace[..m], c) <= Visits(trace[..n], c)
    decreases n - m
  {
    if m < n {
      VisitsPrefix(trace, m, n - 1, c);
      assert trace[..n][..n - 1] == trace[..n - 1];
    }
  }

  /** A trace ends no more turns on a cell than it has turns. */
  lemma {:induction false} VisitsAtMost(trace: seq<State>, c: int)
    requires |trace| >= 1
    ensures Visits(trace, c) <= |trace| - 1
    decreases |trace|
  {
    if |trace| > 1 {
      VisitsAtMost(trace[..|trace| - 1], c);
    }
  }

  /** Report `i` is the histogram of the turns of `trace` up to checkpoint
      `i`, the turn count after which it was taken. */
  ghost predicate Reported(reports: seq<seq<int>>, trace: seq<State>, checkpoints: seq<nat>)
  {
    |reports| <= |checkpoints| &&
    forall i :: 0 <= i < |reports| ==>
      checkpoints[i] < |trace| && reports[i] == Tally(trace[..checkpoints[i] + 1])
  }

  /** Continuing the trace to the next checkpoint and reporting its
      histogram keeps every report taken so far. */
  lemma ReportedExtend(reports: seq<seq<int>>, trace: seq<State>, more: seq<State>, checkpoints: seq<nat>)
    requires Reported(reports, trace, checkpoints) && |reports| < |checkpoints|
    requires |more| >= 1 && |trace + more[1..]| == checkpoints[|reports|] + 1
    ensures Reported(reports + [Tally(trace + more[1..])], trace + more[1..], checkpoints)
  {
    var longer := trace + more[1..];
    forall i | 0 <= i < |reports|
      ensures longer[..checkpoints[i] + 1] == trace[..checkpoints[i] + 1]
    {
    }
    assert longer[..checkpoints[|reports|] + 1] == longer;
  }

  /** With the checkpoints in increasing order, the reports never decrease
      from one to the next, cell by cell, and no counter exceeds its
      report's checkpoint. */
  lemma ReportedGrow(reports: seq<seq<int>>, trace: seq<State>, checkpoints: seq<nat>)
    requires Reported(reports, trace, checkpoints)
    requires forall i, j :: 0 <= i <= j < |checkpoints| ==> checkpoints[i] <= checkpoints[j]
    ensures forall i, j, c :: 0 <= i <= j < |reports| && 0 <= c < Size ==> reports[i][c] <= reports[j][c]
    ensures forall i, c :: 0 <= i < |reports| && 0 <= c < Size ==> 0 <= reports[i][c] <= checkpoints[i]
  {
    forall i, j, c | 0 <= i <= j < |reports| && 0 <= c < Size
      ensures reports[i][c] <= reports[j][c]
    {
      VisitsPrefix(trace, checkpoints[i] + 1, checkpoints[j] + 1, c);
    }
    forall i, c | 0 <= i < |reports| && 0 <= c < Size
      ensures 0 <= reports[i][c] <= checkpoints[i]
    {
      VisitsAtMost(trace[..checkpoints[i] + 1], c);
    }
  }

  /** Every report has one counter per cell, counts exactly its
      checkpoint's turns, and none of them on the go-to-jail cell. */
  ghost predicate Totals(reports: seq<seq<int>>, checkpoints: seq<nat>)
  {
    |reports| <= |checkpoints| &&
    forall i :: 0 <= i < |reports| ==>
      |reports[i]| == Size && Sum(reports[i]) == checkpoints[i] && reports[i][GoToJailCell] == 0
  }

  /** A next report with those totals keeps them for all reports. */
  lemma TotalsExtend(reports: seq<seq<int>>, h: seq<int>, checkpoints: seq<nat>)
    requires Totals(reports, checkpoints) && |reports| < |checkpoints|
    requires |h| == Size && Sum(h) == checkpoints[|reports|] && h[GoToJailCell] == 0
    ensures Totals(reports + [h], checkpoints)
  {
  }
}
