/** The simulation driver: one token moved around the board turn after turn,
    with a histogram of the cells it ends its turns on. */
module Simulation {
  import opened Board
  import opened Cards
  import opened JailRules
  import opened Histogram
  import opened BoardObjects
  import opened TurnRules
  import opened Traces

  /** The turn counts after which the histogram is reported. */
  const Checkpoints: seq<nat> := [1_000, 10_000, 100_000, 1_000_000]

  /** A fresh histogram with every counter at zero, as a new Java int
      array starts. */
  method NewHistogram() returns (freq: array<int>)
    ensures fresh(freq) && freq.Length == Size
    ensures forall i :: 0 <= i < Size ==> freq[i] == 0
  {
    freq := new int[Size](_ => 0);
  }

  class MonopolySimulation {
    /** The release strategy: false pays the fine at once, true tries for doubles. */
    const strategy: bool
    /** How many turns ended on each cell. */
    const freq: array<int>
    const communityChest: CommunityChestBoardObject
    const chance: ChanceBoardObject
    const jail: JailBoardObject
    const goToJail: GoToJailBoardObject
    /** The cells that dispatch to a board object. */
    const boardSpaces: map<int, Space>

    /** The objects are wired together as built, each keeps its own
        invariant, and the histogram has one non-negative counter per cell,
        the go-to-jail cell's staying zero. */
    ghost predicate Valid()
      reads this, freq, jail, chance, communityChest
    {
      freq.Length == Size &&
      jail.chance == chance && jail.communityChest == communityChest &&
      jail.strategy == strategy && goToJail.jail == jail &&
      boardSpaces == BoardSpaces() &&
      jail.Valid() && chance.Valid() && communityChest.Valid() &&
      (forall i :: 0 <= i < Size ==> freq[i] >= 0) &&
      freq[GoToJailCell] == 0
    }

    /** Where a turn may leave the token: on the board but never on the
        go-to-jail cell, with at most two doubles in a row behind it, and on
        the jail cell whenever it is imprisoned. */
    ghost predicate TokenState(position: int, doublesInARow: int)
      reads this, jail
    {
      0 <= position < Size && position != GoToJailCell &&
      0 <= doublesInARow <= 2 &&
      (jail.inJail ==> position == JailCell)
    }

    /** The board objects' current state. */
    ghost function ObjectState(): Objects
      reads this, jail, chance, communityChest
    {
      Objects(jail.inJail, jail.turnsInJail,
              Pile(chance.deck, chance.discard, chance.hasGetOutOfJailCard),
              Pile(communityChest.deck, communityChest.discard, communityChest.hasGetOutOfJailCard))
    }

    /** The current state with the token at `position` after `doublesInARow` doubles. */
    ghost function Snapshot(position: int, doublesInARow: int): State
      reads this, jail, chance, communityChest
    {
      State(position, doublesInARow, ObjectState())
    }

    /** A simulation with the given release strategy, decks in the shuffled
        orders given, an empty histogram and the token not imprisoned. */
    constructor (strategy: bool, chanceOrder: seq<int>, chestOrder: seq<int>)
      requires multiset(chanceOrder) == ChanceCards()
      requires multiset(chestOrder) == CommunityChestCards()
      ensures Valid() && this.strategy == strategy
      ensures fresh(freq) && fresh(jail) && fresh(chance) && fresh(communityChest)
      ensures forall i :: 0 <= i < Size ==> freq[i] == 0
      ensures !jail.inJail && jail.turnsInJail == 0
      ensures chance.deck == chanceOrder && chance.discard == [] && !chance.hasGetOutOfJailCard
      ensures communityChest.deck == chestOrder && communityChest.discard == [] &&
              !communityChest.hasGetOutOfJailCard
    {
      this.strategy := strategy;
      var cc := new CommunityChestBoardObject(chestOrder);
      var ch := new ChanceBoardObject(chanceOrder);
      var j := new JailBoardObject(strategy, ch, cc);
      var g := new GoToJailBoardObject(j);
      communityChest, chance, jail, goToJail := cc, ch, j, g;
      boardSpaces := BoardSpaces();
      var f := NewHistogram();
      freq := f;
    }

    /** One turn from `position` with `doublesInARow` doubles behind it.
        An imprisoned token turns to the jail, and its doubles count resets.
        Otherwise a third double in a row imprisons it; failing that it moves
        `die1 + die2` cells round the board and the landing cell's object, if
        any, decides where it ends. The cell where the turn ends is counted.
        `chanceOrder` and `chestOrder` are the reshuffled discard piles, used
        only by a deck that must refill. */
    method Turn(position: int, doublesInARow: int, die1: int, die2: int,
                chanceOrder: seq<int>, chestOrder: seq<int>)
      returns (newPosition: int, newDoubles: int)
      requires Valid() && TokenState(position, doublesInARow)
      requires 1 <= die1 <= 6 && 1 <= die2 <= 6
      requires chance.deck == [] ==> multiset(chanceOrder) == multiset(chance.discard)
      requires communityChest.deck == [] ==> multiset(chestOrder) == multiset(communityChest.discard)
      modifies freq, jail, chance, communityChest
      ensures Valid() && TokenState(newPosition, newDoubles)
      ensures freq[..] == old(freq[..])[newPosition := old(freq[newPosition]) + 1]
      ensures TurnStep(strategy, old(Snapshot(position, doublesInARow)), Snapshot(newPosition, newDoubles),
                       die1, die2, chanceOrder, chestOrder)
    {
      ghost var before := Snapshot(position, doublesInARow);
      if jail.inJail {
        newPosition, newDoubles := Imprisoned(position, doublesInARow, die1, die2, chanceOrder, chestOrder);
      } else if die1 == die2 && doublesInARow == 2 {
        newPosition := JailCell;
        jail.SentToJail();
        newDoubles := 0;
        ThirdDoubleStep(strategy, before, Snapshot(newPosition, newDoubles), die1, die2, chanceOrder, chestOrder);
      } else {
        newPosition, newDoubles := Advance(position, doublesInARow, die1, die2, chanceOrder, chestOrder);
      }
      Count(newPosition);
    }

    /** Counts one more turn ended on `cell`. */
    method Count(cell: int)
      requires Valid() && 0 <= cell < Size && cell != GoToJailCell
      modifies freq
      ensures Valid()
      ensures freq[..] == old(freq[..])[cell := old(freq[cell]) + 1]
    {
      freq[cell] := freq[cell] + 1;
    }

    /** An imprisoned token's turn: the jail decides where it goes, and its
        doubles count resets. */
    method Imprisoned(position: int, doublesInARow: int, die1: int, die2: int,
                      chanceOrder: seq<int>, chestOrder: seq<int>)
      returns (newPosition: int, newDoubles: int)
      requires Valid() && TokenState(position, doublesInARow) && jail.inJail
      requires 1 <= die1 <= 6 && 1 <= die2 <= 6
      modifies jail, chance, communityChest
      ensures Valid() && TokenState(newPosition, newDoubles)
      ensures TurnStep(strategy, old(Snapshot(position, doublesInARow)), Snapshot(newPosition, newDoubles),
                       die1, die2, chanceOrder, chestOrder)
    {
      ghost var before := Snapshot(position, doublesInARow);
      newDoubles := 0;
      newPosition := jail.Move(die1, die2, position);
      JailedStep(strategy, before, Snapshot(newPosition, newDoubles), die1, die2, chanceOrder, chestOrder);
    }

    /** A free token's turn that is not its third double in a row: the
        doubles count goes up on a double and resets otherwise, and the token
        moves the dice total round the board and lands there. */
    method Advance(position: int, doublesInARow: int, die1: int, die2: int,
                   chanceOrder: seq<int>, chestOrder: seq<int>)
      returns (newPosition: int, newDoubles: int)
      requires Valid() && TokenState(position, doublesInARow) && !jail.inJail
      requires 1 <= die1 <= 6 && 1 <= die2 <= 6 && !(die1 == die2 && doublesInARow == 2)
      requires chance.deck == [] ==> multiset(chanceOrder) == multiset(chance.discard)
      requires communityChest.deck == [] ==> multiset(chestOrder) == multiset(communityChest.discard)
      modifies jail, chance, communityChest
      ensures Valid() && TokenState(newPosition, newDoubles)
      ensures TurnStep(strategy, old(Snapshot(position, doublesInARow)), Snapshot(newPosition, newDoubles),
                       die1, die2, chanceOrder, chestOrder)
    {
      newDoubles := if die1 == die2 then doublesInARow + 1 else 0;
      ghost var objects := ObjectState();
      var cell := JavaRem(position + die1 + die2, Size);
      newPosition := Land(cell, die1, die2, chanceOrder, chestOrder);
      MoveStep(strategy, State(position, doublesInARow, objects), State(newPosition, newDoubles, ObjectState()),
               die1, die2, chanceOrder, chestOrder, cell);
    }

    /** The token, not imprisoned, has just moved onto `cell`: the cell's
        board object, if it has one, moves it on. */
    method Land(cell: int, die1: int, die2: int, chanceOrder: seq<int>, chestOrder: seq<int>)
      returns (r: int)
      requires Valid() && !jail.inJail && 0 <= cell < Size
      requires chance.deck == [] ==> multiset(chanceOrder) == multiset(chance.discard)
      requires communityChest.deck == [] ==> multiset(chestOrder) == multiset(communityChest.discard)
      modifies jail, chance, communityChest
      ensures Valid() && 0 <= r < Size && r != GoToJailCell && (jail.inJail ==> r == JailCell)
      ensures Landed(cell, old(ObjectState()), r, ObjectState(), chanceOrder, chestOrder)
    {
      r := cell;
      if cell in boardSpaces {
        match boardSpaces[cell]
        case Chance =>
          r := chance.Move(die1, die2, cell, jail, chanceOrder);
          ChanceAvoidsGoToJail(TopCard(old(chance.deck), chanceOrder), cell);
        case CommunityChest =>
          r := communityChest.Move(die1, die2, cell, jail, chestOrder);
          CommunityChestAvoidsGoToJail(TopCard(old(communityChest.deck), chestOrder), cell);
        case Jail =>
          r := jail.Move(die1, die2, cell);
        case GoToJail =>
          r := goToJail.Move(die1, die2, cell);
      }
    }

    /** Turn number `t` of a run: roll the two dice the run gives it, shuffle
        the discard piles in the orders the run gives it, and play the turn.
        `trace`, the run's states so far from turn `first` on, grows by the
        state the turn leaves, and the histogram, `base` with the turns of
        `trace` counted, counts that turn too. */
    method PlayTurn(t: nat, position: int, doublesInARow: int,
                    roll: nat -> int, shuffle: (nat, seq<int>) -> seq<int>,
                    ghost trace: seq<State>, ghost first: nat, ghost base: seq<int>)
      returns (newPosition: int, newDoubles: int, ghost trace': seq<State>)
      requires Valid() && TokenState(position, doublesInARow)
      requires forall k :: 1 <= roll(k) <= 6
      requires forall k, s :: multiset(shuffle(k, s)) == multiset(s)
      requires |trace| >= 1 && trace[|trace| - 1] == Snapshot(position, doublesInARow)
      requires t == first + |trace| - 1 && Played(strategy, trace, first, roll, shuffle)
      requires Counted(freq[..], base, trace)
      modifies freq, jail, chance, communityChest
      ensures Valid() && TokenState(newPosition, newDoubles)
      ensures trace' == trace + [Snapshot(newPosition, newDoubles)]
      ensures Played(strategy, trace', first, roll, shuffle)
      ensures Counted(freq[..], base, trace')
      ensures Sum(freq[..]) == old(Sum(freq[..])) + 1
    {
      var die1 := roll(2 * t);
      var die2 := roll(2 * t + 1);
      var chanceOrder := shuffle(2 * t, chance.discard);
      var chestOrder := shuffle(2 * t + 1, communityChest.discard);
      ghost var before, pre := freq[..], Snapshot(position, doublesInARow);
      assert chanceOrder == shuffle(2 * t, pre.objects.chance.discard);
      assert chestOrder == shuffle(2 * t + 1, pre.objects.communityChest.discard);
      newPosition, newDoubles := Turn(position, doublesInARow, die1, die2, chanceOrder, chestOrder);
      ghost var after := Snapshot(newPosition, newDoubles);
      assert freq[..] == before[newPosition := before[newPosition] + 1];
      SumIncrement(before, newPosition);
      CountedExtend(before, base, trace, after);
      PlayedExtend(strategy, trace, after, first, t, roll, shuffle);
      trace' := trace + [after];
    }

    /** Play turns until `limit` turns have been played, starting from
        `turns` turns with the token at `position` after `doublesInARow`
        doubles. Turn `t` rolls `roll(2 * t)` and `roll(2 * t + 1)`, and a
        deck that must refill on it takes its discard pile in the order
        `shuffle` gives for it (key `2 * t` for Chance, `2 * t + 1` for
        Community Chest). `trace` is the state before each turn and after
        the last, and the histogram counts where each turn played ended. */
    method RunUntil(limit: nat, turns: nat, position: int, doublesInARow: int,
                    roll: nat -> int, shuffle: (nat, seq<int>) -> seq<int>)
      returns (turns': nat, position': int, doublesInARow': int, ghost trace: seq<State>)
      requires Valid() && TokenState(position, doublesInARow) && Sum(freq[..]) == turns
      requires forall k :: 1 <= roll(k) <= 6
      requires forall k, s :: multiset(shuffle(k, s)) == multiset(s)
      modifies freq, jail, chance, communityChest
      ensures Valid() && TokenState(position', doublesInARow')
      ensures turns' == (if turns < limit then limit else turns)
      ensures |trace| == turns' - turns + 1
      ensures trace[0] == old(Snapshot(position, doublesInARow))
      ensures trace[|trace| - 1] == Snapshot(position', doublesInARow')
      ensures Played(strategy, trace, turns, roll, shuffle)
      ensures Counted(freq[..], old(freq[..]), trace)
      ensures Sum(freq[..]) == turns'
    {
      turns', position', doublesInARow' := turns, position, doublesInARow;
      trace := [Snapshot(position, doublesInARow)];
      while turns' < limit
        invariant Valid() && TokenState(position', doublesInARow')
        invariant turns' == turns || turns' <= limit
        invariant |trace| == turns' - turns + 1
        invariant trace[0] == old(Snapshot(position, doublesInARow))
        invariant trace[|trace| - 1] == Snapshot(position', doublesInARow')
        invariant Played(strategy, trace, turns, roll, shuffle)
        invariant Counted(freq[..], old(freq[..]), trace)
        invariant Sum(freq[..]) == turns'
        decreases limit - turns'
      {
        position', doublesInARow', trace :=
          PlayTurn(turns', position', doublesInARow', roll, shuffle, trace, turns, old(freq[..]));
        turns' := turns' + 1;
      }
    }

    /** Plays from one checkpoint to the next and extends the trace and the
        report record accordingly: the histogram then is the tally of the
        longer trace, which is the report due at checkpoint `k`. */
    method PlayToCheckpoint(k: nat, turns: nat, position: int, doublesInARow: int,
                            roll: nat -> int, shuffle: (nat, seq<int>) -> seq<int>,
                            ghost trace: seq<State>, ghost reports: seq<seq<int>>)
      returns (turns': nat, position': int, doublesInARow': int, ghost trace': seq<State>)
      requires k < |Checkpoints| && |reports| == k
      requires Valid() && TokenState(position, doublesInARow) && Sum(freq[..]) == turns
      requires turns == if k == 0 then 0 else Checkpoints[k - 1]
      requires forall k :: 1 <= roll(k) <= 6
      requires forall k, s :: multiset(shuffle(k, s)) == multiset(s)
      requires |trace| == turns + 1 && trace[|trace| - 1] == Snapshot(position, doublesInARow)
      requires Played(strategy, trace, 0, roll, shuffle) && freq[..] == Tally(trace)
      requires Reported(reports, trace, Checkpoints) && Totals(reports, Checkpoints)
      modifies freq, jail, chance, communityChest
      ensures Valid() && TokenState(position', doublesInARow') && Sum(freq[..]) == turns'
      ensures turns' == Checkpoints[k]
      ensures |trace'| == turns' + 1 && trace'[0] == trace[0]
      ensures trace'[|trace'| - 1] == Snapshot(position', doublesInARow')
      ensures Played(strategy, trace', 0, roll, shuffle) && freq[..] == Tally(trace')
      ensures Reported(reports + [freq[..]], trace', Checkpoints)
      ensures Totals(reports + [freq[..]], Checkpoints)
    {
      ghost var segment;
      turns', position', doublesInARow', segment :=
        RunUntil(Checkpoints[k], turns, position, doublesInARow, roll, shuffle);
      PlayedJoin(strategy, trace, segment, 0, |trace| - 1, roll, shuffle);
      TallyJoin(freq[..], trace, segment);
      ReportedExtend(reports, trace, segment, Checkpoints);
      TotalsExtend(reports, freq[..], Checkpoints);
      trace' := trace + segment[1..];
    }

    /** The whole run from a fresh board: turns are played up to each
        checkpoint in turn, and the histogram as it stands at each
        checkpoint is reported. `trace` is the state before each turn and
        after the last; each report is the histogram of the turns up to its
        checkpoint, so the reports only grow from one to the next. */
    method Run(roll: nat -> int, shuffle: (nat, seq<int>) -> seq<int>)
      returns (reports: seq<seq<int>>, ghost trace: seq<State>)
      requires Valid() && !jail.inJail
      requires forall i :: 0 <= i < Size ==> freq[i] == 0
      requires forall k :: 1 <= roll(k) <= 6
      requires forall k, s :: multiset(shuffle(k, s)) == multiset(s)
      modifies freq, jail, chance, communityChest
      ensures Valid()
      ensures |trace| == Checkpoints[|Checkpoints| - 1] + 1 && trace[0] == old(Snapshot(Go, 0))
      ensures Played(strategy, trace, 0, roll, shuffle)
      ensures |reports| == |Checkpoints|
      ensures forall i :: 0 <= i < |reports| ==> reports[i] == Tally(trace[..Checkpoints[i] + 1])
      ensures forall i :: 0 <= i < |reports| ==>
                |reports[i]| == Size && Sum(reports[i]) == Checkpoints[i] && reports[i][GoToJailCell] == 0
      ensures forall i, c :: 0 <= i < |reports| && 0 <= c < Size ==> 0 <= reports[i][c] <= Checkpoints[i]
      ensures forall i, j, c :: 0 <= i <= j < |reports| && 0 <= c < Size ==> reports[i][c] <= reports[j][c]
      ensures reports[|reports| - 1] == freq[..]
    {
      SumZero(freq[..]);
      var turns, position, doublesInARow := 0, Go, 0;
      reports := [];
      trace := [Snapshot(position, doublesInARow)];
      assert freq[..] == Tally(trace);
      var k := 0;
      while k < |Checkpoints|
        invariant 0 <= k <= |Checkpoints| && |reports| == k
        invariant Valid() && TokenState(position, doublesInARow) && Sum(freq[..]) == turns
        invariant turns == if k == 0 then 0 else Checkpoints[k - 1]
        invariant |trace| == turns + 1 && trace[0] == old(Snapshot(Go, 0))
        invariant trace[|trace| - 1] == Snapshot(position, doublesInARow)
        invariant Played(strategy, trace, 0, roll, shuffle)
        invariant freq[..] == Tally(trace)
        invariant Reported(reports, trace, Checkpoints)
        invariant Totals(reports, Checkpoints)
        invariant k > 0 ==> reports[k - 1] == freq[..]
      {
        turns, position, doublesInARow, trace :=
          PlayToCheckpoint(k, turns, position, doublesInARow, roll, shuffle, trace, reports);
        reports := reports + [freq[..]];
        k := k + 1;
      }
      ReportedGrow(reports, trace, Checkpoints);
    }
  }
}
