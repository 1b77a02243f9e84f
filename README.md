# Monopoly position simulator: movement and effects engine

This project models the core of a one-token Monopoly simulator in Dafny. The simulator moves a single token around
the 40-cell board turn after turn. After each turn it counts, per cell, how many turns ended there. That histogram
is what the simulation is for: it estimates which cells are landed on most often.

A turn works as follows:

- An imprisoned token hands the whole turn to the jail.
- Otherwise the turn counts consecutive doubles, and a third double in a row sends the token to jail.
- Failing that, the token moves `(position + die1 + die2) % 40`.
- If the landing cell carries a board object, that object is consulted once. The objects are:
  - Chance on cells 7, 22 and 36;
  - Community Chest on cells 2, 17 and 33;
  - the jail on cell 10;
  - go-to-jail on cell 30.
- The cell where the turn ends is counted.

Each card deck is a draw pile (taken from its end), a discard pile and a flag saying that the player holds the
deck's get-out-of-jail card. The jail keeps whether the token is imprisoned, how many turns it has waited, and a
fixed release strategy: pay at once, or wait for doubles for at most three turns.

Modules:

- `Board` (`board.dfy`): the board geometry, the cell map and Java's truncating `%`.
- `Cards` (`cards.dfy`):
  - the card values and the two decks' contents;
  - card conservation;
  - the pure draw and resolution functions and the lemmas about them.
- `JailRules` (`jail_rules.dfy`): the release decision as a pure function, with its rules as lemmas.
- `Histogram` (`histogram.dfy`): the sum of the counters.
- `TurnRules` (`turn_rules.dfy`): what one turn does, stated on values. `Landed` is the effect of landing on a
  cell; `TurnStep` is a whole turn, from a state of the token and the board objects to the next.
- `Traces` (`traces.dfy`): runs of turns as traces of states, each consecutive pair a `TurnStep` under that turn's
  dice and shuffles, with the histogram of a trace (`Tally`) and the reports taken at the checkpoints.
- `BoardObjects` (`board_objects.dfy`): the four board objects as classes.
  - The deck classes keep the source's mutable piles as `seq` fields.
  - Each deck class carries a conservation invariant.
  - The jail class follows the source's release code branch by branch.
- `Simulation` (`simulation.dfy`): the simulation class.
  - `Turn` is one loop body of `run`, split into `Imprisoned`, the third-double branch and `Advance`, with `Count`
    for the counter.
  - `Land` is the cell dispatch.
  - `PlayTurn` is one loop iteration with its dice and shuffles drawn from the run's inputs.
  - `RunUntil` is one of `run`'s loops; `PlayToCheckpoint` runs it and takes the report.
  - `Run` runs the four checkpoints.

How the model represents the source:

- **Cards** are the source's integers:
  - `-1` blank;
  - `-2` get out of jail;
  - `-3` go to jail;
  - `-4` back three cells;
  - `-5` next railroad;
  - `-6` next utility;
  - a value `>= 0` names a cell.
- **Dice** become inputs in 1..6.
- **`Collections.shuffle`** becomes an argument: the reshuffled order, required to be a permutation of the pile it
  shuffles.
- **Jail wiring:** the source wires each deck to the jail with `setJail`; here the jail is passed to the deck's
  `Move`.
- **Sending to jail:** `sentToJail` sets only the imprisoned flag. The waiting counter is already zero whenever the
  token is free: this is the jail's invariant.
- **Jail release:** a release moves the token `position + die1 + die2` with no wrap-around. From cell 10 that is one
  of cells 12..22, so no wrap is needed.
- **Jail release and landing cells:** a token leaving jail is not dispatched to the cell it reaches. A release onto
  17 or 22 draws no card. The model keeps this, and `Turn`'s contract states it: no deck changes on a release,
  except for a used get-out-of-jail card.

Proved properties include:

- card conservation across draws, refills and the use of a held card, as a multiset invariant of each deck;
- the draw pile is never empty when drawn from, and every drawn card is one the resolution handles, so the source's
  invalid-card throws cannot happen;
- the railroad and utility cards choose the first such cell ahead;
- the release priority, and release within three turns;
- between turns:
  - the position is on the board;
  - the doubles count is at most 2;
  - an imprisoned token is on cell 10;
  - the token never rests on the go-to-jail cell, whose counter stays zero;
- every run is a trace of states in which each step is one `TurnStep` under that turn's dice and shuffles;
- the histogram is exactly the tally of that trace, cell by cell. So the report at each checkpoint counts the turns
  up to it, totals the checkpoint, never exceeds it on any cell, and is at most the next report on every cell.

## Model

| member | source | states |
|---|---|---|
| Board.BoardSpaces | src/monopoly/MonopolySimulation.java:64-72 | The cell map has only board cells as keys, sends cell 10 to the jail and cell 30 to go-to-jail |
| Board.JavaRem | src/monopoly/MonopolySimulation.java:123 | Java's `%` with a positive divisor: equals Dafny's remainder, in `[0, b)`, for a non-negative dividend, and lies in `(-b, 0]` for a negative one. By 40 it differs from its dividend by a multiple of 40, which fixes its value for negative dividends too |
| Cards.ChanceCards | src/monopoly/ChanceBoardObject.java:42-66 | The fresh Chance deck is 16 cards, exactly one of them the get-out-of-jail card, all of them Chance card values |
| Cards.CommunityChestCards | src/monopoly/CommunityChestBoardObject.java:41-57 | The fresh Community Chest deck is 16 cards, exactly one of them the get-out-of-jail card, all of them Community Chest card values |
| Cards.ConservedPool | src/monopoly/ChanceBoardObject.java:84-95 | Conservation (moving the draw pile card by card onto the discard pile leaves exactly the deck's cards, with the held card) is equivalent to the multiset of draw pile, discard pile and held card being the deck's cards |
| Cards.FreshConserved | src/monopoly/ChanceBoardObject.java:43-45 | A freshly shuffled deck with an empty discard pile and no held card conserves its cards |
| Cards.ConservedDeck | src/monopoly/CommunityChestBoardObject.java:77-88 | Under conservation of a 16-card deck with one get-out-of-jail card, the piles and the held card number 16, and a held card is in neither pile |
| Cards.DrawConserves | src/monopoly/ChanceBoardObject.java:84-95 | A whole draw (refill if empty, take the last card, discard it unless it is the get-out-of-jail card) never meets an empty pile, draws one of the deck's cards, draws the get-out-of-jail card only when it is not held, and keeps conservation |
| Cards.RefillConserves | src/monopoly/ChanceBoardObject.java:84-88 | Replacing an empty draw pile by a permutation of the discard pile and clearing the discard pile keeps conservation and yields a non-empty pile |
| Cards.RefillDraw | src/monopoly/CommunityChestBoardObject.java:77-88 | Drawing right after a refill takes one of the deck's cards, never a held get-out-of-jail card, and keeps conservation |
| Cards.DrawLast | src/monopoly/CommunityChestBoardObject.java:84-88 | Taking the last card of a non-empty pile and discarding it (or holding it, for the get-out-of-jail card) keeps conservation |
| Cards.GiveBackConserves | src/monopoly/ChanceBoardObject.java:152-157 | Putting the held get-out-of-jail card on the discard pile and clearing the flag keeps conservation |
| Cards.NextRailroad | src/monopoly/ChanceBoardObject.java:119-127 | The railroad card always yields a railroad cell |
| Cards.NextRailroadIsNext | src/monopoly/ChanceBoardObject.java:119-127 | From any cell, the chosen railroad is the first railroad ahead, going round past Go |
| Cards.NextUtility | src/monopoly/ChanceBoardObject.java:130-134 | The utility card always yields a utility cell |
| Cards.NextUtilityIsNext | src/monopoly/ChanceBoardObject.java:130-134 | From any cell, the chosen utility is the first utility ahead, going round past Go |
| Cards.ChanceTarget | src/monopoly/ChanceBoardObject.java:97-137 | Defined on every value the Chance code resolves without throwing: any value `>= 0`, taken as a cell, and the six special cards. From a board cell, a card below 40 yields a board cell; a value of 40 or more is returned as it is, as in the code |
| Cards.ChanceTargetEffects | src/monopoly/ChanceBoardObject.java:97-134 | Per card: blank and get-out-of-jail keep the position, a cell card goes to its cell, go-to-jail goes to 10, back-three goes three cells back modulo 40, and railroad and utility go to the next one ahead |
| Cards.CommunityChestTarget | src/monopoly/CommunityChestBoardObject.java:90-109 | Defined on every value the Community Chest code resolves without throwing: any value `>= 0` and the three special cards. Blank and get-out-of-jail keep the position, a value `>= 0` goes to that cell, go-to-jail goes to 10, and from a board cell a card below 40 yields a board cell |
| Cards.ChanceAvoidsGoToJail | src/monopoly/ChanceBoardObject.java:110-134 | A Chance card drawn on a Chance cell never leaves the token on cell 30 |
| Cards.CommunityChestAvoidsGoToJail | src/monopoly/CommunityChestBoardObject.java:90-106 | A Community Chest card drawn on a Community Chest cell never leaves the token on cell 30 |
| JailRules.JailExitRules | src/monopoly/JailBoardObject.java:55-92 | On the first turn, a held Chance card is used before a held Community Chest card, and then the pay-at-once strategy pays. Cards and the fine are used only on the first turn. The token stays exactly when it rolls no doubles, it is not the third turn, and nothing freed it on the first |
| JailRules.ReleasedWithinThreeTurns | src/monopoly/JailBoardObject.java:84-88 | An imprisoned token is released within its next `3 - served` turns whatever the dice |
| Histogram.SumIncrement | src/monopoly/MonopolySimulation.java:133-136 | Counting one more turn on one cell adds exactly one to the histogram's total |
| Histogram.SumZero | src/monopoly/MonopolySimulation.java:53 | The fresh all-zero histogram totals zero |
| BoardObjects.ChanceBoardObject.constructor | src/monopoly/ChanceBoardObject.java:42-71 | The draw pile is the given shuffle of the 16 Chance cards, the discard pile is empty, no card is held, and conservation holds |
| BoardObjects.ChanceBoardObject.Draw | src/monopoly/ChanceBoardObject.java:84-95 | Refill when empty, then pop and discard: the new piles and flag are the pure draw's, the card is a Chance card, and conservation holds |
| BoardObjects.ChanceBoardObject.Pop | src/monopoly/ChanceBoardObject.java:91-95 | The card is the last of the pile and is removed; it joins the discard pile unless it is the get-out-of-jail card, which sets the flag |
| BoardObjects.ChanceBoardObject.Refill | src/monopoly/ChanceBoardObject.java:84-88 | An empty draw pile becomes the given permutation of the discard pile, which is cleared; the pile is then non-empty and the flag unchanged |
| BoardObjects.ChanceBoardObject.Move | src/monopoly/ChanceBoardObject.java:81-138 | A draw followed by the card's resolution: piles and flag as the pure draw gives, the jail imprisons exactly on the go-to-jail card with its counter unchanged, and the result is the resolved target |
| BoardObjects.ChanceBoardObject.UseGetOutOfJailCard | src/monopoly/ChanceBoardObject.java:152-157 | With the card held: clears the flag, appends the card to the discard pile, leaves the draw pile alone, keeps conservation |
| BoardObjects.CommunityChestBoardObject.constructor | src/monopoly/CommunityChestBoardObject.java:41-63 | The draw pile is the given shuffle of the 16 Community Chest cards, the discard pile is empty, no card is held, and conservation holds |
| BoardObjects.CommunityChestBoardObject.Draw | src/monopoly/CommunityChestBoardObject.java:77-88 | Refill when empty, then pop and discard: the new piles and flag are the pure draw's, the card is a Community Chest card, and conservation holds |
| BoardObjects.CommunityChestBoardObject.Pop | src/monopoly/CommunityChestBoardObject.java:84-88 | The card is the last of the pile and is removed; it joins the discard pile unless it is the get-out-of-jail card, which sets the flag |
| BoardObjects.CommunityChestBoardObject.Refill | src/monopoly/CommunityChestBoardObject.java:77-81 | An empty draw pile becomes the given permutation of the discard pile, which is cleared; the pile is then non-empty and the flag unchanged |
| BoardObjects.CommunityChestBoardObject.Move | src/monopoly/CommunityChestBoardObject.java:74-110 | A draw followed by the card's resolution: piles and flag as the pure draw gives, the jail imprisons exactly on the go-to-jail card, and the result is the resolved target |
| BoardObjects.CommunityChestBoardObject.UseGetOutOfJailCard | src/monopoly/CommunityChestBoardObject.java:124-129 | With the card held: clears the flag, appends the card to the discard pile, leaves the draw pile alone, keeps conservation |
| BoardObjects.JailBoardObject.constructor | src/monopoly/JailBoardObject.java:36-42 | Wired to the two decks with the given strategy, token not imprisoned, counter zero |
| BoardObjects.JailBoardObject.Move | src/monopoly/JailBoardObject.java:53-93 | A visitor gets 10 and nothing changes. An imprisoned token that stays gets 10 and its counter goes up by one. A released token gets `position + die1 + die2`, leaves jail and has its counter reset. Only a used deck changes, by giving its card back. The counter stays in 0..2 and is zero outside jail and under the pay-at-once strategy |
| BoardObjects.JailBoardObject.SentToJail | src/monopoly/JailBoardObject.java:99-101 | Imprisons the token, leaving the counter as it is |
| BoardObjects.GoToJailBoardObject.constructor | src/monopoly/GoToJailBoardObject.java:19-21 | Wired to the given jail |
| BoardObjects.GoToJailBoardObject.Move | src/monopoly/GoToJailBoardObject.java:31-34 | Always yields 10 whatever the dice and position, and leaves the token imprisoned with the counter unchanged. The new state does not depend on the old imprisoned flag, so a second call changes nothing |
| Simulation.NewHistogram | src/monopoly/MonopolySimulation.java:53 | A fresh array of 40 zero counters |
| Simulation.MonopolySimulation.constructor | src/monopoly/MonopolySimulation.java:46-73 | Objects wired as in the source, the cell map installed, the decks in the given shuffles, an empty histogram, the token not imprisoned |
| Simulation.MonopolySimulation.Turn | src/monopoly/MonopolySimulation.java:92-136 | One turn is a `TurnStep` from the state before to the state after. An imprisoned token is resolved by the jail's release rule with the doubles count reset: it stays on 10 with its counter up by one, or is released onto `position + die1 + die2` with no wrap-around, giving back the card it used. A third double goes to 10 and imprisons, counter unchanged. Any other move sets the doubles count and goes to `(position + die1 + die2) % 40`, where the cell's object applies once (`Landed`). Exactly the final cell's counter goes up by one. Between turns the position is in 0..39 and never 30, doubles are at most 2, and an imprisoned token is on 10 |
| Simulation.MonopolySimulation.Count | src/monopoly/MonopolySimulation.java:133 | Exactly the given cell's counter goes up by one, and the histogram stays non-negative with the go-to-jail counter zero |
| Simulation.MonopolySimulation.Imprisoned | src/monopoly/MonopolySimulation.java:97-104 | An imprisoned token's turn is the jail's move with the doubles count reset, and is a `TurnStep` |
| Simulation.MonopolySimulation.Advance | src/monopoly/MonopolySimulation.java:106-128 | A free token's turn that is not its third double: the doubles count goes up on a double and resets otherwise, the token moves the dice total round the board and lands there, and the turn is a `TurnStep` |
| Simulation.MonopolySimulation.Land | src/monopoly/MonopolySimulation.java:126-128 | The landing dispatch is `Landed`. A plain cell keeps the position. Chance and Community Chest draw the top card, refilling if empty, and resolve it, imprisoning on the go-to-jail card. The jail cell leaves a visitor on 10. Go-to-jail imprisons on 10. The other deck is untouched, the jail counter is unchanged, and the result is never cell 30 |
| Simulation.MonopolySimulation.PlayTurn | src/monopoly/MonopolySimulation.java:92-136 | Turn number `t` with the dice `roll(2t)` and `roll(2t+1)`. The trace grows by the state reached, and stays a played trace. The histogram stays its starting value plus the trace's visits on every cell, and its total grows by one |
| Simulation.MonopolySimulation.RunUntil | src/monopoly/MonopolySimulation.java:92-137 | Turns are played until the limit. Afterwards the turn count is the limit, or the starting count if that was already past it. The returned trace starts at the starting state, ends at the final one, and has one step per turn played, each a `TurnStep` under that turn's dice and shuffles. The histogram is the starting one plus that trace's visits on every cell, and it totals the turn count |
| Simulation.MonopolySimulation.PlayToCheckpoint | src/monopoly/MonopolySimulation.java:140-188 | One of `run`'s loops followed by its report: the turn count reaches the checkpoint, the trace is extended by the turns played and stays played from turn 0, and the histogram is the tally of the whole trace. All reports so far are the tallies of the trace up to their checkpoints, and each totals its checkpoint with cell 30 at zero |
| Simulation.MonopolySimulation.Run | src/monopoly/MonopolySimulation.java:80-290 | The four loops to 1,000, 10,000, 100,000 and 1,000,000 turns from Go with no doubles, as one trace of 1,000,001 states each step of which is a `TurnStep`. The report at each checkpoint is the tally of the trace up to that checkpoint. It has 40 counters totalling the checkpoint, each between 0 and the checkpoint, with cell 30 at zero. Each report is at most every later one on every cell. The last report is the final histogram |
| Traces.PlayedExtend | src/monopoly/MonopolySimulation.java:92-137 | A played trace followed by its next turn is a played trace one state longer |
| Traces.PlayedJoin | src/monopoly/MonopolySimulation.java:138-141 | A played trace joined with one played from where and when it ends is played as a whole |
| Traces.VisitsJoin | src/monopoly/MonopolySimulation.java:133 | The turns ended on a cell add up over a trace and its continuation |
| Traces.TallySum | src/monopoly/MonopolySimulation.java:133-136 | Counting each turn's final cell once, the histogram of a trace whose turns end on the board totals its number of turns |
| Traces.TallyJoin | src/monopoly/MonopolySimulation.java:133-138 | A histogram that is a trace's tally plus a continuation's visits is the tally of the joined trace |
| Traces.VisitsPrefix | src/monopoly/MonopolySimulation.java:133 | A longer prefix of a trace ends no fewer turns on any cell, so no counter ever decreases |
| Traces.VisitsAtMost | src/monopoly/MonopolySimulation.java:133-136 | No cell has more visits than the trace has turns |
| Traces.ReportedExtend | src/monopoly/MonopolySimulation.java:138 | Reporting the tally at the next checkpoint keeps every earlier report the tally of the trace up to its own checkpoint |
| Traces.ReportedGrow | src/monopoly/MonopolySimulation.java:138-290 | With the checkpoints increasing, each report is at most every later report on every cell, and no counter exceeds its checkpoint |

## Left out

- `printResults` (console output, clipboard, number formatting, the pause): I/O. `Run` returns the histogram as it stands at each checkpoint instead.
- `rollDie` and `Collections.shuffle`: randomness. The dice are inputs in 1..6; `RunUntil` and `Run` take a roll function indexed by turn and a shuffle function that returns a permutation of its input. The distributions and the frequency statistics they produce are not modelled.
- Simulation.MonopolySimulation.PlayTurn: computes a shuffle of each discard pile every turn; the source shuffles only when a deck is empty. The computed order is used only by a deck that must refill, so the states reached are the same.
- The driver class that parses arguments and builds and runs simulations: glue outside the engine.
- The `BoardObjects` interface: it has no behaviour; its dynamic dispatch is the `match` on `Space` in `Land`.
- `setJail` and the window in which a deck has no jail yet: the jail is passed to each deck's `Move`.
- The getters `hasGetOutOfJailCard` and `isInJail`: the model reads the fields directly.
- BoardObjects.ChanceBoardObject.UseGetOutOfJailCard: the throw when no card is held is a precondition, because the jail only calls it after checking the flag. The same holds for the Community Chest deck.
- Cards.ChanceTarget: the invalid-card throw, for a value below -6, is a precondition. The deck invariant shows that every drawn card meets it, so the throw is unreachable. The same holds for `Cards.CommunityChestTarget`, whose throw is for a value below -3.
- Simulation.MonopolySimulation.Run: models one call of `run` on a freshly built simulation (empty histogram, token free). A second call, which would restart the position and doubles count but keep the decks, jail and histogram, is not modelled. `RunUntil` does accept any valid state.
- Java `int` overflow: the counters reach at most 1,000,000 and positions at most 39, so unbounded integers agree with the source.
