/** The release rule the jail applies on each turn the token spends in jail. */
module JailRules {

  /** How an imprisoned token leaves jail on this turn, or that it stays. */
  datatype Exit =
    | Stay
    | UseChanceCard
    | UseCommunityChestCard
    | PayFine
    | DoublesOrThirdTurn

  /** The release decision, given the number of the turn being spent in jail
      (1 for the first), the release strategy (false: pay at once; true: try
      for doubles), which get-out-of-jail cards are held, and the dice. */
  function JailExit(turnsInJail: int, strategy: bool, chanceCard: bool, communityChestCard: bool,
                    die1: int, die2: int): Exit
  {
    if turnsInJail == 1 && chanceCard then UseChanceCard
    else if turnsInJail == 1 && communityChestCard then UseCommunityChestCard
    else if turnsInJail == 1 && !strategy then PayFine
    else if turnsInJail == 3 || die1 == die2 then DoublesOrThirdTurn
    else Stay
  }

  /** The release rule: on the first turn a held Chance card is used before
      a held Community Chest card, and without cards the pay-at-once strategy
      pays the fine; cards and the fine are only used on the first turn; and
      the token stays exactly when it rolls no doubles, it is not its third
      turn, and nothing released it on the first. */
  lemma JailExitRules(turnsInJail: int, strategy: bool, chanceCard: bool, communityChestCard: bool,
                      die1: int, die2: int)
    ensures var e := JailExit(turnsInJail, strategy, chanceCard, communityChestCard, die1, die2);
            (turnsInJail == 1 && chanceCard ==> e == UseChanceCard) &&
            (turnsInJail == 1 && !chanceCard && communityChestCard ==> e == UseCommunityChestCard) &&
            (turnsInJail == 1 && !chanceCard && !communityChestCard && !strategy ==> e == PayFine) &&
            (e == UseChanceCard ==> turnsInJail == 1 && chanceCard) &&
            (e == UseCommunityChestCard ==> turnsInJail == 1 && communityChestCard) &&
            (e == PayFine ==> turnsInJail == 1 && !strategy) &&
            (e == Stay <==>
               die1 != die2 && turnsInJail != 3 &&
               (turnsInJail != 1 || (strategy && !chanceCard && !communityChestCard)))
  {
  }

  /** An imprisoned token that has already served `served` turns (0, 1 or
      2) is released on one of its next `3 - served` turns, whatever the dice
      show: staying changes neither the cards held nor the strategy, and the
      third turn always releases. */
  lemma {:induction false} ReleasedWithinThreeTurns(served: int, strategy: bool, chanceCard: bool,
                                                    communityChestCard: bool, rolls: seq<(int, int)>)
    requires 0 <= served <= 2 && |rolls| >= 3 - served
    ensures exists i :: 0 <= i < 3 - served &&
              JailExit(served + 1 + i, strategy, chanceCard, communityChestCard, rolls[i].0, rolls[i].1) != Stay
    decreases 3 - served
  {
    if JailExit(served + 1, strategy, chanceCard, communityChestCard, rolls[0].0, rolls[0].1) != Stay {
      assert 0 < 3 - served;
    } else {
      assert served + 1 != 3;
      ReleasedWithinThreeTurns(served + 1, strategy, chanceCard, communityChestCard, rolls[1..]);
      var j :| 0 <= j < 2 - served &&
               JailExit(served + 2 + j, strategy, chanceCard, communityChestCard,
                        rolls[1..][j].0, rolls[1..][j].1) != Stay;
      assert rolls[1..][j] == rolls[j + 1];
      assert 0 <= j + 1 < 3 - served;
    }
  }
}
