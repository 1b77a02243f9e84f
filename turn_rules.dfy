/** What one turn does to the token and the board objects, stated on values. */
module TurnRules {
  import opened Board
  import opened Cards
  import opened JailRules

  /** A deck as a turn sees it: the draw pile (top card last), the discard
      pile, and whether its get-out-of-jail card is out of the deck. */
  datatype Pile = Pile(deck: seq<int>, discard: seq<int>, held: bool)

  /** The board objects' state: the jail's flag and counter and the two decks. */
  datatype Objects = Objects(inJail: bool, turnsInJail: int, chance: Pile, communityChest: Pile)

  /** Everything one turn reads and changes, the histogram aside. */
  datatype State = State(position: int, doublesInARow: int, objects: Objects)

  /** The token, not imprisoned, lands on `cell` with the objects in state
      `o`, and the cell's object leaves it on `r` with the objects in state
      `o'`. A Chance or Community Chest cell draws that deck's top card
      (refilling from `chanceOrder` or `chestOrder` when empty) and resolves
      it, the go-to-jail card imprisoning the token; the go-to-jail cell
      imprisons it on the jail cell; the jail cell keeps a visitor there; any
      other cell keeps the token where it landed. */
  ghost predicate Landed(cell: int, o: Objects, r: int, o': Objects,
                         chanceOrder: seq<int>, chestOrder: seq<int>)
  {
    o'.turnsInJail == o.turnsInJail &&
    if LandsOn(cell, Chance) then
      Drew(o.chance.deck, o.chance.discard, o.chance.held,
           o'.chance.deck, o'.chance.discard, o'.chance.held, chanceOrder) &&
      IsChanceCard(TopCard(o.chance.deck, chanceOrder)) &&
      r == ChanceTarget(TopCard(o.chance.deck, chanceOrder), cell) &&
      o'.inJail == (TopCard(o.chance.deck, chanceOrder) == GoToJailCard) &&
      o'.communityChest == o.communityChest
    else if LandsOn(cell, CommunityChest) then
      Drew(o.communityChest.deck, o.communityChest.discard, o.communityChest.held,
           o'.communityChest.deck, o'.communityChest.discard, o'.communityChest.held, chestOrder) &&
      IsCommunityChestCard(TopCard(o.communityChest.deck, chestOrder)) &&
      r == CommunityChestTarget(TopCard(o.communityChest.deck, chestOrder), cell) &&
      o'.inJail == (TopCard(o.communityChest.deck, chestOrder) == GoToJailCard) &&
      o'.chance == o.chance
    else
      o'.chance == o.chance && o'.communityChest == o.communityChest &&
      if LandsOn(cell, Jail) then r == JailCell && !o'.inJail
      else if LandsOn(cell, GoToJail) then r == JailCell && o'.inJail
      else r == cell && !o'.inJail
  }

  /** One turn under the release strategy `strategy` takes state `s` to
      state `s'` when the dice show `die1` and `die2` and the decks would
      refill from `chanceOrder` and `chestOrder`. An imprisoned token turns
      to the jail: it stays, or is released by the rule of JailExit (giving
      back the card it uses) and moves the dice total with no wrap-around,
      and its doubles count resets. Otherwise a third double in a row
      imprisons it on the jail cell; failing that it moves the dice total
      round the board and lands there. */
  ghost predicate TurnStep(strategy: bool, s: State, s': State, die1: int, die2: int,
                           chanceOrder: seq<int>, chestOrder: seq<int>)
  {
    var o, o' := s.objects, s'.objects;
    if o.inJail then
      var exit := JailExit(o.turnsInJail + 1, strategy, o.chance.held, o.communityChest.held, die1, die2);
      s'.doublesInARow == 0 &&
      (if exit == Stay then s'.position == JailCell && o'.inJail && o'.turnsInJail == o.turnsInJail + 1
       else s'.position == s.position + die1 + die2 && !o'.inJail && o'.turnsInJail == 0) &&
      (if exit == UseChanceCard then
         GaveBack(o.chance.deck, o.chance.discard, o.chance.held,
                  o'.chance.deck, o'.chance.discard, o'.chance.held)
       else o'.chance == o.chance) &&
      (if exit == UseCommunityChestCard then
         GaveBack(o.communityChest.deck, o.communityChest.discard, o.communityChest.held,
                  o'.communityChest.deck, o'.communityChest.discard, o'.communityChest.held)
       else o'.communityChest == o.communityChest)
    else if die1 == die2 && s.doublesInARow == 2 then
      s'.position == JailCell && s'.doublesInARow == 0 &&
      o'.inJail && o'.turnsInJail == o.turnsInJail &&
      o'.chance == o.chance && o'.communityChest == o.communityChest
    else
      s'.doublesInARow == (if die1 == die2 then s.doublesInARow + 1 else 0) &&
      Landed((s.position + die1 + die2) % Size, o, s'.position, o', chanceOrder, chestOrder)
  }

  /** An imprisoned token's turn is a step when it follows JailExit. */
  lemma JailedStep(strategy: bool, s: State, s': State, die1: int, die2: int,
                   chanceOrder: seq<int>, chestOrder: seq<int>)
    requires s.objects.inJail && s'.doublesInARow == 0
    requires var o, o' := s.objects, s'.objects;
             var exit := JailExit(o.turnsInJail + 1, strategy, o.chance.held, o.communityChest.held, die1, die2);
             (if exit == Stay then s'.position == JailCell && o'.inJail && o'.turnsInJail == o.turnsInJail + 1
              else s'.position == s.position + die1 + die2 && !o'.inJail && o'.turnsInJail == 0) &&
             (if exit == UseChanceCard then
                GaveBack(o.chance.deck, o.chance.discard, o.chance.held,
                         o'.chance.deck, o'.chance.discard, o'.chance.held)
              else o'.chance == o.chance) &&
             (if exit == UseCommunityChestCard then
                GaveBack(o.communityChest.deck, o.communityChest.discard, o.communityChest.held,
                         o'.communityChest.deck, o'.communityChest.discard, o'.communityChest.held)
              else o'.communityChest == o.communityChest)
    ensures TurnStep(strategy, s, s', die1, die2, chanceOrder, chestOrder)
  {
  }

  /** A free token's third double in a row is a step when it ends in jail. */
  lemma ThirdDoubleStep(strategy: bool, s: State, s': State, die1: int, die2: int,
                        chanceOrder: seq<int>, chestOrder: seq<int>)
    requires !s.objects.inJail && die1 == die2 && s.doublesInARow == 2
    requires s'.position == JailCell && s'.doublesInARow == 0
    requires s'.objects == s.objects.(inJail := true)
    ensures TurnStep(strategy, s, s', die1, die2, chanceOrder, chestOrder)
  {
  }

  /** Any other turn of a free token is a step when it lands on the cell the
      dice total reaches. */
  lemma MoveStep(strategy: bool, s: State, s': State, die1: int, die2: int,
                 chanceOrder: seq<int>, chestOrder: seq<int>, cell: int)
    requires !s.objects.inJail && !(die1 == die2 && s.doublesInARow == 2)
    requires s'.doublesInARow == (if die1 == die2 then s.doublesInARow + 1 else 0)
    requires cell == (s.position + die1 + die2) % Size
    requires Landed(cell, s.objects, s'.position, s'.objects, chanceOrder, chestOrder)
    ensures TurnStep(strategy, s, s', die1, die2, chanceOrder, chestOrder)
  {
  }
}
