/** The objects behind the special cells: the two card decks, the jail and
    the go-to-jail cell. They live in one module because they call each other:
    a deck's go-to-jail card imprisons the token, and the jail consumes the
    decks' get-out-of-jail cards. */
module BoardObjects {
  import opened Board
  import opened Cards
  import opened JailRules

  /** The Chance deck: a draw pile, a discard pile and the flag saying that
      the player holds the deck's get-out-of-jail card. */
  class ChanceBoardObject {
    var deck: seq<int>
    var discard: seq<int>
    var hasGetOutOfJailCard: bool
    /** The deck's cards, fixed at construction. */
    ghost const cards: multiset<int>

    /** Card conservation: the draw pile, the discard pile and the held card
        are always exactly the deck's 16 cards. */
    ghost predicate Valid()
      reads this
    {
      Conserved(deck, discard, hasGetOutOfJailCard, cards) && ChanceDeck(cards)
    }

    /** A fresh deck: the 16 Chance cards in the shuffled order `order`, an
        empty discard pile and no card held. */
    constructor (order: seq<int>)
      requires multiset(order) == ChanceCards()
      ensures Valid() && cards == ChanceCards()
      ensures deck == order && discard == [] && !hasGetOutOfJailCard
    {
      FreshConserved(order);
      deck := order;
      discard := [];
      hasGetOutOfJailCard := false;
      cards := multiset(order);
    }

    /** Refill an empty draw pile from the discard pile, reshuffled into
        `order`, then take the pile's last card and discard or hold it. The
        pile is never empty when drawn from. */
    method Draw(order: seq<int>) returns (card: int)
      requires Valid()
      requires deck == [] ==> multiset(order) == multiset(discard)
      modifies this
      ensures Valid()
      ensures Refilled(old(deck), order) != [] && card == TopCard(old(deck), order)
      ensures IsChanceCard(card)
      ensures deck == DrawnDeck(old(deck), order)
      ensures discard == DrawnDiscard(old(deck), old(discard), order)
      ensures hasGetOutOfJailCard == (old(hasGetOutOfJailCard) || card == GetOutOfJailFree)
    {
      if deck == [] {
        Refill(order);
      }
      card := Pop();
    }

    /** Take the last card of the draw pile: it goes to the discard pile,
        unless it is the get-out-of-jail card, which the player now holds.
        The card is one of the deck's, so a valid one. */
    method Pop() returns (card: int)
      requires Valid() && deck != []
      modifies this
      ensures Valid()
      ensures card == old(deck)[|old(deck)| - 1] && IsChanceCard(card)
      ensures deck == old(deck)[..|old(deck)| - 1]
      ensures discard == old(discard) + Discarded(card)
      ensures hasGetOutOfJailCard == (old(hasGetOutOfJailCard) || card == GetOutOfJailFree)
    {
      DrawLast(deck, discard, hasGetOutOfJailCard, cards);
      card := deck[|deck| - 1];
      deck := deck[..|deck| - 1];
      discard := discard + Discarded(card);
      hasGetOutOfJailCard := hasGetOutOfJailCard || card == GetOutOfJailFree;
    }

    /** Turn the discard pile, reshuffled into `order`, into the new draw
        pile; the discard pile is left empty. */
    method Refill(order: seq<int>)
      requires Valid() && deck == [] && multiset(order) == multiset(discard)
      modifies this
      ensures Valid() && deck == order && discard == [] && deck != []
      ensures hasGetOutOfJailCard == old(hasGetOutOfJailCard)
    {
      RefillConserves(discard, hasGetOutOfJailCard, cards, order);
      deck := order;
      discard := [];
    }

    /** Landing on a Chance cell: draw a card and resolve it. The go-to-jail
        card imprisons the token in `jail`; the card decides the new position. */
    method Move(die1: int, die2: int, position: int, jail: JailBoardObject, order: seq<int>)
      returns (r: int)
      requires Valid()
      requires deck == [] ==> multiset(order) == multiset(discard)
      modifies this, jail
      ensures Valid()
      ensures Refilled(old(deck), order) != []
      ensures IsChanceCard(TopCard(old(deck), order))
      ensures deck == DrawnDeck(old(deck), order)
      ensures discard == DrawnDiscard(old(deck), old(discard), order)
      ensures hasGetOutOfJailCard == (old(hasGetOutOfJailCard) || TopCard(old(deck), order) == GetOutOfJailFree)
      ensures jail.inJail == (old(jail.inJail) || TopCard(old(deck), order) == GoToJailCard)
      ensures jail.turnsInJail == old(jail.turnsInJail)
      ensures r == ChanceTarget(TopCard(old(deck), order), position)
    {
      var card := Draw(order);
      if card == GoToJailCard {
        jail.SentToJail();
      }
      r := ChanceTarget(card, position);
    }

    /** Give the held get-out-of-jail card back: it goes to the discard pile
        and the draw pile is left alone. The source throws when no card is
        held; every caller checks the flag first. */
    method UseGetOutOfJailCard()
      requires Valid() && hasGetOutOfJailCard
      modifies this
      ensures Valid()
      ensures !hasGetOutOfJailCard
      ensures deck == old(deck) && discard == old(discard) + [GetOutOfJailFree]
    {
      GiveBackConserves(deck, discard, cards);
      hasGetOutOfJailCard := false;
      discard := discard + [GetOutOfJailFree];
    }
  }

  /** The Community Chest deck, with the same piles and flag as Chance. */
  class CommunityChestBoardObject {
    var deck: seq<int>
    var discard: seq<int>
    var hasGetOutOfJailCard: bool
    /** The deck's cards, fixed at construction. */
    ghost const cards: multiset<int>

    /** Card conservation: the draw pile, the discard pile and the held card
        are always exactly the deck's 16 cards. */
    ghost predicate Valid()
      reads this
    {
      Conserved(deck, discard, hasGetOutOfJailCard, cards) && CommunityChestDeck(cards)
    }

    /** A fresh deck: the 16 Community Chest cards in the shuffled order
        `order`, an empty discard pile and no card held. */
    constructor (order: seq<int>)
      requires multiset(order) == CommunityChestCards()
      ensures Valid() && cards == CommunityChestCards()
      ensures deck == order && discard == [] && !hasGetOutOfJailCard
    {
      FreshConserved(order);
      deck := order;
      discard := [];
      hasGetOutOfJailCard := false;
      cards := multiset(order);
    }

    /** Refill an empty draw pile from the discard pile, reshuffled into
        `order`, then take the pile's last card and discard or hold it. The
        pile is never empty when drawn from. */
    method Draw(order: seq<int>) returns (card: int)
      requires Valid()
      requires deck == [] ==> multiset(order) == multiset(discard)
      modifies this
      ensures Valid()
      ensures Refilled(old(deck), order) != [] && card == TopCard(old(deck), order)
      ensures IsCommunityChestCard(card)
      ensures deck == DrawnDeck(old(deck), order)
      ensures discard == DrawnDiscard(old(deck), old(discard), order)
      ensures hasGetOutOfJailCard == (old(hasGetOutOfJailCard) || card == GetOutOfJailFree)
    {
      if deck == [] {
        Refill(order);
      }
      card := Pop();
    }

    /** Take the last card of the draw pile: it goes to the discard pile,
        unless it is the get-out-of-jail card, which the player now holds.
        The card is one of the deck's, so a valid one. */
    method Pop() returns (card: int)
      requires Valid() && deck != []
      modifies this
      ensures Valid()
      ensures card == old(deck)[|old(deck)| - 1] && IsCommunityChestCard(card)
      ensures deck == old(deck)[..|old(deck)| - 1]
      ensures discard == old(discard) + Discarded(card)
      ensures hasGetOutOfJailCard == (old(hasGetOutOfJailCard) || card == GetOutOfJailFree)
    {
      DrawLast(deck, discard, hasGetOutOfJailCard, cards);
      card := deck[|deck| - 1];
      deck := deck[..|deck| - 1];
      discard := discard + Discarded(card);
      hasGetOutOfJailCard := hasGetOutOfJailCard || card == GetOutOfJailFree;
    }

    /** Turn the discard pile, reshuffled into `order`, into the new draw
        pile; the discard pile is left empty. */
    method Refill(order: seq<int>)
      requires Valid() && deck == [] && multiset(order) == multiset(discard)
      modifies this
      ensures Valid() && deck == order && discard == [] && deck != []
      ensures hasGetOutOfJailCard == old(hasGetOutOfJailCard)
    {
      RefillConserves(discard, hasGetOutOfJailCard, cards, order);
      deck := order;
      discard := [];
    }

    /** Landing on a Community Chest cell: draw a card and resolve it, as
        for Chance. */
    method Move(die1: int, die2: int, position: int, jail: JailBoardObject, order: seq<int>)
      returns (r: int)
      requires Valid()
      requires deck == [] ==> multiset(order) == multiset(discard)
      modifies this, jail
      ensures Valid()
      ensures Refilled(old(deck), order) != []
      ensures IsCommunityChestCard(TopCard(old(deck), order))
      ensures deck == DrawnDeck(old(deck), order)
      ensures discard == DrawnDiscard(old(deck), old(discard), order)
      ensures hasGetOutOfJailCard == (old(hasGetOutOfJailCard) || TopCard(old(deck), order) == GetOutOfJailFree)
      ensures jail.inJail == (old(jail.inJail) || TopCard(old(deck), order) == GoToJailCard)
      ensures jail.turnsInJail == old(jail.turnsInJail)
      ensures r == CommunityChestTarget(TopCard(old(deck), order), position)
    {
      var card := Draw(order);
      if card == GoToJailCard {
        jail.SentToJail();
      }
      r := CommunityChestTarget(card, position);
    }

    /** Give the held get-out-of-jail card back: it goes to the discard pile
        and the draw pile is left alone. The source throws when no card is
        held; every caller checks the flag first. */
    method UseGetOutOfJailCard()
      requires Valid() && hasGetOutOfJailCard
      modifies this
      ensures Valid()
      ensures !hasGetOutOfJailCard
      ensures deck == old(deck) && discard == old(discard) + [GetOutOfJailFree]
    {
      GiveBackConserves(deck, discard, cards);
      hasGetOutOfJailCard := false;
      discard := discard + [GetOutOfJailFree];
    }
  }

  /** The jail cell: whether the token is imprisoned (rather than visiting),
      how many turns it has spent there, and the fixed release strategy. */
  class JailBoardObject {
    const chance: ChanceBoardObject
    const communityChest: CommunityChestBoardObject
    const strategy: bool
    var inJail: bool
    var turnsInJail: int

    /** The counter is zero unless the token is imprisoned, never more than
        two between turns, and always zero under the pay-at-once strategy. */
    ghost predicate Valid()
      reads this
    {
      0 <= turnsInJail <= 2 &&
      (!inJail ==> turnsInJail == 0) &&
      (!strategy ==> turnsInJail == 0)
    }

    /** A jail wired to the two decks whose get-out-of-jail cards it uses,
        with the token not imprisoned. */
    constructor (strategy: bool, chance: ChanceBoardObject, communityChest: CommunityChestBoardObject)
      ensures Valid()
      ensures this.strategy == strategy && this.chance == chance && this.communityChest == communityChest
      ensures !inJail && turnsInJail == 0
    {
      this.chance := chance;
      this.communityChest := communityChest;
      this.strategy := strategy;
      inJail := false;
      turnsInJail := 0;
    }

    /** How an imprisoned token's next turn ends, given the dice: the turn
        about to be counted, the strategy and the cards held now. */
    ghost function NextExit(die1: int, die2: int): Exit
      reads this, chance, communityChest
    {
      JailExit(turnsInJail + 1, strategy, chance.hasGetOutOfJailCard,
               communityChest.hasGetOutOfJailCard, die1, die2)
    }

    /** A turn on the jail cell. A visitor stays on the jail cell and nothing
        changes. An imprisoned token counts one more turn and is released as
        JailExit decides, consuming at most one card; a released token moves
        `die1 + die2` cells from `position` (the caller applies no wrap-around). */
    method Move(die1: int, die2: int, position: int) returns (r: int)
      requires Valid() && chance.Valid() && communityChest.Valid()
      modifies this, chance, communityChest
      ensures Valid() && chance.Valid() && communityChest.Valid()
      ensures !old(inJail) ==> r == JailCell && !inJail && turnsInJail == old(turnsInJail)
      ensures old(inJail) && old(NextExit(die1, die2)) == Stay ==>
                r == JailCell && inJail && turnsInJail == old(turnsInJail) + 1
      ensures old(inJail) && old(NextExit(die1, die2)) != Stay ==>
                r == position + die1 + die2 && !inJail && turnsInJail == 0
      ensures old(inJail) && old(NextExit(die1, die2)) == UseChanceCard ==>
                GaveBack(old(chance.deck), old(chance.discard), old(chance.hasGetOutOfJailCard),
                         chance.deck, chance.discard, chance.hasGetOutOfJailCard)
      ensures old(inJail) && old(NextExit(die1, die2)) == UseCommunityChestCard ==>
                GaveBack(old(communityChest.deck), old(communityChest.discard),
                         old(communityChest.hasGetOutOfJailCard), communityChest.deck,
                         communityChest.discard, communityChest.hasGetOutOfJailCard)
      ensures !(old(inJail) && old(NextExit(die1, die2)) == UseChanceCard) ==> unchanged(chance)
      ensures !(old(inJail) && old(NextExit(die1, die2)) == UseCommunityChestCard) ==> unchanged(communityChest)
    {
      ghost var exit := NextExit(die1, die2);
      if inJail {
        turnsInJail := turnsInJail + 1;
        if turnsInJail == 1 {
          if chance.hasGetOutOfJailCard {
            assert exit == UseChanceCard;
            chance.UseGetOutOfJailCard();
            inJail := false;
            turnsInJail := 0;
            return position + die1 + die2;
          } else if communityChest.hasGetOutOfJailCard {
            assert exit == UseCommunityChestCard;
            communityChest.UseGetOutOfJailCard();
            inJail := false;
            turnsInJail := 0;
            return position + die1 + die2;
          } else if !strategy {
            assert exit == PayFine;
            inJail := false;
            turnsInJail := 0;
            return position + die1 + die2;
          }
        }
        if turnsInJail == 3 || die1 == die2 {
          assert exit == DoublesOrThirdTurn;
          inJail := false;
          turnsInJail := 0;
          return position + die1 + die2;
        }
        assert exit == Stay;
      }
      return JailCell;
    }

    /** Imprison the token; the turn counter is left as it is. */
    method SentToJail()
      modifies this
      ensures inJail && turnsInJail == old(turnsInJail)
    {
      inJail := true;
    }
  }

  /** The go-to-jail cell. */
  class GoToJailBoardObject {
    const jail: JailBoardObject

    constructor (jail: JailBoardObject)
      ensures this.jail == jail
    {
      this.jail := jail;
    }

    /** Imprison the token and put it on the jail cell, whatever the dice and
        the position; the jail's turn counter is left as it is. */
    method Move(die1: int, die2: int, position: int) returns (r: int)
      modifies jail
      ensures r == JailCell
      ensures jail.inJail && jail.turnsInJail == old(jail.turnsInJail)
    {
      jail.SentToJail();
      r := JailCell;
    }
  }
}
