/** The Chance and Community Chest cards. A card is the integer the source
    stores in its lists: a value >= 0 moves the token to that cell, the
    negative values are the special cards named below. */
module Cards {
  import opened Board

  const NoEffect := -1
  const GetOutOfJailFree := -2
  const GoToJailCard := -3
  const GoBackThree := -4
  const NearestRailroad := -5
  const NearestUtility := -6

  /** The values a Chance card can have: the five blank cards (-1), the
      five cells the "advance to" cards name, and the special cards -2 to -6. */
  predicate IsChanceCard(c: int)
  {
    c == 0 || c == 5 || c == 11 || c == 24 || c == 39 ||
    (NearestUtility <= c && c <= NoEffect)
  }

  /** The values a Community Chest card can have: blank (-1), "advance to
      Go", and the two jail cards. */
  predicate IsCommunityChestCard(c: int)
  {
    c == Go || (GoToJailCard <= c && c <= NoEffect)
  }

  /** The card values the Chance resolution handles: any non-negative
      value, taken as a cell to move to, or one of the six special cards
      (-1 down to -6); below -6 the source throws. Every Chance card is one
      of them. */
  predicate ChanceResolvable(c: int)
  {
    NearestUtility <= c
  }

  /** The card values the Community Chest resolution handles: any
      non-negative value, taken as a cell, or one of the special cards -1
      down to -3; below -3 the source throws. */
  predicate CommunityChestResolvable(c: int)
  {
    GoToJailCard <= c
  }

  /** A multiset of 16 Chance cards holding one get-out-of-jail card. */
  ghost predicate ChanceDeck(cards: multiset<int>)
  {
    |cards| == 16 && cards[GetOutOfJailFree] == 1 && forall c :: c in cards ==> IsChanceCard(c)
  }

  /** A multiset of 16 Community Chest cards holding one get-out-of-jail card. */
  ghost predicate CommunityChestDeck(cards: multiset<int>)
  {
    |cards| == 16 && cards[GetOutOfJailFree] == 1 && forall c :: c in cards ==> IsCommunityChestCard(c)
  }

  /** The 16 Chance cards, in the order the constructor adds them. */
  function ChanceCards(): (cards: multiset<int>)
    ensures ChanceDeck(cards)
  {
    multiset{NoEffect, NoEffect, NoEffect, NoEffect, NoEffect,
             0, 5, 11, 24, 39,
             GetOutOfJailFree, GoToJailCard, GoBackThree,
             NearestRailroad, NearestRailroad, NearestUtility}
  }

  /** The 16 Community Chest cards, in the order the constructor adds them. */
  function CommunityChestCards(): (cards: multiset<int>)
    ensures CommunityChestDeck(cards)
  {
    multiset{NoEffect, NoEffect, NoEffect, NoEffect, NoEffect, NoEffect, NoEffect,
             NoEffect, NoEffect, NoEffect, NoEffect, NoEffect, NoEffect,
             Go, GetOutOfJailFree, GoToJailCard}
  }

  /** Card conservation: once the draw pile is moved, card by card, onto
      the discard pile, the discard pile and the get-out-of-jail card, while
      the player holds it, are exactly the deck's cards. */
  ghost predicate Conserved(deck: seq<int>, discard: seq<int>, held: bool, cards: multiset<int>)
    decreases |deck|
  {
    if deck == [] then
      multiset(discard) + (if held then multiset{GetOutOfJailFree} else multiset{}) == cards
    else
      Conserved(deck[..|deck| - 1], discard + [deck[|deck| - 1]], held, cards)
  }

  /** Conservation means that the two piles and the held card together are
      exactly the deck's cards. */
  lemma {:induction false} ConservedPool(deck: seq<int>, discard: seq<int>, held: bool, cards: multiset<int>)
    ensures Conserved(deck, discard, held, cards) <==>
            multiset(deck) + multiset(discard) +
            (if held then multiset{GetOutOfJailFree} else multiset{}) == cards
    decreases |deck|
  {
    if deck == [] {
      assert multiset(deck) == multiset{};
    } else {
      var rest, last := deck[..|deck| - 1], deck[|deck| - 1];
      ConservedPool(rest, discard + [last], held, cards);
      assert deck == rest + [last];
      assert multiset(deck) + multiset(discard) == multiset(rest) + multiset(discard + [last]);
    }
  }

  /** A freshly shuffled deck, with nothing discarded or held, conserves
      its own cards. */
  lemma FreshConserved(order: seq<int>)
    ensures Conserved(order, [], false, multiset(order))
  {
    ConservedPool(order, [], false, multiset(order));
    assert multiset(order) + multiset([]) + multiset{} == multiset(order);
  }

  /** What conservation guarantees for a 16-card deck holding one
      get-out-of-jail card: the piles and the held card number 16, so
      refilling an empty draw pile from the discard pile leaves a card to
      draw; and the held card is in neither pile. */
  lemma ConservedDeck(deck: seq<int>, discard: seq<int>, held: bool, cards: multiset<int>)
    requires Conserved(deck, discard, held, cards)
    requires |cards| == 16 && cards[GetOutOfJailFree] == 1
    ensures |deck| + |discard| + (if held then 1 else 0) == 16
    ensures held ==> GetOutOfJailFree !in deck && GetOutOfJailFree !in discard
  {
    ConservedPool(deck, discard, held, cards);
    var h := if held then multiset{GetOutOfJailFree} else multiset{};
    assert |multiset(deck) + multiset(discard) + h| == |deck| + |discard| + |h|;
    if held {
      assert multiset(deck)[GetOutOfJailFree] + multiset(discard)[GetOutOfJailFree] + 1 == 1;
    }
  }

  /** What a drawn card adds to the discard pile: the card itself, except
      the get-out-of-jail card, which the player keeps. */
  function Discarded(card: int): seq<int>
  {
    if card == GetOutOfJailFree then [] else [card]
  }

  /** The draw pile `move` takes its card from: the deck, or, when the deck
      is empty, the discard pile reshuffled into the order `shuffled`. */
  function Refilled(deck: seq<int>, shuffled: seq<int>): seq<int>
  {
    if deck == [] then shuffled else deck
  }

  /** The card `move` draws: the last card of the refilled draw pile. */
  function TopCard(deck: seq<int>, shuffled: seq<int>): int
    requires Refilled(deck, shuffled) != []
  {
    Refilled(deck, shuffled)[|Refilled(deck, shuffled)| - 1]
  }

  /** The draw pile after `move`: the refilled pile without its last card. */
  function DrawnDeck(deck: seq<int>, shuffled: seq<int>): seq<int>
    requires Refilled(deck, shuffled) != []
  {
    Refilled(deck, shuffled)[..|Refilled(deck, shuffled)| - 1]
  }

  /** The discard pile after `move`: emptied by a refill, then given the
      drawn card unless the player keeps it. */
  function DrawnDiscard(deck: seq<int>, discard: seq<int>, shuffled: seq<int>): seq<int>
    requires Refilled(deck, shuffled) != []
  {
    (if deck == [] then [] else discard) + Discarded(TopCard(deck, shuffled))
  }

  /** The piles and the held flag after a draw (`deck'`, `discard'`,
      `held'`) are those a `move` leaves behind. */
  ghost predicate Drew(deck: seq<int>, discard: seq<int>, held: bool,
                       deck': seq<int>, discard': seq<int>, held': bool, shuffled: seq<int>)
  {
    Refilled(deck, shuffled) != [] &&
    deck' == DrawnDeck(deck, shuffled) &&
    discard' == DrawnDiscard(deck, discard, shuffled) &&
    held' == (held || TopCard(deck, shuffled) == GetOutOfJailFree)
  }

  /** The piles and the held flag after the held get-out-of-jail card was
      used: it goes to the bottom of the discard pile. */
  ghost predicate GaveBack(deck: seq<int>, discard: seq<int>, held: bool,
                           deck': seq<int>, discard': seq<int>, held': bool)
  {
    held && !held' && deck' == deck && discard' == discard + [GetOutOfJailFree]
  }

  /** A whole `move` on a deck keeps every card: when the draw pile is
      empty the discard pile, reshuffled, always has a card to give; the
      drawn card is one of the deck's; a drawn get-out-of-jail card was not
      already held; and the piles after the draw, with the held card, are
      still the deck's 16 cards. */
  lemma DrawConserves(deck: seq<int>, discard: seq<int>, held: bool, cards: multiset<int>, shuffled: seq<int>)
    requires Conserved(deck, discard, held, cards)
    requires |cards| == 16 && cards[GetOutOfJailFree] == 1
    requires deck == [] ==> multiset(shuffled) == multiset(discard)
    ensures Refilled(deck, shuffled) != []
    ensures TopCard(deck, shuffled) in cards
    ensures TopCard(deck, shuffled) == GetOutOfJailFree ==> !held
    ensures Conserved(DrawnDeck(deck, shuffled), DrawnDiscard(deck, discard, shuffled),
                      held || TopCard(deck, shuffled) == GetOutOfJailFree, cards)
  {
    if deck == [] {
      RefillDraw(discard, held, cards, shuffled);
      assert TopCard(deck, shuffled) == shuffled[|shuffled| - 1];
      assert DrawnDeck(deck, shuffled) == shuffled[..|shuffled| - 1];
      assert DrawnDiscard(deck, discard, shuffled) == Discarded(shuffled[|shuffled| - 1]);
    } else {
      DrawLast(deck, discard, held, cards);
      assert TopCard(deck, shuffled) == deck[|deck| - 1];
      assert DrawnDeck(deck, shuffled) == deck[..|deck| - 1];
      assert DrawnDiscard(deck, discard, shuffled) == discard + Discarded(deck[|deck| - 1]);
    }
  }

  /** Refilling an empty draw pile with a reshuffle of the discard pile,
      and emptying the discard pile, keeps every card, and leaves a card to
      draw: at most one card (the held one) is outside the two piles. */
  lemma RefillConserves(discard: seq<int>, held: bool, cards: multiset<int>, shuffled: seq<int>)
    requires Conserved([], discard, held, cards)
    requires |cards| == 16 && cards[GetOutOfJailFree] == 1
    requires multiset(shuffled) == multiset(discard)
    ensures Conserved(shuffled, [], held, cards)
    ensures shuffled != []
  {
    ConservedDeck([], discard, held, cards);
    ConservedPool([], discard, held, cards);
    ConservedPool(shuffled, [], held, cards);
    assert |shuffled| == |multiset(shuffled)| == |multiset(discard)| == |discard|;
  }

  /** The refill case of `move`: the reshuffled discard pile has a card to
      draw, and drawing it keeps every card. */
  lemma RefillDraw(discard: seq<int>, held: bool, cards: multiset<int>, shuffled: seq<int>)
    requires Conserved([], discard, held, cards)
    requires |cards| == 16 && cards[GetOutOfJailFree] == 1
    requires multiset(shuffled) == multiset(discard)
    ensures shuffled != []
    ensures shuffled[|shuffled| - 1] in cards
    ensures shuffled[|shuffled| - 1] == GetOutOfJailFree ==> !held
    ensures Conserved(shuffled[..|shuffled| - 1], Discarded(shuffled[|shuffled| - 1]),
                      held || shuffled[|shuffled| - 1] == GetOutOfJailFree, cards)
  {
    RefillConserves(discard, held, cards, shuffled);
    DrawLast(shuffled, [], held, cards);
    assert [] + Discarded(shuffled[|shuffled| - 1]) == Discarded(shuffled[|shuffled| - 1]);
  }

  /** Drawing the last card of a non-empty pile keeps every card, whether it
      is discarded or, being the get-out-of-jail card, held. */
  lemma DrawLast(pile: seq<int>, discard: seq<int>, held: bool, cards: multiset<int>)
    requires Conserved(pile, discard, held, cards) && pile != []
    requires |cards| == 16 && cards[GetOutOfJailFree] == 1
    ensures pile[|pile| - 1] in cards
    ensures pile[|pile| - 1] == GetOutOfJailFree ==> !held
    ensures Conserved(pile[..|pile| - 1], discard + Discarded(pile[|pile| - 1]),
                      held || pile[|pile| - 1] == GetOutOfJailFree, cards)
  {
    var card := pile[|pile| - 1];
    var rest := pile[..|pile| - 1];
    assert pile == rest + [card];
    assert multiset(pile) == multiset(rest) + multiset{card};
    assert card in pile;
    ConservedDeck(pile, discard, held, cards);
    ConservedPool(pile, discard, held, cards);
    ConservedPool(rest, discard + Discarded(card), held || card == GetOutOfJailFree, cards);
    if card == GetOutOfJailFree {
      assert discard + Discarded(card) == discard;
    } else {
      assert multiset(discard + Discarded(card)) == multiset(discard) + multiset{card};
    }
  }

  /** Using the held get-out-of-jail card puts it at the bottom of the
      discard pile, and keeps every card. */
  lemma GiveBackConserves(deck: seq<int>, discard: seq<int>, cards: multiset<int>)
    requires Conserved(deck, discard, true, cards)
    ensures Conserved(deck, discard + [GetOutOfJailFree], false, cards)
  {
    ConservedPool(deck, discard, true, cards);
    ConservedPool(deck, discard + [GetOutOfJailFree], false, cards);
    assert multiset(discard + [GetOutOfJailFree]) == multiset(discard) + multiset{GetOutOfJailFree};
  }

  /** The "advance to the next railroad" card. */
  function NextRailroad(position: int): (r: int)
    ensures r in Railroads
  {
    if position >= 35 || position < 5 then 5
    else if position >= 25 then 35
    else if position >= 15 then 25
    else 15
  }

  /** From any cell, the railroad chosen is the first one ahead. */
  lemma NextRailroadIsNext(position: int)
    requires 0 <= position < Size
    ensures IsNextOf(position, NextRailroad(position), Railroads)
  {
    var r := NextRailroad(position);
    forall c | c in Railroads
      ensures Ahead(position, r) <= Ahead(position, c)
    {
      AheadOnBoard(position, r);
      AheadOnBoard(position, c);
    }
  }

  /** The "advance to the next utility" card. */
  function NextUtility(position: int): (r: int)
    ensures r in Utilities
  {
    if position >= 28 || position < 12 then 12 else 28
  }

  /** From any cell, the utility chosen is the first one ahead. */
  lemma NextUtilityIsNext(position: int)
    requires 0 <= position < Size
    ensures IsNextOf(position, NextUtility(position), Utilities)
  {
    var r := NextUtility(position);
    forall c | c in Utilities
      ensures Ahead(position, r) <= Ahead(position, c)
    {
      AheadOnBoard(position, r);
      AheadOnBoard(position, c);
    }
  }

  /** Where a Chance card takes the token from `position`. The card must be
      a value the resolution handles; in the source any other value throws.
      From a cell of the board, a card naming no cell beyond the board
      always leaves the token on a cell of the board. */
  function ChanceTarget(card: int, position: int): (r: int)
    requires ChanceResolvable(card)
    ensures 0 <= position < Size && card < Size ==> 0 <= r < Size
  {
    if card == NoEffect then position
    else if card >= 0 then card
    else if card == GetOutOfJailFree then position
    else if card == GoToJailCard then JailCell
    else if card == GoBackThree then JavaRem(position + 37, Size)
    else if card == NearestRailroad then NextRailroad(position)
    else NextUtility(position)
  }

  /** What each Chance card does: the blank card and the get-out-of-jail
      card leave the token where it is, a cell card sends it to that cell,
      the go-to-jail card to the jail cell, "go back three" three cells
      back around the board, and the two "advance" cards to the next
      railroad or utility ahead. */
  lemma ChanceTargetEffects(card: int, position: int)
    requires ChanceResolvable(card)
    ensures card == NoEffect || card == GetOutOfJailFree ==> ChanceTarget(card, position) == position
    ensures card >= 0 ==> ChanceTarget(card, position) == card
    ensures card == GoToJailCard ==> ChanceTarget(card, position) == JailCell
    ensures card == GoBackThree && 0 <= position ==>
              0 <= ChanceTarget(card, position) < Size &&
              (ChanceTarget(card, position) + 3) % Size == position % Size
    ensures card == NearestRailroad && 0 <= position < Size ==>
              IsNextOf(position, ChanceTarget(card, position), Railroads)
    ensures card == NearestUtility && 0 <= position < Size ==>
              IsNextOf(position, ChanceTarget(card, position), Utilities)
  {
    if card == NearestRailroad && 0 <= position < Size {
      NextRailroadIsNext(position);
    } else if card == NearestUtility && 0 <= position < Size {
      NextUtilityIsNext(position);
    }
  }

  /** Where a Community Chest card takes the token from `position`. */
  function CommunityChestTarget(card: int, position: int): (r: int)
    requires CommunityChestResolvable(card)
    ensures card == NoEffect || card == GetOutOfJailFree ==> r == position
    ensures card >= 0 ==> r == card
    ensures card == GoToJailCard ==> r == JailCell
    ensures 0 <= position < Size && card < Size ==> 0 <= r < Size
  {
    if card == NoEffect then position
    else if card >= 0 then card
    else if card == GetOutOfJailFree then position
    else JailCell
  }

  /** A Chance card drawn on a Chance cell never leaves the token on the
      go-to-jail cell: going back three cells from 7, 22 or 36 reaches 4,
      19 or 33, and no other card names cell 30. */
  lemma ChanceAvoidsGoToJail(card: int, position: int)
    requires IsChanceCard(card) && LandsOn(position, Chance)
    ensures ChanceTarget(card, position) != GoToJailCell
  {
    if card == NearestRailroad {
      assert ChanceTarget(card, position) in Railroads;
    } else if card == NearestUtility {
      assert ChanceTarget(card, position) in Utilities;
    }
  }

  /** A Community Chest card drawn on a Community Chest cell never leaves
      the token on the go-to-jail cell. */
  lemma CommunityChestAvoidsGoToJail(card: int, position: int)
    requires IsCommunityChestCard(card) && LandsOn(position, CommunityChest)
    ensures CommunityChestTarget(card, position) != GoToJailCell
  {
  }
}
