/**
 * A player (Jugador.java): a name, a hand of cards in the order they were
 * received, and a score that only ever has points added to it.
 */
module Players {
  import opened Cards
  import opened Sequences
  import opened Decks
  import opened Tables

  /** Whether some card of the hand may be laid on the table. */
  ghost predicate Playable(table: Table, hand: seq<Card>)
    requires table.Valid()
    reads table, table.piles
  {
    exists k :: 0 <= k < |hand| && table.CanPlace(hand[k])
  }

  class Player {
    const name: string
    var hand: seq<Card>
    var score: int

    /** A new player holds no cards and has no points. */
    constructor (name: string)
      ensures this.name == name && hand == [] && score == 0
    {
      this.name := name;
      hand := [];
      score := 0;
    }

    /** The number of cards in the hand. */
    function CardCount(): nat
      reads this
    {
      |hand|
    }

    /** Whether the hand is empty. */
    method HandEmpty() returns (e: bool)
      ensures e <==> CardCount() == 0
    {
      e := hand == [];
    }

    /** Adds points to the score; the hand is untouched. */
    method AddPoints(points: int)
      modifies this`score
      ensures score == old(score) + points
    {
      score := score + points;
    }

    /** Appends a card at the end of the hand. */
    method InsertCard(c: Card)
      modifies this`hand
      ensures hand == old(hand) + [c]
    {
      hand := hand + [c];
    }

    /**
     * Scans the hand from position 0 for a card the table accepts. The scan
     * reads position 0 before testing the length, so the hand must not be empty.
     */
    method CanPlaySomething(table: Table) returns (can: bool)
      requires table.Valid() && hand != []
      ensures can <==> Playable(table, hand)
    {
      can := table.CanPlace(hand[0]);
      var index := 1;
      while !can && index < |hand|
        invariant 1 <= index <= |hand|
        invariant can ==> table.CanPlace(hand[index - 1])
        invariant !can ==> forall k :: 0 <= k < index ==> !table.CanPlace(hand[k])
      {
        can := table.CanPlace(hand[index]);
        index := index + 1;
      }
    }

    /**
     * Takes the card at position i out of the hand and lays it on the table;
     * tells whether it was the ace of OROS.
     */
    method PlayCard(table: Table, i: nat) returns (goldAce: bool)
      requires table.Valid() && i < |hand| && table.CanPlace(hand[i])
      modifies this`hand, table.piles
      ensures hand == RemoveAt(old(hand), i)
      ensures table.Valid()
      ensures var c := old(hand[i]);
              var o := Ordinal(c.suit);
              table.piles[..] == old(table.piles[..])[o := Placed(old(table.piles[o]), c)]
      ensures goldAce <==> IsGoldAce(old(hand[i]))
    {
      var c := hand[i];
      hand := RemoveAt(hand, i);
      goldAce := table.Place(c);
    }

    /** Moves every card of the hand onto the deck, first card first. */
    method Drain(deck: Deck)
      modifies this`hand, deck
      ensures hand == [] && deck.cards == old(deck.cards) + old(hand)
    {
      ghost var H := hand;
      while hand != []
        invariant deck.cards + hand == old(deck.cards) + H
        decreases |hand|
      {
        var c := hand[0];
        hand := hand[1..];
        deck.Push(c);
      }
      assert deck.cards + [] == deck.cards;
    }
  }
}
