/**
 * The table (Mesa.java): four double-ended piles, one per suit, indexed by
 * the suit's ordinal. The front of a pile (index 0) holds its highest rank
 * and the back its lowest.
 */
module Tables {
  import opened Cards
  import opened Sequences
  import opened Decks

  /** The rank that opens an empty pile. */
  const OpeningRank := 5

  /**
   * A well-formed pile of suit s: empty, or consecutive ranks of suit s in
   * strictly descending order from the front, with the opening rank among them.
   */
  ghost predicate IsRun(p: seq<Card>, s: Suit)
  {
    && (forall i :: 0 <= i < |p| ==> p[i] == Card(p[0].rank - i, s))
    && (p != [] ==> p[|p| - 1].rank <= OpeningRank <= p[0].rank)
  }

  /**
   * Whether card c may be laid on pile p: an empty pile takes only the opening
   * rank; otherwise the card must match the front's suit and sit one above the
   * front or one below the back.
   */
  function CanExtend(p: seq<Card>, c: Card): (r: bool)
    ensures r && p == [] ==> c.rank == OpeningRank
    ensures r && p != [] ==> c.suit == p[0].suit
  {
    if p == [] then c.rank == OpeningRank
    else c.suit == p[0].suit && (p[0].rank == c.rank - 1 || p[|p| - 1].rank == c.rank + 1)
  }

  /**
   * Pile p after laying c on it without any check: an opening card and a card
   * above the front go to the front, any other card to the back. An empty
   * pile has no front to compare with, so only the opening rank can be laid there.
   */
  function Placed(p: seq<Card>, c: Card): (r: seq<Card>)
    requires c.rank == OpeningRank || p != []
    ensures |r| == |p| + 1 && multiset(r) == multiset(p) + multiset{c}
    ensures r == [c] + p || r == p + [c]
  {
    if c.rank == OpeningRank then [c] + p
    else if p[0].rank < c.rank then [c] + p
    else p + [c]
  }

  /** A run holds ranks front - i at position i, so its back is front - |p| + 1. */
  lemma RunBounds(p: seq<Card>, s: Suit)
    requires IsRun(p, s) && p != []
    ensures p[|p| - 1].rank == p[0].rank - |p| + 1
    ensures p[0].suit == s
  {
    assert p[|p| - 1] == Card(p[0].rank - (|p| - 1), s);
  }

  /** On a run, the legality test reduces to "one above the front or one below the back". */
  lemma CanExtendRun(p: seq<Card>, c: Card)
    requires IsRun(p, c.suit)
    ensures p == [] ==> (CanExtend(p, c) <==> c.rank == OpeningRank)
    ensures p != [] ==> (CanExtend(p, c) <==> c.rank == p[0].rank + 1 || c.rank == p[|p| - 1].rank - 1)
  {
    if p != [] {
      RunBounds(p, c.suit);
    }
  }

  /**
   * The legality test is exactly "laying the card keeps the pile a run": a
   * legal card keeps it one, and every card that keeps it one is legal.
   */
  lemma {:induction false} PlacementKeepsRun(p: seq<Card>, c: Card)
    requires IsRun(p, c.suit)
    requires c.rank == OpeningRank || p != []
    ensures CanExtend(p, c) <==> IsRun(Placed(p, c), c.suit)
  {
    var s := c.suit;
    var r := Placed(p, c);
    if p == [] {
      assert r == [c];
    } else {
      RunBounds(p, s);
      var hi, lo := p[0].rank, p[|p| - 1].rank;
      if c.rank == OpeningRank {
        assert r == [c] + p;
        assert r[1] == p[0];
        assert !CanExtend(p, c);
      } else if hi < c.rank {
        assert r == [c] + p;
        if c.rank == hi + 1 {
          forall i | 0 <= i < |r|
            ensures r[i] == Card(r[0].rank - i, s)
          {
            if i > 0 {
              assert r[i] == p[i - 1];
            }
          }
        } else {
          assert r[1] == p[0];
        }
      } else {
        assert r == p + [c];
        if c.rank == lo - 1 {
          forall i | 0 <= i < |r|
            ensures r[i] == Card(r[0].rank - i, s)
          {
            if i < |p| {
              assert r[i] == p[i];
            }
          }
        } else {
          assert r[|r| - 1] == c && r[|r| - 2] == p[|p| - 1];
          assert r[0] == p[0];
          assert r[|r| - 1] != Card(r[0].rank - (|r| - 1), s);
        }
      }
    }
  }

  /** A legal card on a non-empty run lands at the end it extends. */
  lemma PlacementEnd(p: seq<Card>, c: Card)
    requires IsRun(p, c.suit) && p != [] && CanExtend(p, c)
    ensures c.rank == p[0].rank + 1 ==> Placed(p, c) == [c] + p
    ensures c.rank == p[|p| - 1].rank - 1 ==> Placed(p, c) == p + [c]
  {
    RunBounds(p, c.suit);
  }

  class Table {
    /** The four piles, indexed by suit ordinal; each front-to-back. */
    const piles: array<seq<Card>>

    /** Four piles, and each one is a run of its own suit. */
    ghost predicate Valid()
      reads this, piles
    {
      && piles.Length == SuitCount
      && forall s: Suit :: IsRun(piles[Ordinal(s)], s)
    }

    /** A new table has four empty piles. */
    constructor ()
      ensures Valid() && fresh(piles)
      ensures forall i :: 0 <= i < piles.Length ==> piles[i] == []
    {
      piles := new seq<Card>[SuitCount];
      new;
      for i := 0 to piles.Length
        invariant forall k :: 0 <= k < i ==> piles[k] == []
      {
        piles[i] := [];
      }
    }

    /** Whether card c may be laid on the pile of its suit. */
    function CanPlace(c: Card): (r: bool)
      requires Valid()
      reads this, piles
      ensures r ==> c.rank == OpeningRank || piles[Ordinal(c.suit)] != []
    {
      CanExtend(piles[Ordinal(c.suit)], c)
    }

    /**
     * An empty pile takes only the opening rank, a non-empty one a card one
     * above its front or one below its back; and these are exactly the cards
     * whose placement keeps the pile a run.
     */
    lemma CanPlaceLegal(c: Card)
      requires Valid()
      ensures var p := piles[Ordinal(c.suit)];
              && (p == [] ==> (CanPlace(c) <==> c.rank == OpeningRank))
              && (p != [] ==> (CanPlace(c) <==> c.rank == p[0].rank + 1 || c.rank == p[|p| - 1].rank - 1))
              && (CanPlace(c) <==> (c.rank == OpeningRank || p != []) && IsRun(Placed(p, c), c.suit))
    {
      var p := piles[Ordinal(c.suit)];
      CanExtendRun(p, c);
      if c.rank == OpeningRank || p != [] {
        PlacementKeepsRun(p, c);
      }
    }

    /**
     * Lays a card that `CanPlace` admits on its pile (`Mesa.colocar` does not
     * check again) and tells whether it was the ace of OROS.
     */
    method Place(c: Card) returns (goldAce: bool)
      requires Valid() && CanPlace(c)
      modifies piles
      ensures Valid()
      ensures var o := Ordinal(c.suit);
              piles[..] == old(piles[..])[o := Placed(old(piles[o]), c)]
      ensures goldAce <==> IsGoldAce(c)
    {
      var o := Ordinal(c.suit);
      CanPlaceLegal(c);
      if c.rank == OpeningRank {
        piles[o] := [c] + piles[o];
      } else {
        if piles[o][0].rank < c.rank {
          piles[o] := [c] + piles[o];
        } else {
          piles[o] := piles[o] + [c];
        }
      }
      goldAce := c.rank == 1 && c.suit == Oros;
      forall s: Suit
        ensures IsRun(piles[Ordinal(s)], s)
      {
        if s != c.suit {
          OrdinalInjective(s, c.suit);
        }
      }
    }

    /**
     * Empties the table into the deck: pile 0 to pile 3, each from its front
     * to its back.
     */
    method Clear(deck: Deck)
      requires Valid()
      modifies piles, deck
      ensures Valid()
      ensures forall i :: 0 <= i < piles.Length ==> piles[i] == []
      ensures deck.cards == old(deck.cards) + Flatten(old(piles[..]))
    {
      ghost var P := piles[..];
      ghost var D := deck.cards;
      for i := 0 to piles.Length
        invariant forall k :: 0 <= k < i ==> piles[k] == []
        invariant forall k :: i <= k < piles.Length ==> piles[k] == P[k]
        invariant deck.cards == D + Flatten(P[..i])
      {
        ClearPile(i, deck);
        FlattenPrefix(P, i);
      }
      assert P[..piles.Length] == P;
    }

    /** Pushes pile i onto the deck from its front to its back; the other piles stay. */
    method ClearPile(i: nat, deck: Deck)
      requires i < piles.Length
      modifies piles, deck
      ensures piles[i] == [] && deck.cards == old(deck.cards) + old(piles[i])
      ensures forall k :: 0 <= k < piles.Length && k != i ==> piles[k] == old(piles[k])
    {
      while piles[i] != []
        invariant forall k :: 0 <= k < piles.Length && k != i ==> piles[k] == old(piles[k])
        invariant deck.cards + piles[i] == old(deck.cards) + old(piles[i])
        decreases |piles[i]|
      {
        var c := piles[i][0];
        piles[i] := piles[i][1..];
        deck.Push(c);
      }
      assert deck.cards + [] == deck.cards;
    }
  }
}
