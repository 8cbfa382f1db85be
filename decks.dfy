/**
 * The deck (Baraja.java): a stack of cards. The Java `Stack` pushes at the end
 * of its vector and pops from there, so here the top of the deck is the LAST
 * element of `cards`.
 */
module Decks {
  import opened Cards
  import opened Sequences

  const DeckSize: nat := 48

  /**
   * The order in which the constructor fills the deck: suit by suit in
   * enumeration order, ranks 1 to 12 within each suit.
   */
  function FullDeck(): seq<Card>
  {
    seq(DeckSize, k requires 0 <= k < DeckSize => Card(k % RanksPerSuit + 1, Suits()[k / RanksPerSuit]))
  }

  /** Card (r, s) sits at position 12 * ordinal(s) + r - 1 of the full deck. */
  lemma FullDeckAt(s: Suit, r: int)
    requires 1 <= r <= RanksPerSuit
    ensures 0 <= RanksPerSuit * Ordinal(s) + r - 1 < |FullDeck()|
    ensures FullDeck()[RanksPerSuit * Ordinal(s) + r - 1] == Card(r, s)
  {
    var k := RanksPerSuit * Ordinal(s) + r - 1;
    assert k / RanksPerSuit == Ordinal(s) && k % RanksPerSuit == r - 1;
  }

  /** No card occurs twice in the full deck. */
  lemma FullDeckDistinct()
    ensures |FullDeck()| == DeckSize && Distinct(FullDeck())
  {
    forall i, j | 0 <= i < j < DeckSize
      ensures FullDeck()[i] != FullDeck()[j]
    {
      var qi, qj := i / RanksPerSuit, j / RanksPerSuit;
      if qi == qj {
        assert i % RanksPerSuit != j % RanksPerSuit;
      } else {
        assert Suits()[qi] != Suits()[qj];
      }
    }
  }

  /** The full deck holds exactly the cards of rank 1..12, in every suit. */
  lemma FullDeckMembers(c: Card)
    ensures c in FullDeck() <==> 1 <= c.rank <= RanksPerSuit
  {
    if 1 <= c.rank <= RanksPerSuit {
      FullDeckAt(c.suit, c.rank);
    }
  }

  /** Every card of rank 1..12 is in the full deck exactly once; no other card is. */
  lemma FullDeckCounts(c: Card)
    ensures multiset(FullDeck())[c] == if 1 <= c.rank <= RanksPerSuit then 1 else 0
  {
    FullDeckDistinct();
    FullDeckMembers(c);
    DistinctCounts(FullDeck(), c);
  }

  // ---------------------------------------------------------------------------
  // The shuffle

  /** One step of the shuffle loop: slots `mov` and `j` exchange their cards. */
  function SwapAt(s: seq<Card>, mov: nat, j: nat): (r: seq<Card>)
    requires mov < |s| && j < |s|
    ensures |r| == |s| && r[mov] == s[j] && r[j] == s[mov]
    ensures forall k :: 0 <= k < |s| && k != mov && k != j ==> r[k] == s[k]
  {
    s[j := s[mov]][mov := s[j]]
  }

  /** The slots after the first k steps of the shuffle loop with the given targets. */
  function ApplySwaps(s: seq<Card>, targets: seq<int>, k: nat): (r: seq<Card>)
    requires k <= |targets| <= |s|
    requires forall m :: 0 <= m < |targets| ==> 0 <= targets[m] < |s|
    ensures |r| == |s|
  {
    if k == 0 then s else SwapAt(ApplySwaps(s, targets, k - 1), k - 1, targets[k - 1])
  }

  /** Exchanging two slots keeps the cards, each as often as before. */
  lemma SwapAtPermutes(s: seq<Card>, mov: nat, j: nat)
    requires mov < |s| && j < |s|
    ensures multiset(SwapAt(s, mov, j)) == multiset(s)
  {
    var t := s[j := s[mov]];
    assert multiset(t) == multiset(s) - multiset{s[j]} + multiset{s[mov]};
  }

  /** Every swap step keeps the cards, each as often as before. */
  lemma {:induction false} ApplySwapsPermutes(s: seq<Card>, targets: seq<int>, k: nat)
    requires k <= |targets| <= |s|
    requires forall m :: 0 <= m < |targets| ==> 0 <= targets[m] < |s|
    ensures multiset(ApplySwaps(s, targets, k)) == multiset(s)
  {
    for i := 0 to k
      invariant multiset(ApplySwaps(s, targets, i)) == multiset(s)
    {
      SwapAtPermutes(ApplySwaps(s, targets, i), i, targets[i]);
    }
  }

  /**
   * The deck after the shuffle, bottom first: the popped cards (top first)
   * with every slot swapped with its target.
   */
  function Shuffled(cards: seq<Card>, targets: seq<int>): (r: seq<Card>)
    requires |targets| == |cards|
    requires forall m :: 0 <= m < |targets| ==> 0 <= targets[m] < |cards|
    ensures |r| == |cards|
  {
    ApplySwaps(Reversed(cards), targets, |targets|)
  }

  /** The shuffle is a permutation: the same cards, each as often as before. */
  lemma ShuffledPermutes(cards: seq<Card>, targets: seq<int>)
    requires |targets| == |cards|
    requires forall m :: 0 <= m < |targets| ==> 0 <= targets[m] < |cards|
    ensures multiset(Shuffled(cards, targets)) == multiset(cards)
  {
    ReversedPermutes(cards);
    ApplySwapsPermutes(Reversed(cards), targets, |targets|);
  }

  class Deck {
    /** The cards, bottom first; the top of the stack is the last element. */
    var cards: seq<Card>

    /** A new deck holds the 48 cards, suit by suit, ranks ascending. */
    constructor ()
      ensures cards == FullDeck()
    {
      cards := [];
      new;
      var suits := Suits();
      for i := 0 to |suits|
        invariant cards == FullDeck()[..RanksPerSuit * i]
      {
        for j := 1 to RanksPerSuit + 1
          invariant cards == FullDeck()[..RanksPerSuit * i + j - 1]
        {
          FullDeckAt(suits[i], j);
          assert Ordinal(suits[i]) == i;
          cards := cards + [Card(j, suits[i])];
        }
      }
    }

    /** Pushes a card on top. */
    method Push(c: Card)
      modifies this
      ensures cards == old(cards) + [c]
    {
      cards := cards + [c];
    }

    /** Pops the top card; `Baraja.sacarCarta` pops a `Stack`, which throws on an empty deck. */
    method Pop() returns (c: Card)
      requires cards != []
      modifies this
      ensures c == old(cards)[|old(cards)| - 1]
      ensures cards == old(cards)[..|old(cards)| - 1]
      ensures cards + [c] == old(cards)
    {
      c := cards[|cards| - 1];
      cards := cards[..|cards| - 1];
    }

    /** Whether no card is left. */
    method IsEmpty() returns (e: bool)
      ensures e <==> |cards| == 0
    {
      e := cards == [];
    }

    /** The first loop of the shuffle: pops every card into a fresh 48-slot array. */
    method DrawAll() returns (aux: array<Card>)
      requires |cards| == DeckSize
      modifies this
      ensures fresh(aux) && aux[..] == Reversed(old(cards)) && cards == []
    {
      ghost var start := cards;
      aux := new Card[DeckSize];
      var i := 0;
      while cards != []
        invariant 0 <= i <= DeckSize && |cards| == DeckSize - i
        invariant cards == start[..DeckSize - i]
        invariant forall k :: 0 <= k < i ==> aux[k] == start[DeckSize - 1 - k]
      {
        aux[i] := cards[|cards| - 1];
        cards := cards[..|cards| - 1];
        i := i + 1;
      }
      assert aux[..] == Reversed(start);
    }

    /**
     * Pops every card into a 48-slot array, swaps each slot with the slot
     * `targets[mov]` (`Baraja.barajarCartas` draws it with `nextInt(48)`), and pushes
     * the array back from slot 0 up.
     */
    method Shuffle(targets: seq<int>)
      requires |cards| == DeckSize
      requires |targets| == DeckSize
      requires forall m :: 0 <= m < |targets| ==> 0 <= targets[m] < DeckSize
      modifies this
      ensures cards == Shuffled(old(cards), targets)
      ensures |cards| == DeckSize
    {
      ghost var start := cards;
      var aux := DrawAll();
      SwapSlots(aux, targets);
      ghost var swapped := aux[..];
      assert swapped == Shuffled(start, targets);
      for k := 0 to aux.Length
        invariant aux[..] == swapped
        invariant cards == aux[..k]
      {
        Push(aux[k]);
      }
      assert cards == swapped;
    }
  }

  /**
   * The swap loop of the shuffle: slot `mov` exchanges its card with slot
   * `targets[mov]`, for every slot in turn.
   */
  method SwapSlots(aux: array<Card>, targets: seq<int>)
    requires |targets| == aux.Length
    requires forall m :: 0 <= m < |targets| ==> 0 <= targets[m] < aux.Length
    modifies aux
    ensures aux[..] == ApplySwaps(old(aux[..]), targets, |targets|)
  {
    for mov := 0 to aux.Length
      invariant aux[..] == ApplySwaps(old(aux[..]), targets, mov)
    {
      var j := targets[mov];
      var card := aux[j];
      aux[j] := aux[mov];
      aux[mov] := card;
    }
  }

  /** Pushing a card and popping at once gives the card back and restores the deck. */
  method PushThenPop(d: Deck, c: Card) returns (r: Card)
    modifies d
    ensures r == c && d.cards == old(d.cards)
  {
    d.Push(c);
    r := d.Pop();
  }
}
