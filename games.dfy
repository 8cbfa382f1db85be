/**
 * The game (Juego.java): the deck, the players in turn order (the front of
 * `players` is the active player), the escalating bonus for the ace of OROS
 * and the flag that ends the match. The body of the match loop is split into
 * step methods: choose the start player, shuffle and deal, one move, pass the
 * turn, end the round. The console and the random draws are parameters.
 */
module Games {
  import opened Cards
  import opened Sequences
  import opened Decks
  import opened Tables
  import opened Players

  /** Points for winning a round. */
  const RoundBonus := 4
  /** Points for the ace of OROS in the first round. */
  const FirstAceBonus := 2
  /** How much the ace bonus grows after every round. */
  const AceBonusStep := 2

  // ---------------------------------------------------------------------------
  // Dealing

  /** The position counter of the deal: from the last position back to the first. */
  function NextPosition(pos: nat, n: nat): (q: nat)
    requires pos < n
    ensures q < n && (q == 0 <==> pos == n - 1)
  {
    if pos == n - 1 then 0 else pos + 1
  }

  /**
   * The position that receives the card dealt k-th (from 0) among n players:
   * the position counter starts at 0 and wraps from n - 1 back to 0.
   */
  function Turn(k: nat, n: nat): (p: nat)
    requires n > 0
    ensures p < n
  {
    if k == 0 then 0 else NextPosition(Turn(k - 1, n), n)
  }

  /** How many times the position counter has wrapped after k cards. */
  function Laps(k: nat, n: nat): nat
    requires n > 0
  {
    if k == 0 then 0
    else if Turn(k - 1, n) == n - 1 then Laps(k - 1, n) + 1
    else Laps(k - 1, n)
  }

  /** After k cards the counter has gone round Laps times and stands at Turn: k is their division. */
  lemma {:induction false} LapsAndTurn(k: nat, n: nat)
    requires n > 0
    ensures k == Laps(k, n) * n + Turn(k, n)
  {
    if k > 0 {
      LapsAndTurn(k - 1, n);
    }
  }

  /**
   * The cards that position i receives from the first k cards dealt, when
   * the cards come off the deck in the given order.
   */
  function DealtTo(order: seq<Card>, k: nat, n: nat, i: nat): seq<Card>
    requires k <= |order| && n > 0
  {
    if k == 0 then []
    else DealtTo(order, k - 1, n, i) + (if Turn(k - 1, n) == i then [order[k - 1]] else [])
  }

  /** The hand of position i before and after the card dealt k-th. */
  lemma DealtHandStep(h: seq<Card>, base: seq<Card>, order: seq<Card>, k: nat, n: nat, i: nat, pos: nat)
    requires n > 0 && k < |order| && pos == Turn(k, n)
    requires h == base + DealtTo(order, k, n, i)
    ensures h + (if i == pos then [order[k]] else []) == base + DealtTo(order, k + 1, n, i)
  {
    var extra := if i == pos then [order[k]] else [];
    assert (base + DealtTo(order, k, n, i)) + extra == base + (DealtTo(order, k, n, i) + extra);
  }

  /** The hands of all positions before and after the card dealt k-th. */
  lemma DealStep(hands: seq<seq<Card>>, base: seq<seq<Card>>, order: seq<Card>, k: nat, n: nat, pos: nat)
    requires 0 < n <= |hands| == |base| && k < |order| && pos == Turn(k, n)
    requires forall i :: 0 <= i < n ==> hands[i] == base[i] + DealtTo(order, k, n, i)
    requires forall i :: n <= i < |hands| ==> hands[i] == base[i]
    ensures var next := hands[pos := hands[pos] + [order[k]]];
            && (forall i :: 0 <= i < n ==> next[i] == base[i] + DealtTo(order, k + 1, n, i))
            && (forall i :: n <= i < |hands| ==> next[i] == base[i])
  {
    forall i | 0 <= i < n
      ensures hands[pos := hands[pos] + [order[k]]][i] == base[i] + DealtTo(order, k + 1, n, i)
    {
      DealtHandStep(hands[i], base[i], order, k, n, i, pos);
    }
  }

  /**
   * The hands after dealing out the whole deck (top = last element) with
   * the counter at pos: the top card goes to the end of hand pos, the counter
   * moves on, and so on until the deck is empty.
   */
  function Dealing(hands: seq<seq<Card>>, deck: seq<Card>, pos: nat, n: nat): (r: seq<seq<Card>>)
    requires pos < n <= |hands|
    ensures |r| == |hands|
    decreases |deck|
  {
    if deck == [] then hands
    else
      var c := deck[|deck| - 1];
      Dealing(hands[pos := hands[pos] + [c]], deck[..|deck| - 1], NextPosition(pos, n), n)
  }

  /** Dealing moves the deck into the hands: together they hold the same cards as before. */
  lemma {:induction false} DealingConserves(hands: seq<seq<Card>>, deck: seq<Card>, pos: nat, n: nat)
    requires pos < n <= |hands|
    ensures multiset(Flatten(Dealing(hands, deck, pos, n))) == multiset(Flatten(hands)) + multiset(deck)
    decreases |deck|
  {
    if deck != [] {
      var c, rest := deck[|deck| - 1], deck[..|deck| - 1];
      assert deck == rest + [c];
      InsertConserves(hands, pos, c);
      DealingConserves(hands[pos := hands[pos] + [c]], rest, NextPosition(pos, n), n);
    }
  }

  /** Popping the top of a deck takes the first card of its reversal away. */
  lemma ReversedPop(deck: seq<Card>)
    requires deck != []
    ensures Reversed(deck)[0] == deck[|deck| - 1]
    ensures Reversed(deck)[1..] == Reversed(deck[..|deck| - 1])
  {
  }

  /**
   * Dealing the rest of `order` from its k-th card on, with the counter
   * where k cards leave it, completes every hand to its round-robin share.
   */
  lemma {:induction false} DealingRoundRobin(hands: seq<seq<Card>>, base: seq<seq<Card>>, order: seq<Card>, k: nat, deck: seq<Card>, n: nat)
    requires 0 < n <= |hands| == |base| && k <= |order| && Reversed(deck) == order[k..]
    requires forall i :: 0 <= i < n ==> hands[i] == base[i] + DealtTo(order, k, n, i)
    requires forall i :: n <= i < |hands| ==> hands[i] == base[i]
    ensures var r := Dealing(hands, deck, Turn(k, n), n);
            && (forall i :: 0 <= i < n ==> r[i] == base[i] + DealtTo(order, |order|, n, i))
            && (forall i :: n <= i < |hands| ==> r[i] == base[i])
    decreases |deck|
  {
    if deck == [] {
      assert k == |order|;
    } else {
      var pos, c := Turn(k, n), deck[|deck| - 1];
      ReversedPop(deck);
      assert c == order[k];
      assert Reversed(deck[..|deck| - 1]) == order[k + 1..];
      DealStep(hands, base, order, k, n, pos);
      DealingRoundRobin(hands[pos := hands[pos] + [c]], base, order, k + 1, deck[..|deck| - 1], n);
    }
  }

  /** Dealing a whole deck from position 0: position i gets the cards dealt to it, in order. */
  lemma DealingIsRoundRobin(hands: seq<seq<Card>>, deck: seq<Card>, n: nat)
    requires 0 < n <= |hands|
    ensures var r := Dealing(hands, deck, 0, n);
            && (forall i :: 0 <= i < n ==> r[i] == hands[i] + DealtTo(Reversed(deck), |deck|, n, i))
            && (forall i :: n <= i < |hands| ==> r[i] == hands[i])
  {
    forall i | 0 <= i < n
      ensures hands[i] == hands[i] + DealtTo(Reversed(deck), 0, n, i)
    {
      assert hands[i] + [] == hands[i];
    }
    DealingRoundRobin(hands, hands, Reversed(deck), 0, deck, n);
  }

  /**
   * Dealing a whole 48-card deck to three or four empty hands gives each
   * hand its round-robin share of the popped cards, 16 or 12 of them.
   */
  lemma DealAll(hands: seq<seq<Card>>, deck: seq<Card>)
    requires |deck| == DeckSize && (|hands| == 3 || |hands| == 4)
    requires forall i :: 0 <= i < |hands| ==> hands[i] == []
    ensures var r := Dealing(hands, deck, 0, |hands|);
            forall i :: 0 <= i < |hands| ==>
              && r[i] == DealtTo(Reversed(deck), DeckSize, |hands|, i)
              && |r[i]| == DeckSize / |hands|
  {
    var n := |hands|;
    DealingIsRoundRobin(hands, deck, n);
    var r, order := Dealing(hands, deck, 0, n), Reversed(deck);
    forall i | 0 <= i < n
      ensures r[i] == DealtTo(order, DeckSize, n, i) && |r[i]| == DeckSize / n
    {
      assert r[i] == [] + DealtTo(order, DeckSize, n, i);
      assert [] + DealtTo(order, DeckSize, n, i) == DealtTo(order, DeckSize, n, i);
      DealEvenly(order, n, i);
    }
  }

  /**
   * Round-robin: every full lap gives each position one card, and the
   * positions before the counter have one more.
   */
  lemma {:induction false} DealtCount(order: seq<Card>, k: nat, n: nat, i: nat)
    requires k <= |order| && 0 < n && i < n
    ensures |DealtTo(order, k, n, i)| == Laps(k, n) + (if i < Turn(k, n) then 1 else 0)
  {
    if k > 0 {
      DealtCount(order, k - 1, n, i);
    }
  }

  /** With the whole deck and three or four players, everybody gets the same share: 16 or 12 cards. */
  lemma DealEvenly(order: seq<Card>, n: nat, i: nat)
    requires |order| == DeckSize && (n == 3 || n == 4) && i < n
    ensures |DealtTo(order, |order|, n, i)| == DeckSize / n
  {
    var k := |order|;
    DealtCount(order, k, n, i);
    LapsAndTurn(k, n);
    EvenShare(k, n, Laps(k, n), Turn(k, n));
  }

  lemma EvenShare(k: nat, n: nat, laps: nat, pos: nat)
    requires k == DeckSize && (n == 3 || n == 4)
    requires k == laps * n + pos && pos < n
    ensures laps == k / n && pos == 0
  {
    if n == 3 {
      assert k == laps * 3 + pos;
    } else {
      assert k == laps * 4 + pos;
    }
  }

  // ---------------------------------------------------------------------------
  // Hands and scores of a list of players

  /** The hands of the players, in turn order. */
  ghost function HandsOf(ps: seq<Player>): (hs: seq<seq<Card>>)
    reads set p | p in ps
  {
    seq(|ps|, i requires 0 <= i < |ps| reads ps => ps[i].hand)
  }

  /** The scores of the players, in turn order. */
  ghost function ScoresOf(ps: seq<Player>): (xs: seq<int>)
    reads set p | p in ps
  {
    seq(|ps|, i requires 0 <= i < |ps| reads ps => ps[i].score)
  }

  /** Reordering the players reorders their hands the same way. */
  lemma HandsOfMoveToFront(ps: seq<Player>, r: nat)
    requires r < |ps|
    ensures HandsOf(MoveToFront(ps, r)) == MoveToFront(HandsOf(ps), r)
  {
    var qs, hs := MoveToFront(ps, r), HandsOf(ps);
    forall k | 0 <= k < |qs|
      ensures HandsOf(qs)[k] == MoveToFront(hs, r)[k]
    {
      if k == 0 {
      } else if k <= r {
        assert qs[k] == RemoveAt(ps, r)[k - 1] == ps[k - 1];
        assert MoveToFront(hs, r)[k] == RemoveAt(hs, r)[k - 1] == hs[k - 1];
      } else {
        assert qs[k] == RemoveAt(ps, r)[k - 1] == ps[k];
        assert MoveToFront(hs, r)[k] == RemoveAt(hs, r)[k - 1] == hs[k];
      }
    }
  }

  /** Rotating the players rotates their hands the same way. */
  lemma HandsOfRotate(ps: seq<Player>)
    requires |ps| > 0
    ensures HandsOf(Rotate(ps)) == Rotate(HandsOf(ps))
  {
  }

  /** Giving a player one more card adds exactly that card to what the hands hold together. */
  lemma InsertConserves(hs: seq<seq<Card>>, i: nat, c: Card)
    requires i < |hs|
    ensures multiset(Flatten(hs[i := hs[i] + [c]])) == multiset(Flatten(hs)) + multiset{c}
  {
    var after := multiset(Flatten(hs[i := hs[i] + [c]]));
    FlattenUpdate(hs, i, hs[i] + [c]);
    assert after + multiset(hs[i]) == (multiset(Flatten(hs)) + multiset{c}) + multiset(hs[i]);
    MultisetCancel(after, multiset(hs[i]), multiset(Flatten(hs)) + multiset{c});
  }

  /** The cards held by a deck, hands and table piles together. */
  function Pool(deck: seq<Card>, hands: seq<seq<Card>>, piles: seq<seq<Card>>): multiset<Card>
  {
    multiset(deck) + multiset(Flatten(hands)) + multiset(Flatten(piles))
  }

  /**
   * Moving card r of hand i onto a pile that gains exactly that card leaves
   * the hands and the piles holding the same cards together.
   */
  lemma PlayConserves(d: seq<Card>, hs: seq<seq<Card>>, ps: seq<seq<Card>>, i: nat, r: nat, o: nat, pile: seq<Card>)
    requires i < |hs| && r < |hs[i]| && o < |ps|
    requires multiset(pile) == multiset(ps[o]) + multiset{hs[i][r]}
    ensures Pool(d, hs[i := RemoveAt(hs[i], r)], ps[o := pile]) == Pool(d, hs, ps)
  {
    var h, x := hs[i], hs[i][r];
    var rest := multiset(RemoveAt(h, r));
    var newHands := multiset(Flatten(hs[i := RemoveAt(h, r)]));
    var newPiles := multiset(Flatten(ps[o := pile]));
    FlattenUpdate(hs, i, RemoveAt(h, r));
    assert (newHands + multiset{x}) + rest == multiset(Flatten(hs)) + rest;
    MultisetCancel(newHands + multiset{x}, rest, multiset(Flatten(hs)));
    FlattenUpdate(ps, o, pile);
    assert newPiles + multiset(ps[o]) == (multiset(Flatten(ps)) + multiset{x}) + multiset(ps[o]);
    MultisetCancel(newPiles, multiset(ps[o]), multiset(Flatten(ps)) + multiset{x});
  }

  /** Moving the piles and then the hands onto the deck keeps every card in play. */
  lemma CollectConserves(d: seq<Card>, hs: seq<seq<Card>>, ps: seq<seq<Card>>, hs2: seq<seq<Card>>, ps2: seq<seq<Card>>)
    requires forall i :: 0 <= i < |hs2| ==> hs2[i] == []
    requires forall o :: 0 <= o < |ps2| ==> ps2[o] == []
    ensures Pool(d + Flatten(ps) + Flatten(hs), hs2, ps2) == Pool(d, hs, ps)
  {
    FlattenEmpties(hs2);
    FlattenEmpties(ps2);
  }

  /** Shuffling the deck and then dealing it out moves its cards into the hands. */
  lemma ShuffleDealConserves(d: seq<Card>, targets: seq<int>, hs: seq<seq<Card>>, ps: seq<seq<Card>>, n: nat)
    requires |targets| == |d| && forall m :: 0 <= m < |targets| ==> 0 <= targets[m] < |d|
    requires 0 < n <= |hs|
    ensures Pool([], Dealing(hs, Shuffled(d, targets), 0, n), ps) == Pool(d, hs, ps)
  {
    ShuffledPermutes(d, targets);
    DealingConserves(hs, Shuffled(d, targets), 0, n);
  }

  // ---------------------------------------------------------------------------
  // Winners

  /**
   * The running value of the first loop of the winner listing: it starts at
   * 0 and drops to every smaller score, so it is the least score or 0,
   * whichever is smaller.
   */
  function MinOrZero(xs: seq<int>): (m: int)
    ensures m <= 0 && forall i :: 0 <= i < |xs| ==> m <= xs[i]
    ensures m == 0 || exists i :: 0 <= i < |xs| && xs[i] == m
  {
    if xs == [] then 0
    else
      var m := MinOrZero(xs[..|xs| - 1]);
      assert forall i :: 0 <= i < |xs| - 1 ==> xs[..|xs| - 1][i] == xs[i];
      if xs[|xs| - 1] < m then xs[|xs| - 1] else m
  }

  /** The players whose score is m, in turn order. */
  ghost function WithScore(ps: seq<Player>, m: int): seq<Player>
    reads set p | p in ps
  {
    if ps == [] then []
    else
      var last := ps[|ps| - 1];
      WithScore(ps[..|ps| - 1], m) + (if last.score == m then [last] else [])
  }

  /** A player is listed exactly when it is in the list and has score m. */
  lemma {:induction false} WithScoreMembers(ps: seq<Player>, m: int, q: Player)
    ensures q in WithScore(ps, m) <==> q in ps && q.score == m
  {
    if ps != [] {
      var init := ps[..|ps| - 1];
      WithScoreMembers(init, m, q);
      assert ps == init + [ps[|ps| - 1]];
    }
  }

  /** When every score is positive, nobody is listed. */
  lemma NoWinnersWhenAllPositive(ps: seq<Player>)
    requires forall k :: 0 <= k < |ps| ==> ps[k].score > 0
    ensures WithScore(ps, MinOrZero(ScoresOf(ps))) == []
  {
    var m := MinOrZero(ScoresOf(ps));
    var w := WithScore(ps, m);
    if w != [] {
      WithScoreMembers(ps, m, w[0]);
      assert false;
    }
  }

  /**
   * With the hands and the table empty, the deck of a conserving game holds
   * the 48 cards.
   */
  lemma FullDeckSize(deck: seq<Card>, hands: seq<seq<Card>>, piles: seq<seq<Card>>)
    requires forall i :: 0 <= i < |hands| ==> hands[i] == []
    requires forall o :: 0 <= o < |piles| ==> piles[o] == []
    requires Pool(deck, hands, piles) == multiset(FullDeck())
    ensures |deck| == DeckSize && multiset(deck) == multiset(FullDeck())
  {
    FlattenEmpties(hands);
    FlattenEmpties(piles);
    assert |multiset(deck)| == |multiset(FullDeck())|;
  }

  // ---------------------------------------------------------------------------
  // The game

  class Game {
    const deck: Deck
    /** The players in turn order; the front one is the active player. */
    var players: seq<Player>
    /** The points the ace of OROS is worth in the current round. */
    var aceBonus: int
    /** Set once the ace of OROS is played; the match ends with the round. */
    var matchOver: bool

    /** The players are different objects. */
    ghost predicate Valid()
      reads this`players
    {
      Distinct(players)
    }

    /** All the cards in play: in the deck, in the hands and on the table. */
    ghost function InPlay(table: Table): multiset<Card>
      reads this`players, deck, (set p | p in players), table, table.piles
    {
      Pool(deck.cards, HandsOf(players), table.piles[..])
    }

    /** Card conservation: deck, hands and table together hold exactly the 48 cards. */
    ghost predicate Conserved(table: Table)
      reads this`players, deck, (set p | p in players), table, table.piles
    {
      InPlay(table) == multiset(FullDeck())
    }

    /** A new game: a full deck, nobody seated, the ace worth its first bonus. */
    constructor ()
      ensures Valid() && fresh(deck)
      ensures deck.cards == FullDeck() && players == []
      ensures aceBonus == FirstAceBonus && !matchOver
    {
      deck := new Deck();
      players := [];
      aceBonus := FirstAceBonus;
      matchOver := false;
    }

    /** Seats a new player for every name, in the order given, behind those already seated. */
    method Seat(names: seq<string>)
      requires Valid()
      modifies this`players
      ensures Valid()
      ensures |players| == |old(players)| + |names| && players[..|old(players)|] == old(players)
      ensures forall k :: |old(players)| <= k < |players| ==>
                && fresh(players[k]) && players[k].name == names[k - |old(players)|]
                && players[k].hand == [] && players[k].score == 0
      ensures Flatten(HandsOf(players)) == Flatten(HandsOf(old(players)))
    {
      ghost var start := players;
      for i := 0 to |names|
        invariant Distinct(players)
        invariant |players| == |start| + i && players[..|start|] == start
        invariant forall k :: |start| <= k < |players| ==>
                    && fresh(players[k]) && players[k].name == names[k - |start|]
                    && players[k].hand == [] && players[k].score == 0
      {
        ghost var before := players;
        var p := new Player(names[i]);
        players := players + [p];
        forall j: nat, k: nat | j < k < |players|
          ensures Apart(players, j, k)
        {
          if k < |before| {
            assert Apart(before, j, k);
          }
        }
      }
      var added := players[|start|..];
      assert players == start + added;
      assert HandsOf(players) == HandsOf(start) + HandsOf(added);
      FlattenConcat(HandsOf(start), HandsOf(added));
      FlattenEmpties(HandsOf(added));
    }

    /**
     * Deals the whole deck: the top card to position 0, the next to position
     * 1, and so on, the position wrapping from n - 1 back to 0.
     */
    method Deal(n: nat)
      requires Valid() && 0 < n <= |players|
      modifies deck, (set p | p in players)
      ensures deck.cards == []
      ensures HandsOf(players) == Dealing(old(HandsOf(players)), old(deck.cards), 0, n)
      ensures forall k :: 0 <= k < |players| ==> players[k].score == old(players[k].score)
    {
      ghost var H, D := HandsOf(players), deck.cards;
      ghost var final := Dealing(H, D, 0, n);
      var pos := 0;
      var empty := deck.IsEmpty();
      while !empty
        invariant empty <==> deck.cards == []
        invariant pos < n
        invariant Dealing(HandsOf(players), deck.cards, pos, n) == final
        invariant forall k :: 0 <= k < |players| ==> players[k].score == old(players[k].score)
        decreases |deck.cards|
      {
        var c := GiveTopCard(pos, n);
        if pos == n - 1 {
          pos := 0;
        } else {
          pos := pos + 1;
        }
        empty := deck.IsEmpty();
      }
    }

    /** One step of the deal: the top card of the deck goes to the end of the hand at position pos. */
    method GiveTopCard(pos: nat, n: nat) returns (c: Card)
      requires Valid() && pos < n <= |players| && deck.cards != []
      modifies deck, players[pos]
      ensures c == old(deck.cards)[|old(deck.cards)| - 1]
      ensures deck.cards == old(deck.cards)[..|old(deck.cards)| - 1]
      ensures HandsOf(players) == old(HandsOf(players))[pos := old(players[pos].hand) + [c]]
      ensures forall k :: 0 <= k < |players| ==> players[k].score == old(players[k].score)
      ensures Dealing(HandsOf(players), deck.cards, NextPosition(pos, n), n)
           == Dealing(old(HandsOf(players)), old(deck.cards), pos, n)
    {
      ghost var H := HandsOf(players);
      c := deck.Pop();
      players[pos].InsertCard(c);
      forall k | 0 <= k < |players| && k != pos
        ensures players[k].hand == H[k] && players[k].score == old(players[k].score)
      {
        DistinctAt(players, k, pos);
      }
    }

    /** Every player in turn order puts the whole hand on the deck. */
    method ClearHands()
      requires Valid()
      modifies deck, (set p | p in players)
      ensures forall i :: 0 <= i < |players| ==> players[i].hand == []
      ensures forall k :: 0 <= k < |players| ==> players[k].score == old(players[k].score)
      ensures deck.cards == old(deck.cards) + Flatten(old(HandsOf(players)))
    {
      ghost var H := HandsOf(players);
      ghost var D := deck.cards;
      for i := 0 to |players|
        invariant forall k :: 0 <= k < i ==> players[k].hand == []
        invariant forall k :: i <= k < |players| ==> players[k].hand == H[k]
        invariant forall k :: 0 <= k < |players| ==> players[k].score == old(players[k].score)
        invariant deck.cards == D + Flatten(H[..i])
      {
        DrainAt(i);
        FlattenPrefix(H, i);
      }
      assert H[..|players|] == H;
    }

    /** Puts hand i on the deck; every other hand and every score stays as it was. */
    method DrainAt(i: nat)
      requires Valid() && i < |players|
      modifies deck, players[i]
      ensures players[i].hand == [] && deck.cards == old(deck.cards) + old(players[i].hand)
      ensures forall k :: 0 <= k < |players| && k != i ==> players[k].hand == old(players[k].hand)
      ensures forall k :: 0 <= k < |players| ==> players[k].score == old(players[k].score)
    {
      players[i].Drain(deck);
      forall k | 0 <= k < |players| && k != i
        ensures players[k].hand == old(players[k].hand)
      {
        DistinctAt(players, k, i);
      }
    }

    /** Puts the table's cards and then every hand back on the deck. */
    method ResetRound(table: Table)
      requires Valid() && table.Valid()
      modifies deck, (set p | p in players), table.piles
      ensures table.Valid() && forall i :: 0 <= i < table.piles.Length ==> table.piles[i] == []
      ensures forall i :: 0 <= i < |players| ==> players[i].hand == []
      ensures forall k :: 0 <= k < |players| ==> players[k].score == old(players[k].score)
      ensures deck.cards == old(deck.cards) + Flatten(old(table.piles[..])) + Flatten(old(HandsOf(players)))
      ensures InPlay(table) == old(InPlay(table))
    {
      ghost var D, H, P := deck.cards, HandsOf(players), table.piles[..];
      table.Clear(deck);
      ClearHands();
      CollectConserves(D, H, P, HandsOf(players), table.piles[..]);
    }

    /**
     * The winner listing: the players, in turn order, whose score equals the
     * least score or 0, whichever is smaller.
     */
    method Winners() returns (winners: seq<Player>)
      ensures winners == WithScore(players, MinOrZero(ScoresOf(players)))
    {
      var least := 0;
      ghost var xs := ScoresOf(players);
      for i := 0 to |players|
        invariant least == MinOrZero(xs[..i])
      {
        assert xs[..i + 1][..i] == xs[..i];
        if players[i].score < least {
          least := players[i].score;
        }
      }
      assert xs[..|players|] == xs;
      winners := [];
      for i := 0 to |players|
        invariant winners == WithScore(players[..i], least)
      {
        assert players[..i + 1][..i] == players[..i];
        if players[i].score == least {
          winners := winners + [players[i]];
        }
      }
      assert players[..|players|] == players;
    }

    /** The start player chosen at random goes to the front; the others keep their order. */
    method ChooseFirstPlayer(first: nat)
      requires Valid() && first < |players|
      modifies this`players
      ensures Valid()
      ensures players == MoveToFront(old(players), first)
      ensures multiset(Flatten(HandsOf(players))) == multiset(Flatten(HandsOf(old(players))))
    {
      ghost var start := players;
      players := MoveToFront(players, first);
      PermutationKeepsDistinct(start, players);
      HandsOfMoveToFront(start, first);
      FlattenMoveToFront(HandsOf(start), first);
    }

    /**
     * Shuffles the deck with the given swap targets and deals it out to all
     * the players. What the hands then hold is stated by `DealAll` (each
     * player's round-robin share, 16 or 12 cards) and `ShuffleDealConserves`
     * (no card lost or gained).
     */
    method ShuffleAndDeal(targets: seq<int>)
      requires Valid() && players != []
      requires |deck.cards| == DeckSize
      requires |targets| == DeckSize && forall m :: 0 <= m < |targets| ==> 0 <= targets[m] < DeckSize
      modifies deck, (set p | p in players)
      ensures deck.cards == []
      ensures HandsOf(players) == Dealing(old(HandsOf(players)), Shuffled(old(deck.cards), targets), 0, |players|)
      ensures forall k :: 0 <= k < |players| ==> players[k].score == old(players[k].score)
    {
      deck.Shuffle(targets);
      Deal(|players|);
    }

    /**
     * One move of the active player (the front one): if some card of the
     * hand is playable, the first of the console's attempts that the table
     * admits is laid on the table; the ace of OROS earns the current ace
     * bonus and ends the match with this round.
     */
    method Move(table: Table, attempts: seq<nat>) returns (played: bool, index: nat, goldAce: bool)
      requires Valid() && table.Valid() && players != [] && players[0].hand != []
      requires forall a :: 0 <= a < |attempts| ==> attempts[a] < |players[0].hand|
      requires Playable(table, players[0].hand) ==>
                 exists a :: 0 <= a < |attempts| && table.CanPlace(players[0].hand[attempts[a]])
      modifies players[0], table.piles, this`matchOver
      ensures table.Valid()
      ensures played <==> old(Playable(table, players[0].hand))
      ensures played ==> index < |old(players[0].hand)| && old(table.CanPlace(players[0].hand[index]))
      ensures played ==> exists a :: 0 <= a < |attempts| && attempts[a] == index
                           && forall b :: 0 <= b < a ==> !old(table.CanPlace(players[0].hand[attempts[b]]))
      ensures played ==> players[0].hand == RemoveAt(old(players[0].hand), index)
      ensures played ==> var c := old(players[0].hand[index]);
                         var o := Ordinal(c.suit);
                         table.piles[..] == old(table.piles[..])[o := Placed(old(table.piles[o]), c)]
      ensures played ==> (goldAce <==> IsGoldAce(old(players[0].hand[index])))
      ensures !played ==> !goldAce && players[0].hand == old(players[0].hand) && table.piles[..] == old(table.piles[..])
      ensures players[0].score == old(players[0].score) + (if goldAce then aceBonus else 0)
      ensures matchOver == (old(matchOver) || goldAce)
      ensures InPlay(table) == old(InPlay(table))
    {
      played := players[0].CanPlaySomething(table);
      index, goldAce := 0, false;
      if played {
        index := ChooseCard(table, players[0].hand, attempts);
        goldAce := PlayActive(table, index);
      }
    }

    /**
     * The active player lays the card at position index, which the table
     * admits, on the table; the ace of OROS earns the current ace bonus and
     * ends the match with this round.
     */
    method PlayActive(table: Table, index: nat) returns (goldAce: bool)
      requires Valid() && table.Valid() && players != []
      requires index < |players[0].hand| && table.CanPlace(players[0].hand[index])
      modifies players[0], table.piles, this`matchOver
      ensures table.Valid()
      ensures players[0].hand == RemoveAt(old(players[0].hand), index)
      ensures var c := old(players[0].hand[index]);
              var o := Ordinal(c.suit);
              table.piles[..] == old(table.piles[..])[o := Placed(old(table.piles[o]), c)]
      ensures goldAce <==> IsGoldAce(old(players[0].hand[index]))
      ensures players[0].score == old(players[0].score) + (if goldAce then aceBonus else 0)
      ensures matchOver == (old(matchOver) || goldAce)
      ensures InPlay(table) == old(InPlay(table))
    {
      ghost var H, P := HandsOf(players), table.piles[..];
      var active := players[0];
      ghost var c := active.hand[index];
      goldAce := active.PlayCard(table, index);
      if goldAce {
        active.AddPoints(aceBonus);
        matchOver := true;
      }
      forall k | 1 <= k < |players|
        ensures players[k].hand == H[k]
      {
        assert Apart(players, 0, k);
      }
      assert HandsOf(players) == H[0 := RemoveAt(H[0], index)];
      PlayConserves(deck.cards, H, P, 0, index, Ordinal(c.suit), Placed(P[Ordinal(c.suit)], c));
    }

    /**
     * Passes the turn: an active player still holding cards goes to the back
     * of the turn order. The round is over when the active player's hand is
     * empty.
     */
    method NextTurn() returns (roundOver: bool)
      requires Valid() && players != []
      modifies this`players
      ensures Valid()
      ensures old(players[0].hand) != [] ==> players == Rotate(old(players))
      ensures old(players[0].hand) == [] ==> players == old(players)
      ensures roundOver <==> players[0].hand == []
      ensures multiset(Flatten(HandsOf(players))) == multiset(Flatten(HandsOf(old(players))))
    {
      var empty := players[0].HandEmpty();
      if !empty {
        ghost var start := players;
        players := Rotate(players);
        RotatePermutes(start);
        PermutationKeepsDistinct(start, players);
        HandsOfRotate(start);
        FlattenRotate(HandsOf(start));
      }
      empty := players[0].HandEmpty();
      roundOver := empty;
    }

    /**
     * The end of a round: the active player, who emptied the hand, earns the
     * round bonus; the table and the hands go back to the deck; the ace of
     * OROS is worth more in the next round. The bonus field is raised first
     * here: it is neither a player nor the table nor the deck, so the order
     * of the three updates cannot be observed.
     */
    method EndRound(table: Table)
      requires Valid() && table.Valid() && players != []
      modifies this`aceBonus, deck, (set p | p in players), table.piles
      ensures Valid() && table.Valid()
      ensures aceBonus == old(aceBonus) + AceBonusStep
      ensures players[0].score == old(players[0].score) + RoundBonus
      ensures forall k :: 1 <= k < |players| ==> players[k].score == old(players[k].score)
      ensures forall i :: 0 <= i < |players| ==> players[i].hand == []
      ensures forall o :: 0 <= o < table.piles.Length ==> table.piles[o] == []
      ensures deck.cards == old(deck.cards) + Flatten(old(table.piles[..])) + Flatten(old(HandsOf(players)))
      ensures InPlay(table) == old(InPlay(table))
    {
      aceBonus := aceBonus + AceBonusStep;
      players[0].AddPoints(RoundBonus);
      forall k | 1 <= k < |players|
        ensures players[k].score == old(players[k].score)
      {
        DistinctAt(players, 0, k);
      }
      assert HandsOf(players) == old(HandsOf(players));
      ResetRound(table);
    }
  }

  /**
   * The card the console finally accepts: the first of the attempts the
   * table admits. `Juego.jugar` keeps asking until one is admitted.
   */
  method ChooseCard(table: Table, hand: seq<Card>, attempts: seq<nat>) returns (index: nat)
    requires table.Valid()
    requires forall a :: 0 <= a < |attempts| ==> attempts[a] < |hand|
    requires exists a :: 0 <= a < |attempts| && table.CanPlace(hand[attempts[a]])
    ensures index < |hand| && table.CanPlace(hand[index])
    ensures exists a :: 0 <= a < |attempts| && attempts[a] == index
                        && forall b :: 0 <= b < a ==> !table.CanPlace(hand[attempts[b]])
  {
    var a := 0;
    while !table.CanPlace(hand[attempts[a]])
      invariant 0 <= a < |attempts|
      invariant forall b :: 0 <= b < a ==> !table.CanPlace(hand[attempts[b]])
      invariant exists b :: a <= b < |attempts| && table.CanPlace(hand[attempts[b]])
      decreases |attempts| - a
    {
      a := a + 1;
    }
    index := attempts[a];
  }

  /**
   * The setup of a match: a new game with a full deck, a new table with
   * four empty piles, and a player seated for every name given.
   */
  method Setup(names: seq<string>) returns (game: Game, table: Table)
    ensures fresh(game) && fresh(game.deck) && fresh(table) && fresh(table.piles)
    ensures game.Valid() && table.Valid() && game.Conserved(table)
    ensures |game.players| == |names|
    ensures forall k :: 0 <= k < |names| ==>
              && game.players[k].name == names[k] && game.players[k].hand == [] && game.players[k].score == 0
    ensures game.aceBonus == FirstAceBonus && !game.matchOver
    ensures game.deck.cards == FullDeck()
    ensures forall k :: 0 <= k < |game.players| ==> fresh(game.players[k])
    ensures forall o :: 0 <= o < table.piles.Length ==> table.piles[o] == []
  {
    game := new Game();
    table := new Table();
    game.Seat(names);
    FlattenEmpties(table.piles[..]);
  }
}
