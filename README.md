# Cinquillo-Oro rule engine in Dafny

This project models the rule engine of the Cinquillo-Oro card game. The game
uses the 48-card Spanish deck: four suits (OROS, BASTOS, ESPADAS, COPAS) and
ranks 1 to 12. The model has one module per class of the program:

- `Cards` (Carta.java): the immutable card value, the suit enumeration whose
  ordinal indexes the table, and the card's text label.
- `Decks` (Baraja.java): the deck, a stack whose top is the last element of
  `cards`. It covers the 48-card fill, push, pop, the emptiness test and the
  swap shuffle.
- `Tables` (Mesa.java): four double-ended piles in an array, one per suit. A
  pile opens with a 5 and then grows by one rank at either end. Its front
  holds the highest rank.
- `Players` (Jugador.java): a player with a hand and a score. It can scan the
  hand for a playable card, play the card at an index, and drain the hand
  onto the deck.
- `Games` (Juego.java): the match.
  - Round-robin dealing, clearing the hands, resetting the round and listing
    the winners.
  - The steps of the match loop, each as its own method: choose the start
    player, shuffle and deal, one move, pass the turn, end the round.
- `Sequences`: list operations the classes share. These are removal by index,
  popping a whole stack, move-to-front, front-to-back rotation and flattening
  a list of lists.

Classes whose fields the program updates are Dafny classes. Their methods
state the new state in terms of functions of the old state, and lemmas prove
what those functions guarantee:

- a legal card keeps its pile a descending run of one suit that contains the 5;
- the shuffle is a permutation;
- dealing gives every player the round-robin share of 16 or 12 cards;
- deck, hands and table together always hold the same cards.

The console and the random draws are parameters:

- the start player index;
- the 48 swap targets of the shuffle;
- the sequence of card positions the console would return.

Three behaviours of the program are worth stating outright:

- A pile's front (index 0) holds its highest rank, and the pile descends
  towards the back.
- The chosen start player is moved to the front and the others keep their
  order (`addFirst(remove(r))`). This is a move-to-front, not a cyclic
  rotation of the seating.
- The winner listing selects the players whose score equals the smaller of
  0 and the least score, because its running minimum starts at 0. With
  scores 4, 4 and 8 it lists nobody, and `Games.NoWinnersWhenAllPositive`
  proves that this happens whenever every score is positive.

## Model

| member | source | states |
|---|---|---|
| Cards.Ordinal | Carta.java:9-11 | the ordinal of a suit is below 4 and is its position in the enumeration OROS, BASTOS, ESPADAS, COPAS |
| Cards.OrdinalInjective | Carta.java:9-11 | different suits have different ordinals, so they index different piles |
| Cards.DecimalRoundTrip | Carta.java:84 | reading back the decimal text of any int gives the int |
| Cards.RankName | Carta.java:69-85 | a rank name is never empty, and it starts with a capital letter exactly when the rank is 1, 10, 11 or 12 (As, Sota, Caballo, Rey) |
| Cards.RankNameInjective | Carta.java:69-85 | different ranks get different names |
| Cards.SuitTailShape | Carta.java:53-88 | the coloured suit part of a label ends its colour code with 'm' at position 4, and no 'm' occurs in the lower-cased suit name after it |
| Cards.SuitTailsDiffer | Carta.java:88 | two texts that end in the tails of different suits are different |
| Cards.Label | Carta.java:87-90 | a label begins with the rank name followed by " de ", and ends with the code that restores the default colour |
| Cards.LabelInjective | Carta.java:88 | different cards have different labels |
| Decks.FullDeckAt | Baraja.java:17-25 | the constructor puts card (r, s) at position 12 * ordinal(s) + r - 1 |
| Decks.FullDeckDistinct | Baraja.java:17-25 | the new deck has 48 cards and no card twice |
| Decks.FullDeckMembers | Baraja.java:17-25 | a card is in the new deck exactly when its rank is 1..12 |
| Decks.FullDeckCounts | Baraja.java:17-25 | every card of rank 1..12 occurs exactly once in the new deck and no other card occurs |
| Decks.Deck.constructor | Baraja.java:17-25 | the deck is filled suit by suit in enumeration order, ranks ascending |
| Decks.Deck.Push | Baraja.java:32-34 | the card goes on top |
| Decks.Deck.Pop | Baraja.java:67-69 | popping needs a non-empty deck, returns the top card and leaves the rest |
| Decks.PushThenPop | Baraja.java:32-69 | a push followed by a pop returns the pushed card and restores the deck |
| Decks.Deck.IsEmpty | Baraja.java:76-78 | true exactly when the deck holds no card |
| Decks.Deck.DrawAll | Baraja.java:41-47 | the first loop of the shuffle pops every card into a fresh 48-slot array, top card in slot 0, and empties the deck |
| Decks.SwapAt | Baraja.java:50-55 | one swap step exchanges the two slots and leaves every other slot alone |
| Decks.SwapSlots | Baraja.java:50-55 | the in-place swap loop leaves the array as the swap steps define it |
| Decks.SwapAtPermutes | Baraja.java:50-55 | one swap step keeps the same cards, each as often as before |
| Decks.ApplySwapsPermutes | Baraja.java:50-55 | any number of swap steps keep the same cards |
| Decks.ShuffledPermutes | Baraja.java:40-60 | the shuffle, whatever the swap targets, is a permutation of the deck |
| Decks.Deck.Shuffle | Baraja.java:40-60 | with exactly 48 cards, the deck after the shuffle is the popped order with every slot swapped with its target, pushed back from slot 0; it still has 48 cards |
| Tables.CanExtend | Mesa.java:46-66 | an admitted card opens an empty pile only as a 5, and joins a non-empty pile only if it has that pile's suit |
| Tables.CanExtendRun | Mesa.java:46-66 | on a run, an empty pile takes only a 5, and a non-empty one a card one above its front or one below its back |
| Tables.Placed | Mesa.java:74-83 | placing adds exactly that card to the pile, at its front or at its back |
| Tables.PlacementKeepsRun | Mesa.java:46-83 | a card passes the legality test exactly when laying it keeps the pile a run of its suit that contains the 5 |
| Tables.PlacementEnd | Mesa.java:74-83 | a legal card one above the front goes to the front, and one below the back goes to the back |
| Tables.Table.constructor | Mesa.java:20-25 | a new table has four empty piles and is well-formed |
| Tables.Table.CanPlace | Mesa.java:46-66 | a card the table admits has a place to go: it is a 5, or the pile of its suit is not empty |
| Tables.Table.CanPlaceLegal | Mesa.java:46-66 | the table's legality test, in both directions, for an empty and a non-empty pile, and its equivalence with keeping the pile a run |
| Tables.Table.Place | Mesa.java:74-85 | only the card's own pile changes; the table stays well-formed; the result is true exactly for the ace of OROS |
| Tables.Table.Clear | Mesa.java:32-38 | every pile ends empty and the deck gains the piles' cards, pile 0 to 3, each front to back |
| Tables.Table.ClearPile | Mesa.java:34-36 | one pile ends empty, the deck gains its cards front to back, and the other piles stay as they were |
| Players.Player.constructor | Jugador.java:20-24 | a new player has the given name, an empty hand and score 0 |
| Players.Player.HandEmpty | Jugador.java:68-70 | true exactly when the hand holds no card |
| Players.Player.AddPoints | Jugador.java:77-79 | the score grows by exactly the points and nothing else changes |
| Players.Player.InsertCard | Jugador.java:87-89 | the card is appended at the end of the hand |
| Players.Player.CanPlaySomething | Jugador.java:109-117 | needs a non-empty hand; true exactly when some card of the hand may be laid on the table |
| Players.Player.PlayCard | Jugador.java:128-130 | the card at the index leaves the hand, the others keep their order, the card is laid on its pile, and the result is true exactly for the ace of OROS |
| Players.Player.Drain | Jugador.java:137-141 | the hand ends empty and the deck gains its cards, first card first |
| Sequences.RemoveAt | Jugador.java:129 | removal by index keeps the others in order and removes exactly that element |
| Sequences.MoveToFront | Juego.java:113 | the chosen element goes to the front and the others keep their relative order |
| Sequences.Rotate | Juego.java:157 | the front element goes to the back and the others move up by one |
| Sequences.RotatePermutes | Juego.java:157 | rotation keeps the same elements |
| Sequences.RotateTimesSplits | Juego.java:155-159 | k rotations move the first k players behind the others |
| Sequences.RotationIsCyclic | Juego.java:155-159 | one rotation per player brings the turn order back to where it started |
| Sequences.Reversed | Baraja.java:44-47 | popping a whole stack yields its elements in the opposite order |
| Sequences.ReversedPermutes | Baraja.java:44-47 | popping a whole stack keeps every card |
| Games.Turn | Juego.java:36-45 | the deal's position counter is always below the number of players |
| Games.LapsAndTurn | Juego.java:36-45 | after k cards the counter has wrapped Laps times and stands at Turn, so k = Laps * n + Turn |
| Games.DealingConserves | Juego.java:35-46 | dealing moves the deck into the hands: hands and deck together keep their cards |
| Games.DealingIsRoundRobin | Juego.java:35-46 | dealing a whole deck from position 0 appends to hand i exactly the cards dealt to position i, in deal order |
| Games.DealtCount | Juego.java:35-46 | each full lap gives every position one card, and the positions below the counter have one more |
| Games.DealEvenly | Juego.java:35-46 | with 48 cards and 3 or 4 players, every position receives 48 / n cards |
| Games.DealAll | Juego.java:35-46 | dealing the 48 cards to 3 or 4 empty hands gives each hand its round-robin share of the popped cards, 16 or 12 of them |
| Games.ShuffleDealConserves | Juego.java:116-117 | shuffling and then dealing loses and gains no card |
| Games.HandsOfMoveToFront | Juego.java:113 | moving a player to the front moves the hand with the player |
| Games.PlayConserves | Jugador.java:128-130 | laying a card from a hand on a pile keeps the cards in play |
| Games.CollectConserves | Juego.java:62-65 | moving the table and then the hands onto the deck keeps the cards in play |
| Games.FullDeckSize | Juego.java:62-65 | with the table and the hands empty, a conserving game's deck holds the 48 cards |
| Games.MinOrZero | Juego.java:74-79 | the first winner loop ends at a value that is at most 0 and at most every score, and that is 0 or some score |
| Games.WithScoreMembers | Juego.java:80-84 | a player is listed exactly when it is a player with the selected score |
| Games.NoWinnersWhenAllPositive | Juego.java:72-86 | when every score is positive, the winner list is empty |
| Games.Game.constructor | Juego.java:24-28 | a new game has a full deck, no players, an ace bonus of 2 and no match end |
| Games.Game.Seat | Juego.java:98-101 | one new player per name, in order, behind the seated ones; the players stay distinct; no card appears |
| Games.Game.Deal | Juego.java:35-46 | the deck ends empty, the hands are what dealing the deck round-robin from position 0 defines, and no score changes |
| Games.Game.GiveTopCard | Juego.java:38-39 | the top card goes to the end of the hand at the position, and nothing else of the players changes |
| Games.Game.ClearHands | Juego.java:51-55 | every hand ends empty, no score changes, and the deck gains the hands' cards in turn order |
| Games.Game.DrainAt | Juego.java:52-54 | one player's hand goes onto the deck and ends empty; every other hand and every score stay as they were |
| Games.Game.ResetRound | Juego.java:62-65 | table and hands end empty, the deck gains the table's and then the hands' cards, and the cards in play stay the same |
| Games.Game.Winners | Juego.java:72-86 | the list is the players, in turn order, whose score equals the smaller of 0 and the least score |
| Games.Game.ChooseFirstPlayer | Juego.java:108-113 | the start player goes to the front, the others keep their order, the players stay distinct and the hands keep their cards |
| Games.Game.ShuffleAndDeal | Juego.java:116-117 | the deck ends empty, the hands are what dealing the shuffled deck defines, and no score changes |
| Games.Game.Move | Juego.java:131-153 | a card is played exactly when one is playable; the played card is the first of the console's attempts that the table admits; only the active hand and that suit's pile change; the ace of OROS earns the ace bonus and ends the match; the cards in play stay the same |
| Games.Game.PlayActive | Juego.java:144-149 | the active player lays the admitted card, earns the ace bonus for the ace of OROS and sets the match end; the cards in play stay the same |
| Games.ChooseCard | Juego.java:136-141 | the accepted index is the first attempt that the table admits |
| Games.Game.NextTurn | Juego.java:155-159 | an active player with cards goes to the back and one without stays at the front; the round ends exactly when the front hand is empty; the hands keep their cards |
| Games.Game.EndRound | Juego.java:163-167 | the front player gains 4 points, others keep their scores, table and hands end empty, the deck gains the piles' cards and then the hands' cards, the cards in play stay the same, and the ace bonus grows by 2 |
| Games.Setup | Juego.java:94-101 | a new match has distinct, newly created players for the names with empty hands and score 0, four empty piles, the new 48-card deck in its constructed order, all 48 cards in play, and an ace bonus of 2 |

## Left out

- Console input and output (IU.java, the messages and the table printout in
  Juego.java) are not modelled. What the console guarantees becomes a
  precondition: a chosen card index lies in the hand, and 3 or 4 players are
  needed for the even share in `Games.DealAll`.
- The random draws (`Math.random` for the start player, `Random.nextInt(48)`
  for the swap targets) are parameters with range preconditions.
- The `toString` renderings of the table and the player are not modelled.
  The card label is modelled, including its colour codes.
- The match loop of `jugar` is left out as a loop. Its steps are separate
  methods, and termination of the match is not proved.
- The pure getters (`getNombre`, `getMano`, `getPuntuacion`, `getNumero`,
  `getPalo`) are fields or datatype destructors. `getCartasEnMano` is the
  function `Players.Player.CardCount` and `devolverCarta` is indexing the
  hand; as plain getters they carry no contract of their own.
- Players.Player.AddPoints: uses unbounded integers, so a 32-bit overflow of
  the Java `int` score is not modelled.
- Games.Game.EndRound: the ace bonus (`puntosAsDeOros += 2`, Juego.java:167)
  is an unbounded integer too, so its 32-bit overflow is not modelled.
- Games.Game.EndRound: raises the ace bonus before adding the round bonus and
  resetting the round, whereas `Juego.jugar` raises it last. The bonus field is
  neither a player, the table nor the deck, so the final state is the same.
- Games.Game.Move: the console is modelled as a finite list of attempts, one
  of which the table admits. An endless run of refused attempts is not
  modelled.
- Decks.Deck.Shuffle: requires exactly 48 cards, because `Baraja.barajarCartas`'s
  48-slot array would keep empty slots if the deck held fewer. Game
  conservation guarantees 48 cards once the round is reset
  (`Games.FullDeckSize`).
- The 3–4 player count is not a precondition of `Games.Game.Deal`,
  `Games.Game.ShuffleAndDeal` or `Games.Game.Seat`. It is needed only for the
  even share.
