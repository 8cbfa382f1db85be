/**
 * Cards of the 48-card Spanish deck: an immutable (rank, suit) value, the
 * suit enumeration whose ordinal indexes the table piles, and the text label
 * of a card (rank name, " de ", coloured lower-case suit name).
 */
module Cards {

  /** The suits in declaration order; `Ordinal` gives their position. */
  datatype Suit = Oros | Bastos | Espadas | Copas

  /**
   * A card. The getters of `Carta` are the destructors `rank` and `suit`;
   * the rank is whatever integer the card was built with (1..12 in the deck).
   */
  datatype Card = Card(rank: int, suit: Suit)

  const SuitCount: nat := 4
  const RanksPerSuit: nat := 12

  /** The suits as the enumeration lists them. */
  function Suits(): seq<Suit>
  {
    [Oros, Bastos, Espadas, Copas]
  }

  /** The ordinal of a suit: its position in the enumeration. */
  function Ordinal(s: Suit): (i: nat)
    ensures i < SuitCount && i < |Suits()| && Suits()[i] == s
  {
    match s
    case Oros => 0
    case Bastos => 1
    case Espadas => 2
    case Copas => 3
  }

  /** Different suits have different ordinals, so they index different piles. */
  lemma OrdinalInjective(s: Suit, t: Suit)
    ensures Ordinal(s) == Ordinal(t) ==> s == t
  {
  }

  /** The card whose placement ends the match: the ace of OROS. */
  predicate IsGoldAce(c: Card)
  {
    c.rank == 1 && c.suit == Oros
  }

  // ---------------------------------------------------------------------------
  // Decimal text of an integer (Java's `"" + n`)

  function DigitChar(d: nat): (ch: char)
    requires d < 10
    ensures '0' <= ch <= '9' && ch as int - '0' as int == d
  {
    ('0' as int + d) as char
  }

  /** The decimal digits of a natural number, most significant first. */
  function Digits(n: nat): (s: string)
    ensures |s| > 0
    ensures forall i :: 0 <= i < |s| ==> '0' <= s[i] <= '9'
    decreases n
  {
    if n < 10 then [DigitChar(n)] else Digits(n / 10) + [DigitChar(n % 10)]
  }

  /** The number a string of decimal digits denotes. */
  function DigitsValue(s: string): int
  {
    if s == [] then 0
    else DigitsValue(s[..|s| - 1]) * 10 + (s[|s| - 1] as int - '0' as int)
  }

  lemma {:induction false} DigitsRoundTrip(n: nat)
    ensures DigitsValue(Digits(n)) == n
    decreases n
  {
    if n >= 10 {
      DigitsRoundTrip(n / 10);
      var s := Digits(n);
      assert s[..|s| - 1] == Digits(n / 10);
    }
  }

  /** Java's decimal rendering of an int: a minus sign, then the digits. */
  function Decimal(n: int): (s: string)
    ensures |s| > 0 && (s[0] == '-' || '0' <= s[0] <= '9')
  {
    if n < 0 then "-" + Digits(-n) else Digits(n)
  }

  /** Reads back what `Decimal` writes. */
  function ParseDecimal(s: string): int
  {
    if |s| > 0 && s[0] == '-' then -DigitsValue(s[1..]) else DigitsValue(s)
  }

  lemma DecimalRoundTrip(n: int)
    ensures ParseDecimal(Decimal(n)) == n
  {
    if n < 0 {
      DigitsRoundTrip(-n);
      assert Decimal(n)[1..] == Digits(-n);
    } else {
      DigitsRoundTrip(n);
    }
  }

  // ---------------------------------------------------------------------------
  // Card label

  /**
   * The name of a rank: As, Sota, Caballo, Rey, or else the decimal number.
   * It starts with a capital letter exactly when the rank has a name.
   */
  function RankName(n: int): (s: string)
    ensures |s| > 0
    ensures IsNamedRank(n) <==> 'A' <= s[0] <= 'Z'
  {
    if n == 1 then "As"
    else if n == 10 then "Sota"
    else if n == 11 then "Caballo"
    else if n == 12 then "Rey"
    else Decimal(n)
  }

  predicate IsNamedRank(n: int)
  {
    n == 1 || n == 10 || n == 11 || n == 12
  }

  /** Distinct ranks have distinct names. */
  lemma RankNameInjective(a: int, b: int)
    ensures RankName(a) == RankName(b) ==> a == b
  {
    if RankName(a) == RankName(b) {
      if !IsNamedRank(a) && !IsNamedRank(b) {
        DecimalRoundTrip(a);
        DecimalRoundTrip(b);
      } else if IsNamedRank(a) && IsNamedRank(b) {
        var na, nb := RankName(a), RankName(b);
        assert |na| == |nb|;
        assert na[0] == nb[0];
      }
    }
  }

  /** The name of the enumeration constant. */
  function SuitName(s: Suit): string
  {
    match s
    case Oros => "OROS"
    case Bastos => "BASTOS"
    case Espadas => "ESPADAS"
    case Copas => "COPAS"
  }

  function LowerChar(ch: char): char
  {
    if 'A' <= ch <= 'Z' then (ch as int + 32) as char else ch
  }

  /** ASCII lower-casing, as `toLowerCase` does on the enumeration names. */
  function Lower(s: string): (r: string)
    ensures |r| == |s|
  {
    seq(|s|, i requires 0 <= i < |s| => LowerChar(s[i]))
  }

  const Escape: char := 27 as char

  /** The terminal colour code printed before a suit name. */
  function SuitColour(s: Suit): string
  {
    match s
    case Oros => [Escape] + "[33m"
    case Bastos => [Escape] + "[32m"
    case Espadas => [Escape] + "[36m"
    case Copas => [Escape] + "[31m"
  }

  /** The terminal code that restores the default colour. */
  function ColourReset(): string
  {
    [Escape] + "[0m"
  }

  /** The coloured, lower-cased suit part of a label. */
  function SuitTail(s: Suit): string
  {
    SuitColour(s) + Lower(SuitName(s)) + ColourReset()
  }

  /**
   * The display text of a card: rank name, " de ", then the coloured suit
   * name; it always ends by restoring the default colour.
   */
  function Label(c: Card): (s: string)
    ensures var name := RankName(c.rank);
            && |s| > |name| + 4 + |ColourReset()|
            && s[..|name| + 4] == name + " de "
            && s[|s| - |ColourReset()|..] == ColourReset()
  {
    RankName(c.rank) + " de " + SuitTail(c.suit)
  }

  /**
   * In every suit tail the colour code ends with 'm' at position 4 and the
   * suit name that follows holds no 'm'.
   */
  lemma SuitTailShape(s: Suit)
    ensures |SuitTail(s)| == 9 + |SuitName(s)|
    ensures SuitTail(s)[4] == 'm'
    ensures forall i :: 5 <= i < 5 + |SuitName(s)| ==> SuitTail(s)[i] != 'm'
  {
    var name := SuitName(s);
    forall i | 5 <= i < 5 + |name|
      ensures SuitTail(s)[i] != 'm'
    {
      assert SuitTail(s)[i] == LowerChar(name[i - 5]);
      assert name[i - 5] in {'O', 'R', 'S', 'B', 'A', 'T', 'E', 'P', 'D', 'C'};
    }
  }

  /**
   * Two texts that end in tails of different lengths, each holding an 'm' at
   * position 4 and none in the n letters after it, are different.
   */
  lemma MarkedTailsDiffer(x: string, y: string, ts: string, tt: string, ns: nat, nt: nat)
    requires |ts| == 9 + ns && ts[4] == 'm' && forall i :: 5 <= i < 5 + ns ==> ts[i] != 'm'
    requires |tt| == 9 + nt && tt[4] == 'm' && forall i :: 5 <= i < 5 + nt ==> tt[i] != 'm'
    requires ns != nt
    ensures x + ts != y + tt
  {
    if |x + ts| == |y + tt| {
      if ns < nt {
        var k := |x| + 4;
        assert (x + ts)[k] == ts[4];
        assert (y + tt)[k] == tt[nt - ns + 4];
      } else {
        var k := |y| + 4;
        assert (y + tt)[k] == tt[4];
        assert (x + ts)[k] == ts[ns - nt + 4];
      }
    }
  }

  /** Whatever precedes them, the tails of two different suits make different texts. */
  lemma SuitTailsDiffer(x: string, y: string, s: Suit, t: Suit)
    requires s != t
    ensures x + SuitTail(s) != y + SuitTail(t)
  {
    SuitTailShape(s);
    SuitTailShape(t);
    MarkedTailsDiffer(x, y, SuitTail(s), SuitTail(t), |SuitName(s)|, |SuitName(t)|);
  }

  /** Different cards have different labels. */
  lemma LabelInjective(a: Card, b: Card)
    ensures Label(a) == Label(b) ==> a == b
  {
    var pa := RankName(a.rank) + " de ";
    var pb := RankName(b.rank) + " de ";
    if a.suit != b.suit {
      SuitTailsDiffer(pa, pb, a.suit, b.suit);
    } else if Label(a) == Label(b) {
      var L := Label(a);
      var ta := SuitTail(a.suit);
      assert pa == L[..|L| - |ta|] == pb;
      assert RankName(a.rank) == pa[..|pa| - 4] == RankName(b.rank);
      RankNameInjective(a.rank, b.rank);
    }
  }
}
