/** The Rider-Waite card catalog (app.js:19-86): 22 major arcana followed by
    the 56 minor arcana, four suits of fourteen ranks each, and the slot a
    card occupies on a shuffled slate. */
module Deck {
  import opened Options
  import opened Text

  /** A card: its stable id, its Chinese name and its English name. */
  datatype Card = Card(id: string, nameZh: string, nameEn: string)

  /** A suit or rank of the minor arcana: id key, Chinese and English word. */
  datatype Suit = Suit(key: string, zh: string, en: string)
  datatype Rank = Rank(key: string, zh: string, en: string)

  /** One position of a shuffled slate: a card and its orientation, drawn
      once when the slate is made. */
  datatype Slot = Slot(card: Card, isReversed: bool)

  const MajorCount: nat := 22
  const RankCount: nat := 14
  const DeckSize: nat := 78

  /** The majors table: numeral, Chinese name, English name. */
  const MajorTable: seq<(string, string, string)> := [
    ("0", "愚者", "The Fool"),
    ("1", "魔术师", "The Magician"),
    ("2", "女祭司", "The High Priestess"),
    ("3", "女皇", "The Empress"),
    ("4", "皇帝", "The Emperor"),
    ("5", "教皇", "The Hierophant"),
    ("6", "恋人", "The Lovers"),
    ("7", "战车", "The Chariot"),
    ("8", "力量", "Strength"),
    ("9", "隐者", "The Hermit"),
    ("10", "命运之轮", "Wheel of Fortune"),
    ("11", "正义", "Justice"),
    ("12", "倒吊人", "The Hanged Man"),
    ("13", "死神", "Death"),
    ("14", "节制", "Temperance"),
    ("15", "恶魔", "The Devil"),
    ("16", "高塔", "The Tower"),
    ("17", "星星", "The Star"),
    ("18", "月亮", "The Moon"),
    ("19", "太阳", "The Sun"),
    ("20", "审判", "Judgement"),
    ("21", "世界", "The World")
  ]

  const Suits: seq<Suit> := [
    Suit("WANDS", "权杖", "Wands"),
    Suit("CUPS", "圣杯", "Cups"),
    Suit("SWORDS", "宝剑", "Swords"),
    Suit("PENTACLES", "钱币", "Pentacles")
  ]

  const Ranks: seq<Rank> := [
    Rank("ACE", "王牌", "Ace"),
    Rank("TWO", "二", "Two"),
    Rank("THREE", "三", "Three"),
    Rank("FOUR", "四", "Four"),
    Rank("FIVE", "五", "Five"),
    Rank("SIX", "六", "Six"),
    Rank("SEVEN", "七", "Seven"),
    Rank("EIGHT", "八", "Eight"),
    Rank("NINE", "九", "Nine"),
    Rank("TEN", "十", "Ten"),
    Rank("PAGE", "侍从", "Page"),
    Rank("KNIGHT", "骑士", "Knight"),
    Rank("QUEEN", "王后", "Queen"),
    Rank("KING", "国王", "King")
  ]

  /** The card of one row of the majors table: id `MAJOR_${n}`. */
  function MajorCard(entry: (string, string, string)): Card
  {
    Card("MAJOR_" + entry.0, entry.1, entry.2)
  }

  /** The majors, in table order. */
  function Majors(): (r: seq<Card>)
    ensures |r| == MajorCount
  {
    seq(|MajorTable|, i requires 0 <= i < |MajorTable| => MajorCard(MajorTable[i]))
  }

  /** The minor card of a suit and a rank: id `${suit.key}_${rank.key}`,
      Chinese name suit then rank, English name "<rank> of <suit>". */
  function MinorCard(suit: Suit, rank: Rank): Card
  {
    Card(suit.key + "_" + rank.key, suit.zh + rank.zh, rank.en + " of " + suit.en)
  }

  /** The cards of one suit for the given ranks, in rank order. */
  function SuitRow(suit: Suit, ranks: seq<Rank>): (r: seq<Card>)
    ensures |r| == |ranks|
    decreases |ranks|
  {
    if ranks == [] then []
    else SuitRow(suit, ranks[..|ranks| - 1]) + [MinorCard(suit, ranks[|ranks| - 1])]
  }

  /** The minor cards of the given suits and ranks, suit by suit, each in
      rank order. */
  function MinorsOf(suits: seq<Suit>, ranks: seq<Rank>): (r: seq<Card>)
    ensures |r| == |ranks| * |suits|
    decreases |suits|
  {
    if suits == [] then []
    else MinorsOf(suits[..|suits| - 1], ranks) + SuitRow(suits[|suits| - 1], ranks)
  }

  /** The whole catalog: majors, then minors. */
  function Catalog(): (r: seq<Card>)
    ensures |r| == DeckSize
  {
    Majors() + MinorsOf(Suits, Ranks)
  }

  /** Builds the catalog as the source does: the majors from their table,
      then the minors from the suit and rank tables. */
  method CreateRiderWaiteDeck() returns (deck: seq<Card>)
    ensures deck == Catalog()
    ensures |deck| == DeckSize
    ensures forall k :: 0 <= k < |deck| ==> LookupId(deck[k].id) == Some(k)
  {
    var majors := Majors();
    var minors := FillMinors(Suits, Ranks);
    deck := majors + minors;
    CatalogIdsRoundTrip();
  }

  /** The two nested loops that append one minor card at a time, for each
      suit in order and within it for each rank in order. */
  method FillMinors(suits: seq<Suit>, ranks: seq<Rank>) returns (minors: seq<Card>)
    ensures minors == MinorsOf(suits, ranks)
  {
    minors := [];
    for si := 0 to |suits|
      invariant minors == MinorsOf(suits[..si], ranks)
    {
      var suit := suits[si];
      for ri := 0 to |ranks|
        invariant minors == MinorsOf(suits[..si], ranks) + SuitRow(suit, ranks[..ri])
      {
        assert ranks[..ri + 1][..ri] == ranks[..ri];
        minors := minors + [MinorCard(suit, ranks[ri])];
      }
      assert ranks[..|ranks|] == ranks;
      assert suits[..si + 1][..si] == suits[..si];
    }
    assert suits[..|suits|] == suits;
  }

  // ---------------------------------------------------------------------
  // Shape of the catalog

  lemma {:induction false} SuitRowAt(suit: Suit, ranks: seq<Rank>, r: nat)
    requires r < |ranks|
    ensures SuitRow(suit, ranks)[r] == MinorCard(suit, ranks[r])
    decreases |ranks|
  {
    if r < |ranks| - 1 {
      SuitRowAt(suit, ranks[..|ranks| - 1], r);
    }
  }

  lemma {:induction false} MinorsOfAt(suits: seq<Suit>, s: nat, r: nat)
    requires s < |suits| && r < RankCount
    ensures MinorsOf(suits, Ranks)[RankCount * s + r] == MinorCard(suits[s], Ranks[r])
    decreases |suits|
  {
    var n := |suits| - 1;
    assert |Ranks| == RankCount == 14;
    if s < n {
      assert 14 * s + r < 14 * n;
      MinorsOfAt(suits[..n], s, r);
    } else {
      SuitRowAt(suits[n], Ranks, r);
    }
  }

  /** The catalog holds 78 cards: position k < 22 is the major numbered k,
      with id MAJOR_k, and position 22 + 14 s + r is the minor of suit s and
      rank r, so minors run suit by suit and within a suit rank by rank. */
  lemma CatalogLayout()
    ensures |Catalog()| == DeckSize
    ensures forall k :: 0 <= k < MajorCount ==>
      Catalog()[k] == MajorCard(MajorTable[k]) && Catalog()[k].id == "MAJOR_" + NatToString(k)
    ensures forall s, r :: 0 <= s < |Suits| && 0 <= r < RankCount ==>
      Catalog()[MajorCount + RankCount * s + r] == MinorCard(Suits[s], Ranks[r])
  {
    MajorNumeralsAreDecimals();
    forall s, r | 0 <= s < |Suits| && 0 <= r < RankCount
      ensures Catalog()[MajorCount + RankCount * s + r] == MinorCard(Suits[s], Ranks[r])
    {
      MinorsOfAt(Suits, s, r);
    }
  }

  // ---------------------------------------------------------------------
  // Reading a position back from an id

  /** The first position of x in xs, if any. */
  function IndexOf(xs: seq<string>, x: string): (r: Option<nat>)
    ensures r.Some? ==> r.value < |xs| && xs[r.value] == x &&
                        forall k :: 0 <= k < r.value ==> xs[k] != x
    ensures r.None? <==> x !in xs
    decreases |xs|
  {
    if xs == [] then None
    else if xs[0] == x then Some(0)
    else match IndexOf(xs[1..], x)
      case None => None
      case Some(k) => Some(k + 1)
  }

  predicate Distinct(xs: seq<string>)
  {
    forall i, j :: 0 <= i < j < |xs| ==> xs[i] != xs[j]
  }

  function MajorNumerals(): seq<string>
  {
    seq(|MajorTable|, i requires 0 <= i < |MajorTable| => MajorTable[i].0)
  }

  function SuitKeys(): seq<string>
  {
    seq(|Suits|, i requires 0 <= i < |Suits| => Suits[i].key)
  }

  function RankKeys(): seq<string>
  {
    seq(|Ranks|, i requires 0 <= i < |Ranks| => Ranks[i].key)
  }

  /** The catalog position of the card with the given id: an id is split at
      its underscore into a prefix, MAJOR or a suit key, and a numeral or a
      rank key. */
  function LookupId(id: string): (r: Option<nat>)
    ensures r.Some? ==> r.value < DeckSize
  {
    var parts := Split(id, '_');
    if |parts| != 2 then None
    else if parts[0] == "MAJOR" then IndexOf(MajorNumerals(), parts[1])
    else match (IndexOf(SuitKeys(), parts[0]), IndexOf(RankKeys(), parts[1]))
      case (Some(s), Some(r)) => Some(MajorCount + RankCount * s + r)
      case _ => None
  }

  /** The numerals of the majors table are the decimals of the positions. */
  lemma MajorNumeralsAreDecimals()
    ensures forall k :: 0 <= k < |MajorTable| ==> MajorTable[k].0 == NatToString(k)
  {
    forall k | 0 <= k < |MajorTable|
      ensures MajorTable[k].0 == NatToString(k)
    {
      if k < 10 {
        SingleDigitNumerals();
      } else {
        TwoDigitNumerals();
        assert NatToString(k) == NatToString(k / 10) + [Digit(k % 10)];
      }
    }
  }

  lemma SingleDigitNumerals()
    ensures forall k :: 0 <= k < 10 ==> MajorTable[k].0 == [Digit(k)]
  {
  }

  lemma TwoDigitNumerals()
    ensures forall k :: 10 <= k < |MajorTable| ==> MajorTable[k].0 == [Digit(k / 10), Digit(k % 10)]
  {
  }

  lemma NumeralFacts()
    ensures Distinct(MajorNumerals())
    ensures forall k :: 0 <= k < |MajorTable| ==> '_' !in MajorTable[k].0
  {
    MajorNumeralsAreDecimals();
    forall i, j | 0 <= i < j < |MajorTable|
      ensures MajorNumerals()[i] != MajorNumerals()[j]
    {
      if MajorNumerals()[i] == MajorNumerals()[j] {
        NatToStringInjective(i, j);
      }
    }
  }

  lemma SuitKeyFacts()
    ensures Distinct(SuitKeys()) && "MAJOR" !in SuitKeys() && '_' !in "MAJOR"
    ensures forall k :: 0 <= k < |Suits| ==> '_' !in Suits[k].key
  {
  }

  lemma RankKeyFacts()
    ensures Distinct(RankKeys())
    ensures forall k :: 0 <= k < |Ranks| ==> '_' !in Ranks[k].key
  {
    RankKeysDistinct();
    RankKeysPlain();
  }

  lemma RankKeysDistinct()
    ensures Distinct(RankKeys())
  {
  }

  lemma RankKeysPlain()
    ensures forall k :: 0 <= k < |Ranks| ==> '_' !in Ranks[k].key
  {
  }

  lemma IndexOfDistinct(xs: seq<string>, i: nat)
    requires Distinct(xs) && i < |xs|
    ensures IndexOf(xs, xs[i]) == Some(i)
  {
  }

  /** An id made of two underscore-free parts splits back into them. */
  lemma SplitId(p: string, q: string)
    requires '_' !in p && '_' !in q
    ensures Split(p + "_" + q, '_') == [p, q]
  {
    assert p + "_" + q == p + ['_'] + q;
    SplitPrefix(p, '_', q);
    SplitWhole(q, '_');
  }

  lemma {:induction false} MajorIdRoundTrip(k: nat)
    requires k < MajorCount
    ensures LookupId(MajorCard(MajorTable[k]).id) == Some(k)
  {
    NumeralFacts();
    SuitKeyFacts();
    assert MajorCard(MajorTable[k]).id == "MAJOR" + "_" + MajorTable[k].0;
    SplitId("MAJOR", MajorTable[k].0);
    assert MajorTable[k].0 == MajorNumerals()[k];
    IndexOfDistinct(MajorNumerals(), k);
  }

  lemma {:induction false} MinorIdRoundTrip(s: nat, r: nat)
    requires s < |Suits| && r < RankCount
    ensures LookupId(MinorCard(Suits[s], Ranks[r]).id) == Some(MajorCount + RankCount * s + r)
  {
    SuitKeyFacts();
    RankKeyFacts();
    SplitId(Suits[s].key, Ranks[r].key);
    assert Suits[s].key == SuitKeys()[s] && Ranks[r].key == RankKeys()[r];
    IndexOfDistinct(SuitKeys(), s);
    IndexOfDistinct(RankKeys(), r);
  }

  /** Reading any catalog card's id gives back its position; hence the 78
      ids are pairwise distinct. */
  lemma CatalogIdsRoundTrip()
    ensures forall k :: 0 <= k < |Catalog()| ==> LookupId(Catalog()[k].id) == Some(k)
  {
    forall k | 0 <= k < |Catalog()|
      ensures LookupId(Catalog()[k].id) == Some(k)
    {
      if k < MajorCount {
        assert Catalog()[k] == Majors()[k] == MajorCard(MajorTable[k]);
        MajorIdRoundTrip(k);
      } else {
        var s, r := (k - MajorCount) / RankCount, (k - MajorCount) % RankCount;
        assert k - MajorCount == RankCount * s + r;
        MinorsOfAt(Suits, s, r);
        assert Catalog()[k] == MinorsOf(Suits, Ranks)[k - MajorCount];
        MinorIdRoundTrip(s, r);
      }
    }
  }

  /** No two catalog cards share an id, so no card occurs twice. */
  lemma CatalogIdsDistinct()
    ensures forall i, j :: 0 <= i < j < |Catalog()| ==> Catalog()[i].id != Catalog()[j].id
    ensures forall i, j :: 0 <= i < j < |Catalog()| ==> Catalog()[i] != Catalog()[j]
  {
    CatalogIdsRoundTrip();
  }

  lemma MajorNamesSingleLine()
    ensures forall k :: 0 <= k < |MajorTable| ==> '\n' !in MajorTable[k].1 && '\n' !in MajorTable[k].2
  {
  }

  lemma MinorNamesSingleLine()
    ensures forall s :: 0 <= s < |Suits| ==> '\n' !in Suits[s].zh && '\n' !in Suits[s].en
    ensures forall r :: 0 <= r < |Ranks| ==> '\n' !in Ranks[r].zh && '\n' !in Ranks[r].en
    ensures '\n' !in " of "
  {
  }

  /** No card name holds a line break, so a card line of the prompt stays
      one line. */
  lemma CatalogNamesSingleLine()
    ensures forall k :: 0 <= k < |Catalog()| ==>
      '\n' !in Catalog()[k].nameZh && '\n' !in Catalog()[k].nameEn
  {
    MajorNamesSingleLine();
    MinorNamesSingleLine();
    forall k | 0 <= k < |Catalog()|
      ensures '\n' !in Catalog()[k].nameZh && '\n' !in Catalog()[k].nameEn
    {
      if k < MajorCount {
        assert Catalog()[k] == Majors()[k] == MajorCard(MajorTable[k]);
      } else {
        var s, r := (k - MajorCount) / RankCount, (k - MajorCount) % RankCount;
        assert k - MajorCount == RankCount * s + r;
        MinorsOfAt(Suits, s, r);
        var c := MinorCard(Suits[s], Ranks[r]);
        assert Catalog()[k] == MinorsOf(Suits, Ranks)[k - MajorCount] == c;
        assert c.nameEn == Ranks[r].en + " of " + Suits[s].en;
      }
    }
  }
}
