/** The prompt text of app.js:101-121: a fixed preamble, one numbered line per
    picked slot in pick order, and a fixed list of requested sections, joined
    by line breaks. */
module Prompt {
  import opened Text
  import opened Deck

  const Preamble: seq<string> := [
    "你是一位专业塔罗占卜师。" + "请你根据我抽到的三张塔罗牌（包含正位/逆位），" + "为我做一次清晰、结构化、可执行建议导向的解读。",
    "",
    "抽到的三张牌（按抽牌顺序）："
  ]

  const Closing: seq<string> := [
    "",
    "请输出：",
    "1) 三张牌的综合主题",
    "2) 每张牌在此问题中的含义（分别说明）",
    "3) 可能的盲点/需要注意的地方",
    "4) 未来 7-30 天可执行的行动建议（尽量具体）"
  ]

  /** The orientation word: reversed or upright. */
  function Orientation(isReversed: bool): string
  {
    if isReversed then "逆位" else "正位"
  }

  /** The line for the slot picked k-th (counting from 0):
      `${k + 1}. ${nameZh}（${nameEn}）- ${orientation}`. */
  function CardLine(k: nat, slot: Slot): string
  {
    NatToString(k + 1) + ". " + slot.card.nameZh + "（" + slot.card.nameEn + "）- " + Orientation(slot.isReversed)
  }

  function CardLines(slots: seq<Slot>): seq<string>
  {
    seq(|slots|, k requires 0 <= k < |slots| => CardLine(k, slots[k]))
  }

  /** The prompt for the picked slots. */
  function BuildPrompt(slots: seq<Slot>): string
  {
    Join(Preamble + CardLines(slots) + Closing, '\n')
  }

  /** Every card name of every slot is free of line breaks. */
  predicate SingleLineNames(slots: seq<Slot>)
  {
    forall k :: 0 <= k < |slots| ==> '\n' !in slots[k].card.nameZh && '\n' !in slots[k].card.nameEn
  }

  lemma PreambleSingleLine()
    ensures NoSeparator(Preamble, '\n')
  {
  }

  lemma ClosingSingleLine()
    ensures NoSeparator(Closing, '\n')
  {
    assert '\n' !in Closing[2] && '\n' !in Closing[3];
    assert '\n' !in Closing[4] && '\n' !in Closing[5];
  }

  lemma FixedLinesSingleLine()
    ensures NoSeparator(Preamble, '\n') && NoSeparator(Closing, '\n')
    ensures '\n' !in ". " && '\n' !in "（" && '\n' !in "）- "
    ensures '\n' !in Orientation(true) && '\n' !in Orientation(false)
  {
    PreambleSingleLine();
    ClosingSingleLine();
  }

  lemma CardLineSingleLine(k: nat, slot: Slot)
    requires '\n' !in slot.card.nameZh && '\n' !in slot.card.nameEn
    ensures '\n' !in CardLine(k, slot)
  {
    FixedLinesSingleLine();
    var numeral := NatToString(k + 1);
    assert '\n' !in numeral;
  }

  /** Read line by line, the prompt is the three preamble lines, then line
      k + 1 of the list names the slot picked k-th with its orientation, then
      the six closing lines: nothing else, in this order. */
  lemma BuildPromptLines(slots: seq<Slot>)
    requires SingleLineNames(slots)
    ensures var lines := Split(BuildPrompt(slots), '\n');
      && |lines| == |Preamble| + |slots| + |Closing|
      && lines[..|Preamble|] == Preamble
      && (forall k :: 0 <= k < |slots| ==> lines[|Preamble| + k] == CardLine(k, slots[k]))
      && lines[|Preamble| + |slots|..] == Closing
  {
    var all := Preamble + CardLines(slots) + Closing;
    FixedLinesSingleLine();
    forall k | 0 <= k < |slots|
      ensures '\n' !in CardLines(slots)[k]
    {
      CardLineSingleLine(k, slots[k]);
    }
    assert NoSeparator(all, '\n');
    SplitJoin(all, '\n');
    assert all[|Preamble| + |slots|..] == Closing;
  }

  /** A draw of The Fool upright, Two of Wands reversed and Death upright
      (the catalog's cards at positions 0, 23 and 13) gives the list lines
      "1. 愚者（The Fool）- 正位", "2. 权杖二（Two of Wands）- 逆位" and
      "3. 死神（Death）- 正位", between the preamble and the closing lines,
      twelve lines in all. */
  lemma PromptForFoolTwoOfWandsDeath(slots: seq<Slot>)
    requires |slots| == 3
    requires slots[0] == Slot(Catalog()[0], false)
    requires slots[1] == Slot(Catalog()[MajorCount + 1], true)
    requires slots[2] == Slot(Catalog()[13], false)
    ensures var lines := Split(BuildPrompt(slots), '\n');
      && |lines| == 12
      && lines[..3] == Preamble && lines[6..] == Closing
      && lines[3] == "1. 愚者（The Fool）- 正位"
      && lines[4] == "2. 权杖二（Two of Wands）- 逆位"
      && lines[5] == "3. 死神（Death）- 正位"
  {
    ExampleCards();
    assert SingleLineNames(slots) by { MajorNamesSingleLine(); MinorNamesSingleLine(); }
    BuildPromptLines(slots);
    ExampleLines();
  }

  lemma ExampleLines()
    ensures CardLine(0, Slot(Card("MAJOR_0", "愚者", "The Fool"), false)) == "1. 愚者（The Fool）- 正位"
    ensures CardLine(1, Slot(Card("WANDS_TWO", "权杖二", "Two of Wands"), true)) == "2. 权杖二（Two of Wands）- 逆位"
    ensures CardLine(2, Slot(Card("MAJOR_13", "死神", "Death"), false)) == "3. 死神（Death）- 正位"
  {
    FirstExampleLine();
    SecondExampleLine();
    ThirdExampleLine();
  }

  lemma FirstExampleLine()
    ensures CardLine(0, Slot(Card("MAJOR_0", "愚者", "The Fool"), false)) == "1. 愚者（The Fool）- 正位"
  {
  }

  lemma SecondExampleLine()
    ensures CardLine(1, Slot(Card("WANDS_TWO", "权杖二", "Two of Wands"), true)) == "2. 权杖二（Two of Wands）- 逆位"
  {
  }

  lemma ThirdExampleLine()
    ensures CardLine(2, Slot(Card("MAJOR_13", "死神", "Death"), false)) == "3. 死神（Death）- 正位"
  {
  }

  lemma ExampleCards()
    ensures Catalog()[0] == Card("MAJOR_0", "愚者", "The Fool")
    ensures Catalog()[MajorCount + 1] == Card("WANDS_TWO", "权杖二", "Two of Wands")
    ensures Catalog()[13] == Card("MAJOR_13", "死神", "Death")
  {
    MinorsOfAt(Suits, 0, 1);
    assert Majors()[0] == MajorCard(MajorTable[0]) && Majors()[13] == MajorCard(MajorTable[13]);
  }
}
