/** The draw session of app.js:123-275: the slate of the current session
    (deckSlots, absent before the first shuffle and after a reset) and the
    positions picked so far (pickedIndexes), changed by resetAll,
    shuffleAndStart and onPickCard. The transitions are stated as functions
    on a State value; the class DrawSession holds the two variables and its
    methods are tied to those functions. */
module Session {
  import opened Options
  import opened Text
  import opened Deck
  import opened Shuffle
  import opened Prompt

  /** At most this many positions are picked in one session. */
  const MaxPicks: nat := 3

  datatype State = State(deckSlots: Option<seq<Slot>>, pickedIndexes: seq<nat>)

  /** The state before the first shuffle and after every reset. */
  const Idle: State := State(None, [])

  function SlotCards(slots: seq<Slot>): (cards: seq<Card>)
    ensures |cards| == |slots|
    ensures forall k :: 0 <= k < |slots| ==> cards[k] == slots[k].card
  {
    seq(|slots|, k requires 0 <= k < |slots| => slots[k].card)
  }

  /** A slate holds 78 slots whose cards are the catalog's cards, each
      exactly as often as in the catalog. */
  predicate IsSlate(slots: seq<Slot>)
  {
    |slots| == DeckSize && multiset(SlotCards(slots)) == multiset(Catalog())
  }

  predicate NoRepeats(ps: seq<nat>)
  {
    forall a, b :: 0 <= a < b < |ps| ==> ps[a] != ps[b]
  }

  /** What every reachable state satisfies: at most three picks, none twice,
      each a position of the slate; no picks without a slate. */
  predicate Inv(st: State)
  {
    && |st.pickedIndexes| <= MaxPicks
    && NoRepeats(st.pickedIndexes)
    && match st.deckSlots
       case None => st.pickedIndexes == []
       case Some(slots) =>
         IsSlate(slots) && forall k :: 0 <= k < |st.pickedIndexes| ==> st.pickedIndexes[k] < |slots|
  }

  // ---------------------------------------------------------------------
  // shuffleAndStart (app.js:233-240)

  /** The slots for the shuffled cards, the k-th card reversed when the k-th
      coin (Math.random() < 0.5) came up true. */
  function Deal(cards: seq<Card>, coins: seq<bool>): (slots: seq<Slot>)
    requires |coins| == |cards|
  {
    seq(|cards|, k requires 0 <= k < |cards| => Slot(cards[k], coins[k]))
  }

  /** The state after a shuffle with the given choice of indices and coins:
      a fresh slate, no picks. */
  function Start(js: seq<nat>, coins: seq<bool>): State
    requires ValidChoices(js, DeckSize) && |coins| == DeckSize
  {
    State(Some(Deal(Shuffled(Catalog(), js), coins)), [])
  }

  /** After a shuffle the session holds a slate of 78 slots whose cards are
      the catalog's 78 cards, each in exactly one slot, with orientations
      following the coins, and nothing is picked yet. */
  lemma StartDealsSlate(js: seq<nat>, coins: seq<bool>)
    requires ValidChoices(js, DeckSize) && |coins| == DeckSize
    ensures var st := Start(js, coins);
      && Inv(st) && st.deckSlots.Some? && st.pickedIndexes == []
      && IsSlate(st.deckSlots.value)
      && (forall k :: 0 <= k < DeckSize ==> st.deckSlots.value[k].isReversed == coins[k])
      && (forall c :: c in Catalog() ==> multiset(SlotCards(st.deckSlots.value))[c] == 1)
  {
    var slots := Deal(Shuffled(Catalog(), js), coins);
    DealtCards(js, coins);
    CatalogOnce();
  }

  lemma DealtCards(js: seq<nat>, coins: seq<bool>)
    requires ValidChoices(js, DeckSize) && |coins| == DeckSize
    ensures multiset(SlotCards(Deal(Shuffled(Catalog(), js), coins))) == multiset(Catalog())
  {
    var cards := Shuffled(Catalog(), js);
    ShuffledIsPermutation(Catalog(), js);
    assert SlotCards(Deal(cards, coins)) == cards;
  }

  /** Each catalog card occurs once in the catalog. */
  lemma CatalogOnce()
    ensures forall c :: c in Catalog() ==> multiset(Catalog())[c] == 1
  {
    CatalogIdsDistinct();
    var cat := Catalog();
    assert DistinctItems(cat);
    DistinctAllOnce(cat);
  }

  /** Any order of the catalog's cards is a slate some shuffle deals, and
      different choices of indices deal different orders: the choices and
      the orders correspond one to one. */
  lemma StartDealsEveryOrder(order: seq<Card>, coins: seq<bool>)
    requires |order| == DeckSize && multiset(order) == multiset(Catalog())
    requires |coins| == DeckSize
    ensures exists js :: (ValidChoices(js, DeckSize) &&
      SlotCards(Start(js, coins).deckSlots.value) == order)
  {
    ShuffledReachesEvery(Catalog(), order);
    var js :| ValidChoices(js, DeckSize) && Shuffled(Catalog(), js) == order;
    assert SlotCards(Deal(order, coins)) == order;
  }

  lemma StartInjective(js1: seq<nat>, js2: seq<nat>, coins: seq<bool>)
    requires ValidChoices(js1, DeckSize) && ValidChoices(js2, DeckSize) && |coins| == DeckSize
    requires SlotCards(Start(js1, coins).deckSlots.value) == SlotCards(Start(js2, coins).deckSlots.value)
    ensures js1 == js2
  {
    CatalogIdsDistinct();
    assert SlotCards(Deal(Shuffled(Catalog(), js1), coins)) == Shuffled(Catalog(), js1);
    assert SlotCards(Deal(Shuffled(Catalog(), js2), coins)) == Shuffled(Catalog(), js2);
    ShuffledInjective(Catalog(), js1, js2);
  }

  // ---------------------------------------------------------------------
  // onPickCard (app.js:251-262)

  /** A pick at a position: ignored without a slate, for a position already
      picked, and once three are picked; otherwise appended. */
  function Pick(st: State, index: nat): State
  {
    if st.deckSlots.None? then st
    else if index in st.pickedIndexes then st
    else if |st.pickedIndexes| >= MaxPicks then st
    else State(st.deckSlots, st.pickedIndexes + [index])
  }

  /** A pick changes nothing exactly when there is no slate, the position is
      already picked, or three are picked. */
  lemma PickIgnoredIff(st: State, index: nat)
    ensures Pick(st, index) == st <==>
      st.deckSlots.None? || index in st.pickedIndexes || |st.pickedIndexes| >= MaxPicks
  {
    if st.deckSlots.Some? && index !in st.pickedIndexes && |st.pickedIndexes| < MaxPicks {
      assert |Pick(st, index).pickedIndexes| == |st.pickedIndexes| + 1;
    }
  }

  /** A pick never touches the slate, and it keeps the earlier picks in
      their order, adding the new position, if at all, last. */
  lemma PickExtends(st: State, index: nat)
    ensures Pick(st, index).deckSlots == st.deckSlots
    ensures var ps := Pick(st, index).pickedIndexes;
      ps == st.pickedIndexes || ps == st.pickedIndexes + [index]
  {
  }

  /** Picking keeps picks distinct, at most three, and on the slate. */
  lemma PickPreservesInv(st: State, index: nat)
    requires Inv(st) && (st.deckSlots.Some? ==> index < DeckSize)
    ensures Inv(Pick(st, index))
  {
    var r := Pick(st, index);
    if r != st {
      var ps := r.pickedIndexes;
      assert ps == st.pickedIndexes + [index];
      forall a, b | 0 <= a < b < |ps|
        ensures ps[a] != ps[b]
      {
        if b == |ps| - 1 {
          assert ps[a] == st.pickedIndexes[a];
        }
      }
    }
  }

  /** From a fresh slate, picking three different positions gives exactly
      those positions in call order, shows the results, and leaves every
      further pick without effect. */
  lemma ThreePicksInOrder(st: State, p1: nat, p2: nat, p3: nat)
    requires st.deckSlots.Some? && st.pickedIndexes == []
    requires p1 != p2 && p1 != p3 && p2 != p3
    ensures var done := Pick(Pick(Pick(st, p1), p2), p3);
      && done.pickedIndexes == [p1, p2, p3]
      && done.deckSlots == st.deckSlots
      && ResultsShown(done)
      && forall p :: Pick(done, p) == done
  {
    var s1 := Pick(st, p1);
    assert s1.pickedIndexes == [p1];
    var s2 := Pick(s1, p2);
    assert s2.pickedIndexes == [p1, p2];
  }

  // ---------------------------------------------------------------------
  // What the grid and the result panel show (app.js:159-166, app.js:176-185)

  /** The grid cell at position i is marked as picked. */
  predicate Selected(st: State, i: nat)
  {
    i in st.pickedIndexes
  }

  /** The grid cell at position i is disabled: three are picked, not this. */
  predicate Disabled(st: State, i: nat)
  {
    |st.pickedIndexes| >= MaxPicks && i !in st.pickedIndexes
  }

  /** The result panel is shown: a slate and exactly three picks. */
  predicate ResultsShown(st: State)
  {
    st.deckSlots.Some? && |st.pickedIndexes| == MaxPicks
  }

  /** No cell is both picked and disabled; once the results show every cell
      is one or the other, before that no cell is disabled; and a pick on a
      disabled cell would change nothing. */
  lemma DisplayStates(st: State, i: nat)
    requires Inv(st)
    ensures !(Selected(st, i) && Disabled(st, i))
    ensures ResultsShown(st) ==> Selected(st, i) || Disabled(st, i)
    ensures |st.pickedIndexes| < MaxPicks ==> !Disabled(st, i)
    ensures Disabled(st, i) ==> Pick(st, i) == st
  {
  }

  /** The picked slots in pick order. */
  function PickedSlots(st: State): (r: seq<Slot>)
    requires Inv(st) && st.deckSlots.Some?
    ensures |r| == |st.pickedIndexes|
  {
    seq(|st.pickedIndexes|, k requires 0 <= k < |st.pickedIndexes| =>
      st.deckSlots.value[st.pickedIndexes[k]])
  }

  /** The text of the prompt box: the prompt when the results show, empty
      otherwise. */
  function ResultPrompt(st: State): string
    requires Inv(st)
  {
    if ResultsShown(st) then BuildPrompt(PickedSlots(st)) else ""
  }

  lemma SlateNamesSingleLine(slots: seq<Slot>)
    requires IsSlate(slots)
    ensures SingleLineNames(slots)
  {
    CatalogNamesSingleLine();
    forall k | 0 <= k < |slots|
      ensures '\n' !in slots[k].card.nameZh && '\n' !in slots[k].card.nameEn
    {
      assert slots[k].card == SlotCards(slots)[k];
      assert slots[k].card in multiset(Catalog());
      var m :| 0 <= m < |Catalog()| && Catalog()[m] == slots[k].card;
    }
  }

  /** Once three positions are picked the prompt box holds twelve lines: the
      preamble, then line k + 1 names the card at the k-th picked position
      with its orientation, then the closing lines. Otherwise it is empty. */
  lemma ResultPromptLines(st: State)
    requires Inv(st)
    ensures !ResultsShown(st) ==> ResultPrompt(st) == ""
    ensures ResultsShown(st) ==>
      var lines := Split(ResultPrompt(st), '\n');
      && |lines| == 12
      && lines[..3] == Preamble && lines[6..] == Closing
      && forall k :: 0 <= k < 3 ==>
           lines[3 + k] == CardLine(k, st.deckSlots.value[st.pickedIndexes[k]])
  {
    if ResultsShown(st) {
      var picked := PickedSlots(st);
      SlateNamesSingleLine(st.deckSlots.value);
      assert SingleLineNames(picked);
      BuildPromptLines(picked);
      assert forall k :: 0 <= k < 3 ==> picked[k] == st.deckSlots.value[st.pickedIndexes[k]];
    }
  }

  // ---------------------------------------------------------------------
  // The session object

  class DrawSession {
    var deckSlots: Option<seq<Slot>>
    var pickedIndexes: seq<nat>

    function Current(): State
      reads this
    {
      State(deckSlots, pickedIndexes)
    }

    ghost predicate Valid()
      reads this
    {
      Inv(Current())
    }

    /** The module's initial values: no slate, no picks. */
    constructor ()
      ensures Valid() && Current() == Idle
    {
      deckSlots := None;
      pickedIndexes := [];
    }

    /** resetAll: back to no slate and no picks, whatever the state was;
        so a second reset changes nothing. */
    method ResetAll()
      modifies this
      ensures Valid() && Current() == Idle
    {
      deckSlots := None;
      pickedIndexes := [];
    }

    /** shuffleAndStart: a fresh slate from the shuffled catalog and the
        coins, and no picks. */
    method ShuffleAndStart(js: seq<nat>, coins: seq<bool>)
      requires ValidChoices(js, DeckSize) && |coins| == DeckSize
      modifies this
      ensures Valid() && Current() == Start(js, coins)
      ensures deckSlots.Some? && IsSlate(deckSlots.value) && pickedIndexes == []
    {
      var deck := CreateRiderWaiteDeck();
      var shuffled := FisherYatesShuffle(deck, js);
      deckSlots := Some(Deal(shuffled, coins));
      pickedIndexes := [];
      assert Current() == Start(js, coins);
      StartDealsSlate(js, coins);
    }

    /** The state change of onPickCard for the position of the clicked cell. */
    method OnPickCard(index: nat)
      requires Valid() && (deckSlots.Some? ==> index < DeckSize)
      modifies this
      ensures Valid() && Current() == Pick(old(Current()), index)
    {
      PickPreservesInv(Current(), index);
      if deckSlots.None? {
        return;
      }
      if index in pickedIndexes {
        return;
      }
      if |pickedIndexes| >= MaxPicks {
        return;
      }
      pickedIndexes := pickedIndexes + [index];
    }
  }
}
