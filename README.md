# Three-card tarot draw: a verified model of its logical core

The application is a browser page that draws three tarot cards. Under the page code sits a small sequential core, and this project models it in Dafny:

- **Deck catalog** (`deck.dfy`, module `Deck`). `CreateRiderWaiteDeck` builds the 78 Rider–Waite cards. The 22 majors come first, with ids `MAJOR_0` … `MAJOR_21`. The 56 minors follow, suit by suit (Wands, Cups, Swords, Pentacles) and rank by rank (Ace … King). A minor has id `SUIT_RANK`, the Chinese name suit word + rank word, and the English name "<Rank> of <Suit>". As in the source, the minors are filled in by two nested loops.
- **Fisher–Yates shuffle** (`shuffle.dfy`, module `Shuffle`). It runs on an array copy of the input. `i` counts down from the last index to 1, and each step swaps `copy[i]` with `copy[j]` for some `0 <= j <= i`. The random `j` of every step is an input, `js[i]`.
- **Draw session** (`session.dfy`, module `Session`). The two module variables `deckSlots` (no slate, or a slate of 78 slots) and `pickedIndexes` become the class `DrawSession`. Its methods are `ResetAll`, `ShuffleAndStart` and `OnPickCard`. Each method is tied to a transition function on the value `State`: `Idle`, `Start` and `Pick`. The grid display rules (selected, disabled) and the result-panel rule are predicates on `State`.
- **Prompt formatter** (`prompt.dfy`, module `Prompt`). `BuildPrompt` joins three fixed preamble lines, one line `k. 中文名（English）- 正位/逆位` per picked slot, and six fixed closing lines, with `\n` between them.
- `text.dfy` (module `Text`) holds the decimal numeral of `${n}`, `join` and its inverse `split`. `option.dfy` holds the `Option` type.

The shuffle choices and the per-card reversal coins (`Math.random() < 0.5`) are parameters of `ShuffleAndStart`.

A few places where the code and its design description disagree; the model follows the code:
- The formatter is described as defined only for three slots. The code formats any number of slots, and so does `BuildPrompt`.
- An out-of-range pick is described as ignored. The code has no range check: every index it receives comes from a rendered grid cell. `OnPickCard` therefore requires an index below 78 when a slate exists.

## Model

| member | source | states |
|---|---|---|
| `Deck.CreateRiderWaiteDeck` | app.js:23-86 | the nested loops build exactly the catalog: 78 cards, and reading back any card's id gives its position |
| `Deck.CatalogLayout` | app.js:24-85 | 78 cards. Position k < 22 is the k-th major, with id `MAJOR_` + decimal k. Position 22 + 14·s + r is suit s, rank r, with id `suit.key_rank.key`, name suit.zh + rank.zh, and "rank.en of suit.en" |
| `Deck.FillMinors` | app.js:74-83 | for any suit and rank lists, the two nested loops push exactly the suit-by-suit, rank-by-rank list of minor cards |
| `Deck.MinorsOfAt` | app.js:75-83 | in that list, position 14·s + r holds the card of suit s and rank r |
| `Deck.MajorNumeralsAreDecimals` | app.js:25-46 | the numeral listed k-th in the majors table is the decimal numeral of k |
| `Text.NatToStringInjective` | app.js:47 | different numbers have different decimal numerals, so no two majors share an id |
| `Deck.CatalogIdsRoundTrip` | app.js:47-85 | splitting a catalog card's id at `_` and looking up both parts gives back the card's position |
| `Deck.CatalogIdsDistinct` | app.js:47-85 | no two of the 78 cards share an id, so no card occurs twice |
| `Deck.CatalogNamesSingleLine` | app.js:24-83 | no Chinese or English card name holds a line break |
| `Text.SplitJoin` | app.js:109-120 | splitting the `\n`-joined lines gives back exactly those lines, in order, when none holds a `\n` |
| `Shuffle.FisherYatesShuffle` | app.js:92-99 | the loop on the array copy returns the functional shuffle of the input, a sequence of the same length with the same multiset of items; the input is a value and is left unchanged |
| `Shuffle.ShuffledIsPermutation` | app.js:93-98 | for every choice of `j <= i` at each step, the result is a permutation of the input |
| `Shuffle.ShuffledWithoutMovesIsIdentity` | app.js:94-97 | choosing `j == i` at every step leaves the order as it was |
| `Shuffle.ShuffleDownSettles` | app.js:94-97 | step i puts the element from position `j` at position i for good, since later steps only touch lower positions |
| `Shuffle.ShuffledInjective` | app.js:94-97 | on distinct items, two different choice sequences give two different results |
| `Shuffle.ShuffledReachesEvery` | app.js:94-97 | every rearrangement of the input is the result of some valid choice sequence |
| `Prompt.BuildPromptLines` | app.js:103-120 | read line by line, the prompt is the 3 preamble lines, then for each slot k the line `${k+1}. nameZh（nameEn）- ` + 逆位 if reversed, else 正位, then the 6 closing lines, and nothing else |
| `Prompt.PromptForFoolTwoOfWandsDeath` | app.js:104-120 | The Fool upright, Two of Wands reversed and Death upright give 12 lines, with list lines `1. 愚者（The Fool）- 正位`, `2. 权杖二（Two of Wands）- 逆位`, `3. 死神（Death）- 正位` |
| `Session.StartDealsSlate` | app.js:233-240 | after a shuffle: a slate of 78 slots; each catalog card is in exactly one slot; slot k's orientation is coin k; no picks; the session invariant holds |
| `Session.StartDealsEveryOrder` | app.js:234-235 | every order of the 78 catalog cards is the slate of some shuffle choice |
| `Session.StartInjective` | app.js:234-235 | different shuffle choices deal different slates |
| `Session.PickIgnoredIff` | app.js:252-260 | a pick leaves the state unchanged exactly when there is no slate, the index is already picked, or 3 are picked |
| `Session.PickExtends` | app.js:259-262 | a pick never changes the slate; it keeps the earlier picks in order and, if it adds the index at all, adds it last |
| `Session.PickPreservesInv` | app.js:251-262 | picks stay distinct, at most 3, and positions on the slate, and there are no picks without a slate |
| `Session.ThreePicksInOrder` | app.js:259-262 | from a fresh slate, picking three distinct positions gives exactly `[p1, p2, p3]` and shows the results; any further pick is ignored |
| `Session.DisplayStates` | app.js:159-166 | no cell is both selected and disabled; with 3 picks every cell is one or the other; with fewer than 3, none is disabled; a pick on a disabled cell changes nothing |
| `Session.ResultPromptLines` | app.js:176-208 | with no slate or fewer than 3 picks, the prompt text is empty. Otherwise it has 12 lines: line k+1 of the list names the card and orientation at the k-th picked position |
| `Session.DrawSession.constructor` | app.js:124-125 | the session starts with no slate and no picks |
| `Session.DrawSession.ResetAll` | app.js:222-224 | the state becomes no slate and no picks, whatever it was before, so a second reset changes nothing |
| `Session.DrawSession.ShuffleAndStart` | app.js:233-240 | the state becomes `Start(js, coins)`: a fresh slate that is a permutation of the catalog, and no picks |
| `Session.DrawSession.OnPickCard` | app.js:251-262 | the state becomes `Pick(old state, index)`, and the session invariant is kept |

## Left out

- DOM lookups, rendering, `classList`, `aria-*` attributes, and the status and count texts (app.js:8-17, app.js:127-220, app.js:264-274). Only the selected, disabled and results-shown rules are kept, as predicates.
- `copyPromptToClipboard` (app.js:277-292): an asynchronous browser clipboard call with a fallback. It does not touch the session state.
- `Math.random`. Shuffle indices and reversal coins are inputs. The model states that every valid choice sequence gives a different arrangement and that every arrangement is reachable. Probability itself is not modelled, so "uniform" is not stated as a probability.
- `rotDeg` (app.js:238): a cosmetic floating-point tilt with no effect on any result. Slots carry only their card and orientation.
- Reading the clicked cell's `dataset.index` and the `Number.isFinite` guard (app.js:254-257). `OnPickCard` takes the position as a natural number.
- The event-listener wiring and the final `resetAll()` call (app.js:294-298).
