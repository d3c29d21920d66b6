# Set card game: deck construction and deal bookkeeping

A Dafny model of the logic in the Swift "Set" card-game app:

- the four three-case card attributes (shape, colour, pattern, count) and
  the generation of the 81 card contents as their Cartesian product
  (`SetGameViewModel.createCardContent`);
- building a game from those contents (`SetGame.init`): each content
  gets its position as id, every card starts unselected and unmatched, and
  the cards are shuffled;
- the view model creating a game and replacing it on New Game;
- the bookkeeping the game view keeps beside the game: the `dealt` and
  `discarded` id sets, the deck-tap rule (12 cards when nothing is dealt,
  otherwise 3), the New Game reset, and the border colour of a card.

Modules follow the source files: `Attributes` and `Contents`
(`SetGameViewModel.swift`, enums and content generation), `SetGame`
(`SetGame.swift`), `ViewModel` (`SetGameViewModel.swift`, game creation
and the new-game intent), `View` (`SetGameView.swift`). `Seqs` holds the
generic facts about repetition-free sequences and reorderings.

Modelling decisions:

- The source's `SetGame` takes one generic parameter but is instantiated
  with the four attribute types, and the view reads `game.cards`, which
  the view model does not expose. The model takes the content to be the
  4-tuple (`Contents.Content`) and the view's card sequence to be the
  game's cards.
- The shuffle is Swift's in-place Fisher–Yates pass. Its random numbers
  are a parameter `pick: nat -> nat`: every claim about the shuffled deck
  holds whatever `pick` returns.

## Model

| member | source | states |
|---|---|---|
| Attributes.ThreeCasesEach | Set/SetGameViewModel.swift:11-25 | each of shape, colour, pattern and count has exactly three cases, each listed once in case order |
| Attributes.RawValue | Set/SetGameViewModel.swift:23-24 | a count's raw value lies in 1..3 and is one more than its case position |
| Attributes.RawValueInjective | Set/SetGameViewModel.swift:23-24 | two counts have the same raw value exactly when they are the same case |
| Contents.ContentAtDigits | Set/SetGameViewModel.swift:32-36 | the entry at position 27·s + 9·n + 3·c + p is (shape s, colour c, pattern p, count n): shape outermost, then count, colour, pattern |
| Contents.IndexOfContentAt | Set/SetGameViewModel.swift:32-39 | reading back the position of the entry at any position below 81 gives that position |
| Contents.ContentAtIndex | Set/SetGameViewModel.swift:32-39 | for every attribute combination, the entry at its position is that combination |
| Contents.CompleteAndDistinct | Set/SetGameViewModel.swift:32-39 | a full generated list holds every combination and no combination twice |
| Contents.CreateCardContent | Set/SetGameViewModel.swift:29-43 | the nested loops return exactly 81 contents, entry k being the reference entry for k, every combination present, none repeated |
| SetGame.EnumerateCards | Set/SetGame.swift:14-17 | one card per content; card i has id i, content contents[i], and is neither selected nor matched |
| SetGame.Swap | Set/SetGame.swift:18 | one step of the shuffle exchanges two positions, leaves the others alone and reorders without adding or losing elements |
| SetGame.Shuffle | Set/SetGame.swift:18 | whatever the random source returns, the shuffled deck is a reordering of the numbered deck (same multiset) |
| SetGame.DistinctIdsCount | Set/SetGame.swift:15-18 | cards with pairwise distinct ids carry as many ids as there are cards |
| SetGame.BoundCardsHaveDistinctIds | Set/SetGame.swift:15-18 | repetition-free cards that are fresh cards bound to their contents have pairwise distinct ids |
| SetGame.NewGame | Set/SetGame.swift:13-26 | as many cards as contents; each numbered card (id i, content i, flags clear) occurs exactly once; every card's content is the content at its id; ids are pairwise distinct and are exactly 0 ..< n |
| ViewModel.CreateSetGame | Set/SetGameViewModel.swift:45-47 | the created game has 81 cards, each combination on exactly one card whose id is its generated position, no two cards alike, all flags clear |
| ViewModel.Init | Set/SetGameViewModel.swift:52-54 | the view model starts with such a fresh game |
| ViewModel.StartNewGame | Set/SetGameViewModel.swift:82-84 | the previous game is replaced by a fresh one; no card is selected or matched afterwards |
| ViewModel.FreshDeckContentsDistinct | Set/SetGameViewModel.swift:29-47 | in a fresh game no two cards carry the same attribute combination |
| View.Deal | Set/SetGameView.swift:37-47 | dealing a card makes it no longer undealt (`IsUndealt`: its id is not in `dealt`), adds no other id, removes none, and leaves the discard pile alone |
| View.Discard | Set/SetGameView.swift:41-51 | discarding a card makes it discarded (`IsDiscarded`: its id is in `discarded`), adds no other id, removes none, and leaves the dealt set alone |
| View.DealAll | Set/SetGameView.swift:103-105 | dealing a sequence of cards adds exactly their ids to the dealt set and leaves discards unchanged |
| View.TapDeck | Set/SetGameView.swift:100-106 | a deck tap adds the ids of the first 12 cards when nothing is dealt, else of the first 3; dealt never shrinks; discarded is unchanged |
| View.TapsStayWithinFirstTwelve | Set/SetGameView.swift:100-106 | any number of deck taps keeps dealt within the ids of the game's first 12 cards and never touches discarded |
| View.TapAfterFirstDealsNothing | Set/SetGameView.swift:102-105 | once the first 12 cards are dealt, a further tap leaves the state unchanged |
| View.TapsFromInitial | Set/SetGameView.swift:100-106 | from the initial view, one or more taps leave exactly the first 12 cards dealt and nothing discarded |
| View.Undealt | Set/SetGameView.swift:91 | `filter(isUndealt)` returns no more cards than it is given, each one undealt, their ids among the game's |
| View.UndealtMembers | Set/SetGameView.swift:91 | a card is in the filtered sequence if and only if it is one of the game's cards and undealt |
| View.UndealtKeepsOrder | Set/SetGameView.swift:91 | the filter keeps game order: filtering a concatenation gives the filtered parts in the same order |
| View.UndealtKeepsDistinctIds | Set/SetGameView.swift:91 | filtering the undealt cards keeps ids pairwise distinct |
| View.UndealtOfNothingDealt | Set/SetGameView.swift:45-47 | with nothing dealt, every card is undealt |
| View.UndealtCount | Set/SetGameView.swift:45-47 | there are at least as many undealt cards as game ids outside the dealt set |
| View.PrefixIdsCount | Set/SetGameView.swift:103 | with distinct ids, the first n cards carry min(n, count) ids |
| View.TapDeckUndealt | Set/SetGameView.swift:101-105 | the intended tap only adds ids of the game's cards, never removes any, and leaves discarded alone |
| View.TapDeckUndealtDealsNewCards | Set/SetGameView.swift:101-105 | with distinct ids, the intended tap grows dealt by exactly min(12 or 3, number undealt) |
| View.SecondTapAsWritten | Set/SetGameView.swift:101-105 | on a fresh 81-card game, two taps as written leave 12 cards dealt |
| View.SecondTapIntended | Set/SetGameView.swift:101-105 | on a fresh 81-card game, the intended rule deals 12 on the first tap and 15 after the second |
| View.PressNewGame | Set/SetGameView.swift:128-137 | New Game empties dealt and discarded and installs a fresh game, every card of which is then undealt and not discarded |
| View.CountSelectedIsSelectedPositions | Set/SetGameView.swift:153 | the selected-card count equals the number of positions holding a selected card |
| View.BorderColor | Set/SetGameView.swift:149-159 | green exactly for matched cards whatever their selection; for unmatched cards red exactly when selected with three cards selected, blue when selected otherwise, black when unselected |
| View.FreshDeckBordersBlack | Set/SetGameView.swift:149-159 | in a fresh game every card has a black border |

## Findings

| source | as written | input that shows it | evidently intended | confidence | as-written member | corrected member |
|---|---|---|---|---|---|---|
| Set/SetGameView.swift:101-105 | after the first tap, each tap deals `game.cards.prefix(3)`, the game's first three cards, which the first tap already dealt | a fresh 81-card game, deck tapped twice: 12 cards dealt, the second tap changes nothing | each later tap deals 3 more cards not yet dealt, as the "or else 3" comment says: 15 dealt after two taps | medium, not executed | View.SecondTapAsWritten | View.SecondTapIntended |

`View.TapDeck` models the tap as written; `View.TapDeckUndealt` is the
corrected rule (the first 12, or 3, of `game.cards.filter(isUndealt)`),
and `View.TapDeckUndealtDealsNewCards` proves it always deals
min(12 or 3, undealt) new cards.

## Left out

- `choose`, `dealCards`, `visibleCards`, `cardIsSelected`: the view model forwards to them, but `SetGame` defines none of them, so there is no selection or match rule to model.
- Rendering: `CardView`, `AspectVGrid`, deal animation delays, z-index and `matchedGeometryEffect` are floating-point presentation.
- `Diamond.path` (`CGFloat` geometry), `getCardColor` (SwiftUI colour mapping), the pattern's `Double` raw values (fill opacity) and `SetApp` (app wiring).
- The randomness of `shuffle`: the random numbers are the `pick` parameter; the model does not state that every reordering is reachable or equally likely.
- `ObservableObject`, `@Published` and `@State` change notification.
- A card's content never changing after construction is not a separate member: Dafny datatype values are immutable, so it holds by construction.
- The view's `isSelected` helper is the card's own `isSelected` field and appears only inside `View.CountSelected`.
