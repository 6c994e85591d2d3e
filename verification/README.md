# Trello-clone board core in Dafny

This project models the state core of a single-board Trello clone. The board
holds lists, each list holds cards, and each card holds comments. Every
mutation in the `useBoard` hook is modelled as a pure function `Board × params →
Board`. The board's drag-end handler becomes a pure resolver that picks which
one mutation to call. The demo board a first visit starts with is modelled as a
fixture.

Modules follow the program's structure:

- `BoardTypes` (board_types.dfy). The `Comment`, `Card`, `List` and `Board`
  records and `DEFAULT_BOARD_TITLE`. It also defines the board invariant
  `WellFormed`:
  - list ids are unique;
  - card ids are unique across the whole board, counted as a multiset bag;
  - every back-reference (`boardId`, `listId`, `cardId`) names its owner.
- `UseBoard` (use_board.dfy). The thirteen mutations and lookups of the hook.
- `MoveCardLemmas` (move_card.dfy). What `moveCard` does to a board with unique
  ids, its well-formedness preservation for every card id and target, and the
  corrected move described under Findings.
- `BoardLemmas` (board_lemmas.dfy). Reordering to a given order, well-formedness
  preservation for every mutation except `moveCard`, and `getCardById`.
- `DragEnd` (drag_end.dfy). `handleDragEnd` as `Resolve`, `Apply`, and the
  lemmas that compose the two.
- `InitialBoard` (initial_board.dfy). `createInitialBoard`.
- Helper modules for the JavaScript library behaviour the code relies on:
  - `Wrappers`: `Option`.
  - `Seqs`: `indexOf`, `splice` as `RemoveAt` and `InsertAt`, `filter`, `map`.
  - `StableSort`: `Array.prototype.sort` with a key comparator. It is stable
    since ECMAScript 2019, so the sort is modelled as a stable insertion sort.
    `SortedGroupsDetermine` shows the stable result is unique.
  - `JsString`: `trim` over the ECMAScript WhiteSpace and LineTerminator code
    points, `startsWith`, and `replace` with a string pattern.

The `reorderLists` and `reorderCardsInList` comparators key each element by
`new Map(ids.map((id, i) => [id, i])).get(id) ?? 0`. That is the LAST position
of the id in the given sequence, because later `Map` entries overwrite earlier
ones. An id that does not occur gets 0, so it ranks level with any id whose last
position is 0. This key is `StableSort.Rank`.

Inputs that the code takes from the environment become parameters:

- freshly generated ids (`generateId` reads the clock and `Math.random`);
- the comment timestamp `createdAt`.

## Model

| member | source | states |
|---|---|---|
| UseBoard.UpdateBoardTitle | src/hooks/useBoard.ts:21-23 | The title becomes exactly the given string, blank included. The id and lists are untouched. |
| BoardLemmas.UpdateBoardTitlePreservesWellFormed | src/hooks/useBoard.ts:21-23 | Renaming the board keeps a well-formed board well-formed. |
| UseBoard.AddList | src/hooks/useBoard.ts:25-38 | The old lists stay as a prefix and exactly one list is appended. It has the new id, the board's id, `order` equal to the old list count, and no cards. Its title is "New List" only when the given title is the empty string. |
| UseBoard.UpdateList | src/hooks/useBoard.ts:40-48 | Lists with the id get the patched title and nothing else changes. Other lists are identical. An unknown id returns the board unchanged. |
| UseBoard.DeleteList | src/hooks/useBoard.ts:50-56 | The result is a subsequence of the lists. Each list keeps its multiplicity unless it has the id, in which case it is gone. An unknown id changes nothing. |
| UseBoard.DeleteAllCardsInList | src/hooks/useBoard.ts:58-66 | Lists with the id lose all their cards. Every other list and field is unchanged. |
| UseBoard.ReorderLists | src/hooks/useBoard.ts:68-73 | The new lists are a permutation of the old ones, ordered by rank in `listIds`, with every equal-rank group in its original relative order. |
| StableSort.Rank | src/hooks/useBoard.ts:70-71 | The map lookup gives an id's last position in the sequence, or 0 when the id is absent, so a missing id ranks level with any id whose last position is 0. |
| StableSort.SortBy | src/hooks/useBoard.ts:71 | The sort returns a permutation, ordered by key, that keeps each equal-key group in input order. |
| StableSort.SortedGroupsDetermine | src/hooks/useBoard.ts:71 | Two sequences that are both ordered by key and have the same equal-key groups are equal, so a stable sort's result is unique. |
| StableSort.SortByRankFollowsOrder | src/hooks/useBoard.ts:70-71 | Sorting by rank in a duplicate-free `order` whose ids are a rearrangement of the elements' ids yields exactly `order`. |
| BoardLemmas.ReorderListsFollowsGivenOrder | src/hooks/useBoard.ts:68-73 | If `listIds` is a duplicate-free permutation of the board's list ids, the reordered list ids equal `listIds`. |
| BoardLemmas.ReorderListsMissingIdRanksFirst | src/hooks/useBoard.ts:70-71 | Reordering lists A, B, C by ids C, B gives A, C, B: the missing A ranks 0, level with C (last position 0), and the tie keeps the old order. |
| BoardLemmas.ReorderListsPreservesWellFormed | src/hooks/useBoard.ts:68-73 | Reordering lists keeps a well-formed board well-formed. |
| UseBoard.AddCard | src/hooks/useBoard.ts:75-92 | An unknown list id changes nothing. Otherwise every list with the id gets the same new card appended: it has the new id, that `listId`, no comments, and the title, or "New Card" for the empty string. |
| UseBoard.NewCard | src/hooks/useBoard.ts:79-85 | The new card has the generated id, the list id, no comments, and the title, or "New Card" for the empty string. Its `order` is the card count of the first list with that id, the one `find` returns. |
| BoardLemmas.AddCardKeepsContiguous | src/hooks/useBoard.ts:79-89 | With unique list ids, the card is appended at index n of a list whose orders were `0..n-1`, and gets `order` n, so the orders stay `0..n`. |
| BoardLemmas.AddCardPreservesWellFormed | src/hooks/useBoard.ts:75-92 | With a card id not yet on the board, adding a card keeps the board well-formed. |
| BoardLemmas.AddListPreservesWellFormed | src/hooks/useBoard.ts:25-38 | With a fresh list id, adding a list keeps the board well-formed and adds no card. |
| UseBoard.UpdateCard | src/hooks/useBoard.ts:94-105 | Every card with the id gets the patched title and nothing else changes. All list fields and other cards are identical, and an unknown id changes nothing. |
| BoardLemmas.UpdateListPreservesWellFormed | src/hooks/useBoard.ts:40-48 | Renaming a list keeps a well-formed board well-formed. |
| BoardLemmas.UpdateCardPreservesWellFormed | src/hooks/useBoard.ts:94-105 | Renaming a card keeps a well-formed board well-formed. |
| UseBoard.DeleteCard | src/hooks/useBoard.ts:107-116 | Each list keeps the subsequence of its cards without the id. Surviving cards are untouched, including their `order`, so nothing is renumbered. The id is gone from the board, and an unknown id changes nothing. |
| UseBoard.WithoutCardId | src/hooks/useBoard.ts:113 | The list keeps an order-preserving subsequence of its cards: every card without the id keeps its multiplicity, every card with the id is gone. A list without the id is returned as it was. |
| BoardLemmas.DeleteCardPreservesWellFormed | src/hooks/useBoard.ts:107-116 | Deleting a card keeps a well-formed board well-formed. |
| BoardLemmas.DeleteListPreservesWellFormed | src/hooks/useBoard.ts:50-56 | Deleting a list keeps a well-formed board well-formed. |
| BoardLemmas.DeleteAllCardsInListPreservesWellFormed | src/hooks/useBoard.ts:58-66 | Emptying a list keeps a well-formed board well-formed. |
| UseBoard.WithoutFirstCard | src/hooks/useBoard.ts:121-127 | A list holding the card id loses exactly the first card with it. Any other list is returned as it was. |
| UseBoard.TakenCard | src/hooks/useBoard.ts:120-129 | The captured card is absent exactly when no list holds the id. When present, it carries that id and is the first card with it in the LAST list holding the id, as the overwriting `forEach` leaves it. |
| UseBoard.WithCardAt | src/hooks/useBoard.ts:135-140 | The target list grows by one and its orders become `0..n`. The card sits at `min(targetIndex, n)` with that order. The cards before it are the old cards before that index, and the cards after it are the old cards from that index on, each changed only in `order`. Other lists are untouched. |
| UseBoard.Renumber | src/hooks/useBoard.ts:139 | Renumbering keeps the cards and their ids in place and sets each card's `order` to its index, changing nothing else. |
| UseBoard.MoveCard | src/hooks/useBoard.ts:118-142 | An unknown card id returns the board unchanged. Otherwise every list drops its first card with the id and then, if it is the target, receives the captured card with `listId` set to the target. Only `cards` ever changes. |
| MoveCardLemmas.TakenCardIsTheCard | src/hooks/useBoard.ts:120-129 | With unique card ids, the captured card is the card holding the id. |
| MoveCardLemmas.MoveCardShape | src/hooks/useBoard.ts:118-142 | With unique ids, a move only takes the card out of its list and puts it into the target list. No other list changes. |
| MoveCardLemmas.MoveCardRelocates | src/hooks/useBoard.ts:118-142 | With unique ids and an existing target, the card ends up once on the board, in the target at `min(targetIndex, n)` with its new `listId`. The target's orders become `0..n`, a different source keeps stale orders, and the card count is conserved. |
| MoveCardLemmas.MoveCardKeepsCards | src/hooks/useBoard.ts:118-142 | With unique ids and an existing target, the board's card-id multiset is unchanged by a move. |
| MoveCardLemmas.MoveCardPreservesWellFormed | src/hooks/useBoard.ts:118-142 | For every card id and target list id, a move keeps a well-formed board well-formed: an unknown card changes nothing, a known target receives the card, and an unknown target loses it without breaking any invariant. |
| MoveCardLemmas.MoveCardKnownTargetPreservesWellFormed | src/hooks/useBoard.ts:118-142 | Moving a card of the board to a list of the board keeps a well-formed board well-formed. |
| MoveCardLemmas.MoveCardUnknownTargetPreservesWellFormed | src/hooks/useBoard.ts:129-141 | As written, a move to a list id that is not on the board still leaves a well-formed board well-formed. |
| MoveCardLemmas.MoveCardUnknownTargetDropsCard | src/hooks/useBoard.ts:129-141 | As written, a move to a list id that is not on the board removes the card: its id leaves the board and the card count falls by one. |
| MoveCardLemmas.MoveCardGuarded | src/hooks/useBoard.ts:118-142 | The corrected move is a no-op for an unknown target list, and otherwise agrees with `moveCard`. |
| MoveCardLemmas.MoveCardGuardedKeepsCards | src/hooks/useBoard.ts:118-142 | On a board with unique list and card ids, the corrected move never changes the board's card-id multiset, for any card id and target. |
| UseBoard.ReorderCardsInList | src/hooks/useBoard.ts:144-155 | Only lists with the id change. Each of them keeps its card-id multiset, has its cards stably sorted by rank in `cardIds`, and has orders renumbered `0..n-1`. An unknown id changes nothing. |
| BoardLemmas.ReorderCardsFollowsGivenOrder | src/hooks/useBoard.ts:144-155 | If `cardIds` is a duplicate-free permutation of a list's card ids, that list's card ids become exactly `cardIds`. |
| BoardLemmas.ReorderCardsInListPreservesWellFormed | src/hooks/useBoard.ts:144-155 | Reordering a list's cards keeps a well-formed board well-formed. |
| JsString.Trim | src/hooks/useBoard.ts:158-162 | The trimmed text neither starts nor ends with ECMAScript white space, and it is empty exactly when the input is all white space, which is what makes `addComment` ignore a blank comment. |
| JsString.TrimIsMiddle | src/hooks/useBoard.ts:158-162 | The trimmed text is a contiguous middle part of the input, and everything cut off before and after it is white space. |
| UseBoard.AddComment | src/hooks/useBoard.ts:157-174 | Text that trims to empty changes nothing. Otherwise every card with the id gets one comment appended, holding the trimmed text, and everything else is unchanged. |
| BoardLemmas.AddCommentPreservesWellFormed | src/hooks/useBoard.ts:157-174 | With a comment id fresh on the card, adding a comment keeps a well-formed board well-formed. |
| UseBoard.GetCardById | src/hooks/useBoard.ts:176-183 | The lookup finds nothing exactly when the id is on no card. Otherwise it returns the first card with the id in the first list holding it, scanning in board order. |
| UseBoard.FindCard | src/hooks/useBoard.ts:178-182 | The scan finds nothing exactly when no list holds the id. When it finds a card, that card has the id and is the first such card of the first list holding it; no earlier list holds the id. |
| BoardLemmas.GetCardByIdFindsTheCard | src/hooks/useBoard.ts:176-183 | With unique card ids, the lookup returns the very card at the id's position. |
| BoardTypes.FindList | src/hooks/useBoard.ts:77-78 | `find` gives nothing exactly when no list has the id. Otherwise it gives the first list with that id: no earlier list has it. |
| BoardLemmas.FindListAt | src/hooks/useBoard.ts:77 | With unique list ids, `find` returns the list at the id's position. |
| Seqs.IndexOf | src/components/Board/Board.tsx:73-75 | `indexOf` is absent exactly when the element is not in the sequence. Otherwise it gives the first position holding it. |
| Seqs.RemoveAt | src/hooks/useBoard.ts:124 | `splice(i, 1)` shortens the sequence by one and removes exactly the element at `i`: the elements before it stay, the ones after it shift down by one. |
| Seqs.InsertAt | src/hooks/useBoard.ts:138 | `splice(i, 0, x)` puts `x` at `min(i, n)`, keeps the elements before it and shifts the rest up by one. |
| Seqs.Move | src/components/Board/Board.tsx:76-78 | Taking an element out and splicing it back in keeps the length and the multiset. The moved element lands at the clamped target index, and removing it from there gives back the sequence without it, so all other elements keep their relative order. |
| Seqs.Filter | src/hooks/useBoard.ts:54 | `filter` keeps an order-preserving subsequence. It holds exactly the elements that pass, and returns the input when all pass. |
| DragEnd.Resolve | src/components/Board/Board.tsx:63-126 | No drop target, or a drag that is neither a list nor a card, resolves to no action. Only a list drag resolves to a list reorder, and only a card drag to a card move or a card reorder. |
| DragEnd.Apply | src/app/page.tsx:38-42 | Each action calls the hook operation the page wires to the board, `moveCard` as written for a move. No action leaves the board unchanged, and every action keeps the board's id and title. |
| DragEnd.ApplyPreservesWellFormed | src/app/page.tsx:38-42 | Whatever action a drag resolves to, applying it keeps a well-formed board well-formed. |
| DragEnd.ListDropEmits | src/components/Board/Board.tsx:71-81 | A list drop acts exactly when both ids are list ids. It then emits a permutation of the list ids, with the dragged id at the drop target's index; removing it from there gives the list ids without the dragged one, so the other lists keep their relative order. |
| DragEnd.ListDropReorders | src/components/Board/Board.tsx:71-81 | Applying the emitted reorder gives exactly the emitted list order, with the dragged list where the target was. |
| DragEnd.CardDropUnknownSource | src/components/Board/Board.tsx:84-87 | A card dragged from a list that is not on the board does nothing. |
| DragEnd.CardDropOnListArea | src/components/Board/Board.tsx:90-97 | A drop on `list-<id>` emits a move of the card to the end of list `<id>` (index equal to its card count), or nothing when there is no such list. |
| JsString.StartsWith | src/components/Board/Board.tsx:90 | `startsWith` holds exactly when the string is the prefix followed by the rest of the string. |
| JsString.ReplaceFirst | src/components/Board/Board.tsx:91 | `replace` with a string pattern replaces a leading occurrence of the pattern, and returns the string unchanged when the pattern occurs nowhere. |
| JsString.StripPrefix | src/components/Board/Board.tsx:90-91 | Every `list-<id>` starts with `list-`, and replacing `list-` by the empty string gives back `<id>`. |
| DragEnd.CardDropOnListAreaAppends | src/components/Board/Board.tsx:90-97 | Applying that drop puts the card last in the target list, for a different list and for the source list alike. |
| DragEnd.CardSlot | src/components/Board/Board.tsx:100-102 | The slot search finds nothing exactly when no card has the id. Otherwise it gives the first list holding the id and the card's first index there. |
| DragEnd.CardDropOnNothing | src/components/Board/Board.tsx:99-118 | A drop on an id that is neither `list-...` nor a card id does nothing, including a drop on a bare list id. |
| DragEnd.CardDropOnCard | src/components/Board/Board.tsx:99-117 | Dropping on a card of another list emits a move to that card's index. Dropping on a card of the source list emits a reorder: a permutation of its ids with the dragged card at the target's index and the other ids in their old relative order. If the dragged card is missing from its list, nothing is emitted. |
| DragEnd.CardDropSameListEmits | src/components/Board/Board.tsx:103-111 | With unique ids, a same-list drop from position p onto position q emits the reorder that moves p to q. |
| DragEnd.CardDropReordersList | src/components/Board/Board.tsx:103-111 | Applying a same-list drop gives exactly the emitted card order, renumbered, with the dragged card at the target's former index. |
| DragEnd.CardDropOtherListEmits | src/components/Board/Board.tsx:112-114 | With unique ids, a drop onto card q of another list emits a move to index q of that list. |
| DragEnd.CardDropMovesAcross | src/components/Board/Board.tsx:112-114 | Applying a drop onto another list's card puts the dragged card at that card's index and pushes the card dropped on one place down. No card is lost. |
| DragEnd.EmittedMovesHaveTargets | src/components/Board/Board.tsx:83-118 | Every emitted move names a list on the board, so applying the handler's own moves with `moveCard` as written gives the same board as the corrected move. |
| InitialBoard.CreateInitialBoard | src/data/initialBoard.ts:9-50 | The seed board has the default title and lists "To Do", "In Progress" and "Done" with orders 0, 1, 2. It holds two cards, one card and no card respectively. Card orders are `0..n-1`, each card's `listId` names its list, and no card has comments. |
| InitialBoard.InitialBoardWellFormed | src/data/initialBoard.ts:9-50 | Pairwise distinct generated list ids and card ids make the seed board well-formed. |

In more detail, `MoveCardLemmas.MoveCardRelocates` states, for unique ids and
an existing target list:

- the card appears once on the board, in the target list, at index
  `min(targetIndex, n)`, where n is the target's card count after the removal;
- the card's `listId` is set to the target and its order to its index;
- the target's other cards keep their relative order, and all its orders become
  `0..n`;
- a different source list keeps its remaining cards with their stale orders;
- the card count is conserved.

`DragEnd.CardDropMovesAcross` states that applying a drop onto another list's
card puts the dragged card at that card's index with `listId` set to that list.
The card dropped on moves one place down. The source list only loses the
dragged card, and no card is lost.

## Left out

- Persistence: `loadBoard`/`saveBoard` and the storage key. These are I/O.
- Id generation and the comment timestamp. These read the clock and `Math.random`, so they are parameters here.
- The "no board loaded yet" state. Every `if (!board) return` guard is dropped, because the model always has a board.
- React state plumbing, the `useCallback` closures, the `prev ?` guard of `updateBoardTitle`, and updates racing on a stale closure. These are framework concurrency.
- UI components and the dnd-kit library. Their title and comment trimming happens before the hook is called. The hook itself stores titles verbatim, blank ones included, and the model follows the hook.
- UseBoard.MoveCard: `splice` on `list.cards` mutates the previous board's arrays in place. That aliasing has no counterpart among immutable values.
- UseBoard.MoveCard: `targetIndex` is a `nat`. A negative or fractional index from JavaScript is not modelled.
- UseBoard.UpdateList: the patch is an optional title. A `Partial` carrying an explicit `title: undefined` is not modelled, and the only caller passes `{ title }`.
- UseBoard.UpdateCard: the same restriction on the patch as `UpdateList`.
- DragEnd.Resolve: `over.id` is taken as a string. `String(...)` of a numeric id is not modelled.
- DragEnd.Resolve: the event carries only `active.id`, the drag data and `over.id`. Other dnd-kit event fields are not modelled.
- `handleDragStart` is not modelled, because it does nothing.
- `BoardTypes.WellFormed` asks for distinct comment ids per card. The source promises nothing about comment ids beyond their being generated fresh, so `AddCommentPreservesWellFormed` takes freshness as a hypothesis.

## Findings

| source | as written | input that shows it | evidently intended | confidence | as-written member | corrected member |
|---|---|---|---|---|---|---|
| src/hooks/useBoard.ts:129-141 | `moveCard` removes the card from its list before checking the target. An unknown `targetListId` reaches no list, so the card is dropped from the board. | A board whose list "L" holds card "c", and `moveCard("c", "missing", 0)`: card "c" is gone and the card count falls by one. | An unknown target list leaves the board unchanged, like every other unknown id in the hook. | not executed; high that the code behaves so. The drag handler never emits such a move (`DragEnd.EmittedMovesHaveTargets`). | MoveCardLemmas.MoveCardUnknownTargetDropsCard | MoveCardLemmas.MoveCardGuarded |

`MoveCardLemmas.MoveCardGuardedKeepsCards` proves that the corrected move never
changes the board's card-id multiset. `DragEnd.Apply` calls `moveCard` as
written, as the page does; `DragEnd.EmittedMovesHaveTargets` shows that on every
move the drag handler emits, it agrees with the corrected move.
