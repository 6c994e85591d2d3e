/** The board's mutation engine: each callback of the `useBoard` hook, as a pure
    function from the previous board (and the callback's arguments) to the next.
    Generated ids and timestamps are parameters. The hook's guards for a board
    that has not loaded yet (`if (!board) return`) are left out: the board here
    always exists. */
module UseBoard {
  import opened Wrappers
  import opened Seqs
  import opened StableSort
  import opened JsString
  import opened BoardTypes

  const NEW_LIST_TITLE: string := "New List"

  const NEW_CARD_TITLE: string := "New Card"

  /** `title || fallback`: only the empty string is falsy, so a blank title is kept as given. */
  function OrDefault(title: string, fallback: string): string
  {
    if title == "" then fallback else title
  }

  /** `{ ...entity, ...updates }` for `updates: Partial<{ title }>`: an absent key keeps the title. */
  function Patched(title: string, patch: Option<string>): string
  {
    match patch
    case None => title
    case Some(t) => t
  }

  /** `cards.map((c, i) => ({ ...c, order: i }))`. */
  function Renumber(cs: seq<Card>): (r: seq<Card>)
    ensures |r| == |cs| && CardIds(r) == CardIds(cs)
    ensures forall i :: 0 <= i < |cs| ==> r[i].order == Some(i) && r[i].(order := cs[i].order) == cs[i]
  {
    seq(|cs|, i requires 0 <= i < |cs| => cs[i].(order := Some(i)))
  }

  // ---------------------------------------------------------------- board title

  /** `updateBoardTitle`: the title is stored verbatim, blank or not; nothing else changes. */
  function UpdateBoardTitle(b: Board, title: string): (r: Board)
    ensures r.title == title
    ensures r.id == b.id && r.lists == b.lists
  {
    b.(title := title)
  }

  // ---------------------------------------------------------------- lists

  /** `addList`: appends one empty list whose `order` is the previous list count. */
  function AddList(b: Board, title: string, newId: string): (r: Board)
    ensures r.id == b.id && r.title == b.title
    ensures |r.lists| == |b.lists| + 1 && r.lists[..|b.lists|] == b.lists
    ensures var l := r.lists[|b.lists|];
      && l.id == newId && l.boardId == b.id && l.order == |b.lists| && l.cards == []
      && l.title == (if title == "" then NEW_LIST_TITLE else title)
  {
    b.(lists := b.lists + [List(newId, b.id, OrDefault(title, NEW_LIST_TITLE), |b.lists|, [])])
  }

  function RetitleList(l: List, listId: string, patch: Option<string>): List
  {
    if l.id == listId then l.(title := Patched(l.title, patch)) else l
  }

  /** `updateList`: only the title of the lists with that id changes. */
  function UpdateList(b: Board, listId: string, patch: Option<string>): (r: Board)
    ensures r.id == b.id && r.title == b.title && |r.lists| == |b.lists|
    ensures forall i :: 0 <= i < |b.lists| ==> r.lists[i].(title := b.lists[i].title) == b.lists[i]
    ensures forall i :: 0 <= i < |b.lists| && b.lists[i].id == listId ==>
      r.lists[i].title == Patched(b.lists[i].title, patch)
    ensures forall i :: 0 <= i < |b.lists| && b.lists[i].id != listId ==> r.lists[i] == b.lists[i]
    ensures listId !in ListIds(b.lists) ==> r == b
  {
    var lists := seq(|b.lists|, i requires 0 <= i < |b.lists| => RetitleList(b.lists[i], listId, patch));
    assert listId !in ListIds(b.lists) ==> lists == b.lists;
    b.(lists := lists)
  }

  /** `deleteList`: the lists with that id go, with their cards; the survivors keep their order. */
  function DeleteList(b: Board, listId: string): (r: Board)
    ensures r.id == b.id && r.title == b.title
    ensures Subsequence(r.lists, b.lists)
    ensures forall l :: multiset(r.lists)[l] == if l.id == listId then 0 else multiset(b.lists)[l]
    ensures listId !in ListIds(r.lists)
    ensures listId !in ListIds(b.lists) ==> r == b
  {
    var p := (l: List) => l.id != listId;
    var lists := Filter(b.lists, p);
    assert forall l :: multiset(lists)[l] == if l.id == listId then 0 else multiset(b.lists)[l] by {
      forall l ensures multiset(lists)[l] == if l.id == listId then 0 else multiset(b.lists)[l] {
        FilterCounts(b.lists, p, l);
      }
    }
    assert forall i :: 0 <= i < |lists| ==> lists[i].id != listId;
    assert listId !in ListIds(b.lists) ==> forall i :: 0 <= i < |b.lists| ==> p(b.lists[i]);
    b.(lists := lists)
  }

  /** `deleteAllCardsInList`: the lists with that id lose all their cards; nothing else changes. */
  function DeleteAllCardsInList(b: Board, listId: string): (r: Board)
    ensures r.id == b.id && r.title == b.title && |r.lists| == |b.lists|
    ensures forall i :: 0 <= i < |b.lists| ==>
      r.lists[i] == if b.lists[i].id == listId then b.lists[i].(cards := []) else b.lists[i]
  {
    b.(lists := seq(|b.lists|, i requires 0 <= i < |b.lists| =>
      if b.lists[i].id == listId then b.lists[i].(cards := []) else b.lists[i]))
  }

  /** The comparator key of `reorderLists`: a list's rank in the given id sequence. */
  function ListRank(listIds: seq<string>): List -> int
  {
    RankKey(listIds, ListId)
  }

  /** `reorderLists`: a stable sort of the lists by the position of their id in
      `listIds` (the last position when an id repeats); a list whose id is missing
      gets key 0, the same key as any id whose last position is 0. */
  function ReorderLists(b: Board, listIds: seq<string>): (r: Board)
    ensures r.id == b.id && r.title == b.title
    ensures multiset(r.lists) == multiset(b.lists)
    ensures SortedBy(r.lists, ListRank(listIds))
    ensures forall k :: WithKey(r.lists, ListRank(listIds), k) == WithKey(b.lists, ListRank(listIds), k)
  {
    b.(lists := SortBy(b.lists, ListRank(listIds)))
  }

  // ---------------------------------------------------------------- cards

  /** The card `addCard` creates: its `order` is the card count of the first list with the id. */
  function NewCard(b: Board, listId: string, title: string, newId: string): (r: Card)
    requires listId in ListIds(b.lists)
    ensures r.id == newId && r.listId == listId && r.comments == []
    ensures r.title == (if title == "" then NEW_CARD_TITLE else title)
    ensures r.order.Some? &&
      exists i :: 0 <= i < |b.lists| && b.lists[i].id == listId && r.order.value == |b.lists[i].cards|
        && forall j :: 0 <= j < i ==> b.lists[j].id != listId
  {
    Card(newId, listId, OrDefault(title, NEW_CARD_TITLE), [], Some(|FindList(b.lists, listId).value.cards|))
  }

  /** `addCard`: appends one comment-less card to the lists with that id; an unknown id changes nothing. */
  function AddCard(b: Board, listId: string, title: string, newId: string): (r: Board)
    ensures r.id == b.id && r.title == b.title && |r.lists| == |b.lists|
    ensures listId !in ListIds(b.lists) ==> r == b
    ensures listId in ListIds(b.lists) ==>
      var c := NewCard(b, listId, title, newId);
      && c.id == newId && c.listId == listId && c.comments == []
      && c.title == (if title == "" then NEW_CARD_TITLE else title)
      && forall i :: 0 <= i < |b.lists| ==>
        r.lists[i] == if b.lists[i].id == listId then b.lists[i].(cards := b.lists[i].cards + [c]) else b.lists[i]
  {
    match FindList(b.lists, listId)
    case None => b
    case Some(list) =>
      var c := NewCard(b, listId, title, newId);
      b.(lists := seq(|b.lists|, i requires 0 <= i < |b.lists| =>
        if b.lists[i].id == listId then b.lists[i].(cards := b.lists[i].cards + [c]) else b.lists[i]))
  }

  function RetitleCards(cs: seq<Card>, cardId: string, patch: Option<string>): seq<Card>
  {
    seq(|cs|, i requires 0 <= i < |cs| =>
      if cs[i].id == cardId then cs[i].(title := Patched(cs[i].title, patch)) else cs[i])
  }

  /** `updateCard`: only the title of the cards with that id changes, wherever they are. */
  function UpdateCard(b: Board, cardId: string, patch: Option<string>): (r: Board)
    ensures r.id == b.id && r.title == b.title && |r.lists| == |b.lists|
    ensures forall i :: 0 <= i < |b.lists| ==>
      && r.lists[i].(cards := b.lists[i].cards) == b.lists[i]
      && |r.lists[i].cards| == |b.lists[i].cards|
    ensures forall i, p :: 0 <= i < |b.lists| && 0 <= p < |b.lists[i].cards| ==>
      var c := b.lists[i].cards[p];
      && r.lists[i].cards[p].(title := c.title) == c
      && r.lists[i].cards[p].title == if c.id == cardId then Patched(c.title, patch) else c.title
    ensures cardId !in CardIdBag(b.lists) ==> r == b
  {
    var lists := seq(|b.lists|, i requires 0 <= i < |b.lists| =>
      b.lists[i].(cards := RetitleCards(b.lists[i].cards, cardId, patch)));
    assert cardId !in CardIdBag(b.lists) ==> lists == b.lists by {
      if cardId !in CardIdBag(b.lists) {
        forall i | 0 <= i < |b.lists| ensures lists[i] == b.lists[i] {
          BagHolds(b.lists, i);
          assert RetitleCards(b.lists[i].cards, cardId, patch) == b.lists[i].cards;
        }
      }
    }
    b.(lists := lists)
  }

  /** One list's part of `deleteCard`: `cards.filter(c => c.id !== cardId)`. */
  function WithoutCardId(l: List, cardId: string): (r: List)
    ensures r.(cards := l.cards) == l
    ensures Subsequence(r.cards, l.cards)
    ensures forall c :: multiset(r.cards)[c] == if c.id == cardId then 0 else multiset(l.cards)[c]
    ensures cardId !in CardIds(r.cards)
    ensures cardId !in CardIds(l.cards) ==> r == l
  {
    var p := (c: Card) => c.id != cardId;
    var cards := Filter(l.cards, p);
    assert forall c :: multiset(cards)[c] == if c.id == cardId then 0 else multiset(l.cards)[c] by {
      forall c ensures multiset(cards)[c] == if c.id == cardId then 0 else multiset(l.cards)[c] {
        FilterCounts(l.cards, p, c);
      }
    }
    assert forall q :: 0 <= q < |cards| ==> cards[q].id != cardId;
    assert cardId !in CardIds(l.cards) ==> forall q :: 0 <= q < |l.cards| ==> p(l.cards[q]);
    l.(cards := cards)
  }

  /** `deleteCard`: every list drops its cards with that id; the remaining cards
      keep their order in the list and their stale `order` values. */
  function DeleteCard(b: Board, cardId: string): (r: Board)
    ensures r.id == b.id && r.title == b.title && |r.lists| == |b.lists|
    ensures forall i :: 0 <= i < |b.lists| ==> r.lists[i] == WithoutCardId(b.lists[i], cardId)
    ensures cardId !in CardIdBag(r.lists)
    ensures cardId !in CardIdBag(b.lists) ==> r == b
  {
    var lists := seq(|b.lists|, i requires 0 <= i < |b.lists| => WithoutCardId(b.lists[i], cardId));
    AbsentFromBag(lists, cardId);
    AbsentFromBag(b.lists, cardId);
    b.(lists := lists)
  }

  // ---------------------------------------------------------------- moving and reordering cards

  /** One list's part of `moveCard`'s first pass: the list loses its FIRST card
      with the id, if any. (The source removes it with `splice` on the previous
      board's own array, a side effect on the old state that is not modelled.) */
  function WithoutFirstCard(l: List, cardId: string): (r: List)
    ensures r.(cards := l.cards) == l
    ensures cardId !in CardIds(l.cards) ==> r == l
    ensures cardId in CardIds(l.cards) ==>
      var p := IndexOf(CardIds(l.cards), cardId).value;
      r.cards == RemoveAt(l.cards, p)
  {
    match IndexOf(CardIds(l.cards), cardId)
    case None => l
    case Some(p) => l.(cards := RemoveAt(l.cards, p))
  }

  /** The card `moveCard`'s first pass leaves in its `card` variable: each list
      holding the id overwrites it, so it comes from the LAST such list. */
  function TakenCard(ls: seq<List>, cardId: string): (r: Option<Card>)
    ensures r.None? <==> cardId !in CardIdBag(ls)
    ensures r.Some? ==> r.value.id == cardId
    ensures r.Some? ==>
      exists i :: 0 <= i < |ls| && IsFirstCardIn(ls[i], cardId, r.value)
        && forall j :: i < j < |ls| ==> cardId !in CardIds(ls[j].cards)
  {
    if |ls| == 0 then None
    else match TakenCard(ls[1..], cardId)
      case Some(c) =>
        var i :| 0 <= i < |ls[1..]| && IsFirstCardIn(ls[1..][i], cardId, c)
          && forall j :: i < j < |ls[1..]| ==> cardId !in CardIds(ls[1..][j].cards);
        assert ls[i + 1] == ls[1..][i];
        assert forall j :: i + 1 < j < |ls| ==> ls[j] == ls[1..][j - 1];
        Some(c)
      case None =>
        match IndexOf(CardIds(ls[0].cards), cardId)
        case None => None
        case Some(p) =>
          AbsentFromBag(ls[1..], cardId);
          assert forall j :: 0 < j < |ls| ==> ls[j] == ls[1..][j - 1];
          Some(ls[0].cards[p])
  }

  /** One list's part of `moveCard`'s second pass: a list with the target id gets
      the card spliced in at `Min(targetIndex, |cards|)` and all its cards renumbered. */
  function WithCardAt(l: List, targetListId: string, targetIndex: nat, card: Card): (r: List)
    ensures r.(cards := l.cards) == l
    ensures l.id != targetListId ==> r == l
    ensures l.id == targetListId ==>
      var k := Min(targetIndex, |l.cards|);
      && |r.cards| == |l.cards| + 1
      && Contiguous(r)
      && r.cards[k] == card.(order := Some(k))
      && (forall q :: 0 <= q < k ==> r.cards[q].(order := l.cards[q].order) == l.cards[q])
      && (forall q :: k < q < |r.cards| ==> r.cards[q].(order := l.cards[q - 1].order) == l.cards[q - 1])
  {
    if l.id != targetListId then l
    else l.(cards := Renumber(InsertAt(l.cards, targetIndex, card)))
  }

  /** `moveCard`: takes the card out of the lists holding it, then inserts it,
      with `listId` set to the target, into the target list at the clamped index
      and renumbers that list. An unknown card id changes nothing; an unknown
      target list id leaves the card removed and nowhere inserted. */
  function MoveCard(b: Board, cardId: string, targetListId: string, targetIndex: nat): (r: Board)
    ensures r.id == b.id && r.title == b.title && |r.lists| == |b.lists|
    ensures forall i :: 0 <= i < |b.lists| ==> r.lists[i].(cards := b.lists[i].cards) == b.lists[i]
    ensures cardId !in CardIdBag(b.lists) ==> r == b
    ensures cardId in CardIdBag(b.lists) ==> forall i :: 0 <= i < |b.lists| ==>
      r.lists[i] == WithCardAt(WithoutFirstCard(b.lists[i], cardId), targetListId, targetIndex,
                               TakenCard(b.lists, cardId).value.(listId := targetListId))
  {
    match TakenCard(b.lists, cardId)
    case None => b
    case Some(card) =>
      var moved := card.(listId := targetListId);
      b.(lists := seq(|b.lists|, i requires 0 <= i < |b.lists| =>
        WithCardAt(WithoutFirstCard(b.lists[i], cardId), targetListId, targetIndex, moved)))
  }

  /** The comparator key of `reorderCardsInList`: a card's rank in the given id sequence. */
  function CardRank(cardIds: seq<string>): Card -> int
  {
    RankKey(cardIds, CardId)
  }

  /** `reorderCardsInList`: the lists with that id have their cards stably sorted
      by rank in `cardIds` (missing ids rank 0) and renumbered; other lists are untouched. */
  function ReorderCardsInList(b: Board, listId: string, cardIds: seq<string>): (r: Board)
    ensures r.id == b.id && r.title == b.title && |r.lists| == |b.lists|
    ensures forall i :: 0 <= i < |b.lists| ==> r.lists[i].(cards := b.lists[i].cards) == b.lists[i]
    ensures forall i :: 0 <= i < |b.lists| && b.lists[i].id != listId ==> r.lists[i] == b.lists[i]
    ensures forall i :: 0 <= i < |b.lists| && b.lists[i].id == listId ==>
      && Contiguous(r.lists[i])
      && multiset(CardIds(r.lists[i].cards)) == multiset(CardIds(b.lists[i].cards))
      && r.lists[i].cards == Renumber(SortBy(b.lists[i].cards, CardRank(cardIds)))
    ensures listId !in ListIds(b.lists) ==> r == b
  {
    var lists := seq(|b.lists|, i requires 0 <= i < |b.lists| =>
      if b.lists[i].id != listId then b.lists[i]
      else b.lists[i].(cards := Renumber(SortBy(b.lists[i].cards, CardRank(cardIds)))));
    assert forall i :: 0 <= i < |b.lists| && b.lists[i].id == listId ==>
      multiset(CardIds(lists[i].cards)) == multiset(CardIds(b.lists[i].cards)) by {
      forall i | 0 <= i < |b.lists| && b.lists[i].id == listId
        ensures multiset(CardIds(lists[i].cards)) == multiset(CardIds(b.lists[i].cards)) {
        ProjectPermutation(SortBy(b.lists[i].cards, CardRank(cardIds)), b.lists[i].cards, CardId);
      }
    }
    assert listId !in ListIds(b.lists) ==> lists == b.lists;
    b.(lists := lists)
  }

  // ---------------------------------------------------------------- comments

  /** `addComment`: when the text is not blank, every card with that id gets one
      comment appended, holding the trimmed text; blank text changes nothing. */
  function AddComment(b: Board, cardId: string, text: string, newId: string, createdAt: string): (r: Board)
    ensures Trim(text) == [] ==> r == b
    ensures r.id == b.id && r.title == b.title && |r.lists| == |b.lists|
    ensures forall i :: 0 <= i < |b.lists| ==>
      && r.lists[i].(cards := b.lists[i].cards) == b.lists[i]
      && |r.lists[i].cards| == |b.lists[i].cards|
    ensures forall i, p :: 0 <= i < |b.lists| && 0 <= p < |b.lists[i].cards| ==>
      var c := b.lists[i].cards[p];
      && r.lists[i].cards[p].(comments := c.comments) == c
      && r.lists[i].cards[p].comments ==
        if c.id == cardId && Trim(text) != [] then c.comments + [Comment(newId, cardId, Trim(text), createdAt)]
        else c.comments
  {
    if Trim(text) == [] then b
    else
      var m := Comment(newId, cardId, Trim(text), createdAt);
      b.(lists := seq(|b.lists|, i requires 0 <= i < |b.lists| =>
        b.lists[i].(cards := seq(|b.lists[i].cards|, p requires 0 <= p < |b.lists[i].cards| =>
          if b.lists[i].cards[p].id == cardId
          then b.lists[i].cards[p].(comments := b.lists[i].cards[p].comments + [m])
          else b.lists[i].cards[p]))))
  }

  // ---------------------------------------------------------------- lookup

  /** `getCardById`: the first card with the id, scanning the lists in board order. */
  function GetCardById(b: Board, cardId: string): (r: Option<Card>)
    ensures r.None? <==> cardId !in CardIdBag(b.lists)
    ensures r.Some? ==> r.value.id == cardId
    ensures r.Some? ==>
      exists i :: 0 <= i < |b.lists| && IsFirstCardIn(b.lists[i], cardId, r.value)
        && forall j :: 0 <= j < i ==> cardId !in CardIds(b.lists[j].cards)
  {
    FindCard(b.lists, cardId)
  }

  function FindCard(ls: seq<List>, cardId: string): (r: Option<Card>)
    ensures r.None? <==> cardId !in CardIdBag(ls)
    ensures r.Some? ==> r.value.id == cardId
    ensures r.Some? ==> exists i, p :: 0 <= i < |ls| && 0 <= p < |ls[i].cards| && ls[i].cards[p] == r.value
    ensures r.Some? ==>
      exists i :: 0 <= i < |ls| && IsFirstCardIn(ls[i], cardId, r.value)
        && forall j :: 0 <= j < i ==> cardId !in CardIds(ls[j].cards)
  {
    if |ls| == 0 then None
    else match IndexOf(CardIds(ls[0].cards), cardId)
      case Some(p) => Some(ls[0].cards[p])
      case None =>
        var r := FindCard(ls[1..], cardId);
        assert r.Some? ==> exists i, p :: 0 <= i < |ls| && 0 <= p < |ls[i].cards| && ls[i].cards[p] == r.value by {
          if r.Some? {
            var i, p :| 0 <= i < |ls[1..]| && 0 <= p < |ls[1..][i].cards| && ls[1..][i].cards[p] == r.value;
            assert ls[i + 1].cards[p] == r.value;
          }
        }
        if r.Some? then FirstHolderPastHead(ls, cardId, r.value); r else r
  }

  /** A first holder in `ls[1..]` is a first holder in `ls` when `ls[0]` lacks the id. */
  lemma FirstHolderPastHead(ls: seq<List>, cardId: string, c: Card)
    requires |ls| > 0 && cardId !in CardIds(ls[0].cards)
    requires
      exists i :: 0 <= i < |ls[1..]| && IsFirstCardIn(ls[1..][i], cardId, c)
        && forall j :: 0 <= j < i ==> cardId !in CardIds(ls[1..][j].cards)
    ensures
      exists i :: 0 <= i < |ls| && IsFirstCardIn(ls[i], cardId, c)
        && forall j :: 0 <= j < i ==> cardId !in CardIds(ls[j].cards)
  {
    var i :| 0 <= i < |ls[1..]| && IsFirstCardIn(ls[1..][i], cardId, c)
      && forall j :: 0 <= j < i ==> cardId !in CardIds(ls[1..][j].cards);
    assert ls[i + 1] == ls[1..][i];
    assert forall j :: 0 < j < i + 1 ==> ls[j] == ls[1..][j - 1];
  }
}
