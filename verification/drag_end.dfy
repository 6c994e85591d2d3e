/** The board's drag-end handler as a pure resolver: from the board's lists and
    a drop event it decides which single `useBoard` operation, if any, to call.
    `Apply` then performs that call, so a drop is `Apply(b, Resolve(b.lists, e))`. */
module DragEnd {
  import opened Wrappers
  import opened Seqs
  import opened JsString
  import opened BoardTypes
  import opened UseBoard
  import opened MoveCardLemmas
  import opened BoardLemmas

  /** What the dragged item carries in `active.data.current`. */
  datatype ActiveData = ListDrag | CardDrag(cardId: string, listId: string) | OtherDrag

  /** `active.id`, `active.data.current`, and `String(over.id)` when there is an `over`. */
  datatype DragEndEvent = DragEndEvent(activeId: string, data: ActiveData, over: Option<string>)

  /** The callback the handler ends up calling. */
  datatype Action =
    | NoAction
    | ReorderListsTo(listIds: seq<string>)
    | MoveCardTo(cardId: string, targetListId: string, targetIndex: nat)
    | ReorderCardsTo(listId: string, cardIds: seq<string>)

  /** The prefix that marks a drop on a list's empty area rather than on a card. */
  const LIST_PREFIX: string := "list-"

  /** The first list holding a card with id `overId`, searched from list `from`
      on, and the first index of that card in it (`findIndex` inside `for ... of`). */
  function CardSlotFrom(ls: seq<List>, overId: string, from: nat): (r: Option<(nat, nat)>)
    requires from <= |ls|
    ensures r.None? <==> forall j :: from <= j < |ls| ==> overId !in CardIds(ls[j].cards)
    ensures r.Some? ==>
      var (i, p) := r.value;
      && from <= i < |ls| && IndexOf(CardIds(ls[i].cards), overId) == Some(p)
      && forall j :: from <= j < i ==> overId !in CardIds(ls[j].cards)
    decreases |ls| - from
  {
    if from == |ls| then None
    else match IndexOf(CardIds(ls[from].cards), overId)
      case Some(p) => Some((from, p))
      case None => CardSlotFrom(ls, overId, from + 1)
  }

  function CardSlot(ls: seq<List>, overId: string): (r: Option<(nat, nat)>)
    ensures r.None? <==> overId !in CardIdBag(ls)
    ensures r.Some? ==>
      var (i, p) := r.value;
      && i < |ls| && p < |ls[i].cards| && ls[i].cards[p].id == overId
      && IndexOf(CardIds(ls[i].cards), overId) == Some(p)
      && forall j :: 0 <= j < i ==> overId !in CardIds(ls[j].cards)
  {
    var r := CardSlotFrom(ls, overId, 0);
    AbsentFromBag(ls, overId);
    r
  }

  /** Dragging a list onto another list: the ids with the dragged one taken out
      and put back at the drop target's position. */
  function ResolveListDrop(ls: seq<List>, activeId: string, overId: string): Action
  {
    var listIds := ListIds(ls);
    match (IndexOf(listIds, activeId), IndexOf(listIds, overId))
    case (Some(oldIndex), Some(newIndex)) => ReorderListsTo(Move(listIds, oldIndex, newIndex))
    case _ => NoAction
  }

  /** Dragging a card: onto a `list-<id>` area it goes to the end of that list;
      onto a card in its own list the list is reordered; onto a card in another
      list it moves to that card's index. */
  function ResolveCardDrop(ls: seq<List>, cardId: string, sourceListId: string, overId: string): Action
  {
    if FindList(ls, sourceListId).None? then NoAction
    else if StartsWith(overId, LIST_PREFIX) then
      var targetListId := ReplaceFirst(overId, LIST_PREFIX, "");
      match FindList(ls, targetListId)
      case None => NoAction
      case Some(targetList) => MoveCardTo(cardId, targetListId, |targetList.cards|)
    else
      match CardSlot(ls, overId)
      case None => NoAction
      case Some((i, idx)) =>
        if ls[i].id == sourceListId then
          var cardIds := CardIds(ls[i].cards);
          match IndexOf(cardIds, cardId)
          case None => NoAction
          case Some(fromIdx) => ReorderCardsTo(ls[i].id, InsertAt(RemoveAt(cardIds, fromIdx), idx, cardId))
        else MoveCardTo(cardId, ls[i].id, idx)
  }

  /** `handleDragEnd`. */
  function Resolve(ls: seq<List>, e: DragEndEvent): (r: Action)
    ensures e.over.None? ==> r == NoAction
    ensures e.data.OtherDrag? ==> r == NoAction
    ensures r.ReorderListsTo? ==> e.data.ListDrag?
    ensures r.MoveCardTo? || r.ReorderCardsTo? ==> e.data.CardDrag?
  {
    match e.over
    case None => NoAction
    case Some(overId) =>
      match e.data
      case ListDrag => ResolveListDrop(ls, e.activeId, overId)
      case CardDrag(cardId, sourceListId) => ResolveCardDrop(ls, cardId, sourceListId, overId)
      case OtherDrag => NoAction
  }

  /** Calls the chosen `useBoard` operation, the one the page passes to the board
      as its callback; a move calls `moveCard` as written. */
  function Apply(b: Board, a: Action): (r: Board)
    ensures a.NoAction? ==> r == b
    ensures r.id == b.id && r.title == b.title
  {
    match a
    case NoAction => b
    case ReorderListsTo(listIds) => ReorderLists(b, listIds)
    case MoveCardTo(cardId, targetListId, targetIndex) => MoveCard(b, cardId, targetListId, targetIndex)
    case ReorderCardsTo(listId, cardIds) => ReorderCardsInList(b, listId, cardIds)
  }

  /** Whatever a drag resolves to, applying it keeps a well-formed board well-formed. */
  lemma ApplyPreservesWellFormed(b: Board, a: Action)
    requires WellFormed(b)
    ensures WellFormed(Apply(b, a))
  {
    match a
    case NoAction =>
    case ReorderListsTo(listIds) => ReorderListsPreservesWellFormed(b, listIds);
    case MoveCardTo(cardId, targetListId, targetIndex) =>
      MoveCardPreservesWellFormed(b, cardId, targetListId, targetIndex);
    case ReorderCardsTo(listId, cardIds) => ReorderCardsInListPreservesWellFormed(b, listId, cardIds);
  }

  // ---------------------------------------------------------------- list drags

  /** A list drag acts exactly when both the dragged id and the drop target are
      list ids; it then emits a rearrangement of the list ids in which the
      dragged list sits at the drop target's former index. */
  lemma ListDropEmits(ls: seq<List>, activeId: string, overId: string)
    ensures var r := Resolve(ls, DragEndEvent(activeId, ListDrag, Some(overId)));
      && (r != NoAction <==> activeId in ListIds(ls) && overId in ListIds(ls))
      && (r != NoAction ==>
        && r.ReorderListsTo?
        && |r.listIds| == |ls|
        && multiset(r.listIds) == multiset(ListIds(ls))
        && r.listIds[IndexOf(ListIds(ls), overId).value] == activeId
        && RemoveAt(r.listIds, IndexOf(ListIds(ls), overId).value)
           == RemoveAt(ListIds(ls), IndexOf(ListIds(ls), activeId).value))
  {
  }

  /** Dropping a list and applying the result puts the lists in exactly the
      emitted order: the dragged list lands where the target list was. */
  lemma ListDropReorders(b: Board, activeId: string, overId: string)
    requires UniqueListIds(b.lists)
    requires activeId in ListIds(b.lists) && overId in ListIds(b.lists)
    ensures var a := Resolve(b.lists, DragEndEvent(activeId, ListDrag, Some(overId)));
      && a.ReorderListsTo?
      && ListIds(Apply(b, a).lists) == a.listIds
      && Apply(b, a).lists[IndexOf(ListIds(b.lists), overId).value].id == activeId
  {
    var a := Resolve(b.lists, DragEndEvent(activeId, ListDrag, Some(overId)));
    ListDropEmits(b.lists, activeId, overId);
    DistinctPermutation(ListIds(b.lists), a.listIds);
    ReorderListsFollowsGivenOrder(b, a.listIds);
  }

  // ---------------------------------------------------------------- card drags

  /** A card dragged from a list that is not on the board does nothing. */
  lemma CardDropUnknownSource(ls: seq<List>, activeId: string, cardId: string, sourceListId: string, overId: string)
    requires sourceListId !in ListIds(ls)
    ensures Resolve(ls, DragEndEvent(activeId, CardDrag(cardId, sourceListId), Some(overId))) == NoAction
  {
  }

  /** A drop on `list-<id>` moves the card to the end of list `<id>`, or does
      nothing when there is no such list. */
  lemma CardDropOnListArea(ls: seq<List>, activeId: string, cardId: string, sourceListId: string, listId: string)
    requires sourceListId in ListIds(ls)
    ensures var r := Resolve(ls, DragEndEvent(activeId, CardDrag(cardId, sourceListId), Some(LIST_PREFIX + listId)));
      && (listId !in ListIds(ls) ==> r == NoAction)
      && (listId in ListIds(ls) ==> r == MoveCardTo(cardId, listId, |FindList(ls, listId).value.cards|))
  {
    StripPrefix(LIST_PREFIX, listId);
  }

  /** A drop on a card id (not `list-...`) that no list holds does nothing; in
      particular dropping a card on a bare list id does nothing unless some card
      has that id. */
  lemma CardDropOnNothing(ls: seq<List>, activeId: string, cardId: string, sourceListId: string, overId: string)
    requires !StartsWith(overId, LIST_PREFIX)
    requires overId !in CardIdBag(ls)
    ensures Resolve(ls, DragEndEvent(activeId, CardDrag(cardId, sourceListId), Some(overId))) == NoAction
  {
  }

  /** A drop on a card of the source list emits a reorder of that list: the
      dragged card taken out and put back at the target card's index. A drop on a
      card of another list (the first such list in board order) emits a move to
      that card's index. */
  lemma CardDropOnCard(ls: seq<List>, activeId: string, cardId: string, sourceListId: string, overId: string)
    requires sourceListId in ListIds(ls)
    requires !StartsWith(overId, LIST_PREFIX)
    requires overId in CardIdBag(ls)
    ensures var r := Resolve(ls, DragEndEvent(activeId, CardDrag(cardId, sourceListId), Some(overId)));
      var (i, idx) := CardSlot(ls, overId).value;
      && ls[i].cards[idx].id == overId
      && (forall j :: 0 <= j < i ==> overId !in CardIds(ls[j].cards))
      && (ls[i].id != sourceListId ==> r == MoveCardTo(cardId, ls[i].id, idx))
      && (ls[i].id == sourceListId && cardId !in CardIds(ls[i].cards) ==> r == NoAction)
      && (ls[i].id == sourceListId && cardId in CardIds(ls[i].cards) ==>
        && r.ReorderCardsTo? && r.listId == sourceListId
        && |r.cardIds| == |ls[i].cards|
        && multiset(r.cardIds) == multiset(CardIds(ls[i].cards))
        && r.cardIds[idx] == cardId
        && RemoveAt(r.cardIds, idx) == RemoveAt(CardIds(ls[i].cards), IndexOf(CardIds(ls[i].cards), cardId).value))
  {
    var (i, idx) := CardSlot(ls, overId).value;
    var r := ResolveCardDrop(ls, cardId, sourceListId, overId);
    assert Resolve(ls, DragEndEvent(activeId, CardDrag(cardId, sourceListId), Some(overId))) == r;
    CardDropOnCardResolves(ls, cardId, sourceListId, overId);
  }

  /** `CardDropOnCard` stated on the card-drop resolver itself. */
  lemma CardDropOnCardResolves(ls: seq<List>, cardId: string, sourceListId: string, overId: string)
    requires sourceListId in ListIds(ls)
    requires !StartsWith(overId, LIST_PREFIX)
    requires overId in CardIdBag(ls)
    ensures var r := ResolveCardDrop(ls, cardId, sourceListId, overId);
      var (i, idx) := CardSlot(ls, overId).value;
      && (ls[i].id != sourceListId ==> r == MoveCardTo(cardId, ls[i].id, idx))
      && (ls[i].id == sourceListId && cardId !in CardIds(ls[i].cards) ==> r == NoAction)
      && (ls[i].id == sourceListId && cardId in CardIds(ls[i].cards) ==>
        && r.ReorderCardsTo? && r.listId == sourceListId
        && |r.cardIds| == |ls[i].cards|
        && multiset(r.cardIds) == multiset(CardIds(ls[i].cards))
        && r.cardIds[idx] == cardId
        && RemoveAt(r.cardIds, idx) == RemoveAt(CardIds(ls[i].cards), IndexOf(CardIds(ls[i].cards), cardId).value))
  {
    var (i, idx) := CardSlot(ls, overId).value;
    assert FindList(ls, sourceListId).Some?;
    if ls[i].id == sourceListId && cardId in CardIds(ls[i].cards) {
      var cardIds := CardIds(ls[i].cards);
      var fromIdx := IndexOf(cardIds, cardId).value;
      assert InsertAt(RemoveAt(cardIds, fromIdx), idx, cardId) == Move(cardIds, fromIdx, idx);
    }
  }

  /** Every move the handler emits names a list on the board, so a drop never
      reaches the branch of `moveCard` as written that loses the card: on the
      handler's own moves the as-written and the guarded call agree. */
  lemma EmittedMovesHaveTargets(b: Board, e: DragEndEvent)
    ensures var a := Resolve(b.lists, e);
      a.MoveCardTo? ==>
        && a.targetListId in ListIds(b.lists)
        && Apply(b, a) == MoveCardGuarded(b, a.cardId, a.targetListId, a.targetIndex)
  {
    var a := Resolve(b.lists, e);
    if a.MoveCardTo? && e.over.Some? && e.data.CardDrag? && !StartsWith(e.over.value, LIST_PREFIX) {
      var (i, idx) := CardSlot(b.lists, e.over.value).value;
      assert ListIds(b.lists)[i] == b.lists[i].id;
    }
  }

  /** Under unique card ids, a card id names one slot: its own list and index. */
  lemma CardSlotOfUniqueId(ls: seq<List>, t: nat, q: nat)
    requires UniqueCardIds(ls)
    requires t < |ls| && q < |ls[t].cards|
    ensures CardSlot(ls, ls[t].cards[q].id) == Some((t, q))
  {
    var overId := ls[t].cards[q].id;
    BagHolds(ls, t);
    assert CardIds(ls[t].cards)[q] == overId;
    var (i, idx) := CardSlot(ls, overId).value;
    if i != t {
      UniqueCardIdsSeparate(ls, t, i, overId);
      assert false;
    }
    UniqueCardIdsWithinList(ls, t);
    IndexOfDistinct(CardIds(ls[t].cards), q);
  }

  /** Dropping card `p` of list `s` on card `q` of the same list emits the
      reorder that moves position `p` to position `q`. */
  lemma CardDropSameListEmits(ls: seq<List>, activeId: string, s: nat, p: nat, q: nat)
    requires UniqueCardIds(ls)
    requires s < |ls| && p < |ls[s].cards| && q < |ls[s].cards|
    requires !StartsWith(ls[s].cards[q].id, LIST_PREFIX)
    ensures Resolve(ls, DragEndEvent(activeId, CardDrag(ls[s].cards[p].id, ls[s].id), Some(ls[s].cards[q].id)))
         == ReorderCardsTo(ls[s].id, Move(CardIds(ls[s].cards), p, q))
  {
    CardSlotOfUniqueId(ls, s, q);
    assert ListIds(ls)[s] == ls[s].id;
    assert FindList(ls, ls[s].id).Some?;
    UniqueCardIdsWithinList(ls, s);
    IndexOfDistinct(CardIds(ls[s].cards), p);
  }

  /** Reordering a list by a one-card move of its own ids puts its cards in exactly that order. */
  lemma ReorderByMove(b: Board, s: nat, p: nat, q: nat)
    requires UniqueCardIds(b.lists) && UniqueListIds(b.lists)
    requires s < |b.lists| && p < |b.lists[s].cards| && q < |b.lists[s].cards|
    ensures var ids := Move(CardIds(b.lists[s].cards), p, q);
      var r := ReorderCardsInList(b, b.lists[s].id, ids);
      && |r.lists| == |b.lists| && |r.lists[s].cards| == |b.lists[s].cards|
      && CardIds(r.lists[s].cards) == ids
      && Contiguous(r.lists[s])
      && r.lists[s].cards[q].id == b.lists[s].cards[p].id
  {
    var ids := Move(CardIds(b.lists[s].cards), p, q);
    UniqueCardIdsWithinList(b.lists, s);
    DistinctPermutation(CardIds(b.lists[s].cards), ids);
    ReorderCardsFollowsGivenOrder(b, b.lists[s].id, ids, s);
    var r := ReorderCardsInList(b, b.lists[s].id, ids);
    assert CardIds(r.lists[s].cards)[q] == ids[q];
  }

  /** Applying a drop of card `p` on card `q` of the same list puts that list's
      cards in exactly the emitted order, renumbered, with the dragged card at
      `q`, the index of the card it was dropped on. */
  lemma CardDropReordersList(b: Board, activeId: string, s: nat, p: nat, q: nat)
    requires UniqueCardIds(b.lists) && UniqueListIds(b.lists)
    requires s < |b.lists| && p < |b.lists[s].cards| && q < |b.lists[s].cards|
    requires !StartsWith(b.lists[s].cards[q].id, LIST_PREFIX)
    ensures var a := Resolve(b.lists, DragEndEvent(activeId, CardDrag(b.lists[s].cards[p].id, b.lists[s].id), Some(b.lists[s].cards[q].id)));
      var r := Apply(b, a);
      && a.ReorderCardsTo?
      && |r.lists| == |b.lists| && |r.lists[s].cards| == |b.lists[s].cards|
      && CardIds(r.lists[s].cards) == a.cardIds
      && Contiguous(r.lists[s])
      && r.lists[s].cards[q].id == b.lists[s].cards[p].id
  {
    var a := Resolve(b.lists, DragEndEvent(activeId, CardDrag(b.lists[s].cards[p].id, b.lists[s].id), Some(b.lists[s].cards[q].id)));
    CardDropSameListEmits(b.lists, activeId, s, p, q);
    ApplyReorderByMove(b, a, s, p, q);
  }

  lemma ApplyReorderByMove(b: Board, a: Action, s: nat, p: nat, q: nat)
    requires UniqueCardIds(b.lists) && UniqueListIds(b.lists)
    requires s < |b.lists| && p < |b.lists[s].cards| && q < |b.lists[s].cards|
    requires a == ReorderCardsTo(b.lists[s].id, Move(CardIds(b.lists[s].cards), p, q))
    ensures var r := Apply(b, a);
      && |r.lists| == |b.lists| && |r.lists[s].cards| == |b.lists[s].cards|
      && CardIds(r.lists[s].cards) == a.cardIds
      && Contiguous(r.lists[s])
      && r.lists[s].cards[q].id == b.lists[s].cards[p].id
  {
    ReorderByMove(b, s, p, q);
  }

  /** Dropping card `p` of list `s` on card `q` of another list `t` emits a move to index `q` of `t`. */
  lemma CardDropOtherListEmits(ls: seq<List>, activeId: string, s: nat, p: nat, t: nat, q: nat)
    requires UniqueCardIds(ls) && UniqueListIds(ls)
    requires s < |ls| && p < |ls[s].cards| && t < |ls| && q < |ls[t].cards| && s != t
    requires !StartsWith(ls[t].cards[q].id, LIST_PREFIX)
    ensures Resolve(ls, DragEndEvent(activeId, CardDrag(ls[s].cards[p].id, ls[s].id), Some(ls[t].cards[q].id)))
         == MoveCardTo(ls[s].cards[p].id, ls[t].id, q)
  {
    CardSlotOfUniqueId(ls, t, q);
    assert ListIds(ls)[s] == ls[s].id && ListIds(ls)[t] == ls[t].id;
    assert ListIds(ls)[s] != ListIds(ls)[t];
  }

  /** Applying a drop on another list's card puts the dragged card at that
      card's index and pushes that card one place down. */
  lemma CardDropMovesAcross(b: Board, activeId: string, s: nat, p: nat, t: nat, q: nat)
    requires UniqueCardIds(b.lists) && UniqueListIds(b.lists)
    requires s < |b.lists| && p < |b.lists[s].cards| && t < |b.lists| && q < |b.lists[t].cards| && s != t
    requires !StartsWith(b.lists[t].cards[q].id, LIST_PREFIX)
    ensures var e := DragEndEvent(activeId, CardDrag(b.lists[s].cards[p].id, b.lists[s].id), Some(b.lists[t].cards[q].id));
      var r := Apply(b, Resolve(b.lists, e));
      && |r.lists| == |b.lists| && |r.lists[t].cards| == |b.lists[t].cards| + 1
      && r.lists[t].cards[q] == b.lists[s].cards[p].(listId := b.lists[t].id, order := Some(q))
      && r.lists[t].cards[q + 1].id == b.lists[t].cards[q].id
      && r.lists[s].cards == RemoveAt(b.lists[s].cards, p)
      && CardIdBag(r.lists) == CardIdBag(b.lists)
  {
    var e := DragEndEvent(activeId, CardDrag(b.lists[s].cards[p].id, b.lists[s].id), Some(b.lists[t].cards[q].id));
    CardDropOtherListEmits(b.lists, activeId, s, p, t, q);
    assert Apply(b, Resolve(b.lists, e)) == MoveCard(b, b.lists[s].cards[p].id, b.lists[t].id, q);
    MoveCardAtCard(b, s, p, t, q);
  }

  /** Moving a card to index `q` of another list puts it there and pushes the old card `q` down. */
  lemma MoveCardAtCard(b: Board, s: nat, p: nat, t: nat, q: nat)
    requires UniqueCardIds(b.lists) && UniqueListIds(b.lists)
    requires s < |b.lists| && p < |b.lists[s].cards| && t < |b.lists| && q < |b.lists[t].cards| && s != t
    ensures var r := MoveCard(b, b.lists[s].cards[p].id, b.lists[t].id, q);
      && |r.lists[t].cards| == |b.lists[t].cards| + 1
      && r.lists[t].cards[q] == b.lists[s].cards[p].(listId := b.lists[t].id, order := Some(q))
      && r.lists[t].cards[q + 1].id == b.lists[t].cards[q].id
      && r.lists[s].cards == RemoveAt(b.lists[s].cards, p)
      && CardIdBag(r.lists) == CardIdBag(b.lists)
  {
    var r := MoveCard(b, b.lists[s].cards[p].id, b.lists[t].id, q);
    var ls := Relocated(b.lists, s, p, t, q);
    MoveCardShape(b, s, p, t, q);
    assert r.lists == ls;
    RelocatedKeepsCards(b.lists, s, p, t, q);
    RelocatedAtCard(b.lists, s, p, t, q);

  }

  lemma RelocatedAtCard(ls: seq<List>, s: nat, p: nat, t: nat, q: nat)
    requires s < |ls| && p < |ls[s].cards| && t < |ls| && q < |ls[t].cards| && s != t
    ensures var r := Relocated(ls, s, p, t, q);
      && |r[t].cards| == |ls[t].cards| + 1
      && r[t].cards[q] == ls[s].cards[p].(listId := ls[t].id, order := Some(q))
      && r[t].cards[q + 1].id == ls[t].cards[q].id
      && r[s].cards == RemoveAt(ls[s].cards, p)
  {
    RelocatedTarget(ls, s, p, t, q);
    var r := Relocated(ls, s, p, t, q);
    assert r[t].cards[q + 1].(order := ls[t].cards[q].order) == ls[t].cards[q];
  }

  /** Applying a drop on `list-<id>` appends the card: it ends up last in that list. */
  lemma CardDropOnListAreaAppends(b: Board, activeId: string, s: nat, p: nat, t: nat)
    requires UniqueCardIds(b.lists) && UniqueListIds(b.lists)
    requires s < |b.lists| && p < |b.lists[s].cards| && t < |b.lists|
    ensures var e := DragEndEvent(activeId, CardDrag(b.lists[s].cards[p].id, b.lists[s].id), Some(LIST_PREFIX + b.lists[t].id));
      var r := Apply(b, Resolve(b.lists, e));
      var n := |r.lists[t].cards|;
      && n > 0
      && r.lists[t].cards[n - 1] == b.lists[s].cards[p].(listId := b.lists[t].id, order := Some(n - 1))
  {
    var ls := b.lists;
    assert ListIds(ls)[s] == ls[s].id && ListIds(ls)[t] == ls[t].id;
    CardDropOnListArea(ls, activeId, ls[s].cards[p].id, ls[s].id, ls[t].id);
    FindListAt(ls, t);
    MoveCardRelocates(b, ls[s].cards[p].id, ls[t].id, |ls[t].cards|, s, p, t);
  }
}
