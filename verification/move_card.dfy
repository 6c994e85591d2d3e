/** What `moveCard` does to a board whose list ids and card ids are unique:
    the card lands once, in the target list, at the clamped index, the target
    list is renumbered, a different source list keeps its stale `order` values,
    and no card is lost. Also the corrected behaviour for an unknown target list. */
module MoveCardLemmas {
  import opened Wrappers
  import opened Seqs
  import opened BoardTypes
  import opened UseBoard
  import opened BoardLemmas

  lemma CardIdsRemoveAt(cs: seq<Card>, p: nat)
    requires p < |cs|
    ensures multiset(CardIds(RemoveAt(cs, p))) + multiset{cs[p].id} == multiset(CardIds(cs))
  {
    ProjectRemoveAt(cs, p, CardId);
  }

  lemma CardIdsInsertAt(cs: seq<Card>, i: nat, c: Card)
    ensures multiset(CardIds(InsertAt(cs, i, c))) == multiset(CardIds(cs)) + multiset{c.id}
  {
    ProjectPermutation(InsertAt(cs, i, c), cs + [c], CardId);
    ProjectConcat(cs, [c], CardId);
  }

  /** A card position, for an id known to be on the board. */
  lemma {:induction false} CardPosition(ls: seq<List>, id: string) returns (s: nat, p: nat)
    requires id in CardIdBag(ls)
    ensures s < |ls| && p < |ls[s].cards| && ls[s].cards[p].id == id
  {
    if id in CardIds(ls[0].cards) {
      s, p := 0, IndexOf(CardIds(ls[0].cards), id).value;
    } else {
      var s', p' := CardPosition(ls[1..], id);
      s, p := s' + 1, p';
    }
  }

  /** With unique card ids, the card `moveCard` takes is the one holding the id. */
  lemma {:induction false} TakenCardIsTheCard(ls: seq<List>, s: nat, p: nat)
    requires UniqueCardIds(ls)
    requires s < |ls| && p < |ls[s].cards|
    ensures TakenCard(ls, ls[s].cards[p].id) == Some(ls[s].cards[p])
  {
    var id := ls[s].cards[p].id;
    UniqueCardIdsShrink(ls, ls[1..]);
    if s == 0 {
      assert CardIds(ls[0].cards)[p] == id;
      assert multiset(CardIds(ls[0].cards))[id] >= 1;
      assert CardIdBag(ls)[id] <= 1;
      assert id !in CardIdBag(ls[1..]);
      UniqueCardIdsWithinList(ls, 0);
      IndexOfDistinct(CardIds(ls[0].cards), p);
    } else {
      TakenCardIsTheCard(ls[1..], s - 1, p);
    }
  }

  /** Under unique card ids, `moveCard`'s first pass takes card `p` of list `s`
      and removes it from that list alone. */
  lemma TakeOutCard(ls: seq<List>, s: nat, p: nat)
    requires UniqueCardIds(ls)
    requires s < |ls| && p < |ls[s].cards|
    ensures ls[s].cards[p].id in CardIdBag(ls)
    ensures TakenCard(ls, ls[s].cards[p].id) == Some(ls[s].cards[p])
    ensures WithoutFirstCard(ls[s], ls[s].cards[p].id) == ls[s].(cards := RemoveAt(ls[s].cards, p))
    ensures forall i :: 0 <= i < |ls| && i != s ==> WithoutFirstCard(ls[i], ls[s].cards[p].id) == ls[i]
  {
    var id := ls[s].cards[p].id;
    BagHolds(ls, s);
    assert CardIds(ls[s].cards)[p] == id;
    TakenCardIsTheCard(ls, s, p);
    UniqueCardIdsWithinList(ls, s);
    IndexOfDistinct(CardIds(ls[s].cards), p);
    forall i | 0 <= i < |ls| && i != s ensures WithoutFirstCard(ls[i], id) == ls[i] {
      UniqueCardIdsSeparate(ls, s, i, id);
    }
  }

  /** The lists after taking card `p` out of list `s` and inserting it into list `t`. */
  function Relocated(ls: seq<List>, s: nat, p: nat, t: nat, targetIndex: nat): (r: seq<List>)
    requires s < |ls| && p < |ls[s].cards| && t < |ls|
    ensures |r| == |ls|
  {
    var rest := ls[s := ls[s].(cards := RemoveAt(ls[s].cards, p))];
    rest[t := WithCardAt(rest[t], ls[t].id, targetIndex, ls[s].cards[p].(listId := ls[t].id))]
  }

  /** `moveCard` on unique ids changes only the source and the target list. */
  lemma MoveCardShape(b: Board, s: nat, p: nat, t: nat, targetIndex: nat)
    requires UniqueCardIds(b.lists) && UniqueListIds(b.lists)
    requires s < |b.lists| && p < |b.lists[s].cards| && t < |b.lists|
    ensures MoveCard(b, b.lists[s].cards[p].id, b.lists[t].id, targetIndex).lists
         == Relocated(b.lists, s, p, t, targetIndex)
  {
    var target := b.lists[t].id;
    TakeOutCard(b.lists, s, p);
    forall i | 0 <= i < |b.lists| && i != t ensures b.lists[i].id != target {
      assert ListIds(b.lists)[i] != ListIds(b.lists)[t];
    }
  }

  /** Taking a card out and putting it back in keeps the board's card ids. */
  lemma RelocatedKeepsCards(ls: seq<List>, s: nat, p: nat, t: nat, targetIndex: nat)
    requires s < |ls| && p < |ls[s].cards| && t < |ls|
    ensures CardIdBag(Relocated(ls, s, p, t, targetIndex)) == CardIdBag(ls)
  {
    var c := ls[s].cards[p];
    var source := ls[s].(cards := RemoveAt(ls[s].cards, p));
    var rest := ls[s := source];
    var moved := c.(listId := ls[t].id);
    var T := WithCardAt(rest[t], ls[t].id, targetIndex, moved);
    CardIdsRemoveAt(ls[s].cards, p);
    BagUpdate(ls, s, source);
    MultisetCancelBag(CardIdBag(rest) + multiset{c.id}, CardIdBag(ls), multiset(CardIds(source.cards)));
    CardIdsInsertAt(rest[t].cards, targetIndex, moved);
    assert multiset(CardIds(T.cards)) == multiset(CardIds(rest[t].cards)) + multiset{c.id};
    BagUpdate(rest, t, T);
    MultisetCancelBag(CardIdBag(rest[t := T]), CardIdBag(rest) + multiset{c.id}, multiset(CardIds(rest[t].cards)));
  }

  /** The board's card ids are the same multiset before and after a move. */
  lemma MoveCardKeepsCards(b: Board, s: nat, p: nat, t: nat, targetIndex: nat)
    requires UniqueCardIds(b.lists) && UniqueListIds(b.lists)
    requires s < |b.lists| && p < |b.lists[s].cards| && t < |b.lists|
    ensures CardIdBag(MoveCard(b, b.lists[s].cards[p].id, b.lists[t].id, targetIndex).lists)
         == CardIdBag(b.lists)
  {
    MoveCardShape(b, s, p, t, targetIndex);
    RelocatedKeepsCards(b.lists, s, p, t, targetIndex);
  }

  /** Moving an existing card to an existing list. The card ends up exactly once
      on the board, in the target list at `Min(targetIndex, n)` where `n` is the
      target's card count after the removal, with `listId` set to the target. The
      target list's other cards keep their relative order and every `order` in it
      becomes its position. No card is lost. A different source list only loses
      the card: its remaining `order` values are left as they were. */
  lemma MoveCardRelocates(b: Board, cardId: string, targetListId: string, targetIndex: nat,
                          s: nat, p: nat, t: nat)
    requires UniqueCardIds(b.lists) && UniqueListIds(b.lists)
    requires s < |b.lists| && p < |b.lists[s].cards| && b.lists[s].cards[p].id == cardId
    requires t < |b.lists| && b.lists[t].id == targetListId
    ensures var r := MoveCard(b, cardId, targetListId, targetIndex);
      var rest := if s == t then RemoveAt(b.lists[t].cards, p) else b.lists[t].cards;
      var k := Min(targetIndex, |rest|);
      && |r.lists[t].cards| == |rest| + 1
      && r.lists[t].cards[k] == b.lists[s].cards[p].(listId := targetListId, order := Some(k))
      && (forall q :: 0 <= q < k ==> r.lists[t].cards[q].(order := rest[q].order) == rest[q])
      && (forall q :: k < q <= |rest| ==> r.lists[t].cards[q].(order := rest[q - 1].order) == rest[q - 1])
      && Contiguous(r.lists[t])
      && (s != t ==> r.lists[s].cards == RemoveAt(b.lists[s].cards, p))
      && (forall i :: 0 <= i < |b.lists| && i != s && i != t ==> r.lists[i] == b.lists[i])
      && CardIdBag(r.lists) == CardIdBag(b.lists)
      && CardCount(r.lists) == CardCount(b.lists)
      && CardIdBag(r.lists)[cardId] == 1
  {
    MoveCardShape(b, s, p, t, targetIndex);
    RelocatedKeepsCards(b.lists, s, p, t, targetIndex);
    RelocatedTarget(b.lists, s, p, t, targetIndex);
    var r := MoveCard(b, cardId, targetListId, targetIndex);
    CardCountIsBagSize(r.lists);
    CardCountIsBagSize(b.lists);
    BagHolds(b.lists, s);
    assert CardIds(b.lists[s].cards)[p] == cardId;
  }

  /** Where the moved card and its new neighbours sit in the target list. */
  lemma RelocatedTarget(ls: seq<List>, s: nat, p: nat, t: nat, targetIndex: nat)
    requires s < |ls| && p < |ls[s].cards| && t < |ls|
    ensures var r := Relocated(ls, s, p, t, targetIndex);
      var rest := if s == t then RemoveAt(ls[t].cards, p) else ls[t].cards;
      var k := Min(targetIndex, |rest|);
      && |r[t].cards| == |rest| + 1
      && r[t].cards[k] == ls[s].cards[p].(listId := ls[t].id, order := Some(k))
      && (forall q :: 0 <= q < k ==> r[t].cards[q].(order := rest[q].order) == rest[q])
      && (forall q :: k < q <= |rest| ==> r[t].cards[q].(order := rest[q - 1].order) == rest[q - 1])
      && Contiguous(r[t])
      && (s != t ==> r[s].cards == RemoveAt(ls[s].cards, p))
      && (forall i :: 0 <= i < |ls| && i != s && i != t ==> r[i] == ls[i])
  {
    var rest := if s == t then RemoveAt(ls[t].cards, p) else ls[t].cards;
    var mid := ls[s := ls[s].(cards := RemoveAt(ls[s].cards, p))];
    assert mid[t].cards == rest && mid[t].id == ls[t].id;
    var ins := InsertAt(rest, targetIndex, ls[s].cards[p].(listId := ls[t].id));
    assert Relocated(ls, s, p, t, targetIndex)[t].cards == Renumber(ins);
  }

  /** The well-formedness of a card does not look at its `order`. */
  lemma CardWellFormedIgnoresOrder(listId: string, c: Card, d: Card)
    requires CardWellFormed(listId, c) && d.(order := c.order) == c
    ensures CardWellFormed(listId, d)
  {
    assert d.id == c.id && d.listId == c.listId && d.comments == c.comments;
  }

  lemma RemoveAtPreservesWellFormed(boardId: string, l: List, p: nat)
    requires ListWellFormed(boardId, l) && p < |l.cards|
    ensures ListWellFormed(boardId, l.(cards := RemoveAt(l.cards, p)))
  {
    var cs := RemoveAt(l.cards, p);
    forall x | x in cs ensures CardWellFormed(l.id, x) {
      assert x in multiset(cs);
      assert x in multiset(l.cards);
    }
  }

  lemma WithCardAtPreservesWellFormed(boardId: string, l: List, targetListId: string, targetIndex: nat, card: Card)
    requires ListWellFormed(boardId, l)
    requires l.id == targetListId ==> CardWellFormed(targetListId, card)
    ensures ListWellFormed(boardId, WithCardAt(l, targetListId, targetIndex, card))
  {
    if l.id == targetListId {
      var ins := InsertAt(l.cards, targetIndex, card);
      var r := WithCardAt(l, targetListId, targetIndex, card);
      forall x | x in r.cards ensures CardWellFormed(l.id, x) {
        var q :| 0 <= q < |r.cards| && r.cards[q] == x;
        assert ins[q] in multiset(ins);
        assert ins[q] == card || ins[q] in l.cards;
        CardWellFormedIgnoresOrder(l.id, ins[q], x);
      }
    }
  }

  lemma RelocatedPreservesWellFormed(boardId: string, ls: seq<List>, s: nat, p: nat, t: nat, targetIndex: nat)
    requires s < |ls| && p < |ls[s].cards| && t < |ls|
    requires forall l :: l in ls ==> ListWellFormed(boardId, l)
    ensures forall l :: l in Relocated(ls, s, p, t, targetIndex) ==> ListWellFormed(boardId, l)
  {
    var c := ls[s].cards[p];
    var source := ls[s].(cards := RemoveAt(ls[s].cards, p));
    var rest := ls[s := source];
    assert ls[s] in ls && ls[t] in ls;
    RemoveAtPreservesWellFormed(boardId, ls[s], p);
    assert CardWellFormed(ls[t].id, c.(listId := ls[t].id)) by {
      assert c in ls[s].cards;
    }
    WithCardAtPreservesWellFormed(boardId, rest[t], ls[t].id, targetIndex, c.(listId := ls[t].id));
    var r := Relocated(ls, s, p, t, targetIndex);
    forall l | l in r ensures ListWellFormed(boardId, l) {
      var i :| 0 <= i < |r| && r[i] == l;
      if i != s && i != t {
        assert l == ls[i] && ls[i] in ls;
      }
    }
  }

  /** Moving a card of the board to a list of the board keeps it well-formed. */
  lemma MoveCardKnownTargetPreservesWellFormed(b: Board, s: nat, p: nat, t: nat, targetIndex: nat)
    requires WellFormed(b)
    requires s < |b.lists| && p < |b.lists[s].cards| && t < |b.lists|
    ensures WellFormed(MoveCard(b, b.lists[s].cards[p].id, b.lists[t].id, targetIndex))
  {
    var r := MoveCard(b, b.lists[s].cards[p].id, b.lists[t].id, targetIndex);
    MoveCardShape(b, s, p, t, targetIndex);
    RelocatedKeepsCards(b.lists, s, p, t, targetIndex);
    RelocatedPreservesWellFormed(b.id, b.lists, s, p, t, targetIndex);
    assert ListIds(r.lists) == ListIds(b.lists);
  }

  /** With an unknown target, `moveCard` only takes the card out of its source list. */
  lemma MoveCardUnknownTargetShape(b: Board, targetListId: string, targetIndex: nat, s: nat, p: nat)
    requires UniqueCardIds(b.lists)
    requires s < |b.lists| && p < |b.lists[s].cards|
    requires targetListId !in ListIds(b.lists)
    ensures MoveCard(b, b.lists[s].cards[p].id, targetListId, targetIndex).lists
         == b.lists[s := b.lists[s].(cards := RemoveAt(b.lists[s].cards, p))]
  {
    var L := b.lists;
    var id := L[s].cards[p].id;
    var r := MoveCard(b, id, targetListId, targetIndex).lists;
    var e := L[s := L[s].(cards := RemoveAt(L[s].cards, p))];
    TakeOutCard(L, s, p);
    forall i | 0 <= i < |L| ensures r[i] == e[i] {
      assert ListIds(L)[i] == L[i].id;
    }
  }

  /** As written, `moveCard` with an unknown target list still removes the card,
      so the board loses it: one card fewer, and its id is gone. */
  lemma MoveCardUnknownTargetDropsCard(b: Board, targetListId: string, targetIndex: nat, s: nat, p: nat)
    requires UniqueCardIds(b.lists)
    requires s < |b.lists| && p < |b.lists[s].cards|
    requires targetListId !in ListIds(b.lists)
    ensures var r := MoveCard(b, b.lists[s].cards[p].id, targetListId, targetIndex);
      && b.lists[s].cards[p].id !in CardIdBag(r.lists)
      && CardCount(r.lists) == CardCount(b.lists) - 1
  {
    var L := b.lists;
    var c := L[s].cards[p];
    var source := L[s].(cards := RemoveAt(L[s].cards, p));
    var rl := MoveCard(b, c.id, targetListId, targetIndex).lists;
    MoveCardUnknownTargetShape(b, targetListId, targetIndex, s, p);
    CardIdsRemoveAt(L[s].cards, p);
    BagUpdate(L, s, source);
    MultisetCancelBag(CardIdBag(rl) + multiset{c.id}, CardIdBag(L), multiset(CardIds(source.cards)));
    assert CardIdBag(L)[c.id] <= 1;
    CardCountIsBagSize(rl);
    CardCountIsBagSize(L);
  }

  /** As written, `moveCard` with an unknown target list still keeps the board
      well-formed: losing the card breaks no invariant. */
  lemma MoveCardUnknownTargetPreservesWellFormed(b: Board, targetListId: string, targetIndex: nat, s: nat, p: nat)
    requires WellFormed(b)
    requires s < |b.lists| && p < |b.lists[s].cards|
    requires targetListId !in ListIds(b.lists)
    ensures WellFormed(MoveCard(b, b.lists[s].cards[p].id, targetListId, targetIndex))
  {
    var r := MoveCard(b, b.lists[s].cards[p].id, targetListId, targetIndex);
    MoveCardUnknownTargetShape(b, targetListId, targetIndex, s, p);
    CardIdsRemoveAt(b.lists[s].cards, p);
    assert b.lists[s] in b.lists;
    RemoveAtPreservesWellFormed(b.id, b.lists[s], p);
    ShrinkingListsPreservesWellFormed(b, r);
  }

  /** `moveCard` keeps a well-formed board well-formed, whatever the card id and
      the target list id: an unknown card changes nothing, a known target gets
      the card, an unknown target loses it. */
  lemma MoveCardPreservesWellFormed(b: Board, cardId: string, targetListId: string, targetIndex: nat)
    requires WellFormed(b)
    ensures WellFormed(MoveCard(b, cardId, targetListId, targetIndex))
  {
    if cardId in CardIdBag(b.lists) {
      var s, p := CardPosition(b.lists, cardId);
      if targetListId in ListIds(b.lists) {
        var t := IndexOf(ListIds(b.lists), targetListId).value;
        MoveCardKnownTargetPreservesWellFormed(b, s, p, t, targetIndex);
      } else {
        MoveCardUnknownTargetPreservesWellFormed(b, targetListId, targetIndex, s, p);
      }
    }
  }

  /** The guarded move: an unknown target list makes the call a no-op, as an
      unknown id does everywhere else in the hook. */
  function MoveCardGuarded(b: Board, cardId: string, targetListId: string, targetIndex: nat): (r: Board)
    ensures targetListId !in ListIds(b.lists) ==> r == b
    ensures targetListId in ListIds(b.lists) ==> r == MoveCard(b, cardId, targetListId, targetIndex)
  {
    if targetListId in ListIds(b.lists) then MoveCard(b, cardId, targetListId, targetIndex) else b
  }

  /** The corrected move never loses a card: the board's card ids are unchanged. */
  lemma MoveCardGuardedKeepsCards(b: Board, cardId: string, targetListId: string, targetIndex: nat)
    requires UniqueCardIds(b.lists) && UniqueListIds(b.lists)
    ensures CardIdBag(MoveCardGuarded(b, cardId, targetListId, targetIndex).lists) == CardIdBag(b.lists)
  {
    if targetListId in ListIds(b.lists) && cardId in CardIdBag(b.lists) {
      var s, p := CardPosition(b.lists, cardId);
      var t := IndexOf(ListIds(b.lists), targetListId).value;
      MoveCardKeepsCards(b, s, p, t, targetIndex);
    }
  }
}
