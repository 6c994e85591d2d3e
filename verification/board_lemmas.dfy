/** Properties of the `useBoard` operations that relate several calls or a
    whole board: reordering lines the ids up with the requested order, and every
    operation keeps a well-formed board well-formed. */
module BoardLemmas {
  import opened Wrappers
  import opened Seqs
  import opened StableSort
  import opened JsString
  import opened BoardTypes
  import opened UseBoard

  // ---------------------------------------------------------------- reordering

  /** When `listIds` is a duplicate-free rearrangement of the board's list ids,
      `reorderLists` puts the lists in exactly that order. */
  lemma ReorderListsFollowsGivenOrder(b: Board, listIds: seq<string>)
    requires Distinct(listIds)
    requires multiset(ListIds(b.lists)) == multiset(listIds)
    ensures ListIds(ReorderLists(b, listIds).lists) == listIds
  {
    SortByRankFollowsOrder(b.lists, ListId, listIds);
  }

  /** When `cardIds` is a duplicate-free rearrangement of a list's card ids,
      `reorderCardsInList` puts that list's cards in exactly that order. */
  lemma ReorderCardsFollowsGivenOrder(b: Board, listId: string, cardIds: seq<string>, i: nat)
    requires i < |b.lists| && b.lists[i].id == listId
    requires Distinct(cardIds)
    requires multiset(CardIds(b.lists[i].cards)) == multiset(cardIds)
    ensures CardIds(ReorderCardsInList(b, listId, cardIds).lists[i].cards) == cardIds
  {
    SortByRankFollowsOrder(b.lists[i].cards, CardId, cardIds);
  }

  /** A list left out of `listIds` ranks 0, level with any id whose last position
      is 0, and the sort is stable: reordering `[A, B, C]` by `[C, B]` gives `[A, C, B]`. */
  lemma ReorderListsMissingIdRanksFirst(boardId: string, a: List, bl: List, c: List)
    requires a.id == "A" && bl.id == "B" && c.id == "C"
    ensures ReorderLists(Board(boardId, "", [a, bl, c]), ["C", "B"]).lists == [a, c, bl]
  {
    var key := ListRank(["C", "B"]);
    ExampleRanks(a, bl, c);
    StableTies(a, bl, c, key);
    var r := ReorderLists(Board(boardId, "", [a, bl, c]), ["C", "B"]).lists;
    SortedGroupsDetermine(r, [a, c, bl], key);
  }

  lemma ExampleRanks(a: List, bl: List, c: List)
    requires a.id == "A" && bl.id == "B" && c.id == "C"
    ensures ListRank(["C", "B"])(a) == 0 && ListRank(["C", "B"])(bl) == 1 && ListRank(["C", "B"])(c) == 0
  {
    assert "A" !in ["C", "B"] && "C" !in ["C", "B"][1..];
    var order := ["C", "B"];
    assert ListRank(order) == RankKey(order, ListId);
    assert RankKey(order, ListId)(a) == Rank(order, ListId(a)) == Rank(order, "A");
    assert RankKey(order, ListId)(bl) == Rank(order, ListId(bl)) == Rank(order, "B");
    assert RankKey(order, ListId)(c) == Rank(order, ListId(c)) == Rank(order, "C");
  }

  /** With keys `0, 1, 0`, the stable order keeps the two 0-keyed elements first, in order. */
  lemma StableTies<T>(a: T, bl: T, c: T, key: T -> int)
    requires key(a) == 0 && key(bl) == 1 && key(c) == 0
    ensures SortedBy([a, c, bl], key)
    ensures forall k :: WithKey([a, bl, c], key, k) == WithKey([a, c, bl], key, k)
  {
    forall k ensures WithKey([a, bl, c], key, k) == WithKey([a, c, bl], key, k) {
      assert [a, bl, c][1..] == [bl, c] && [bl, c][1..] == [c] && [c][1..] == [];
      assert [a, c, bl][1..] == [c, bl] && [c, bl][1..] == [bl] && [bl][1..] == [];
      var A := if k == 0 then [a] else [];
      var B := if k == 1 then [bl] else [];
      var C := if k == 0 then [c] else [];
      assert WithKey([], key, k) == [];
      assert WithKey([c], key, k) == C;
      assert WithKey([bl], key, k) == B + WithKey([bl][1..], key, k);
      assert WithKey([bl, c], key, k) == B + C && WithKey([c, bl], key, k) == C + B;
      assert WithKey([a, bl, c], key, k) == A + (B + C);
      assert WithKey([a, c, bl], key, k) == A + (C + B);
      assert B + C == C + B;
    }
  }

  // ---------------------------------------------------------------- well-formedness

  lemma ListIdsPermutation(ls: seq<List>, ms: seq<List>)
    requires multiset(ls) == multiset(ms)
    requires UniqueListIds(ls)
    ensures UniqueListIds(ms)
  {
    ProjectPermutation(ls, ms, ListId);
    DistinctPermutation(ListIds(ls), ListIds(ms));
  }

  lemma ReorderListsPreservesWellFormed(b: Board, listIds: seq<string>)
    requires WellFormed(b)
    ensures WellFormed(ReorderLists(b, listIds))
  {
    var r := ReorderLists(b, listIds);
    ListIdsPermutation(b.lists, r.lists);
    BagPermutation(b.lists, r.lists);
    forall l | l in r.lists ensures ListWellFormed(b.id, l) {
      assert l in multiset(r.lists);
    }
  }

  /** `updateBoardTitle` keeps the board well-formed: no list or card changes. */
  lemma UpdateBoardTitlePreservesWellFormed(b: Board, title: string)
    requires WellFormed(b)
    ensures WellFormed(UpdateBoardTitle(b, title))
  {
  }

  /** `addList` with a fresh list id keeps the board well-formed and adds no card. */
  lemma AddListPreservesWellFormed(b: Board, title: string, newId: string)
    requires WellFormed(b)
    requires newId !in ListIds(b.lists)
    ensures WellFormed(AddList(b, title, newId))
    ensures CardIdBag(AddList(b, title, newId).lists) == CardIdBag(b.lists)
  {
    var r := AddList(b, title, newId);
    assert r.lists == b.lists + [r.lists[|b.lists|]];
    assert ListIds(r.lists) == ListIds(b.lists) + [newId];
    assert CardIdBag(r.lists) == CardIdBag(b.lists) by {
      BagRemoveAt(r.lists, |b.lists|);
      assert RemoveAt(r.lists, |b.lists|) == b.lists;
    }
  }

  /** Under unique list ids, `lists.find` returns the list at the id's position. */
  lemma FindListAt(ls: seq<List>, i: nat)
    requires UniqueListIds(ls) && i < |ls|
    ensures FindList(ls, ls[i].id) == Some(ls[i])
  {
    assert ListIds(ls)[i] == ls[i].id;
    IndexOfDistinct(ListIds(ls), i);
  }

  /** `addCard` gives the new card the next position in its list: a list whose
      `order` values were `0..n-1` gets a card with `order == Some(n)` at index `n`. */
  lemma AddCardKeepsContiguous(b: Board, listId: string, title: string, newId: string, i: nat)
    requires UniqueListIds(b.lists)
    requires i < |b.lists| && b.lists[i].id == listId
    requires Contiguous(b.lists[i])
    ensures var r := AddCard(b, listId, title, newId);
      && r.lists[i].cards == b.lists[i].cards + [r.lists[i].cards[|b.lists[i].cards|]]
      && r.lists[i].cards[|b.lists[i].cards|].id == newId
      && Contiguous(r.lists[i])
  {
    FindListAt(b.lists, i);
  }

  /** Under unique list ids, `addCard` on a known list changes only that list. */
  lemma AddCardShape(b: Board, listId: string, title: string, newId: string, i: nat)
    requires UniqueListIds(b.lists)
    requires i < |b.lists| && b.lists[i].id == listId
    ensures AddCard(b, listId, title, newId).lists
         == b.lists[i := b.lists[i].(cards := b.lists[i].cards + [NewCard(b, listId, title, newId)])]
  {
    forall j | 0 <= j < |b.lists| && j != i ensures b.lists[j].id != listId {
      assert ListIds(b.lists)[j] != ListIds(b.lists)[i];
    }
  }

  /** Appending a card to one list adds exactly its id to the board's bag. */
  lemma AppendCardBag(ls: seq<List>, i: nat, c: Card)
    requires i < |ls|
    ensures CardIdBag(ls[i := ls[i].(cards := ls[i].cards + [c])]) == CardIdBag(ls) + multiset{c.id}
  {
    var l := ls[i].(cards := ls[i].cards + [c]);
    ProjectConcat(ls[i].cards, [c], CardId);
    BagUpdate(ls, i, l);
    MultisetCancelBag(CardIdBag(ls[i := l]), CardIdBag(ls) + multiset{c.id}, multiset(CardIds(ls[i].cards)));
  }

  /** Appending a well-formed card to one list keeps every list well-formed. */
  lemma AppendCardListsWellFormed(boardId: string, ls: seq<List>, i: nat, c: Card)
    requires i < |ls|
    requires forall l :: l in ls ==> ListWellFormed(boardId, l)
    requires CardWellFormed(ls[i].id, c)
    ensures forall l :: l in ls[i := ls[i].(cards := ls[i].cards + [c])] ==> ListWellFormed(boardId, l)
  {
    var ms := ls[i := ls[i].(cards := ls[i].cards + [c])];
    assert ls[i] in ls;
    forall m | m in ms ensures ListWellFormed(boardId, m) {
      var j :| 0 <= j < |ms| && ms[j] == m;
      assert ls[j] in ls;
    }
  }

  /** `addCard` keeps the board well-formed when the new card id is fresh. */
  lemma AddCardPreservesWellFormed(b: Board, listId: string, title: string, newId: string)
    requires WellFormed(b)
    requires newId !in CardIdBag(b.lists)
    ensures WellFormed(AddCard(b, listId, title, newId))
  {
    if listId in ListIds(b.lists) {
      var i := IndexOf(ListIds(b.lists), listId).value;
      var c := NewCard(b, listId, title, newId);
      var ls := b.lists[i := b.lists[i].(cards := b.lists[i].cards + [c])];
      AddCardShape(b, listId, title, newId, i);
      assert ListIds(ls) == ListIds(b.lists);
      AppendCardBag(b.lists, i, c);
      forall id ensures CardIdBag(ls)[id] <= 1 {
        assert CardIdBag(b.lists)[id] <= 1;
      }
      AppendCardListsWellFormed(b.id, b.lists, i, c);
    }
  }

  /** Replacing each list by one with fewer card ids and the same id and owner
      keeps a well-formed board well-formed. */
  lemma ShrinkingListsPreservesWellFormed(b: Board, r: Board)
    requires WellFormed(b)
    requires r.id == b.id && |r.lists| == |b.lists|
    requires forall i :: 0 <= i < |b.lists| ==>
      && r.lists[i].id == b.lists[i].id
      && multiset(CardIds(r.lists[i].cards)) <= multiset(CardIds(b.lists[i].cards))
      && (ListWellFormed(b.id, b.lists[i]) ==> ListWellFormed(b.id, r.lists[i]))
    ensures WellFormed(r)
  {
    assert ListIds(r.lists) == ListIds(b.lists);
    BagShrinks(b.lists, r.lists);
    UniqueCardIdsShrink(b.lists, r.lists);
    forall l | l in r.lists ensures ListWellFormed(b.id, l) {
      var j :| 0 <= j < |r.lists| && r.lists[j] == l;
      assert b.lists[j] in b.lists;
    }
  }

  lemma DeleteAllCardsInListPreservesWellFormed(b: Board, listId: string)
    requires WellFormed(b)
    ensures WellFormed(DeleteAllCardsInList(b, listId))
  {
    ShrinkingListsPreservesWellFormed(b, DeleteAllCardsInList(b, listId));
  }

  lemma DeleteCardPreservesWellFormed(b: Board, cardId: string)
    requires WellFormed(b)
    ensures WellFormed(DeleteCard(b, cardId))
  {
    var r := DeleteCard(b, cardId);
    forall i | 0 <= i < |b.lists|
      ensures multiset(CardIds(r.lists[i].cards)) <= multiset(CardIds(b.lists[i].cards))
      ensures ListWellFormed(b.id, b.lists[i]) ==> ListWellFormed(b.id, r.lists[i])
    {
      var cs := r.lists[i].cards;
      var sub := b.lists[i].cards;
      ProjectSubsequence(cs, sub, CardId);
      forall c | c in cs ensures c in sub {
        assert c in multiset(cs);
      }
      assert ListWellFormed(b.id, b.lists[i]) ==> ListWellFormed(b.id, r.lists[i]);
    }
    ShrinkingListsPreservesWellFormed(b, r);
  }

  lemma DeleteListPreservesWellFormed(b: Board, listId: string)
    requires WellFormed(b)
    ensures WellFormed(DeleteList(b, listId))
  {
    var r := DeleteList(b, listId);
    var p := (l: List) => l.id != listId;
    assert r.lists == Filter(b.lists, p);
    BagFilter(b.lists, p);
    UniqueCardIdsShrink(b.lists, r.lists);
    ProjectSubsequence(r.lists, b.lists, ListId);
    DistinctIffAtMostOnce(ListIds(b.lists));
    DistinctIffAtMostOnce(ListIds(r.lists));
    forall id ensures multiset(ListIds(r.lists))[id] <= 1 {
      assert multiset(ListIds(r.lists))[id] <= multiset(ListIds(b.lists))[id];
    }
    forall l | l in r.lists ensures ListWellFormed(b.id, l) {
      assert l in multiset(r.lists);
    }
  }

  lemma UpdateListPreservesWellFormed(b: Board, listId: string, patch: Option<string>)
    requires WellFormed(b)
    ensures WellFormed(UpdateList(b, listId, patch))
  {
    var r := UpdateList(b, listId, patch);
    assert ListIds(r.lists) == ListIds(b.lists);
    assert forall i :: 0 <= i < |b.lists| ==> r.lists[i].cards == b.lists[i].cards;
    BagShrinks(b.lists, r.lists);
    UniqueCardIdsShrink(b.lists, r.lists);
    forall l | l in r.lists ensures ListWellFormed(b.id, l) {
      var j :| 0 <= j < |r.lists| && r.lists[j] == l;
      assert b.lists[j] in b.lists;
    }
  }

  /** Changing cards in place without touching their id, owner or comments keeps the board well-formed. */
  lemma CardwiseChangePreservesWellFormed(b: Board, r: Board)
    requires WellFormed(b)
    requires r.id == b.id && |r.lists| == |b.lists|
    requires forall i :: 0 <= i < |b.lists| ==>
      && r.lists[i].(cards := b.lists[i].cards) == b.lists[i]
      && |r.lists[i].cards| == |b.lists[i].cards|
    requires forall i, p :: 0 <= i < |b.lists| && 0 <= p < |b.lists[i].cards| ==>
      && r.lists[i].cards[p].id == b.lists[i].cards[p].id
      && (CardWellFormed(b.lists[i].id, b.lists[i].cards[p]) ==> CardWellFormed(b.lists[i].id, r.lists[i].cards[p]))
    ensures WellFormed(r)
  {
    assert ListIds(r.lists) == ListIds(b.lists);
    forall i | 0 <= i < |b.lists| ensures CardIds(r.lists[i].cards) == CardIds(b.lists[i].cards) { }
    BagShrinks(b.lists, r.lists);
    UniqueCardIdsShrink(b.lists, r.lists);
    forall l | l in r.lists ensures ListWellFormed(b.id, l) {
      var j :| 0 <= j < |r.lists| && r.lists[j] == l;
      assert b.lists[j] in b.lists;
      forall c | c in l.cards ensures CardWellFormed(l.id, c) {
        var p :| 0 <= p < |l.cards| && l.cards[p] == c;
        assert b.lists[j].cards[p] in b.lists[j].cards;
      }
    }
  }

  lemma UpdateCardPreservesWellFormed(b: Board, cardId: string, patch: Option<string>)
    requires WellFormed(b)
    ensures WellFormed(UpdateCard(b, cardId, patch))
  {
    CardwiseChangePreservesWellFormed(b, UpdateCard(b, cardId, patch));
  }

  /** `addComment` keeps the board well-formed when the comment id is fresh on the card. */
  lemma AddCommentPreservesWellFormed(b: Board, cardId: string, text: string, newId: string, createdAt: string)
    requires WellFormed(b)
    requires forall i, p :: 0 <= i < |b.lists| && 0 <= p < |b.lists[i].cards| && b.lists[i].cards[p].id == cardId ==>
      newId !in Project(b.lists[i].cards[p].comments, CommentId)
    ensures WellFormed(AddComment(b, cardId, text, newId, createdAt))
  {
    var r := AddComment(b, cardId, text, newId, createdAt);
    forall i, p | 0 <= i < |b.lists| && 0 <= p < |b.lists[i].cards| && CardWellFormed(b.lists[i].id, b.lists[i].cards[p])
      ensures CardWellFormed(b.lists[i].id, r.lists[i].cards[p])
    {
      var c := b.lists[i].cards[p];
      if c.id == cardId && Trim(text) != [] {
        var m := Comment(newId, cardId, Trim(text), createdAt);
        ProjectConcat(c.comments, [m], CommentId);
        var ids := Project(c.comments, CommentId);
        assert Project(c.comments + [m], CommentId) == ids + [newId];
        assert Distinct(ids + [newId]) by {
          forall j, k | 0 <= j < k < |ids| + 1 ensures (ids + [newId])[j] != (ids + [newId])[k] {
            if k == |ids| {
              assert (ids + [newId])[j] == ids[j];
            }
          }
        }
      }
    }
    CardwiseChangePreservesWellFormed(b, r);
  }

  lemma ReorderCardsInListPreservesWellFormed(b: Board, listId: string, cardIds: seq<string>)
    requires WellFormed(b)
    ensures WellFormed(ReorderCardsInList(b, listId, cardIds))
  {
    var r := ReorderCardsInList(b, listId, cardIds);
    forall i | 0 <= i < |b.lists| && b.lists[i].id == listId
      ensures ListWellFormed(b.id, b.lists[i]) ==> ListWellFormed(b.id, r.lists[i])
    {
      if ListWellFormed(b.id, b.lists[i]) {
        SortedListWellFormed(b.id, b.lists[i], CardRank(cardIds));
      }
    }
    ShrinkingListsPreservesWellFormed(b, r);
  }

  /** Sorting a list's cards and renumbering them keeps the list well-formed. */
  lemma SortedListWellFormed(boardId: string, l: List, key: Card -> int)
    requires ListWellFormed(boardId, l)
    ensures ListWellFormed(boardId, l.(cards := Renumber(SortBy(l.cards, key))))
  {
    var sorted := SortBy(l.cards, key);
    var cs := Renumber(sorted);
    forall c | c in cs ensures CardWellFormed(l.id, c) {
      var p :| 0 <= p < |cs| && cs[p] == c;
      assert sorted[p] in multiset(l.cards);
      assert sorted[p] in l.cards;
      assert c.(order := sorted[p].order) == sorted[p];
      assert c.id == sorted[p].id && c.listId == sorted[p].listId && c.comments == sorted[p].comments;
    }
  }

  // ---------------------------------------------------------------- lookup and deletion

  /** On a board with unique card ids, `getCardById` returns the card holding the id. */
  lemma GetCardByIdFindsTheCard(b: Board, i: nat, p: nat)
    requires UniqueCardIds(b.lists)
    requires i < |b.lists| && p < |b.lists[i].cards|
    ensures GetCardById(b, b.lists[i].cards[p].id) == Some(b.lists[i].cards[p])
  {
    var id := b.lists[i].cards[p].id;
    BagHolds(b.lists, i);
    assert CardIds(b.lists[i].cards)[p] == id;
    var r := GetCardById(b, id);
    var j :| 0 <= j < |b.lists| && IsFirstCardIn(b.lists[j], id, r.value)
      && forall k :: 0 <= k < j ==> id !in CardIds(b.lists[k].cards);
    if j < i {
      UniqueCardIdsSeparate(b.lists, i, j, id);
      assert false;
    }
    assert j == i;
    UniqueCardIdsWithinList(b.lists, i);
    IndexOfDistinct(CardIds(b.lists[i].cards), p);
  }
}
