/** The Board -> List -> Card -> Comment tree and its invariants.

    A board's list order is its position in `lists`; `Board` has no order field.
    `List.order` is a required number, `Card.order` an optional one. Every
    entity carries a back-reference to its owner: `List.boardId`,
    `Card.listId`, `Comment.cardId`. */
module BoardTypes {
  import opened Wrappers
  import opened Seqs

  datatype Comment = Comment(id: string, cardId: string, text: string, createdAt: string)

  datatype Card = Card(id: string, listId: string, title: string, comments: seq<Comment>, order: Option<int>)

  datatype List = List(id: string, boardId: string, title: string, order: int, cards: seq<Card>)

  datatype Board = Board(id: string, title: string, lists: seq<List>)

  const DEFAULT_BOARD_TITLE: string := "Demo Board"

  function ListId(l: List): string { l.id }

  function CardId(c: Card): string { c.id }

  function CommentId(m: Comment): string { m.id }

  function ListIds(ls: seq<List>): (r: seq<string>)
    ensures |r| == |ls| && forall i :: 0 <= i < |ls| ==> r[i] == ls[i].id
  {
    Project(ls, ListId)
  }

  function CardIds(cs: seq<Card>): (r: seq<string>)
    ensures |r| == |cs| && forall i :: 0 <= i < |cs| ==> r[i] == cs[i].id
  {
    Project(cs, CardId)
  }

  /** `lists.find(l => l.id === id)`: the first list with that id. */
  function FindList(ls: seq<List>, id: string): (r: Option<List>)
    ensures r.None? <==> id !in ListIds(ls)
    ensures r.Some? ==> r.value in ls && r.value.id == id
    ensures r.Some? ==> exists i :: 0 <= i < |ls| && r.value == ls[i] && forall j :: 0 <= j < i ==> ls[j].id != id
  {
    match IndexOf(ListIds(ls), id)
    case None => None
    case Some(i) =>
      assert forall j :: 0 <= j < i ==> ls[j].id != id by {
        forall j | 0 <= j < i ensures ls[j].id != id {
          assert ListIds(ls)[..i][j] == ls[j].id;
        }
      }
      Some(ls[i])
  }

  /** `c` is the first card with id `cardId` in `l`, the one `find` or `findIndex` picks. */
  predicate IsFirstCardIn(l: List, cardId: string, c: Card)
  {
    match IndexOf(CardIds(l.cards), cardId)
    case None => false
    case Some(p) => c == l.cards[p]
  }

  /** The ids of all cards on the board, counted with multiplicity. */
  function CardIdBag(ls: seq<List>): multiset<string>
  {
    if |ls| == 0 then multiset{} else multiset(CardIds(ls[0].cards)) + CardIdBag(ls[1..])
  }

  /** The number of cards on the board. */
  function CardCount(ls: seq<List>): nat
  {
    if |ls| == 0 then 0 else |ls[0].cards| + CardCount(ls[1..])
  }

  predicate UniqueListIds(ls: seq<List>)
  {
    Distinct(ListIds(ls))
  }

  /** No card id occurs twice anywhere on the board (across all lists). */
  ghost predicate UniqueCardIds(ls: seq<List>)
  {
    forall id :: CardIdBag(ls)[id] <= 1
  }

  /** Every comment's `cardId` names the card holding it, and comment ids are distinct on a card. */
  predicate CommentsBelongTo(c: Card)
  {
    && (forall m :: m in c.comments ==> m.cardId == c.id)
    && Distinct(Project(c.comments, CommentId))
  }

  /** A card held by list `listId` points back at it, and so do its comments at the card. */
  predicate CardWellFormed(listId: string, c: Card)
  {
    c.listId == listId && CommentsBelongTo(c)
  }

  predicate ListWellFormed(boardId: string, l: List)
  {
    && l.boardId == boardId
    && forall c :: c in l.cards ==> CardWellFormed(l.id, c)
  }

  /** Unique list ids, unique card ids across the board, and every
      back-reference pointing at the owner. */
  ghost predicate WellFormed(b: Board)
  {
    && UniqueListIds(b.lists)
    && UniqueCardIds(b.lists)
    && (forall l :: l in b.lists ==> ListWellFormed(b.id, l))
  }

  /** The list's card `order` values are its positions `0..n-1`. */
  predicate Contiguous(l: List)
  {
    forall i :: 0 <= i < |l.cards| ==> l.cards[i].order == Some(i)
  }

  lemma {:induction false} CardCountIsBagSize(ls: seq<List>)
    ensures CardCount(ls) == |CardIdBag(ls)|
  {
    if |ls| > 0 {
      CardCountIsBagSize(ls[1..]);
    }
  }

  /** An id is missing from the board's bag exactly when no list holds a card with it. */
  lemma {:induction false} AbsentFromBag(ls: seq<List>, id: string)
    ensures id !in CardIdBag(ls) <==> forall j :: 0 <= j < |ls| ==> id !in CardIds(ls[j].cards)
  {
    if |ls| > 0 {
      AbsentFromBag(ls[1..], id);
      assert forall j :: 1 <= j < |ls| ==> ls[1..][j - 1] == ls[j];
    }
  }

  /** Each list's card ids are part of the board's bag. */
  lemma {:induction false} BagHolds(ls: seq<List>, i: nat)
    requires i < |ls|
    ensures multiset(CardIds(ls[i].cards)) <= CardIdBag(ls)
  {
    if i > 0 {
      BagHolds(ls[1..], i - 1);
    }
  }

  /** Two different lists contribute separately to the board's bag. */
  lemma BagHoldsTwo(ls: seq<List>, i: nat, j: nat)
    requires i < |ls| && j < |ls| && i != j
    ensures multiset(CardIds(ls[i].cards)) + multiset(CardIds(ls[j].cards)) <= CardIdBag(ls)
  {
    var rest := RemoveAt(ls, i);
    var j' := if j < i then j else j - 1;
    assert rest[j'] == ls[j];
    BagRemoveAt(ls, i);
    BagHolds(rest, j');
    var a, c := multiset(CardIds(ls[i].cards)), multiset(CardIds(ls[j].cards));
    forall id ensures (a + c)[id] <= CardIdBag(ls)[id] {
      assert c[id] <= CardIdBag(rest)[id];
    }
  }

  /** Replacing one list changes the bag by exactly that list's card ids. */
  lemma {:induction false} BagUpdate(ls: seq<List>, i: nat, l: List)
    requires i < |ls|
    ensures CardIdBag(ls[i := l]) + multiset(CardIds(ls[i].cards))
         == CardIdBag(ls) + multiset(CardIds(l.cards))
  {
    var ms := ls[i := l];
    if i == 0 {
      assert ms[0] == l && ms[1..] == ls[1..];
    } else {
      assert ms[0] == ls[0] && ms[1..] == ls[1..][i - 1 := l] && ls[1..][i - 1] == ls[i];
      BagUpdate(ls[1..], i - 1, l);
      var head := multiset(CardIds(ls[0].cards));
      calc {
        CardIdBag(ms) + multiset(CardIds(ls[i].cards));
        head + CardIdBag(ls[1..][i - 1 := l]) + multiset(CardIds(ls[1..][i - 1].cards));
        head + (CardIdBag(ls[1..][i - 1 := l]) + multiset(CardIds(ls[1..][i - 1].cards)));
        head + (CardIdBag(ls[1..]) + multiset(CardIds(l.cards)));
        CardIdBag(ls) + multiset(CardIds(l.cards));
      }
    }
  }

  /** Replacing every list by one with a sub-multiset of card ids shrinks the bag. */
  lemma {:induction false} BagShrinks(ls: seq<List>, ms: seq<List>)
    requires |ms| == |ls|
    requires forall i :: 0 <= i < |ls| ==> multiset(CardIds(ms[i].cards)) <= multiset(CardIds(ls[i].cards))
    ensures CardIdBag(ms) <= CardIdBag(ls)
  {
    if |ls| > 0 {
      BagShrinks(ls[1..], ms[1..]);
    }
  }

  lemma {:induction false} BagRemoveAt(ls: seq<List>, i: nat)
    requires i < |ls|
    ensures CardIdBag(ls) == multiset(CardIds(ls[i].cards)) + CardIdBag(RemoveAt(ls, i))
  {
    if i > 0 {
      assert RemoveAt(ls, i)[1..] == RemoveAt(ls[1..], i - 1);
      BagRemoveAt(ls[1..], i - 1);
    } else {
      assert RemoveAt(ls, 0) == ls[1..];
    }
  }

  /** The bag depends only on which lists are present, not on their order. */
  lemma {:induction false} BagPermutation(ls: seq<List>, ms: seq<List>)
    requires multiset(ls) == multiset(ms)
    ensures CardIdBag(ls) == CardIdBag(ms)
    decreases |ls|
  {
    if |ls| == 0 {
      assert |ms| == |multiset(ms)| == 0;
    } else {
      var l := ls[0];
      assert l in multiset(ms);
      var j := IndexOf(ms, l).value;
      var rest := RemoveAt(ms, j);
      assert ls == [l] + ls[1..];
      assert multiset(ls) == multiset(ls[1..]) + multiset{l};
      MultisetCancel(multiset(ls[1..]), multiset(rest), l);
      BagPermutation(ls[1..], rest);
      BagRemoveAt(ms, j);
    }
  }

  /** Dropping whole lists shrinks the bag. */
  lemma {:induction false} BagFilter(ls: seq<List>, p: List -> bool)
    ensures CardIdBag(Filter(ls, p)) <= CardIdBag(ls)
  {
    if |ls| > 0 {
      BagFilter(ls[1..], p);
      if p(ls[0]) {
        assert Filter(ls, p)[1..] == Filter(ls[1..], p);
      }
    }
  }

  /** Card-id uniqueness survives any change that only shrinks the bag. */
  lemma UniqueCardIdsShrink(ls: seq<List>, ms: seq<List>)
    requires UniqueCardIds(ls)
    requires CardIdBag(ms) <= CardIdBag(ls)
    ensures UniqueCardIds(ms)
  {
    forall id ensures CardIdBag(ms)[id] <= 1 {
      assert CardIdBag(ms)[id] <= CardIdBag(ls)[id];
    }
  }

  /** Under unique card ids, a card id found in one list is absent from every other. */
  lemma UniqueCardIdsSeparate(ls: seq<List>, i: nat, j: nat, id: string)
    requires UniqueCardIds(ls)
    requires i < |ls| && j < |ls| && i != j
    requires id in CardIds(ls[i].cards)
    ensures id !in CardIds(ls[j].cards)
  {
    BagHoldsTwo(ls, i, j);
    assert multiset(CardIds(ls[i].cards))[id] >= 1;
    assert CardIdBag(ls)[id] <= 1;
    assert multiset(CardIds(ls[j].cards))[id] == 0;
  }

  /** Under unique card ids, no list holds a card id twice. */
  lemma UniqueCardIdsWithinList(ls: seq<List>, i: nat)
    requires UniqueCardIds(ls)
    requires i < |ls|
    ensures Distinct(CardIds(ls[i].cards))
  {
    BagHolds(ls, i);
    DistinctIffAtMostOnce(CardIds(ls[i].cards));
    forall id ensures multiset(CardIds(ls[i].cards))[id] <= 1 {
      assert multiset(CardIds(ls[i].cards))[id] <= CardIdBag(ls)[id];
    }
  }
}
