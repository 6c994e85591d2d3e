/** The demo board a first visit starts with. The seven generated ids (board,
    three lists, three cards) are parameters: id generation reads the clock and
    a random source, which this model does not have. */
module InitialBoard {
  import opened Wrappers
  import opened Seqs
  import opened BoardTypes

  function CreateInitialBoard(boardId: string, list1Id: string, list2Id: string, list3Id: string,
                              card1Id: string, card2Id: string, card3Id: string): (r: Board)
    ensures r.id == boardId && r.title == DEFAULT_BOARD_TITLE
    ensures ListIds(r.lists) == [list1Id, list2Id, list3Id]
    ensures [r.lists[0].title, r.lists[1].title, r.lists[2].title] == ["To Do", "In Progress", "Done"]
    ensures forall i :: 0 <= i < 3 ==> r.lists[i].order == i && r.lists[i].boardId == boardId
    ensures CardIds(r.lists[0].cards) == [card1Id, card2Id]
    ensures CardIds(r.lists[1].cards) == [card3Id]
    ensures r.lists[2].cards == []
    ensures forall i :: 0 <= i < 3 ==> Contiguous(r.lists[i])
    ensures forall i, p :: 0 <= i < 3 && 0 <= p < |r.lists[i].cards| ==>
      r.lists[i].cards[p].listId == r.lists[i].id && r.lists[i].cards[p].comments == []
  {
    Board(boardId, DEFAULT_BOARD_TITLE, [
      List(list1Id, boardId, "To Do", 0, [
        Card(card1Id, list1Id, "Task 1", [], Some(0)),
        Card(card2Id, list1Id, "Task 2", [], Some(1))]),
      List(list2Id, boardId, "In Progress", 1, [
        Card(card3Id, list2Id, "Task 3", [], Some(0))]),
      List(list3Id, boardId, "Done", 2, [])])
  }

  /** Distinct generated ids make the demo board well-formed. */
  lemma InitialBoardWellFormed(boardId: string, list1Id: string, list2Id: string, list3Id: string,
                               card1Id: string, card2Id: string, card3Id: string)
    requires Distinct([list1Id, list2Id, list3Id])
    requires Distinct([card1Id, card2Id, card3Id])
    ensures WellFormed(CreateInitialBoard(boardId, list1Id, list2Id, list3Id, card1Id, card2Id, card3Id))
  {
    var b := CreateInitialBoard(boardId, list1Id, list2Id, list3Id, card1Id, card2Id, card3Id);
    var ls := b.lists;
    assert ls[1..][1..][1..] == [];
    assert CardIdBag(ls) == multiset{card1Id, card2Id, card3Id} by {
      assert CardIdBag(ls[1..][1..]) == multiset(CardIds(ls[2].cards)) + CardIdBag([]);
      assert CardIdBag(ls[1..]) == multiset(CardIds(ls[1].cards)) + CardIdBag(ls[1..][1..]);
    }
    assert multiset{card1Id, card2Id, card3Id} == multiset([card1Id, card2Id, card3Id]);
    DistinctIffAtMostOnce([card1Id, card2Id, card3Id]);
    forall l | l in ls ensures ListWellFormed(boardId, l) {
      forall c | c in l.cards ensures CardWellFormed(l.id, c) {
        assert Project(c.comments, CommentId) == [];
      }
    }
  }
}
