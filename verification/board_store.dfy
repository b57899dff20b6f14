/** The client's mirror of one board (`client/src/store/board-store.ts`):
    the elements keyed by id and the sequence number of the last operation
    it applied. It replays the server's broadcast operations through the
    same `Apply` the server uses. */
module BoardStore {
  import opened Elements
  import opened Operations
  import opened Listing
  import BoardManager

  datatype ClientBoard = ClientBoard(elements: Elements, seqNum: int)

  /** The store before any board has been joined. */
  const Initial := ClientBoard(map[], 0)

  /** `setInitialState`: the elements sent on join, keyed by id (a later
      element wins over an earlier one with the same id), and the board's
      sequence number. */
  function SetInitialState(els: seq<Element>, seqNum: int): (r: ClientBoard)
    ensures r.seqNum == seqNum
    ensures forall k :: k in r.elements <==> exists i :: 0 <= i < |els| && els[i].id == k
    ensures forall i :: 0 <= i < |els| && (forall j :: i < j < |els| ==> els[j].id != els[i].id) ==>
      els[i].id in r.elements && r.elements[els[i].id] == els[i]
  {
    InsertAllKeys(els);
    forall i | 0 <= i < |els| && (forall j :: i < j < |els| ==> els[j].id != els[i].id)
      ensures els[i].id in InsertAll(els) && InsertAll(els)[els[i].id] == els[i]
    {
      InsertAllLastWins(els, i);
    }
    ClientBoard(InsertAll(els), seqNum)
  }

  /** `applyOp`: applies a broadcast operation to a copy of the elements and
      adopts its sequence number, whether or not that is ahead of the
      current one. */
  function ApplyOp(b: ClientBoard, op: Op): (r: ClientBoard)
    ensures r.seqNum == op.seqNum
    ensures r.elements == Apply(b.elements, op)
    ensures forall k :: k != Target(op.body) ==> (k in r.elements <==> k in b.elements)
    ensures forall k :: k in r.elements && k != Target(op.body) ==> r.elements[k] == b.elements[k]
  {
    ClientBoard(Apply(b.elements, op), op.seqNum)
  }

  /** Applies `ops` in list order. */
  function ApplyOps(b: ClientBoard, ops: seq<Op>): ClientBoard
    decreases |ops|
  {
    if |ops| == 0 then b else ApplyOp(ApplyOps(b, ops[..|ops| - 1]), ops[|ops| - 1])
  }

  /** `getElementsSorted`: every element once, by non-decreasing z-order. */
  method GetElementsSorted(b: ClientBoard) returns (r: seq<Element>)
    ensures SortedByZ(r)
    ensures ListsValuesOf(r, b.elements)
  {
    r := SortedValues(b.elements);
  }

  /** A listing of keys that has the same multiset as a set names each key
      once. */
  lemma DistinctListing(ks: seq<string>, keys: set<string>, i: int, j: int)
    requires multiset(ks) == multiset(keys)
    requires 0 <= i < j < |ks|
    ensures ks[i] != ks[j]
  {
    var x := ks[j];
    assert ks == ks[..j] + [x] + ks[j + 1..];
    assert multiset(ks)[x] == multiset(ks[..j])[x] + 1 + multiset(ks[j + 1..])[x];
    assert multiset(keys)[x] <= 1;
    assert x !in ks[..j];
    assert ks[i] in ks[..j];
  }

  /** Rebuilding from a listing of an id-keyed board yields that board. A
      board is id-keyed as long as no update has renamed an element
      (`JoinAfterOps`). */
  lemma {:induction false} InitialStateMirrors(m: Elements, els: seq<Element>, seqNum: int)
    requires IdKeyed(m) && ListsValuesOf(els, m)
    ensures SetInitialState(els, seqNum) == ClientBoard(m, seqNum)
  {
    var ks :| ListedBy(ks, els, m);
    var r := SetInitialState(els, seqNum).elements;
    forall k | k in m ensures k in r && r[k] == m[k] {
      assert k in multiset(ks);
      var i :| 0 <= i < |ks| && ks[i] == k;
      forall j | i < j < |els| ensures els[j].id != els[i].id {
        DistinctListing(ks, m.Keys, i, j);
      }
    }
    forall k | k in r ensures k in m {
      var i :| 0 <= i < |els| && els[i].id == k;
      assert ks[i] in m;
    }
    assert r == m;
  }

  /** A client in step with the server stays in step when it applies each
      operation the server stamps and broadcasts: same elements, and the
      board's sequence number. */
  lemma {:induction false} MirrorTracksServer(board: BoardManager.BoardState, c: ClientBoard, ops: seq<Op>)
    requires c.elements == board.elements
    ensures var (b, stamped) := BoardManager.ApplyOps(board, ops);
      && ApplyOps(c, stamped).elements == b.elements
      && (|ops| > 0 ==> ApplyOps(c, stamped).seqNum == b.seqNum)
    decreases |ops|
  {
    BoardManager.ApplyOpsStamps(board, ops);
    if |ops| > 0 {
      var init := ops[..|ops| - 1];
      MirrorTracksServer(board, c, init);
      BoardManager.ApplyOpsStamps(board, init);
      var (b0, s0) := BoardManager.ApplyOps(board, init);
      var (b1, s1) := BoardManager.ApplyOp(b0, ops[|ops| - 1]);
      var stamped := s0 + [s1];
      assert stamped[..|stamped| - 1] == s0;
    }
  }

  /** A client that starts from the initial store on a fresh board and
      applies what the server broadcasts holds the server's elements and the
      number of operations as its sequence number. */
  lemma FreshClientTracksFreshBoard(token: string, ops: seq<Op>)
    ensures var (b, stamped) := BoardManager.ApplyOps(BoardManager.EmptyBoard(token), ops);
      ApplyOps(Initial, stamped) == ClientBoard(b.elements, |ops|)
  {
    MirrorTracksServer(BoardManager.EmptyBoard(token), Initial, ops);
    BoardManager.ApplyOpsStamps(BoardManager.EmptyBoard(token), ops);
  }

  /** A client joining a board that has only seen operations keeping ids
      rebuilds the server's elements from the listing it is sent. */
  lemma JoinAfterOps(token: string, ops: seq<Op>, els: seq<Element>)
    requires forall i :: 0 <= i < |ops| ==> KeepsId(ops[i].body)
    requires ListsValuesOf(els, BoardManager.ApplyOps(BoardManager.EmptyBoard(token), ops).0.elements)
    ensures var b := BoardManager.ApplyOps(BoardManager.EmptyBoard(token), ops).0;
      SetInitialState(els, b.seqNum) == ClientBoard(b.elements, b.seqNum)
  {
    var b := BoardManager.ApplyOps(BoardManager.EmptyBoard(token), ops).0;
    BoardManager.ApplyOpsKeepIdKeyed(BoardManager.EmptyBoard(token), ops);
    InitialStateMirrors(b.elements, els, b.seqNum);
  }
}
