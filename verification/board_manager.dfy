/** The server's authoritative board registry
    (server/src/board/board-manager.ts): per-token board state, sequence
    stamping and z-order assignment. The module-level `boards` map is the
    explicit `Registry` value each operation takes and returns. */
module BoardManager {
  import opened Wrappers
  import opened Elements
  import opened Operations
  import opened Listing

  /** The part of `BoardState` (shared/src/types/board.ts) that the registry
      maintains; `dirty` and `empty` are never assigned by it. */
  datatype BoardState = BoardState(token: string, elements: Elements, nextZIndex: int, seqNum: int)

  type Registry = map<string, BoardState>

  function EmptyBoard(token: string): BoardState {
    BoardState(token, map[], 0, 0)
  }

  /** The board registered under `token`, created empty and registered on
      first access. */
  function GetOrCreateBoard(reg: Registry, token: string): (res: (Registry, BoardState))
    ensures token in res.0 && res.0[token] == res.1
    ensures token in reg ==> res.0 == reg && res.1 == reg[token]
    ensures token !in reg ==>
      && res.1.token == token && res.1.elements == map[] && res.1.seqNum == 0 && res.1.nextZIndex == 0
      && res.0.Keys == reg.Keys + {token}
      && forall t :: t in reg ==> res.0[t] == reg[t]
  {
    if token in reg then (reg, reg[token])
    else
      var board := EmptyBoard(token);
      (reg[token := board], board)
  }

  /** `applyOp`: stamps `op` with the board's next sequence number; for an
      add, replaces the element's z-order with the board's counter and
      advances it; applies the stamped operation to the board's elements.
      Returns the updated board and the stamped operation. */
  function ApplyOp(board: BoardState, op: Op): (res: (BoardState, Op))
    ensures res.0.token == board.token
    ensures res.0.seqNum == board.seqNum + 1 && res.1.seqNum == res.0.seqNum
    ensures res.1.id == op.id && res.1.boardToken == op.boardToken
    ensures res.1.owner == op.owner && res.1.timestamp == op.timestamp
    ensures op.body.AddElement? ==>
      && res.1.body.AddElement?
      && res.1.body.element.zIndex == board.nextZIndex
      && res.1.body.element.id == op.body.element.id
      && res.1.body.element.fields == op.body.element.fields
      && res.0.nextZIndex == board.nextZIndex + 1
    ensures !op.body.AddElement? ==> res.1.body == op.body && res.0.nextZIndex == board.nextZIndex
    ensures res.0.elements == Apply(board.elements, res.1)
  {
    var seqNum := board.seqNum + 1;
    match op.body
    case AddElement(e) =>
      var stamped := op.(seqNum := seqNum, body := AddElement(e.(zIndex := board.nextZIndex)));
      (BoardState(board.token, Apply(board.elements, stamped), board.nextZIndex + 1, seqNum), stamped)
    case _ =>
      var stamped := op.(seqNum := seqNum);
      (BoardState(board.token, Apply(board.elements, stamped), board.nextZIndex, seqNum), stamped)
  }

  /** Applies `ops` one after another, collecting the stamped operations. */
  function ApplyOps(board: BoardState, ops: seq<Op>): (BoardState, seq<Op>)
    decreases |ops|
  {
    if |ops| == 0 then (board, [])
    else
      var (b, stamped) := ApplyOps(board, ops[..|ops| - 1]);
      var (b', s) := ApplyOp(b, ops[|ops| - 1]);
      (b', stamped + [s])
  }

  ghost predicate AllAdds(ops: seq<Op>) {
    forall i :: 0 <= i < |ops| ==> ops[i].body.AddElement?
  }

  /** The number of adds in `ops`. */
  function CountAdds(ops: seq<Op>): nat
    decreases |ops|
  {
    if |ops| == 0 then 0
    else CountAdds(ops[..|ops| - 1]) + (if ops[|ops| - 1].body.AddElement? then 1 else 0)
  }

  /** Successive `applyOp` calls stamp consecutive sequence numbers with no
      gap; the add at position i receives the board's counter plus the
      number of adds before it, and only adds advance the counter. */
  lemma {:induction false} ApplyOpsStamps(board: BoardState, ops: seq<Op>)
    ensures |ApplyOps(board, ops).1| == |ops|
    ensures ApplyOps(board, ops).0.token == board.token
    ensures ApplyOps(board, ops).0.seqNum == board.seqNum + |ops|
    ensures ApplyOps(board, ops).0.nextZIndex == board.nextZIndex + CountAdds(ops)
    ensures forall i :: 0 <= i < |ops| ==> ApplyOps(board, ops).1[i].seqNum == board.seqNum + i + 1
    ensures forall i :: 0 <= i < |ops| && !ops[i].body.AddElement? ==> ApplyOps(board, ops).1[i].body == ops[i].body
    ensures forall i :: 0 <= i < |ops| && ops[i].body.AddElement? ==>
      && ApplyOps(board, ops).1[i].body.AddElement?
      && ApplyOps(board, ops).1[i].body.element.id == ops[i].body.element.id
      && ApplyOps(board, ops).1[i].body.element.zIndex == board.nextZIndex + CountAdds(ops[..i])
    decreases |ops|
  {
    if |ops| > 0 {
      var init := ops[..|ops| - 1];
      ApplyOpsStamps(board, init);
      assert ops[..|ops| - 1] == init;
      forall i | 0 <= i < |ops| - 1 ensures ops[..i] == init[..i] && ops[i] == init[i] {
      }
    }
  }

  /** Of two adds in one series, the later one has more adds before it. */
  lemma {:induction false} CountAddsGrows(ops: seq<Op>, i: int, j: int)
    requires 0 <= i < j <= |ops| && ops[i].body.AddElement?
    ensures CountAdds(ops[..j]) >= CountAdds(ops[..i]) + 1
    decreases j
  {
    assert ops[..j][..j - 1] == ops[..j - 1];
    if j > i + 1 {
      CountAddsGrows(ops, i, j - 1);
    }
  }

  /** In a series of only adds, the first i ops hold i adds. */
  lemma {:induction false} CountAllAdds(ops: seq<Op>)
    requires AllAdds(ops)
    ensures CountAdds(ops) == |ops|
    decreases |ops|
  {
    if |ops| > 0 {
      CountAllAdds(ops[..|ops| - 1]);
    }
  }

  /** The z-orders `applyOp` assigns strictly increase along a series and
      never fall below the counter the board started with, so none is
      handed out twice. */
  lemma ZOrdersIncrease(board: BoardState, ops: seq<Op>, i: int, j: int)
    requires 0 <= i < j < |ops| && ops[i].body.AddElement? && ops[j].body.AddElement?
    ensures |ApplyOps(board, ops).1| == |ops|
    ensures ApplyOps(board, ops).1[i].body.AddElement? && ApplyOps(board, ops).1[j].body.AddElement?
    ensures board.nextZIndex <= ApplyOps(board, ops).1[i].body.element.zIndex
      < ApplyOps(board, ops).1[j].body.element.zIndex
      < ApplyOps(board, ops).0.nextZIndex
  {
    ApplyOpsStamps(board, ops);
    CountAddsGrows(ops, i, j);
    CountAddsGrows(ops, j, |ops|);
    assert ops[..|ops|] == ops;
  }

  /** On a fresh board, n operations are stamped 1..n and n adds get the
      z-orders 0..n-1. */
  lemma FreshBoardStamps(token: string, ops: seq<Op>)
    ensures |ApplyOps(EmptyBoard(token), ops).1| == |ops|
    ensures forall i :: 0 <= i < |ops| ==> ApplyOps(EmptyBoard(token), ops).1[i].seqNum == i + 1
    ensures AllAdds(ops) ==> forall i :: 0 <= i < |ops| ==>
      ApplyOps(EmptyBoard(token), ops).1[i].body.AddElement? &&
      ApplyOps(EmptyBoard(token), ops).1[i].body.element.zIndex == i
  {
    ApplyOpsStamps(EmptyBoard(token), ops);
    if AllAdds(ops) {
      forall i | 0 <= i < |ops| ensures CountAdds(ops[..i]) == i {
        CountAllAdds(ops[..i]);
      }
    }
  }

  /** A fresh board stores every element under its own id. */
  lemma EmptyBoardIdKeyed(token: string)
    ensures IdKeyed(EmptyBoard(token).elements)
  {
  }

  /** `applyOp` keeps elements stored under their own ids, for operations
      that keep ids. */
  lemma ApplyOpKeepsIdKeyed(board: BoardState, op: Op)
    requires IdKeyed(board.elements) && KeepsId(op.body)
    ensures IdKeyed(ApplyOp(board, op).0.elements)
  {
    ApplyKeepsIdKeyed(board.elements, ApplyOp(board, op).1);
  }

  /** A series of operations that keep ids keeps the board id-keyed. */
  lemma {:induction false} ApplyOpsKeepIdKeyed(board: BoardState, ops: seq<Op>)
    requires IdKeyed(board.elements)
    requires forall i :: 0 <= i < |ops| ==> KeepsId(ops[i].body)
    ensures IdKeyed(ApplyOps(board, ops).0.elements)
    decreases |ops|
  {
    if |ops| > 0 {
      ApplyOpsKeepIdKeyed(board, ops[..|ops| - 1]);
      ApplyOpKeepsIdKeyed(ApplyOps(board, ops[..|ops| - 1]).0, ops[|ops| - 1]);
    }
  }

  /** `getBoardElements`: nothing for an unknown token, otherwise the board's
      elements ordered by non-decreasing z-order. */
  method GetBoardElements(reg: Registry, token: string) returns (r: seq<Element>)
    ensures token !in reg ==> r == []
    ensures token in reg ==> SortedByZ(r) && ListsValuesOf(r, reg[token].elements)
  {
    if token !in reg {
      return [];
    }
    r := SortedValues(reg[token].elements);
  }

  function GetBoard(reg: Registry, token: string): (r: Option<BoardState>)
    ensures r.Some? <==> token in reg
    ensures r.Some? ==> r.value == reg[token]
  {
    if token in reg then Some(reg[token]) else None
  }

  /** `deleteBoard` forgets exactly one token. */
  function DeleteBoard(reg: Registry, token: string): (r: Registry)
    ensures r.Keys == reg.Keys - {token}
    ensures forall t :: t in r ==> r[t] == reg[t]
  {
    reg - {token}
  }

  /** `getActiveBoards`: every registered token, once each. */
  method GetActiveBoards(reg: Registry) returns (r: seq<string>)
    ensures multiset(r) == multiset(reg.Keys)
  {
    r := KeysOf(reg);
  }

  /** After `deleteBoard(t)`, `getBoard(t)` finds nothing and every other
      token's board is still found unchanged. */
  lemma DeleteThenGet(reg: Registry, token: string, other: string)
    ensures GetBoard(DeleteBoard(reg, token), token) == None
    ensures other != token ==> GetBoard(DeleteBoard(reg, token), other) == GetBoard(reg, other)
  {
  }
}
