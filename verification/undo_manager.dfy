/** Per-(board, owner) undo and redo history
    (server/src/board/undo-manager.ts): two bounded LIFO stacks per
    `board:owner` key. The module-level `stacks` map is the explicit
    `Stacks` value each operation takes and returns. */
module UndoManager {
  import opened Wrappers
  import opened Operations

  const MaxStackSize: nat := 100

  /** The top of a stack is its last entry. */
  datatype UndoState = UndoState(undoStack: seq<Op>, redoStack: seq<Op>)

  type Stacks = map<string, UndoState>

  /** The stacks key `${boardToken}:${owner}`. */
  function Key(boardToken: string, owner: string): string {
    boardToken + ":" + owner
  }

  ghost predicate ValidState(u: UndoState) {
    |u.undoStack| <= MaxStackSize && |u.redoStack| <= MaxStackSize
  }

  ghost predicate Valid(stacks: Stacks) {
    forall k :: k in stacks ==> ValidState(stacks[k])
  }

  /** Every key other than `key` is present in `a` exactly when in `b`, with
      the same stacks. */
  ghost predicate OthersUnchanged(a: Stacks, b: Stacks, key: string) {
    forall k :: k != key ==> (k in a <==> k in b) && (k in a ==> a[k] == b[k])
  }

  /** The last `n` entries of `s` (all of them when there are fewer). */
  function LastN<T>(s: seq<T>, n: nat): seq<T> {
    if |s| <= n then s else s[|s| - n..]
  }

  /** Pushes `op` and drops the oldest entry when that exceeds the capacity. */
  function Push(s: seq<Op>, op: Op): (r: seq<Op>)
    ensures |r| > 0 && r[|r| - 1] == op
    ensures |s| <= MaxStackSize ==> |r| <= MaxStackSize && r == LastN(s + [op], MaxStackSize)
  {
    var t := s + [op];
    if |t| > MaxStackSize then t[1..] else t
  }

  /** The state stored under `key`, or the empty state `getOrCreate` would
      register. */
  function Current(stacks: Stacks, key: string): UndoState {
    if key in stacks then stacks[key] else UndoState([], [])
  }

  /** `pushOp`: an ordinary edit. The op becomes the top of the undo stack
      and the redo stack is emptied. */
  function PushOp(stacks: Stacks, boardToken: string, owner: string, op: Op): (r: Stacks)
    ensures Key(boardToken, owner) in r
    ensures r[Key(boardToken, owner)].redoStack == []
    ensures var u := r[Key(boardToken, owner)].undoStack; |u| > 0 && u[|u| - 1] == op
    ensures ValidState(Current(stacks, Key(boardToken, owner))) ==>
      r[Key(boardToken, owner)].undoStack ==
        LastN(Current(stacks, Key(boardToken, owner)).undoStack + [op], MaxStackSize)
    ensures Valid(stacks) ==> Valid(r)
    ensures OthersUnchanged(stacks, r, Key(boardToken, owner))
  {
    var key := Key(boardToken, owner);
    var u := Current(stacks, key);
    stacks[key := UndoState(Push(u.undoStack, op), [])]
  }

  /** `pushOpForUndo`: like `pushOp` on the undo stack, but the redo stack
      is left as it was. */
  function PushOpForUndo(stacks: Stacks, boardToken: string, owner: string, op: Op): (r: Stacks)
    ensures Key(boardToken, owner) in r
    ensures r[Key(boardToken, owner)].redoStack == Current(stacks, Key(boardToken, owner)).redoStack
    ensures var u := r[Key(boardToken, owner)].undoStack; |u| > 0 && u[|u| - 1] == op
    ensures ValidState(Current(stacks, Key(boardToken, owner))) ==>
      r[Key(boardToken, owner)].undoStack ==
        LastN(Current(stacks, Key(boardToken, owner)).undoStack + [op], MaxStackSize)
    ensures Valid(stacks) ==> Valid(r)
    ensures OthersUnchanged(stacks, r, Key(boardToken, owner))
  {
    var key := Key(boardToken, owner);
    var u := Current(stacks, key);
    stacks[key := UndoState(Push(u.undoStack, op), u.redoStack)]
  }

  /** `popUndo`: nothing when the undo stack is empty (the key is still
      registered); otherwise removes the top and pushes it onto the redo
      stack. */
  function PopUndo(stacks: Stacks, boardToken: string, owner: string): (res: (Stacks, Option<Op>))
    ensures Key(boardToken, owner) in res.0
    ensures var u := Current(stacks, Key(boardToken, owner));
      |u.undoStack| == 0 ==> res.1 == None && res.0[Key(boardToken, owner)] == u
    ensures var u := Current(stacks, Key(boardToken, owner));
      |u.undoStack| > 0 ==>
        && res.1 == Some(u.undoStack[|u.undoStack| - 1])
        && res.0[Key(boardToken, owner)].undoStack == u.undoStack[..|u.undoStack| - 1]
        && res.0[Key(boardToken, owner)].redoStack == Push(u.redoStack, res.1.value)
    ensures Valid(stacks) ==> Valid(res.0)
    ensures OthersUnchanged(stacks, res.0, Key(boardToken, owner))
  {
    var key := Key(boardToken, owner);
    var u := Current(stacks, key);
    if |u.undoStack| == 0 then (stacks[key := u], None)
    else
      var op := u.undoStack[|u.undoStack| - 1];
      (stacks[key := UndoState(u.undoStack[..|u.undoStack| - 1], Push(u.redoStack, op))], Some(op))
  }

  /** `popRedo`: the mirror image of `popUndo`. */
  function PopRedo(stacks: Stacks, boardToken: string, owner: string): (res: (Stacks, Option<Op>))
    ensures Key(boardToken, owner) in res.0
    ensures var u := Current(stacks, Key(boardToken, owner));
      |u.redoStack| == 0 ==> res.1 == None && res.0[Key(boardToken, owner)] == u
    ensures var u := Current(stacks, Key(boardToken, owner));
      |u.redoStack| > 0 ==>
        && res.1 == Some(u.redoStack[|u.redoStack| - 1])
        && res.0[Key(boardToken, owner)].redoStack == u.redoStack[..|u.redoStack| - 1]
        && res.0[Key(boardToken, owner)].undoStack == Push(u.undoStack, res.1.value)
    ensures Valid(stacks) ==> Valid(res.0)
    ensures OthersUnchanged(stacks, res.0, Key(boardToken, owner))
  {
    var key := Key(boardToken, owner);
    var u := Current(stacks, key);
    if |u.redoStack| == 0 then (stacks[key := u], None)
    else
      var op := u.redoStack[|u.redoStack| - 1];
      (stacks[key := UndoState(Push(u.undoStack, op), u.redoStack[..|u.redoStack| - 1])], Some(op))
  }

  /** `clearStacks`: forgets exactly one key. */
  function ClearStacks(stacks: Stacks, boardToken: string, owner: string): (r: Stacks)
    ensures Key(boardToken, owner) !in r
    ensures OthersUnchanged(stacks, r, Key(boardToken, owner))
  {
    stacks - {Key(boardToken, owner)}
  }

  predicate StartsWith(s: string, prefix: string) {
    |prefix| <= |s| && s[..|prefix|] == prefix
  }

  /** `clearBoardStacks`: forgets exactly the keys that start with
      `boardToken + ":"`. */
  function ClearBoardStacks(stacks: Stacks, boardToken: string): (r: Stacks)
    ensures forall k :: k in r <==> k in stacks && !StartsWith(k, boardToken + ":")
    ensures forall k :: k in r ==> r[k] == stacks[k]
  {
    map k | k in stacks && !StartsWith(k, boardToken + ":") :: stacks[k]
  }

  /** A freshly pushed op is the next one `popUndo` returns. */
  lemma PushThenPopUndo(stacks: Stacks, boardToken: string, owner: string, op: Op)
    ensures PopUndo(PushOp(stacks, boardToken, owner, op), boardToken, owner).1 == Some(op)
  {
  }

  /** An ordinary edit leaves nothing to redo. */
  lemma PushThenPopRedo(stacks: Stacks, boardToken: string, owner: string, op: Op)
    ensures PopRedo(PushOp(stacks, boardToken, owner, op), boardToken, owner).1 == None
  {
  }

  /** Undo, then redo, then undo returns the same op each time; the undo
      stack after the redo is the one before the undo. */
  lemma UndoRedoUndo(stacks: Stacks, boardToken: string, owner: string)
    requires Valid(stacks)
    requires PopUndo(stacks, boardToken, owner).1.Some?
    ensures var (s1, x) := PopUndo(stacks, boardToken, owner);
      var (s2, y) := PopRedo(s1, boardToken, owner);
      var (_, z) := PopUndo(s2, boardToken, owner);
      && y == x && z == x
      && s2[Key(boardToken, owner)].undoStack == Current(stacks, Key(boardToken, owner)).undoStack
  {
    var key := Key(boardToken, owner);
    var u := Current(stacks, key);
    var (s1, x) := PopUndo(stacks, boardToken, owner);
    var (s2, y) := PopRedo(s1, boardToken, owner);
    assert s2[key].undoStack == Push(u.undoStack[..|u.undoStack| - 1], x.value);
    assert u.undoStack[..|u.undoStack| - 1] + [x.value] == u.undoStack;
  }

  /** A redo right after an undo returns the op that undo popped. */
  lemma RedoAfterUndo(stacks: Stacks, boardToken: string, owner: string)
    requires PopUndo(stacks, boardToken, owner).1.Some?
    ensures PopRedo(PopUndo(stacks, boardToken, owner).0, boardToken, owner).1 == PopUndo(stacks, boardToken, owner).1
  {
  }

  /** An undo right after a redo returns the op that redo popped. */
  lemma UndoAfterRedo(stacks: Stacks, boardToken: string, owner: string)
    requires PopRedo(stacks, boardToken, owner).1.Some?
    ensures PopUndo(PopRedo(stacks, boardToken, owner).0, boardToken, owner).1 == PopRedo(stacks, boardToken, owner).1
  {
  }

  /** Applies `pushOp` for each op in list order. */
  function PushOps(stacks: Stacks, boardToken: string, owner: string, ops: seq<Op>): Stacks
    decreases |ops|
  {
    if |ops| == 0 then stacks
    else PushOp(PushOps(stacks, boardToken, owner, ops[..|ops| - 1]), boardToken, owner, ops[|ops| - 1])
  }

  lemma LastNPush<T>(s: seq<T>, x: T, n: nat)
    ensures LastN(LastN(s, n) + [x], n) == LastN(s + [x], n)
  {
    if |s| > n && n > 0 {
      var t := s[|s| - n..];
      assert (t + [x])[|t| + 1 - n..] == s[|s| - n + 1..] + [x];
      assert (s + [x])[|s| + 1 - n..] == s[|s| - n + 1..] + [x];
    }
  }

  /** The undo stack left by pushing `ops` one after another onto `s`. */
  function PushAll(s: seq<Op>, ops: seq<Op>): seq<Op>
    decreases |ops|
  {
    if |ops| == 0 then s else Push(PushAll(s, ops[..|ops| - 1]), ops[|ops| - 1])
  }

  /** A series of `pushOp` calls acts on the caller's undo stack as
      `PushAll`, and empties the redo stack when there is at least one. */
  lemma {:induction false} PushOpsUndo(stacks: Stacks, boardToken: string, owner: string, ops: seq<Op>)
    ensures Current(PushOps(stacks, boardToken, owner, ops), Key(boardToken, owner)).undoStack ==
      PushAll(Current(stacks, Key(boardToken, owner)).undoStack, ops)
    ensures |ops| > 0 ==> Current(PushOps(stacks, boardToken, owner, ops), Key(boardToken, owner)).redoStack == []
    decreases |ops|
  {
    if |ops| > 0 {
      PushOpsUndo(stacks, boardToken, owner, ops[..|ops| - 1]);
    }
  }

  /** Pushing onto a stack of at most 100 entries keeps the last 100
      entries of the history. */
  lemma {:induction false} PushAllKeepsNewest(s: seq<Op>, ops: seq<Op>)
    requires |s| <= MaxStackSize
    ensures PushAll(s, ops) == LastN(s + ops, MaxStackSize)
    decreases |ops|
  {
    if |ops| == 0 {
      assert s + ops == s;
    } else {
      var init := ops[..|ops| - 1];
      var last := ops[|ops| - 1];
      PushAllKeepsNewest(s, init);
      LastNPush(s + init, last, MaxStackSize);
      assert s + init + [last] == s + ops;
    }
  }

  /** After a series of pushes the undo stack holds the last 100 entries of
      the old stack followed by the pushed ops. */
  lemma PushOpsKeepsNewest(stacks: Stacks, boardToken: string, owner: string, ops: seq<Op>)
    requires ValidState(Current(stacks, Key(boardToken, owner)))
    ensures Current(PushOps(stacks, boardToken, owner, ops), Key(boardToken, owner)).undoStack ==
      LastN(Current(stacks, Key(boardToken, owner)).undoStack + ops, MaxStackSize)
  {
    PushOpsUndo(stacks, boardToken, owner, ops);
    PushAllKeepsNewest(Current(stacks, Key(boardToken, owner)).undoStack, ops);
  }

  /** 110 pushes onto a fresh key leave exactly the last 100 ops. */
  lemma HundredTenPushes(stacks: Stacks, boardToken: string, owner: string, ops: seq<Op>)
    requires Key(boardToken, owner) !in stacks && |ops| == 110
    ensures Current(PushOps(stacks, boardToken, owner, ops), Key(boardToken, owner)).undoStack == ops[10..]
  {
    PushOpsKeepsNewest(stacks, boardToken, owner, ops);
    assert [] + ops == ops;
  }

  /** Board tokens without ':' give every (board, owner) pair its own key. */
  lemma KeyInjective(t1: string, o1: string, t2: string, o2: string)
    requires ':' !in t1 && ':' !in t2
    requires Key(t1, o1) == Key(t2, o2)
    ensures t1 == t2 && o1 == o2
  {
    if |t1| < |t2| {
      ColonInLongerToken(t1, o1, t2, o2);
      assert false;
    } else if |t2| < |t1| {
      ColonInLongerToken(t2, o2, t1, o1);
      assert false;
    } else {
      var k := Key(t1, o1);
      assert t1 == k[..|t1|] == t2;
      assert o1 == k[|t1| + 1..] == o2;
    }
  }

  /** Two owners on one board have separate undo stacks. */
  lemma OwnersKeysDiffer(room: string, n1: string, n2: string)
    requires n1 != n2
    ensures Key(room, n1) != Key(room, n2)
  {
    assert Key(room, n1)[|room| + 1..] == n1;
    assert Key(room, n2)[|room| + 1..] == n2;
  }

  /** When one pair's token is shorter, the other's token has a ':' right
      where the shorter token's separator sits. */
  lemma ColonInLongerToken(t1: string, o1: string, t2: string, o2: string)
    requires |t1| < |t2| && Key(t1, o1) == Key(t2, o2)
    ensures t2[|t1|] == ':' && ':' in t2
  {
    assert Key(t1, o1)[|t1|] == ':';
    assert Key(t2, o2)[|t1|] == t2[|t1|];
  }

  /** With a ':' in the board token two different pairs share one key, so
      their stacks are not isolated. */
  lemma KeysCollide()
    ensures Key("a:b", "c") == Key("a", "b:c")
  {
  }

  /** `clearBoardStacks(t)` forgets every owner's stacks on `t`, and, for
      tokens without ':', keeps every other board's stacks. */
  lemma ClearBoardStacksScope(stacks: Stacks, t: string, t2: string, owner: string)
    ensures Key(t, owner) !in ClearBoardStacks(stacks, t)
    ensures ':' !in t && ':' !in t2 && t != t2 ==>
      (Key(t2, owner) in ClearBoardStacks(stacks, t) <==> Key(t2, owner) in stacks)
  {
    assert Key(t, owner)[..|t + ":"|] == t + ":";
    if ':' !in t && ':' !in t2 && t != t2 && StartsWith(Key(t2, owner), t + ":") {
      var k := Key(t2, owner);
      if |t| < |t2| {
        assert k == k[..|t| + 1] + k[|t| + 1..];
        ColonInLongerToken(t, k[|t| + 1..], t2, owner);
        assert false;
      } else if |t2| < |t| {
        assert k == k[..|t| + 1] + k[|t| + 1..];
        ColonInLongerToken(t2, owner, t, k[|t| + 1..]);
        assert false;
      } else {
        SameLengthPrefix(t, t2, owner);
        assert false;
      }
    }
  }

  lemma SameLengthPrefix(t: string, t2: string, owner: string)
    requires |t| == |t2| && StartsWith(Key(t2, owner), t + ":")
    ensures t == t2
  {
    assert t == Key(t2, owner)[..|t|] == t2;
  }
}
