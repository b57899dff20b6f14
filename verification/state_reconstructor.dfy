/** Rebuilding a board from an optional snapshot and the operations logged
    after it (server/src/board/state-reconstructor.ts). */
module StateReconstructor {
  import opened Wrappers
  import opened Elements
  import opened Operations
  import opened BoardManager

  /** `BoardSnapshot` (shared/src/types/board.ts). */
  datatype Snapshot = Snapshot(token: string, elements: seq<Element>, seqNum: int, timestamp: int)

  /** Every op is already covered by a snapshot at `baseSeq`. */
  ghost predicate AllCovered(ops: seq<Op>, baseSeq: int) {
    forall i :: 0 <= i < |ops| ==> ops[i].seqNum <= baseSeq
  }

  /** `ops[i]` is the last op newer than `baseSeq`. */
  ghost predicate LastNewer(ops: seq<Op>, i: int, baseSeq: int) {
    0 <= i < |ops| && ops[i].seqNum > baseSeq && AllCovered(ops[i + 1..], baseSeq)
  }

  /** The ops whose sequence number is above `baseSeq`, in list order. */
  function Survivors(ops: seq<Op>, baseSeq: int): seq<Op>
    decreases |ops|
  {
    if |ops| == 0 then []
    else
      var last := ops[|ops| - 1];
      if last.seqNum > baseSeq then Survivors(ops[..|ops| - 1], baseSeq) + [last]
      else Survivors(ops[..|ops| - 1], baseSeq)
  }

  /** The survivors are exactly the ops newer than `baseSeq`. */
  lemma {:induction false} SurvivorsMembers(ops: seq<Op>, baseSeq: int)
    ensures forall op :: op in Survivors(ops, baseSeq) <==> op in ops && op.seqNum > baseSeq
    decreases |ops|
  {
    if |ops| > 0 {
      var init := ops[..|ops| - 1];
      SurvivorsMembers(init, baseSeq);
      assert ops == init + [ops[|ops| - 1]];
    }
  }

  /** Filtering a concatenation filters each part and keeps them in order:
      the survivors are replayed in the order the log lists them. */
  lemma {:induction false} SurvivorsAppend(a: seq<Op>, b: seq<Op>, baseSeq: int)
    ensures Survivors(a + b, baseSeq) == Survivors(a, baseSeq) + Survivors(b, baseSeq)
    decreases |b|
  {
    if |b| == 0 {
      assert a + b == a;
    } else {
      assert (a + b)[..|a + b| - 1] == a + b[..|b| - 1];
      assert (a + b)[|a + b| - 1] == b[|b| - 1];
      SurvivorsAppend(a, b[..|b| - 1], baseSeq);
    }
  }

  /** There are no survivors exactly when the snapshot covers every op. */
  lemma {:induction false} SurvivorsNone(ops: seq<Op>, baseSeq: int)
    ensures |Survivors(ops, baseSeq)| == 0 <==> AllCovered(ops, baseSeq)
    decreases |ops|
  {
    if |ops| > 0 {
      SurvivorsNone(ops[..|ops| - 1], baseSeq);
      SurvivorsStep(ops, baseSeq);
    }
  }

  /** The last survivor is the last op newer than `baseSeq`. */
  lemma {:induction false} SurvivorsLast(ops: seq<Op>, baseSeq: int, i: int)
    requires LastNewer(ops, i, baseSeq)
    ensures |Survivors(ops, baseSeq)| > 0 && Survivors(ops, baseSeq)[|Survivors(ops, baseSeq)| - 1] == ops[i]
    decreases |ops|
  {
    SurvivorsStep(ops, baseSeq);
    if i < |ops| - 1 {
      SurvivorsLast(ops[..|ops| - 1], baseSeq, i);
    }
  }

  /** How the facts about `ops` follow from those about `ops` without its last op. */
  lemma SurvivorsStep(ops: seq<Op>, baseSeq: int)
    requires |ops| > 0
    ensures var init := ops[..|ops| - 1];
      && (forall op :: op in ops <==> op in init || op == ops[|ops| - 1])
      && (AllCovered(ops, baseSeq) <==> AllCovered(init, baseSeq) && ops[|ops| - 1].seqNum <= baseSeq)
      && (forall i :: LastNewer(ops, i, baseSeq) && i < |ops| - 1 ==>
            ops[|ops| - 1].seqNum <= baseSeq && LastNewer(init, i, baseSeq))
      && (ops[|ops| - 1].seqNum > baseSeq ==> LastNewer(ops, |ops| - 1, baseSeq))
  {
    var init := ops[..|ops| - 1];
    assert ops == init + [ops[|ops| - 1]];
    forall i | LastNewer(ops, i, baseSeq) && i < |ops| - 1
      ensures ops[|ops| - 1].seqNum <= baseSeq && LastNewer(init, i, baseSeq)
    {
      assert ops[i + 1..][|ops| - 2 - i] == ops[|ops| - 1];
      assert init[i + 1..] == ops[i + 1..][..|ops| - 2 - i];
    }
  }

  /** `nextZIndex`: one past the highest z-order present, and 0 at least. */
  method NextZIndex(elements: Elements) returns (maxZ: int)
    ensures maxZ >= 0
    ensures forall k :: k in elements ==> elements[k].zIndex < maxZ
    ensures maxZ == 0 || exists k :: k in elements && elements[k].zIndex + 1 == maxZ
  {
    maxZ := 0;
    var rest := elements.Keys;
    while rest != {}
      invariant rest <= elements.Keys
      invariant maxZ >= 0
      invariant forall k :: k in elements && k !in rest ==> elements[k].zIndex < maxZ
      invariant maxZ == 0 || exists k :: k in elements && elements[k].zIndex + 1 == maxZ
      decreases rest
    {
      var k :| k in rest;
      if elements[k].zIndex >= maxZ {
        maxZ := elements[k].zIndex + 1;
      }
      rest := rest - {k};
    }
  }

  function BaseSeq(snapshot: Option<Snapshot>): int {
    if snapshot.Some? then snapshot.value.seqNum else 0
  }

  function BaseElements(snapshot: Option<Snapshot>): seq<Element> {
    if snapshot.Some? then snapshot.value.elements else []
  }

  /** `reconstructBoard`: replays, on top of the snapshot's elements, the
      ops that are newer than the snapshot, in list order; sets `nextZIndex`
      one past the highest z-order present (0 at least) and `seqNum` to that
      of the last replayed op, or the snapshot's when none is replayed. */
  method ReconstructBoard(token: string, snapshot: Option<Snapshot>, ops: seq<Op>) returns (b: BoardState)
    ensures b.token == token
    ensures b.elements == ApplyAll(InsertAll(BaseElements(snapshot)), Survivors(ops, BaseSeq(snapshot)))
    ensures b.nextZIndex >= 0
    ensures forall k :: k in b.elements ==> b.elements[k].zIndex < b.nextZIndex
    ensures b.nextZIndex == 0 || exists k :: k in b.elements && b.elements[k].zIndex + 1 == b.nextZIndex
    ensures AllCovered(ops, BaseSeq(snapshot)) ==> b.seqNum == BaseSeq(snapshot)
    ensures forall i :: LastNewer(ops, i, BaseSeq(snapshot)) ==> b.seqNum == ops[i].seqNum
  {
    var newOps := Survivors(ops, BaseSeq(snapshot));
    SurvivorsNone(ops, BaseSeq(snapshot));
    forall i | LastNewer(ops, i, BaseSeq(snapshot))
      ensures |newOps| > 0 && newOps[|newOps| - 1] == ops[i]
    {
      SurvivorsLast(ops, BaseSeq(snapshot), i);
    }
    var elements := ReconstructState(BaseElements(snapshot), newOps);
    var nextZ := NextZIndex(elements);
    var lastSeq := if |newOps| > 0 then newOps[|newOps| - 1].seqNum else BaseSeq(snapshot);
    b := BoardState(token, elements, nextZ, lastSeq);
  }

  ghost predicate AllNewer(ops: seq<Op>, baseSeq: int) {
    forall i :: 0 <= i < |ops| ==> ops[i].seqNum > baseSeq
  }

  lemma AllCoveredNone(ops: seq<Op>, baseSeq: int)
    requires AllCovered(ops, baseSeq)
    ensures Survivors(ops, baseSeq) == []
  {
    SurvivorsNone(ops, baseSeq);
  }

  lemma SnocNewer(ops: seq<Op>, baseSeq: int)
    requires |ops| > 0 && ops[|ops| - 1].seqNum > baseSeq
    ensures Survivors(ops, baseSeq) == Survivors(ops[..|ops| - 1], baseSeq) + [ops[|ops| - 1]]
  {
  }

  lemma {:induction false} SurvivorsAfterSplit(ops: seq<Op>, baseSeq: int, j: nat)
    requires j <= |ops|
    requires AllCovered(ops[..j], baseSeq)
    requires AllNewer(ops[j..], baseSeq)
    ensures Survivors(ops, baseSeq) == ops[j..]
    decreases |ops|
  {
    if |ops| > j {
      var init := ops[..|ops| - 1];
      assert ops[j..][|ops| - 1 - j] == ops[|ops| - 1];
      SnocNewer(ops, baseSeq);
      assert init[..j] == ops[..j];
      assert init[j..] == ops[j..][..|ops| - 1 - j];
      SurvivorsAfterSplit(init, baseSeq, j);
      assert init[j..] + [ops[|ops| - 1]] == ops[j..];
    } else {
      assert ops[..j] == ops;
      AllCoveredNone(ops, baseSeq);
    }
  }

  /** Starting from a snapshot taken after the first `j` ops and replaying
      the newer ops gives the same elements as replaying every op from the
      start. */
  lemma ReplayAfterSnapshot(start: Elements, snapshot: Snapshot, ops: seq<Op>, j: nat)
    requires j <= |ops|
    requires forall i :: 0 <= i < j ==> ops[i].seqNum <= snapshot.seqNum
    requires forall i :: j <= i < |ops| ==> ops[i].seqNum > snapshot.seqNum
    requires InsertAll(snapshot.elements) == ApplyAll(start, ops[..j])
    ensures ApplyAll(InsertAll(snapshot.elements), Survivors(ops, snapshot.seqNum)) == ApplyAll(start, ops)
  {
    SurvivorsAfterSplit(ops, snapshot.seqNum, j);
    ApplyAllAppend(start, ops[..j], ops[j..]);
    assert ops[..j] + ops[j..] == ops;
  }
}
