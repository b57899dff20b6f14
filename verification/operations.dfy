/** Operations (shared/src/types/operation.ts) and the operation engine
    (shared/src/utils/operation-helpers.ts): inverting an operation,
    applying it to an element collection and replaying a list of them. */
module Operations {
  import opened Wrappers
  import opened Elements

  datatype Body =
    | AddElement(element: Element)
    | RemoveElement(elementId: string, removedElement: Element)
    | UpdateElement(elementId: string, changes: Patch, previousState: Patch)

  datatype Op = Op(id: string, boardToken: string, owner: string, timestamp: int, seqNum: int, body: Body)

  /** `Omit<Operation, "id" | "seqNum" | "timestamp">`: an operation before
      the caller stamps it. */
  datatype Draft = Draft(boardToken: string, owner: string, body: Body)

  function Stamp(d: Draft, id: string, seqNum: int, timestamp: int): Op {
    Op(id, d.boardToken, d.owner, timestamp, seqNum, d.body)
  }

  function Unstamped(op: Op): Draft {
    Draft(op.boardToken, op.owner, op.body)
  }

  /** The id of the element an operation acts on. */
  function Target(b: Body): string {
    match b
    case AddElement(e) => e.id
    case RemoveElement(id, _) => id
    case UpdateElement(id, _, _) => id
  }

  /** The operation that undoes `op`, with id, seqNum and timestamp left for
      the caller to stamp. */
  function Invert(op: Op): (r: Draft)
    ensures r.boardToken == op.boardToken && r.owner == op.owner
    ensures op.body.AddElement? ==>
      r.body.RemoveElement? && r.body.elementId == op.body.element.id && r.body.removedElement == op.body.element
    ensures op.body.RemoveElement? ==>
      r.body.AddElement? && r.body.element == op.body.removedElement
    ensures op.body.UpdateElement? ==>
      && r.body.UpdateElement? && r.body.elementId == op.body.elementId
      && r.body.changes == op.body.previousState && r.body.previousState == op.body.changes
  {
    match op.body
    case AddElement(e) => Draft(op.boardToken, op.owner, RemoveElement(e.id, e))
    case RemoveElement(_, removed) => Draft(op.boardToken, op.owner, AddElement(removed))
    case UpdateElement(id, changes, prev) => Draft(op.boardToken, op.owner, UpdateElement(id, prev, changes))
  }

  /** Applies one operation: an add inserts or overwrites by id, a remove
      deletes by id (nothing when absent), an update merges its changes into
      the element (nothing when absent). No other key is touched. */
  function Apply(m: Elements, op: Op): (r: Elements)
    ensures forall k :: k != Target(op.body) ==> (k in r <==> k in m)
    ensures forall k :: k in r && k != Target(op.body) ==> r[k] == m[k]
    ensures op.body.AddElement? ==> op.body.element.id in r && r[op.body.element.id] == op.body.element
    ensures op.body.RemoveElement? ==> op.body.elementId !in r
    ensures op.body.UpdateElement? ==> (op.body.elementId in r <==> op.body.elementId in m)
    ensures op.body.UpdateElement? && op.body.elementId in m ==>
      r[op.body.elementId] == Merge(m[op.body.elementId], op.body.changes)
  {
    match op.body
    case AddElement(e) => m[e.id := e]
    case RemoveElement(id, _) => m - {id}
    case UpdateElement(id, changes, _) =>
      if id in m then m[id := Merge(m[id], changes)] else m
  }

  /** An operation that does not rename its target: adds and removes always
      qualify, an update when its changes name no id or the target's own. The
      server accepts updates from the socket without checking this. */
  predicate KeepsId(b: Body) {
    b.UpdateElement? ==> b.changes.id.None? || b.changes.id.value == b.elementId
  }

  /** Applying an operation that keeps ids keeps every element stored under
      its own id. */
  lemma ApplyKeepsIdKeyed(m: Elements, op: Op)
    requires IdKeyed(m) && KeepsId(op.body)
    ensures IdKeyed(Apply(m, op))
  {
  }

  /** An update whose changes name another id stores the merged element
      under the old id while the element itself carries the new one. */
  lemma RenamingUpdateBreaksIdKeyed()
    ensures var e := Element("a", 0, map[]);
      var op := Op("o", "t", "u", 0, 1, UpdateElement("a", Patch(Some("b"), None, map[]), Patch(Some("a"), None, map[])));
      && IdKeyed(map["a" := e])
      && !KeepsId(op.body)
      && !IdKeyed(Apply(map["a" := e], op))
  {
    var e := Element("a", 0, map[]);
    var op := Op("o", "t", "u", 0, 1, UpdateElement("a", Patch(Some("b"), None, map[]), Patch(Some("a"), None, map[])));
    assert Apply(map["a" := e], op)["a"].id == "b";
  }

  /** Every stored element is well formed. */
  ghost predicate AllWellFormed(m: Elements) {
    forall k :: k in m ==> WellFormed(m[k])
  }

  /** The element an add carries, or the changes an update carries, hold
      neither of the two fields stored apart. */
  ghost predicate WellFormedBody(b: Body) {
    && (b.AddElement? ==> WellFormed(b.element))
    && (b.UpdateElement? ==> "id" !in b.changes.fields && "zIndex" !in b.changes.fields)
  }

  /** Applying a well-formed operation keeps every stored element well
      formed. */
  lemma ApplyKeepsWellFormed(m: Elements, op: Op)
    requires AllWellFormed(m) && WellFormedBody(op.body)
    ensures AllWellFormed(Apply(m, op))
  {
    if op.body.UpdateElement? && op.body.elementId in m {
      MergeKeepsWellFormed(m[op.body.elementId], op.body.changes);
    }
  }

  /** Folds `Apply` over `ops` in list order. */
  function ApplyAll(m: Elements, ops: seq<Op>): Elements
    decreases |ops|
  {
    if |ops| == 0 then m else Apply(ApplyAll(m, ops[..|ops| - 1]), ops[|ops| - 1])
  }

  /** The map built by setting each element of `base` under its id, in
      list order. */
  function InsertAll(base: seq<Element>): Elements
    decreases |base|
  {
    if |base| == 0 then map[]
    else InsertAll(base[..|base| - 1])[base[|base| - 1].id := base[|base| - 1]]
  }

  /** The keys of `InsertAll(base)` are exactly the ids in `base`. */
  lemma {:induction false} InsertAllKeys(base: seq<Element>)
    ensures forall k :: k in InsertAll(base) <==> exists i :: 0 <= i < |base| && base[i].id == k
    decreases |base|
  {
    if |base| > 0 {
      var init := base[..|base| - 1];
      InsertAllKeys(init);
      forall k | k in InsertAll(base)
        ensures exists i :: 0 <= i < |base| && base[i].id == k
      {
        if k != base[|base| - 1].id {
          assert InsertAll(base) == InsertAll(init)[base[|base| - 1].id := base[|base| - 1]];
          assert k in InsertAll(init);
          var i :| 0 <= i < |init| && init[i].id == k;
          assert base[i] == init[i];
        }
      }
      forall k | exists i :: 0 <= i < |base| && base[i].id == k
        ensures k in InsertAll(base)
      {
        var i :| 0 <= i < |base| && base[i].id == k;
        if i < |init| {
          assert init[i] == base[i];
        }
      }
    }
  }

  /** In `InsertAll(base)` an element is stored under its id unless a later
      element of `base` has the same id: the later one wins. */
  lemma {:induction false} InsertAllLastWins(base: seq<Element>, i: int)
    requires 0 <= i < |base|
    requires forall j :: i < j < |base| ==> base[j].id != base[i].id
    ensures base[i].id in InsertAll(base) && InsertAll(base)[base[i].id] == base[i]
    decreases |base|
  {
    if i < |base| - 1 {
      var init := base[..|base| - 1];
      forall j | i < j < |init| ensures init[j].id != init[i].id {
        assert init[j] == base[j];
      }
      InsertAllLastWins(init, i);
    }
  }

  /** `reconstructState`: insert the base elements by id, then apply the
      operations in list order. */
  method ReconstructState(base: seq<Element>, ops: seq<Op>) returns (r: Elements)
    ensures r == ApplyAll(InsertAll(base), ops)
    ensures |base| == 0 && |ops| == 0 ==> r == map[]
  {
    r := map[];
    var i := 0;
    while i < |base|
      invariant 0 <= i <= |base|
      invariant r == InsertAll(base[..i])
    {
      assert base[..i + 1][..i] == base[..i];
      r := r[base[i].id := base[i]];
      i := i + 1;
    }
    assert base[..|base|] == base;
    var start := r;
    i := 0;
    while i < |ops|
      invariant 0 <= i <= |ops|
      invariant r == ApplyAll(start, ops[..i])
    {
      assert ops[..i + 1][..i] == ops[..i];
      r := Apply(r, ops[i]);
      i := i + 1;
    }
    assert ops[..|ops|] == ops;
  }

  /** Replaying `a` and then `b` is replaying `a + b`. */
  lemma {:induction false} ApplyAllAppend(m: Elements, a: seq<Op>, b: seq<Op>)
    ensures ApplyAll(ApplyAll(m, a), b) == ApplyAll(m, a + b)
    decreases |b|
  {
    if |b| > 0 {
      assert (a + b)[..|a + b| - 1] == a + b[..|b| - 1];
      ApplyAllAppend(m, a, b[..|b| - 1]);
    } else {
      assert a + b == a;
    }
  }

  /** Inverting twice (re-stamped in between) gives back the operation's
      board, owner and body; for a remove this needs the removed element to
      carry the removed id, as every remove the server's undo builds from an
      add does. */
  lemma InvertTwice(op: Op, id: string, seqNum: int, timestamp: int)
    requires op.body.RemoveElement? ==> op.body.elementId == op.body.removedElement.id
    ensures Invert(Stamp(Invert(op), id, seqNum, timestamp)) == Unstamped(op)
  {
  }

  /** Adding an element whose id was absent and then applying the re-stamped
      inverse restores the collection. */
  lemma UndoAddRestores(m: Elements, op: Op, id: string, seqNum: int, timestamp: int)
    requires op.body.AddElement? && op.body.element.id !in m
    ensures Apply(Apply(m, op), Stamp(Invert(op), id, seqNum, timestamp)) == m
  {
    var e := op.body.element;
    assert Apply(m, op) == m[e.id := e];
    assert m[e.id := e] - {e.id} == m;
  }

  /** Removing a present element (whose copy the remove carries) and then
      applying the re-stamped inverse restores the collection. */
  lemma UndoRemoveRestores(m: Elements, op: Op, id: string, seqNum: int, timestamp: int)
    requires op.body.RemoveElement?
    requires op.body.elementId in m && m[op.body.elementId] == op.body.removedElement
    requires op.body.removedElement.id == op.body.elementId
    ensures Apply(Apply(m, op), Stamp(Invert(op), id, seqNum, timestamp)) == m
  {
    var k := op.body.elementId;
    assert (m - {k})[k := m[k]] == m;
  }

  /** Updating a present element whose previous values the update recorded,
      and then applying the re-stamped inverse, restores the collection. */
  lemma UndoUpdateRestores(m: Elements, op: Op, id: string, seqNum: int, timestamp: int)
    requires op.body.UpdateElement? && op.body.elementId in m
    requires Records(op.body.previousState, op.body.changes, m[op.body.elementId])
    ensures Apply(Apply(m, op), Stamp(Invert(op), id, seqNum, timestamp)) == m
  {
    var k := op.body.elementId;
    MergeRestores(m[k], op.body.changes, op.body.previousState);
    assert m[k := Merge(m[k], op.body.changes)][k := m[k]] == m;
  }
}
