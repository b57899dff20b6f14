/** Board elements (shared/src/types/board-element.ts) and the partial
    elements that updates carry. */
module Elements {
  import opened Wrappers

  datatype Point = Point(x: int, y: int)

  /** The value of one element field. */
  datatype Value = Str(s: string) | Num(n: int) | Points(pts: seq<Point>)

  /** A stroke or text element. The engine reads only `id` and `zIndex`;
      every other field (`type`, `owner`, `createdAt`, `points`, `color`,
      `width`, `x`, `y`, `content`, `fontSize`, `fontFamily`) is an entry of
      `fields`, keyed by its field name. The keys "id" and "zIndex" never
      occur in `fields`: those two fields live only in `id` and `zIndex`
      (see `WellFormed`). */
  datatype Element = Element(id: string, zIndex: int, fields: map<string, Value>)

  /** The field map holds neither of the two fields stored apart. */
  ghost predicate WellFormed(e: Element) {
    "id" !in e.fields && "zIndex" !in e.fields
  }

  /** `Partial<BoardElement>`: any subset of an element's fields. */
  datatype Patch = Patch(id: Option<string>, zIndex: Option<int>, fields: map<string, Value>)

  /** The element id -> element collection of one board. */
  type Elements = map<string, Element>

  /** Every element is stored under its own id. */
  ghost predicate IdKeyed(m: Elements) {
    forall k :: k in m ==> m[k].id == k
  }

  /** `{ ...e, ...p }`: every field the patch names takes the patch's value,
      every other field keeps the element's. */
  function Merge(e: Element, p: Patch): (r: Element)
    ensures r.id == (if p.id.Some? then p.id.value else e.id)
    ensures r.zIndex == (if p.zIndex.Some? then p.zIndex.value else e.zIndex)
    ensures r.fields.Keys == e.fields.Keys + p.fields.Keys
    ensures forall f :: f in p.fields ==> r.fields[f] == p.fields[f]
    ensures forall f :: f in e.fields && f !in p.fields ==> r.fields[f] == e.fields[f]
  {
    Element(p.id.GetOr(e.id), p.zIndex.GetOr(e.zIndex), e.fields + p.fields)
  }

  /** Merging a patch whose field map is well formed keeps an element well
      formed. */
  lemma MergeKeepsWellFormed(e: Element, p: Patch)
    requires WellFormed(e) && "id" !in p.fields && "zIndex" !in p.fields
    ensures WellFormed(Merge(e, p))
  {
  }

  /** Every field `ch` names is also named by `p`. */
  ghost predicate Covers(p: Patch, ch: Patch) {
    && (ch.id.Some? ==> p.id.Some?)
    && (ch.zIndex.Some? ==> p.zIndex.Some?)
    && ch.fields.Keys <= p.fields.Keys
  }

  /** Merging `p`, then `ch`, then `p` again is merging `p` once, when `p`
      names every field `ch` names. */
  lemma MergeAbsorb(v: Element, p: Patch, ch: Patch)
    requires Covers(p, ch)
    ensures Merge(Merge(Merge(v, p), ch), p) == Merge(v, p)
  {
    var a := Merge(v, p);
    var r := Merge(Merge(a, ch), p);
    assert r.fields.Keys == a.fields.Keys;
    forall f | f in a.fields ensures r.fields[f] == a.fields[f] {
      if f !in p.fields {
        assert f !in ch.fields;
      }
    }
    assert r.fields == a.fields;
  }

  /** `prev` holds `e`'s values for exactly the fields `changes` names, as an
      update's `previousState` must for the update to be invertible. */
  ghost predicate Records(prev: Patch, changes: Patch, e: Element) {
    && (prev.id.Some? <==> changes.id.Some?)
    && (prev.id.Some? ==> prev.id.value == e.id)
    && (prev.zIndex.Some? <==> changes.zIndex.Some?)
    && (prev.zIndex.Some? ==> prev.zIndex.value == e.zIndex)
    && prev.fields.Keys == changes.fields.Keys
    && forall f :: f in prev.fields ==> f in e.fields && prev.fields[f] == e.fields[f]
  }

  /** Merging the changes and then the recorded previous values gives back
      the original element. */
  lemma MergeRestores(e: Element, changes: Patch, prev: Patch)
    requires Records(prev, changes, e)
    ensures Merge(Merge(e, changes), prev) == e
  {
    var r := Merge(Merge(e, changes), prev);
    assert r.fields == e.fields by {
      assert r.fields.Keys == e.fields.Keys;
      forall f | f in e.fields
        ensures r.fields[f] == e.fields[f]
      {
        if f in prev.fields {
          assert r.fields[f] == prev.fields[f];
        }
      }
    }
  }
}
