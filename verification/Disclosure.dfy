/**
 * SD-JWT disclosure processing, internal/credential/sdjwtvc/disclosure.go (section 7.1 of RFC 9901).
 * JSON parsing, base64 and the hash are parameters.
 */
module Disclosure {
  import opened Common
  import opened Text

  datatype Json =
    | Null
    | Bool(value: bool)
    | Number(text: string)
    | Str(s: string)
    | Arr(items: seq<Json>)
    | Obj(fields: map<string, Json>)

  datatype Kind = ObjectProperty | ArrayElement

  /** `decodedDisclosure`; `name` is empty for an array element. */
  datatype Decoded = Decoded(kind: Kind, name: string, value: Json)

  type Supplied = map<string, Decoded>

  const SD := "_sd"
  const SD_ALG := "_sd_alg"
  const ELLIPSIS := "..."

  function JoinPath(parent: string, child: string): string {
    if parent == "" then child else parent + "." + child
  }

  function ItemPath(path: string, index: nat): string {
    path + "[" + Decimal(index) + "]"
  }

  // ---------------------------------------------------------------- meaning, without any order of visits

  /**
   * What a JSON value becomes: the processed value, the digests referenced on the way, and the path at which each
   * supplied disclosure was applied.
   */
  datatype Expanded =
    | Failed
    | Done(value: Json, refs: set<string>, applied: map<string, string>)

  /** The visible properties of an object, put together. */
  ghost function Merge(parts: map<string, Expanded>): (r: Expanded)
    ensures r.Done? ==> r.value.Obj? && r.value.fields.Keys == parts.Keys
  {
    if Separate(parts) then
      Done(Obj(map k | k in parts :: if parts[k].Done? then parts[k].value else Null), MergedRefs(parts), MergedPaths(parts))
    else Failed
  }

  /** All parts succeed and no digest is referenced from two of them. */
  ghost predicate Separate(parts: map<string, Expanded>) {
    && (forall k :: k in parts ==> parts[k].Done?)
    && (forall j, k :: j in parts && k in parts && j != k ==> parts[j].refs !! parts[k].refs)
  }

  ghost function MergedRefs(parts: map<string, Expanded>): set<string> {
    set k, d | k in parts && parts[k].Done? && d in parts[k].refs :: d
  }

  ghost function MergedPaths(parts: map<string, Expanded>): map<string, string> {
    map d | d in MergedApplied(parts) :: PathIn(parts, d)
  }

  ghost function MergedApplied(parts: map<string, Expanded>): set<string> {
    set k, d | k in parts && parts[k].Done? && d in parts[k].applied :: d
  }

  ghost function PathIn(parts: map<string, Expanded>, d: string): string
    requires d in MergedApplied(parts)
  {
    var k :| k in parts && parts[k].Done? && d in parts[k].applied;
    parts[k].applied[d]
  }

  /** What one or more entries of an `_sd` list contribute. */
  datatype Named =
    | NamedFailed
    | NamedDone(fields: map<string, Json>, refs: set<string>, applied: map<string, string>)

  /** What one or more elements of an array contribute. */
  datatype Items =
    | ItemsFailed
    | ItemsDone(items: seq<Json>, refs: set<string>, applied: map<string, string>)

  /** Entries after earlier ones: no digest is referenced twice and no property is given twice. */
  function JoinNamed(a: Named, b: Named): Named {
    if a.NamedFailed? || b.NamedFailed? || !(a.refs !! b.refs) || !(a.fields.Keys !! b.fields.Keys) then NamedFailed
    else NamedDone(a.fields + b.fields, a.refs + b.refs, a.applied + b.applied)
  }

  /** Elements after earlier ones: no digest is referenced twice. */
  function JoinItems(a: Items, b: Items): Items {
    if a.ItemsFailed? || b.ItemsFailed? || !(a.refs !! b.refs) then ItemsFailed
    else ItemsDone(a.items + b.items, a.refs + b.refs, a.applied + b.applied)
  }

  ghost function Expand(v: Json, path: string, D: Supplied): (r: Expanded)
    ensures r.Done? ==> r.applied.Keys == r.refs * D.Keys
    decreases |D|, v, 2
  {
    match v
    case Obj(_) => ExpandObject(v, path, D)
    case Arr(items) =>
      var r := ExpandItems(items, path, D);
      if r.ItemsFailed? then Failed else Done(Arr(r.items), r.refs, r.applied)
    case _ => Done(v, {}, map[])
  }

  ghost function ExpandVisible(v: Json, path: string, D: Supplied): (parts: map<string, Expanded>)
    requires v.Obj?
    ensures parts.Keys == v.fields.Keys - {SD, SD_ALG}
    ensures forall k :: k in parts && parts[k].Done? ==> parts[k].applied.Keys == parts[k].refs * D.Keys
    decreases |D|, v, 0
  {
    map k | k in v.fields && k != SD && k != SD_ALG :: Expand(v.fields[k], JoinPath(path, k), D)
  }

  ghost function ExpandObject(v: Json, path: string, D: Supplied): (r: Expanded)
    requires v.Obj?
    ensures r.Done? ==> r.applied.Keys == r.refs * D.Keys
    decreases |D|, v, 1
  {
    var parts := ExpandVisible(v, path, D);
    MergedWithin(parts, D);
    var visible := Merge(parts);
    if visible.Failed? then Failed
    else if SD !in v.fields then visible
    else if !v.fields[SD].Arr? then Failed
    else
      var all := JoinNamed(NamedDone(visible.value.fields, visible.refs, visible.applied),
                           ExpandNamed(v.fields[SD].items, path, D));
      if all.NamedFailed? then Failed else Done(Obj(all.fields), all.refs, all.applied)
  }

  /** The entries of an `_sd` list. */
  ghost function ExpandNamed(entries: seq<Json>, path: string, D: Supplied): (r: Named)
    ensures r.NamedDone? ==> r.applied.Keys == r.refs * D.Keys
    decreases |D|, entries, 0
  {
    if entries == [] then NamedDone(map[], {}, map[])
    else
      var n := |entries| - 1;
      JoinNamed(ExpandNamed(entries[..n], path, D), ExpandEntry(entries[n], path, D))
  }

  /** One digest in an `_sd` list: the property it discloses, or nothing if it was not supplied. */
  ghost function ExpandEntry(e: Json, path: string, D: Supplied): (r: Named)
    ensures r.NamedDone? ==> r.applied.Keys == r.refs * D.Keys
    decreases |D|, e, 0
  {
    if !e.Str? || Blank(e.s) then NamedFailed
    else if e.s !in D then NamedDone(map[], {e.s}, map[])
    else if D[e.s].kind != ObjectProperty then NamedFailed
    else
      var r := Disclosed(e.s, JoinPath(path, D[e.s].name), D);
      if r.Failed? then NamedFailed else NamedDone(map[D[e.s].name := r.value], r.refs, r.applied)
  }

  /** A supplied disclosure applied at a path: its value is expanded, and must not come back to its own digest. */
  ghost function Disclosed(d: string, path: string, D: Supplied): (r: Expanded)
    requires d in D
    ensures r.Done? ==> r.applied.Keys == r.refs * D.Keys
    decreases |D| - 1, D[d].value, 4
  {
    Fewer(D, d);
    var sub := Expand(D[d].value, path, D - {d});
    if sub.Failed? || d in sub.refs then Failed
    else
      AppliedKeys(sub.applied, sub.refs, D, d, path);
      Done(sub.value, {d} + sub.refs, sub.applied + map[d := path])
  }

  predicate Placeholder(item: Json) {
    item.Obj? && |item.fields| == 1 && ELLIPSIS in item.fields
  }

  ghost function ExpandItems(items: seq<Json>, path: string, D: Supplied): (r: Items)
    ensures r.ItemsDone? ==> r.applied.Keys == r.refs * D.Keys
    decreases |D|, items, 0
  {
    if items == [] then ItemsDone([], {}, map[])
    else
      var n := |items| - 1;
      JoinItems(ExpandItems(items[..n], path, D), ExpandItem(items[n], ItemPath(path, n), D))
  }

  /** One element of an array; an undisclosed one leaves no trace in the array. */
  ghost function ExpandItem(item: Json, path: string, D: Supplied): (r: Items)
    ensures r.ItemsDone? ==> r.applied.Keys == r.refs * D.Keys
    decreases |D|, item, 3
  {
    if Placeholder(item) then
      var e := item.fields[ELLIPSIS];
      if !e.Str? || Blank(e.s) then ItemsFailed
      else if e.s !in D then ItemsDone([], {e.s}, map[])
      else if D[e.s].kind != ArrayElement then ItemsFailed
      else
        var r := Disclosed(e.s, path, D);
        if r.Failed? then ItemsFailed else ItemsDone([r.value], r.refs, r.applied)
    else
      var r := Expand(item, path, D);
      if r.Failed? then ItemsFailed else ItemsDone([r.value], r.refs, r.applied)
  }

  lemma AppliedKeys(sub: map<string, string>, subRefs: set<string>, D: Supplied, d: string, path: string)
    requires sub.Keys == subRefs * (D - {d}).Keys && d in D && d !in subRefs
    ensures (sub + map[d := path]).Keys == ({d} + subRefs) * D.Keys
  {
    assert (sub + map[d := path]).Keys == sub.Keys + {d};
  }

  lemma MergedWithin(parts: map<string, Expanded>, D: Supplied)
    requires forall k :: k in parts && parts[k].Done? ==> parts[k].applied.Keys == parts[k].refs * D.Keys
    ensures MergedApplied(parts) == MergedRefs(parts) * D.Keys
  {
    forall d | d in MergedRefs(parts) * D.Keys ensures d in MergedApplied(parts) {
      var k :| k in parts && parts[k].Done? && d in parts[k].refs;
      assert d in parts[k].refs * D.Keys;
      assert d in parts[k].applied;
    }
  }

  lemma Fewer(D: Supplied, d: string)
    requires d in D
    ensures |D - {d}| == |D| - 1
  {
    assert (D - {d}).Keys == D.Keys - {d};
    assert |D.Keys - {d}| == |D.Keys| - 1;
  }

  // ---------------------------------------------------------------- merging one property at a time

  lemma MergeNone()
    ensures Merge(map[]) == Done(Obj(map[]), {}, map[])
  {
  }

  lemma MergeOne(parts: map<string, Expanded>, k: string, e: Expanded)
    requires k !in parts
    ensures Separate(parts[k := e]) <==> Separate(parts) && e.Done? && e.refs !! MergedRefs(parts)
    ensures e.Done? ==> MergedRefs(parts[k := e]) == MergedRefs(parts) + e.refs
    ensures Separate(parts[k := e]) ==>
      Merge(parts[k := e]).value.fields == Merge(parts).value.fields[k := e.value]
  {
    var more := parts[k := e];
    assert more[k] == e;
    assert forall j :: j in parts ==> more[j] == parts[j];
    if Separate(more) {
      forall d | d in MergedRefs(parts) ensures d !in e.refs {
        var j :| j in parts && parts[j].Done? && d in parts[j].refs;
        assert more[j].refs !! more[k].refs;
      }
    }
    if e.Done? {
      forall d ensures d in MergedRefs(more) <==> d in MergedRefs(parts) + e.refs {
        if d in MergedRefs(parts) {
          var j :| j in parts && parts[j].Done? && d in parts[j].refs;
          assert more[j].Done? && d in more[j].refs;
        }
        if d in e.refs {
          assert more[k].Done? && d in more[k].refs;
        }
      }
    }
  }

  /** Only referenced digests are applied. */
  ghost predicate AppliedWithin(parts: map<string, Expanded>) {
    forall k :: k in parts && parts[k].Done? ==> parts[k].applied.Keys <= parts[k].refs
  }

  lemma MergeOnePaths(parts: map<string, Expanded>, k: string, e: Expanded)
    requires k !in parts && Separate(parts[k := e]) && AppliedWithin(parts) && e.Done? && e.applied.Keys <= e.refs
    ensures MergedPaths(parts[k := e]) == MergedPaths(parts) + e.applied
    ensures MergedPaths(parts).Keys !! e.applied.Keys
  {
    var more := parts[k := e];
    assert more[k] == e;
    assert forall j :: j in parts ==> more[j] == parts[j];
    MergeSome(parts, more);
    forall d ensures d in MergedApplied(more) <==> d in MergedApplied(parts) || d in e.applied {
      if d in MergedApplied(parts) {
        var j :| j in parts && parts[j].Done? && d in parts[j].applied;
        assert more[j].Done? && d in more[j].applied;
      }
      if d in e.applied {
        assert more[k].Done? && d in more[k].applied;
      }
    }
    forall d | d in MergedApplied(more) ensures MergedPaths(more)[d] == (MergedPaths(parts) + e.applied)[d] {
      OnePath(more, d);
      if d in MergedApplied(parts) {
        OnePath(parts, d);
      }
    }
    forall d | d in MergedApplied(parts) ensures d !in e.applied {
      var j :| j in parts && parts[j].Done? && d in parts[j].applied;
      assert more[j].refs !! more[k].refs;
    }
  }

  /** A digest is applied in one part only, so its path does not depend on the choice of part. */
  lemma OnePath(parts: map<string, Expanded>, d: string)
    requires Separate(parts) && AppliedWithin(parts) && d in MergedApplied(parts)
    ensures forall j :: j in parts && d in parts[j].applied ==> PathIn(parts, d) == parts[j].applied[d]
  {
    var k :| k in parts && parts[k].Done? && d in parts[k].applied && PathIn(parts, d) == parts[k].applied[d];
    forall j | j in parts && d in parts[j].applied ensures j == k {
      assert d in parts[j].refs && d in parts[k].refs;
    }
  }

  /** A merge of some of the parts succeeds if that of all does, and references no more. */
  lemma MergeSome(some: map<string, Expanded>, parts: map<string, Expanded>)
    requires some.Keys <= parts.Keys && forall k :: k in some ==> some[k] == parts[k]
    ensures Separate(parts) ==> Separate(some)
    ensures MergedRefs(some) <= MergedRefs(parts)
  {
    forall d | d in MergedRefs(some) ensures d in MergedRefs(parts) {
      var k :| k in some && some[k].Done? && d in some[k].refs;
      assert parts[k].Done? && d in parts[k].refs;
    }
  }
}
