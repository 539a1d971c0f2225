/**
 * The traversal of disclosure.go: recursion over JSON with shared `used` and `referenced` sets, visiting the
 * properties of an object in no particular order.
 */
module DisclosureProcessing {
  import opened Common
  import opened Text
  import opened Disclosure

  // ---------------------------------------------------------------- lists of paths

  ghost function Pick(m: map<string, string>): (d: string)
    requires m != map[]
    ensures d in m
  {
    var d :| d in m;
    d
  }

  /** The values of a map, as often as each occurs. */
  ghost function ValuesOf(m: map<string, string>): multiset<string>
    decreases m.Keys
  {
    if m == map[] then multiset{}
    else
      var d := Pick(m);
      assert (m - {d}).Keys == m.Keys - {d};
      ValuesOf(m - {d}) + multiset{m[d]}
  }

  lemma {:induction false} ValuesCount(m: map<string, string>)
    ensures |ValuesOf(m)| == |m|
    decreases m.Keys
  {
    if m != map[] {
      var d := Pick(m);
      assert (m - {d}).Keys == m.Keys - {d};
      ValuesCount(m - {d});
    }
  }

  lemma {:induction false} ValuesRemove(m: map<string, string>, d: string)
    requires d in m
    ensures ValuesOf(m) == ValuesOf(m - {d}) + multiset{m[d]}
    decreases m.Keys
  {
    var c := Pick(m);
    if c != d {
      var mc, md := m - {c}, m - {d};
      assert mc.Keys == m.Keys - {c} && md.Keys == m.Keys - {d};
      assert mc - {d} == md - {c};
      ValuesRemove(mc, d);
      ValuesRemove(md, c);
    }
  }

  /** One more applied disclosure adds its path. */
  lemma ValuesAdd(m: map<string, string>, d: string, path: string)
    requires d !in m
    ensures ValuesOf(m + map[d := path]) == ValuesOf(m) + multiset{path}
  {
    ValuesRemove(m + map[d := path], d);
    assert m + map[d := path] - {d} == m;
  }

  // ---------------------------------------------------------------- what a traversal has done so far

  /** The digests referenced so far, and where each disclosure applied so far went. */
  datatype Track = Track(referenced: set<string>, applied: map<string, string>)

  ghost function Grow(t: Track, refs: set<string>, applied: map<string, string>): Track {
    Track(t.referenced + refs, t.applied + applied)
  }

  /** None of these digests has been referenced. */
  ghost predicate Fresh(refs: set<string>, t: Track) {
    refs !! t.referenced
  }

  /** The supplied disclosures that have not been referenced, hence not used. */
  ghost function Unused(supplied: set<string>, t: Track): nat {
    |supplied - t.referenced|
  }

  lemma GrowNothing(t: Track)
    ensures Grow(t, {}, map[]) == t && Fresh({}, t)
  {
  }

  lemma GrowTwice(t: Track, refs: set<string>, applied: map<string, string>, refs': set<string>, applied': map<string, string>)
    ensures Grow(Grow(t, refs, applied), refs', applied') == Grow(t, refs + refs', applied + applied')
    ensures Fresh(refs', Grow(t, refs, applied)) <==> Fresh(refs', t) && refs !! refs'
    ensures Fresh(refs + refs', t) <==> Fresh(refs, t) && Fresh(refs', t)
  {
    assert (t.referenced + refs) + refs' == t.referenced + (refs + refs');
    assert (t.applied + applied) + applied' == t.applied + (applied + applied');
  }

  lemma GrowUnused(supplied: set<string>, t: Track, refs: set<string>, applied: map<string, string>)
    ensures Unused(supplied, Grow(t, refs, applied)) <= Unused(supplied, t)
  {
    var small, big := supplied - (t.referenced + refs), supplied - t.referenced;
    assert big == small + (big - small);
    assert |big| == |small| + |big - small|;
  }

  lemma ReferenceOne(supplied: set<string>, t: Track, d: string)
    requires d in supplied && d !in t.referenced
    ensures Unused(supplied, Grow(t, {d}, map[])) < Unused(supplied, t)
    ensures (t.referenced + {d}) * supplied == t.referenced * supplied + {d}
    ensures d !in t.referenced * supplied
    ensures Track(t.referenced + {d}, t.applied) == Grow(t, {d}, map[])
  {
    assert supplied - t.referenced == (supplied - (t.referenced + {d})) + {d};
    assert t.applied + map[] == t.applied;
  }

  lemma SetAside(D: Supplied, above: set<string>, d: string)
    ensures (D - above) - {d} == D - (above + {d})
  {
  }

  // ---------------------------------------------------------------- one round of each loop

  lemma NothingVisited(parts: map<string, Expanded>, keys: set<string>)
    requires parts.Keys <= keys
    ensures Merge(parts - keys) == Done(Obj(map[]), {}, map[])
    ensures Merge(parts - {}) == Merge(parts)
  {
    assert parts - keys == map[] && parts - {} == parts;
    MergeNone();
  }

  lemma VisitSkipped(parts: map<string, Expanded>, remaining: set<string>, k: string)
    requires k !in parts && k in remaining
    ensures Merge(parts - (remaining - {k})) == Merge(parts - remaining)
  {
    assert parts - (remaining - {k}) == parts - remaining;
  }

  /** An expansion that succeeds and may be added to what was done before. */
  ghost predicate Applies(e: Expanded, t: Track) {
    e.Done? && Fresh(e.refs, t)
  }

  /** Visiting one more property in any order: it applies exactly when the properties so far still do, together with it. */
  lemma VisitRound(v: Json, path: string, D: Supplied, remaining: set<string>, k: string, start: Track)
    requires v.Obj? && k in v.fields && k != SD && k != SD_ALG && k in remaining
    requires Applies(Merge(ExpandVisible(v, path, D) - remaining), start)
    ensures var parts, e := ExpandVisible(v, path, D), Expand(v.fields[k], JoinPath(path, k), D);
      var before, after := Merge(parts - remaining), Merge(parts - (remaining - {k}));
      var now := Grow(start, before.refs, before.applied);
      if Applies(e, now) then
        && Applies(after, start)
        && Grow(now, e.refs, e.applied) == Grow(start, after.refs, after.applied)
        && after.value.fields == before.value.fields[k := e.value]
      else !Applies(Merge(parts), start)
  {
    var parts := ExpandVisible(v, path, D);
    var e := Expand(v.fields[k], JoinPath(path, k), D);
    assert parts[k] == e && AppliedWithin(parts);
    var done := parts - remaining;
    assert parts - (remaining - {k}) == done[k := e];
    MergeOne(done, k, e);
    MergeSome(done[k := e], parts);
    if e.Done? {
      GrowTwice(start, Merge(done).refs, Merge(done).applied, e.refs, e.applied);
      if Separate(done[k := e]) {
        MergeOnePaths(done, k, e);
      }
    }
  }

  ghost predicate NamedApplies(e: Named, t: Track, fields: map<string, Json>) {
    e.NamedDone? && Fresh(e.refs, t) && e.fields.Keys !! fields.Keys
  }

  lemma {:induction false} NamedStep(entries: seq<Json>, i: nat, path: string, D: Supplied)
    requires i < |entries|
    ensures ExpandNamed(entries[..i + 1], path, D) ==
            JoinNamed(ExpandNamed(entries[..i], path, D), ExpandEntry(entries[i], path, D))
    ensures var whole, part := ExpandNamed(entries, path, D), ExpandNamed(entries[..i + 1], path, D);
      whole.NamedDone? ==> part.NamedDone? && part.refs <= whole.refs && part.fields.Keys <= whole.fields.Keys
    decreases |entries|
  {
    assert entries[..i + 1][..i] == entries[..i];
    var n := |entries| - 1;
    if i == n {
      assert entries[..i + 1] == entries;
    } else {
      assert entries[..n][..i + 1] == entries[..i + 1] && entries[..n][..i] == entries[..i];
      NamedStep(entries[..n], i, path, D);
    }
  }

  lemma NamedStart(entries: seq<Json>, path: string, D: Supplied, t: Track, fields: map<string, Json>)
    ensures ExpandNamed(entries[..0], path, D) == NamedDone(map[], {}, map[])
    ensures NamedApplies(NamedDone(map[], {}, map[]), t, fields) && fields + map[] == fields
    ensures entries[..|entries|] == entries
  {
    assert entries[..|entries|] == entries;
  }

  /** One more entry of an `_sd` list. */
  lemma NamedRound(entries: seq<Json>, i: nat, path: string, D: Supplied, start: Track, fields: map<string, Json>)
    requires i < |entries| && NamedApplies(ExpandNamed(entries[..i], path, D), start, fields)
    ensures var e := ExpandEntry(entries[i], path, D);
      var before, after := ExpandNamed(entries[..i], path, D), ExpandNamed(entries[..i + 1], path, D);
      var now := Grow(start, before.refs, before.applied);
      if NamedApplies(e, now, fields + before.fields) then
        && NamedApplies(after, start, fields)
        && Grow(now, e.refs, e.applied) == Grow(start, after.refs, after.applied)
        && (fields + before.fields) + e.fields == fields + after.fields
      else !NamedApplies(ExpandNamed(entries, path, D), start, fields)
  {
    hide ExpandNamed, ExpandEntry;
    NamedStep(entries, i, path, D);
    var e, before := ExpandEntry(entries[i], path, D), ExpandNamed(entries[..i], path, D);
    if e.NamedDone? {
      GrowTwice(start, before.refs, before.applied, e.refs, e.applied);
    }
  }

  ghost predicate ItemsApply(e: Items, t: Track) {
    e.ItemsDone? && Fresh(e.refs, t)
  }

  lemma {:induction false} ItemStep(items: seq<Json>, i: nat, path: string, D: Supplied)
    requires i < |items|
    ensures ExpandItems(items[..i + 1], path, D) ==
            JoinItems(ExpandItems(items[..i], path, D), ExpandItem(items[i], ItemPath(path, i), D))
    ensures var whole, part := ExpandItems(items, path, D), ExpandItems(items[..i + 1], path, D);
      whole.ItemsDone? ==> part.ItemsDone? && part.refs <= whole.refs
    decreases |items|
  {
    assert items[..i + 1][..i] == items[..i];
    var n := |items| - 1;
    if i == n {
      assert items[..i + 1] == items;
    } else {
      assert items[..n][..i + 1] == items[..i + 1] && items[..n][..i] == items[..i];
      ItemStep(items[..n], i, path, D);
    }
  }

  lemma ItemsStart(items: seq<Json>, path: string, D: Supplied, t: Track)
    ensures ExpandItems(items[..0], path, D) == ItemsDone([], {}, map[]) && ItemsApply(ItemsDone([], {}, map[]), t)
    ensures items[..|items|] == items
  {
  }

  /** One more element of an array. */
  lemma ItemRound(items: seq<Json>, i: nat, path: string, D: Supplied, start: Track)
    requires i < |items| && ItemsApply(ExpandItems(items[..i], path, D), start)
    ensures var e := ExpandItem(items[i], ItemPath(path, i), D);
      var before, after := ExpandItems(items[..i], path, D), ExpandItems(items[..i + 1], path, D);
      var now := Grow(start, before.refs, before.applied);
      if ItemsApply(e, now) then
        && ItemsApply(after, start) && after.items == before.items + e.items
        && Grow(now, e.refs, e.applied) == Grow(start, after.refs, after.applied)
      else !ItemsApply(ExpandItems(items, path, D), start)
  {
    hide ExpandItems, ExpandItem;
    ItemStep(items, i, path, D);
    var e, before := ExpandItem(items[i], ItemPath(path, i), D), ExpandItems(items[..i], path, D);
    if e.ItemsDone? {
      GrowTwice(start, before.refs, before.applied, e.refs, e.applied);
    }
  }

  /** The `_sd` list after the visible properties. */
  lemma ObjectRound(v: Json, path: string, D: Supplied, start: Track)
    requires v.Obj? && SD in v.fields && v.fields[SD].Arr?
    ensures var visible, named := Merge(ExpandVisible(v, path, D)), ExpandNamed(v.fields[SD].items, path, D);
      var all := ExpandObject(v, path, D);
      if !Applies(visible, start) then !Applies(all, start)
      else
        var now := Grow(start, visible.refs, visible.applied);
        if NamedApplies(named, now, visible.value.fields) then
          && Applies(all, start) && all.value == Obj(visible.value.fields + named.fields)
          && Grow(now, named.refs, named.applied) == Grow(start, all.refs, all.applied)
        else !Applies(all, start)
  {
    hide ExpandVisible, ExpandNamed, Merge;
    var visible, named := Merge(ExpandVisible(v, path, D)), ExpandNamed(v.fields[SD].items, path, D);
    if visible.Done? && named.NamedDone? {
      GrowTwice(start, visible.refs, visible.applied, named.refs, named.applied);
    }
  }

  lemma ObjectWithoutList(v: Json, path: string, D: Supplied)
    requires v.Obj?
    ensures SD !in v.fields ==> ExpandObject(v, path, D) == Merge(ExpandVisible(v, path, D))
    ensures SD in v.fields && !v.fields[SD].Arr? ==> ExpandObject(v, path, D).Failed?
    ensures Merge(ExpandVisible(v, path, D)).Failed? ==> ExpandObject(v, path, D).Failed?
  {
  }

  /** A disclosure applies where its own digest and those inside are fresh. */
  lemma DisclosedRound(d: string, path: string, D: Supplied, start: Track)
    requires d in D && d !in start.referenced
    ensures var sub, all := Expand(D[d].value, path, D - {d}), Disclosed(d, path, D);
      var now := Grow(start, {d}, map[]);
      if Applies(sub, now) then
        && Applies(all, start) && all.value == sub.value
        && Track(Grow(now, sub.refs, sub.applied).referenced, Grow(now, sub.refs, sub.applied).applied + map[d := path]) ==
           Grow(start, all.refs, all.applied)
        && (start.applied.Keys <= start.referenced ==> d !in Grow(now, sub.refs, sub.applied).applied)
      else !Applies(all, start)
  {
    hide Expand;
    var sub := Expand(D[d].value, path, D - {d});
    if sub.Done? {
      GrowTwice(start, {d}, map[], sub.refs, sub.applied);
      assert map[] + sub.applied == sub.applied;
      assert (start.applied + sub.applied) + map[d := path] == start.applied + (sub.applied + map[d := path]);
    }
  }

  lemma EntryReferences(e: Json, path: string, D: Supplied, t: Track, fields: map<string, Json>)
    requires e.Str? && e.s in t.referenced
    ensures !NamedApplies(ExpandEntry(e, path, D), t, fields)
  {
  }

  /** An element that is no placeholder, or a placeholder that is not usable, withheld or disclosed. */
  lemma ItemCases(item: Json, path: string, D: Supplied)
    ensures !Placeholder(item) ==>
      ExpandItem(item, path, D) ==
      (var r := Expand(item, path, D); if r.Failed? then ItemsFailed else ItemsDone([r.value], r.refs, r.applied))
    ensures Placeholder(item) && item.fields[ELLIPSIS].Str? && !Blank(item.fields[ELLIPSIS].s) ==>
      ExpandItem(item, path, D) ==
      (var e := item.fields[ELLIPSIS].s;
       if e !in D then ItemsDone([], {e}, map[])
       else if D[e].kind != ArrayElement then ItemsFailed
       else var r := Disclosed(e, path, D); if r.Failed? then ItemsFailed else ItemsDone([r.value], r.refs, r.applied))
    ensures Placeholder(item) && !(item.fields[ELLIPSIS].Str? && !Blank(item.fields[ELLIPSIS].s)) ==>
      ExpandItem(item, path, D) == ItemsFailed
  {
    hide Expand, Disclosed, Blank;
  }

  lemma ItemReferences(item: Json, path: string, D: Supplied, t: Track)
    requires Placeholder(item) && item.fields[ELLIPSIS].Str? && item.fields[ELLIPSIS].s in t.referenced
    ensures !ItemsApply(ExpandItem(item, path, D), t)
  {
  }

  // ---------------------------------------------------------------- the traversal

  class Processing {
    const disclosures: Supplied
    var used: set<string>
    var referenced: set<string>
    var disclosedPaths: seq<string>
    /** Where each applied disclosure went. */
    ghost var applied: map<string, string>

    constructor (disclosures: Supplied)
      ensures this.disclosures == disclosures && Valid()
      ensures used == {} && referenced == {} && disclosedPaths == [] && applied == map[]
    {
      this.disclosures := disclosures;
      used, referenced, disclosedPaths, applied := {}, {}, [], map[];
    }

    /** A supplied disclosure is used exactly when its digest is referenced; the paths are those of the applied ones. */
    ghost predicate Valid()
      reads this
    {
      && used == referenced * disclosures.Keys
      && applied.Keys <= referenced
      && multiset(disclosedPaths) == ValuesOf(applied)
    }

    ghost function Now(): Track
      reads this
    {
      Track(referenced, applied)
    }

    /** What can still be supplied inside the disclosures that the traversal is nested in. */
    ghost function Available(above: set<string>): Supplied {
      disclosures - above
    }

    /**
     * `processDisclosureValue`. It succeeds exactly when the value expands and references no digest that was
     * referenced before, and then returns the expansion. `above` are the disclosures that the value is nested in.
     */
    method ProcessValue(v: Json, path: string, ghost above: set<string>) returns (r: Option<Json>)
      requires Valid() && above <= referenced
      modifies this
      ensures var e := Expand(v, path, Available(above));
        && (r.Some? <==> Applies(e, old(Now())))
        && (r.Some? ==> r.value == e.value && Valid() && Now() == Grow(old(Now()), e.refs, e.applied))
      decreases Unused(disclosures.Keys, Now()), v, 3
    {
      hide ExpandObject, ExpandItems, ValuesOf, Unused;
      match v {
        case Obj(_) =>
          r := ProcessObject(v, path, above);
        case Arr(items) =>
          r := ProcessArray(items, path, above);
        case _ =>
          GrowNothing(Now());
          r := Some(v);
      }
    }

    /** `processDisclosureObject`. */
    method ProcessObject(v: Json, path: string, ghost above: set<string>) returns (r: Option<Json>)
      requires v.Obj? && Valid() && above <= referenced
      modifies this
      ensures var e := ExpandObject(v, path, Available(above));
        && (r.Some? <==> Applies(e, old(Now())))
        && (r.Some? ==> r.value == e.value && Valid() && Now() == Grow(old(Now()), e.refs, e.applied))
      decreases Unused(disclosures.Keys, Now()), v, 2
    {
      hide ExpandObject, ExpandNamed, ExpandVisible, Merge, Grow, Fresh, ValuesOf, Unused;
      ghost var start, D := Now(), Available(above);
      ObjectWithoutList(v, path, D);
      if SD in v.fields && v.fields[SD].Arr? {
        ObjectRound(v, path, D, start);
      }
      var visible := ProcessVisible(v, path, above);
      if visible.None? {
        return None;
      }
      if SD !in v.fields {
        return Some(Obj(visible.value));
      }
      if !v.fields[SD].Arr? {
        return None;
      }
      GrowUnused(disclosures.Keys, start, Merge(ExpandVisible(v, path, D)).refs, Merge(ExpandVisible(v, path, D)).applied);
      AboveGrows(above, start, Merge(ExpandVisible(v, path, D)).refs, Merge(ExpandVisible(v, path, D)).applied);
      var all := ProcessNamed(v.fields[SD].items, path, visible.value, above);
      if all.None? {
        return None;
      }
      return Some(Obj(all.value));
    }

    /** The first loop of `processDisclosureObject`: the visible properties, in whatever order the map yields them. */
    method ProcessVisible(v: Json, path: string, ghost above: set<string>) returns (r: Option<map<string, Json>>)
      requires v.Obj? && Valid() && above <= referenced
      modifies this
      ensures var e := Merge(ExpandVisible(v, path, Available(above)));
        && (r.Some? <==> Applies(e, old(Now())))
        && (r.Some? ==> r.value == e.value.fields && Valid() && Now() == Grow(old(Now()), e.refs, e.applied))
      decreases Unused(disclosures.Keys, Now()), v, 1
    {
      hide Expand, ExpandVisible, Merge, Grow, Fresh, ValuesOf, Unused;
      ghost var start, D := Now(), Available(above);
      ghost var parts := ExpandVisible(v, path, D);
      NothingVisited(parts, v.fields.Keys);
      GrowNothing(start);
      ghost var m := Done(Obj(map[]), {}, map[]);
      var result: map<string, Json> := map[];
      var remaining := v.fields.Keys;
      while remaining != {}
        invariant remaining <= v.fields.Keys
        invariant m == Merge(parts - remaining) && Applies(m, start) && result == m.value.fields
        invariant Valid() && Now() == Grow(start, m.refs, m.applied)
        decreases |remaining|
      {
        var key :| key in remaining;
        if key == SD || key == SD_ALG {
          VisitSkipped(parts, remaining, key);
          remaining := remaining - {key};
          continue;
        }
        VisitRound(v, path, D, remaining, key, start);
        GrowUnused(disclosures.Keys, start, m.refs, m.applied);
        AboveGrows(above, start, m.refs, m.applied);
        remaining := remaining - {key};
        var processed := ProcessValue(v.fields[key], JoinPath(path, key), above);
        if processed.None? {
          return None;
        }
        result := result[key := processed.value];
        m := Merge(parts - remaining);
      }
      return Some(result);
    }

    /** The second loop of `processDisclosureObject`: the digests of `_sd`, in order. */
    method ProcessNamed(entries: seq<Json>, path: string, visible: map<string, Json>, ghost above: set<string>)
      returns (r: Option<map<string, Json>>)
      requires Valid() && above <= referenced
      modifies this
      ensures var e := ExpandNamed(entries, path, Available(above));
        && (r.Some? <==> NamedApplies(e, old(Now()), visible))
        && (r.Some? ==> r.value == visible + e.fields && Valid() && Now() == Grow(old(Now()), e.refs, e.applied))
      decreases Unused(disclosures.Keys, Now()), entries, 0
    {
      hide ExpandNamed, ExpandEntry, NamedApplies, Grow, Fresh, ValuesOf, Unused;
      ghost var start, D := Now(), Available(above);
      NamedStart(entries, path, D, start, visible);
      GrowNothing(start);
      var result := visible;
      ghost var named := NamedDone(map[], {}, map[]);
      for i := 0 to |entries|
        invariant named == ExpandNamed(entries[..i], path, D) && named.NamedDone?
        invariant NamedApplies(named, start, visible) && result == visible + named.fields
        invariant Valid() && Now() == Grow(start, named.refs, named.applied)
      {
        NamedRound(entries, i, path, D, start, visible);
        GrowUnused(disclosures.Keys, start, named.refs, named.applied);
        AboveGrows(above, start, named.refs, named.applied);
        var more := ProcessEntry(entries[i], path, result, above);
        if more.None? {
          return None;
        }
        result := more.value;
        named := ExpandNamed(entries[..i + 1], path, D);
        AppliesMeansDone(named, start, visible);
      }
      return Some(result);
    }

    /** One round of that loop. */
    method ProcessEntry(entry: Json, path: string, result: map<string, Json>, ghost above: set<string>)
      returns (r: Option<map<string, Json>>)
      requires Valid() && above <= referenced
      modifies this
      ensures var e := ExpandEntry(entry, path, Available(above));
        && (r.Some? <==> NamedApplies(e, old(Now()), result))
        && (r.Some? ==> e.NamedDone? && r.value == result + e.fields && Valid() && Now() == Grow(old(Now()), e.refs, e.applied))
      decreases Unused(disclosures.Keys, Now()), entry, 1
    {
      hide Disclosed, ValuesOf, Unused;
      if !entry.Str? || Blank(entry.s) {
        return None;
      }
      var digest := entry.s;
      if digest in referenced {
        EntryReferences(entry, path, Available(above), Now(), result);
        return None;
      }
      if digest !in disclosures {
        referenced := referenced + {digest};
        return Some(result);
      }
      var disclosure := disclosures[digest];
      if disclosure.kind != ObjectProperty {
        return None;
      }
      if disclosure.name in result {
        return None;
      }
      var processed := ProcessDisclosed(digest, JoinPath(path, disclosure.name), entry, above);
      if processed.None? {
        return None;
      }
      return Some(result[disclosure.name := processed.value]);
    }

    /** Shared by both: marks a digest, found in `holder`, as referenced and used, expands it and records its path. */
    method ProcessDisclosed(digest: string, disclosedPath: string, ghost holder: Json, ghost above: set<string>)
      returns (r: Option<Json>)
      requires Valid() && above <= referenced && digest in disclosures && digest !in referenced
      modifies this
      ensures var e := Disclosed(digest, disclosedPath, Available(above));
        && (r.Some? <==> Applies(e, old(Now())))
        && (r.Some? ==> r.value == e.value && Valid() && Now() == Grow(old(Now()), e.refs, e.applied))
      decreases Unused(disclosures.Keys, Now()), holder, 0
    {
      hide Expand, Disclosed, Fresh, ValuesOf, Unused;
      ghost var start := Now();
      ReferenceOne(disclosures.Keys, start, digest);
      SetAside(disclosures, above, digest);
      DisclosedRound(digest, disclosedPath, Available(above), start);
      referenced := referenced + {digest};
      if digest in used {
        return None;
      }
      used := used + {digest};
      r := ProcessValue(disclosures[digest].value, disclosedPath, above + {digest});
      if r.Some? {
        ValuesAdd(applied, digest, disclosedPath);
        disclosedPaths := disclosedPaths + [disclosedPath];
        applied := applied + map[digest := disclosedPath];
      }
    }

    /** `processDisclosureArray`. */
    method ProcessArray(items: seq<Json>, path: string, ghost above: set<string>) returns (r: Option<Json>)
      requires Valid() && above <= referenced
      modifies this
      ensures var e := ExpandItems(items, path, Available(above));
        && (r.Some? <==> ItemsApply(e, old(Now())))
        && (r.Some? ==> r.value == Arr(e.items) && Valid() && Now() == Grow(old(Now()), e.refs, e.applied))
      decreases Unused(disclosures.Keys, Now()), items, 0
    {
      hide ExpandItems, ExpandItem, Grow, Fresh, ValuesOf, Unused;
      ghost var start, D := Now(), Available(above);
      ItemsStart(items, path, D, start);
      GrowNothing(start);
      var result: seq<Json> := [];
      ghost var done := ItemsDone([], {}, map[]);
      for i := 0 to |items|
        invariant done == ExpandItems(items[..i], path, D)
        invariant ItemsApply(done, start) && result == done.items
        invariant Valid() && Now() == Grow(start, done.refs, done.applied)
      {
        ItemRound(items, i, path, D, start);
        GrowUnused(disclosures.Keys, start, done.refs, done.applied);
        AboveGrows(above, start, done.refs, done.applied);
        var more := ProcessItem(items[i], ItemPath(path, i), above);
        if more.None? {
          return None;
        }
        result := result + more.value;
        done := ExpandItems(items[..i + 1], path, D);
      }
      return Some(Arr(result));
    }

    /** One round of its loop: the elements it appends, one or none. */
    method ProcessItem(item: Json, elementPath: string, ghost above: set<string>) returns (r: Option<seq<Json>>)
      requires Valid() && above <= referenced
      modifies this
      ensures var e := ExpandItem(item, elementPath, Available(above));
        && (r.Some? <==> ItemsApply(e, old(Now())))
        && (r.Some? ==> r.value == e.items && Valid() && Now() == Grow(old(Now()), e.refs, e.applied))
      decreases Unused(disclosures.Keys, Now()), item, 4
    {
      hide Expand, ExpandItem, Disclosed, ValuesOf, Unused, Blank;
      ItemCases(item, elementPath, Available(above));
      var processed: Option<Json>;
      if Placeholder(item) {
        var rawDigest := item.fields[ELLIPSIS];
        if !rawDigest.Str? || Blank(rawDigest.s) {
          return None;
        }
        var digest := rawDigest.s;
        if digest in referenced {
          ItemReferences(item, elementPath, Available(above), Now());
          return None;
        }
        if digest !in disclosures {
          referenced := referenced + {digest};
          return Some([]);
        }
        if disclosures[digest].kind != ArrayElement {
          return None;
        }
        processed := ProcessDisclosed(digest, elementPath, item, above);
      } else {
        processed := ProcessValue(item, elementPath, above);
      }
      return if processed.None? then None else Some([processed.value]);
    }
  }

  lemma AboveGrows(above: set<string>, t: Track, refs: set<string>, applied: map<string, string>)
    requires above <= t.referenced
    ensures above <= Grow(t, refs, applied).referenced
  {
  }

  lemma AppliesMeansDone(e: Named, t: Track, fields: map<string, Json>)
    requires NamedApplies(e, t, fields)
    ensures e.NamedDone?
  {
  }
}
