/**
 * Property names in a processed payload. Section 7.1 of RFC 9901 has a disclosure whose name is `_sd` or `...` rejected;
 * `ApplyDisclosures` accepts it. This is which names are then left in the payload, for every name.
 */
module DisclosureNames {
  import opened Common
  import opened Text
  import opened Disclosure
  import opened DisclosureProcessing
  import opened DisclosureApply
  import opened DisclosureReferences

  /** Some object in the value has a property of this name. */
  predicate HasName(v: Json, name: string) {
    match v
    case Obj(fields) => name in fields || exists k :: k in fields && HasName(fields[k], name)
    case Arr(items) => exists i :: 0 <= i < |items| && HasName(items[i], name)
    case _ => false
  }

  predicate FieldsHave(fields: map<string, Json>, name: string) {
    name in fields || exists k :: k in fields && HasName(fields[k], name)
  }

  predicate ItemsHave(items: seq<Json>, name: string) {
    exists i :: 0 <= i < |items| && HasName(items[i], name)
  }

  /** The names that processing skips, with all they hold, wherever they are visible. */
  predicate Skipped(name: string) {
    name == SD || name == SD_ALG
  }

  /** A visible property of this name: not below a skipped one, and not the `...` of an array placeholder. */
  predicate ShowsName(v: Json, name: string)
    decreases v, 0
  {
    match v
    case Obj(fields) => exists k :: k in fields && !Skipped(k) && (k == name || ShowsName(fields[k], name))
    case Arr(items) => exists i :: 0 <= i < |items| && ItemShows(items[i], name)
    case _ => false
  }

  predicate ItemShows(item: Json, name: string)
    decreases item, 1
  {
    !Placeholder(item) && ShowsName(item, name)
  }

  /** A disclosure brings the name: as its own, or visible in its value. */
  predicate Brings(d: Decoded, name: string) {
    (d.kind.ObjectProperty? && d.name == name) || ShowsName(d.value, name)
  }

  /** One of these disclosures brings the name. */
  ghost predicate Gives(applied: set<string>, D: Supplied, name: string) {
    exists d :: d in applied && d in D && Brings(D[d], name)
  }

  lemma GivesUnion(a: set<string>, b: set<string>, D: Supplied, name: string)
    ensures Gives(a + b, D, name) <==> Gives(a, D, name) || Gives(b, D, name)
  {
    hide Brings;
  }

  lemma GivesNothing(D: Supplied, name: string)
    ensures var none: map<string, string> := map[]; !Gives(none.Keys, D, name)
  {
  }

  lemma GivesOne(d: string, D: Supplied, name: string)
    requires d in D
    ensures Gives({d}, D, name) <==> Brings(D[d], name)
  {
    hide Brings;
  }

  lemma ObjectHas(fields: map<string, Json>, name: string)
    ensures HasName(Obj(fields), name) <==> FieldsHave(fields, name)
  {
  }

  // ---------------------------------------------------------------- values put together

  lemma FieldsTogether(a: map<string, Json>, b: map<string, Json>, name: string)
    requires a.Keys !! b.Keys
    ensures FieldsHave(a + b, name) <==> FieldsHave(a, name) || FieldsHave(b, name)
  {
    hide HasName;
    forall k | k in a ensures (a + b)[k] == a[k] {
    }
  }

  lemma ItemsTogether(a: seq<Json>, b: seq<Json>, name: string)
    ensures ItemsHave(a + b, name) <==> ItemsHave(a, name) || ItemsHave(b, name)
  {
    hide HasName;
    if ItemsHave(a, name) {
      var i :| 0 <= i < |a| && HasName(a[i], name);
      assert (a + b)[i] == a[i];
    }
    if ItemsHave(b, name) {
      var i :| 0 <= i < |b| && HasName(b[i], name);
      assert (a + b)[|a| + i] == b[i];
    }
  }

  lemma HasNothing(name: string)
    ensures !FieldsHave(map[], name) && !ItemsHave([], name)
  {
  }

  lemma HasOne(v: Json, key: string, name: string)
    ensures FieldsHave(map[key := v], name) <==> key == name || HasName(v, name)
    ensures ItemsHave([v], name) <==> HasName(v, name)
  {
    hide HasName;
    assert map[key := v][key] == v && [v][0] == v;
  }

  /** The elements of an array other than the last, and the last. */
  lemma ArrayShows(items: seq<Json>, name: string)
    requires items != []
    ensures ShowsName(Arr(items), name) <==>
      ShowsName(Arr(items[..|items| - 1]), name) || ItemShows(items[|items| - 1], name)
  {
    hide ItemShows;
    var n := |items| - 1;
    assert forall i :: 0 <= i < n ==> items[..n][i] == items[i];
    if ShowsName(Arr(items[..n]), name) {
      var i :| 0 <= i < n && ItemShows(items[..n][i], name);
      assert ItemShows(items[i], name);
    }
    if ShowsName(Arr(items), name) {
      var i :| 0 <= i < |items| && ItemShows(items[i], name);
      assert i < n ==> ItemShows(items[..n][i], name);
    }
  }

  // ---------------------------------------------------------------- what an expansion has

  lemma {:induction false} ValueNames(v: Json, path: string, D: Supplied, name: string)
    requires Expand(v, path, D).Done?
    ensures HasName(Expand(v, path, D).value, name) <==>
      ShowsName(v, name) || Gives(Expand(v, path, D).applied.Keys, D, name)
    decreases |D|, v, 2
  {
    hide Gives, ShowsName;
    match v
    case Obj(fields) =>
      var visible := Merge(ExpandVisible(v, path, D));
      VisibleNames(v, path, D, name);
      if SD in fields {
        var named := ExpandNamed(fields[SD].items, path, D);
        ListNames(fields[SD].items, path, D, name);
        FieldsTogether(visible.value.fields, named.fields, name);
        GivesUnion(visible.applied.Keys, named.applied.Keys, D, name);
        assert (visible.applied + named.applied).Keys == visible.applied.Keys + named.applied.Keys;
      }
    case Arr(items) => ItemsNames(items, path, D, name);
    case _ =>
      GivesNothing(D, name);
      ScalarShowsNothing(v, name);
  }

  lemma ScalarShowsNothing(v: Json, name: string)
    requires !v.Obj? && !v.Arr?
    ensures !ShowsName(v, name)
  {
  }

  lemma {:induction false} VisibleNames(v: Json, path: string, D: Supplied, name: string)
    requires v.Obj? && Merge(ExpandVisible(v, path, D)).Done?
    ensures var merged := Merge(ExpandVisible(v, path, D));
      FieldsHave(merged.value.fields, name) <==> ShowsName(v, name) || Gives(merged.applied.Keys, D, name)
    decreases |D|, v, 0
  {
    hide Gives, ShowsName, HasName, FieldsHave;
    var parts := ExpandVisible(v, path, D);
    forall k | k in parts
      ensures HasName(parts[k].value, name) <==> ShowsName(v.fields[k], name) || Gives(parts[k].applied.Keys, D, name)
    {
      ValueNames(v.fields[k], JoinPath(path, k), D, name);
    }
    PartsTogether(v, parts, D, name);
    assert Merge(parts).applied.Keys == MergedApplied(parts);
  }

  lemma PartsTogether(v: Json, parts: map<string, Expanded>, D: Supplied, name: string)
    requires v.Obj? && parts.Keys == v.fields.Keys - {SD, SD_ALG} && Separate(parts)
    requires forall k :: k in parts ==>
      (HasName(parts[k].value, name) <==> ShowsName(v.fields[k], name) || Gives(parts[k].applied.Keys, D, name))
    ensures FieldsHave(Merge(parts).value.fields, name) <==> ShowsName(v, name) || Gives(MergedApplied(parts), D, name)
  {
    MergedFields(parts);
    PartsGive(parts, D, name);
    hide HasName, Gives, Merge, MergedApplied, Separate;
    var fields := Merge(parts).value.fields;
    forall k | k in parts ensures k in v.fields && !Skipped(k) {
    }
    if ShowsName(v, name) {
      var k :| k in v.fields && !Skipped(k) && (k == name || ShowsName(v.fields[k], name));
      assert k in parts;
    }
    if FieldsHave(fields, name) && name !in fields {
      var k :| k in fields && HasName(fields[k], name);
      assert k in parts;
    }
  }

  lemma MergedFields(parts: map<string, Expanded>)
    requires Separate(parts)
    ensures Merge(parts).Done? && Merge(parts).value.fields.Keys == parts.Keys
    ensures forall k :: k in parts ==> Merge(parts).value.fields[k] == parts[k].value
  {
  }

  lemma PartsGive(parts: map<string, Expanded>, D: Supplied, name: string)
    requires Separate(parts)
    ensures Gives(MergedApplied(parts), D, name) <==> exists k :: k in parts && Gives(parts[k].applied.Keys, D, name)
  {
    hide Brings;
    if Gives(MergedApplied(parts), D, name) {
      var d :| d in MergedApplied(parts) && d in D && Brings(D[d], name);
      var k :| k in parts && parts[k].Done? && d in parts[k].applied;
      assert Gives(parts[k].applied.Keys, D, name);
    }
    if k :| k in parts && Gives(parts[k].applied.Keys, D, name) {
      var d :| d in parts[k].applied.Keys && d in D && Brings(D[d], name);
      assert d in MergedApplied(parts);
    }
  }

  lemma {:induction false} ListNames(entries: seq<Json>, path: string, D: Supplied, name: string)
    requires ExpandNamed(entries, path, D).NamedDone?
    ensures var r := ExpandNamed(entries, path, D);
      FieldsHave(r.fields, name) <==> Gives(r.applied.Keys, D, name)
    decreases |D|, entries, 0
  {
    hide FieldsHave, Gives;
    if entries == [] {
      GivesNothing(D, name);
      HasNothing(name);
    } else {
      var n := |entries| - 1;
      var a, b := ExpandNamed(entries[..n], path, D), ExpandEntry(entries[n], path, D);
      ListNames(entries[..n], path, D, name);
      EntryNames(entries[n], path, D, name);
      FieldsTogether(a.fields, b.fields, name);
      GivesUnion(a.applied.Keys, b.applied.Keys, D, name);
      assert (a.applied + b.applied).Keys == a.applied.Keys + b.applied.Keys;
    }
  }

  lemma {:induction false} EntryNames(e: Json, path: string, D: Supplied, name: string)
    requires ExpandEntry(e, path, D).NamedDone?
    ensures var r := ExpandEntry(e, path, D);
      FieldsHave(r.fields, name) <==> Gives(r.applied.Keys, D, name)
    decreases |D|, e, 0
  {
    hide FieldsHave, Gives;
    if e.s in D {
      var disclosedPath := JoinPath(path, D[e.s].name);
      DisclosedNames(e.s, disclosedPath, D, name);
      HasOne(Disclosed(e.s, disclosedPath, D).value, D[e.s].name, name);
    } else {
      GivesNothing(D, name);
      HasNothing(name);
    }
  }

  /** Below a disclosure applied at some path; its own name, if any, comes on top. */
  lemma {:induction false} DisclosedNames(d: string, path: string, D: Supplied, name: string)
    requires d in D && Disclosed(d, path, D).Done?
    ensures var r := Disclosed(d, path, D);
      HasName(r.value, name) || (D[d].kind.ObjectProperty? && D[d].name == name) <==> Gives(r.applied.Keys, D, name)
    decreases |D| - 1, D[d].value, 4
  {
    hide HasName, Gives, ShowsName, Expand;
    Fewer(D, d);
    var sub := Expand(D[d].value, path, D - {d});
    ValueNames(D[d].value, path, D - {d}, name);
    SetAside(sub.applied.Keys, D, d, name);
    GivesUnion(sub.applied.Keys, {d}, D, name);
    GivesOne(d, D, name);
    assert (sub.applied + map[d := path]).Keys == sub.applied.Keys + {d};
  }

  lemma SetAside(applied: set<string>, D: Supplied, d: string, name: string)
    requires d !in applied
    ensures Gives(applied, D - {d}, name) <==> Gives(applied, D, name)
  {
    hide Brings;
    if Gives(applied, D, name) {
      var e :| e in applied && e in D && Brings(D[e], name);
      assert e in D - {d};
    }
  }

  lemma {:induction false} ItemsNames(items: seq<Json>, path: string, D: Supplied, name: string)
    requires ExpandItems(items, path, D).ItemsDone?
    ensures var r := ExpandItems(items, path, D);
      ItemsHave(r.items, name) <==> ShowsName(Arr(items), name) || Gives(r.applied.Keys, D, name)
    decreases |D|, items, 0
  {
    hide ItemsHave, Gives, ShowsName, ItemShows;
    if items == [] {
      GivesNothing(D, name);
      HasNothing(name);
      EmptyShowsNothing(name);
    } else {
      var n := |items| - 1;
      var a, b := ExpandItems(items[..n], path, D), ExpandItem(items[n], ItemPath(path, n), D);
      ItemsNames(items[..n], path, D, name);
      ItemNames(items[n], ItemPath(path, n), D, name);
      ItemsTogether(a.items, b.items, name);
      ArrayShows(items, name);
      GivesUnion(a.applied.Keys, b.applied.Keys, D, name);
      assert (a.applied + b.applied).Keys == a.applied.Keys + b.applied.Keys;
    }
  }

  lemma EmptyShowsNothing(name: string)
    ensures !ShowsName(Arr([]), name)
  {
  }

  lemma {:induction false} ItemNames(item: Json, path: string, D: Supplied, name: string)
    requires ExpandItem(item, path, D).ItemsDone?
    ensures var r := ExpandItem(item, path, D);
      ItemsHave(r.items, name) <==> ItemShows(item, name) || Gives(r.applied.Keys, D, name)
    decreases |D|, item, 3
  {
    hide ItemsHave, Gives, ShowsName;
    if Placeholder(item) {
      var e := item.fields[ELLIPSIS];
      if e.s in D {
        DisclosedNames(e.s, path, D, name);
        HasOne(Disclosed(e.s, path, D).value, "", name);
      } else {
        GivesNothing(D, name);
        HasNothing(name);
      }
    } else {
      ValueNames(item, path, D, name);
      HasOne(Expand(item, path, D).value, "", name);
    }
  }

  // ---------------------------------------------------------------- what the removal of `_sd_alg` takes away

  /** The disclosures referenced as, or somewhere inside, a property `_sd_alg` that an `_sd` list at the top discloses. */
  ghost function RemovedBy(entries: seq<Json>, D: Supplied): set<string> {
    if entries == [] then {}
    else
      var n := |entries| - 1;
      RemovedBy(entries[..n], D) + RemovedByOne(entries[n], D)
  }

  ghost function RemovedByOne(e: Json, D: Supplied): set<string> {
    if e.Str? && e.s in D && D[e.s].kind.ObjectProperty? && D[e.s].name == SD_ALG then
      set d | d in D && (d == e.s || InsideDisclosed(d, e.s, D) != {})
    else {}
  }

  /** When processing succeeds these are the disclosures applied there. */
  lemma RemovedAreApplied(e: Json, D: Supplied)
    requires e.Str? && e.s in D && D[e.s].kind.ObjectProperty? && D[e.s].name == SD_ALG && Disclosed(e.s, SD_ALG, D).Done?
    ensures RemovedByOne(e, D) == Disclosed(e.s, SD_ALG, D).applied.Keys
  {
    hide Disclosed, InsideDisclosed;
    forall d | d in D
      ensures d in Disclosed(e.s, SD_ALG, D).refs <==> d == e.s || InsideDisclosed(d, e.s, D) != {}
    {
      DisclosedOnce(d, e, Entry(0), SD_ALG, D);
      ReferencedThere(d, e, D);
    }
  }

  lemma ReferencedThere(d: string, e: Json, D: Supplied)
    requires e.Str? && e.s in D
    ensures DigestPlaces(d, e, Entry(0), D) != {} <==> d == e.s || InsideDisclosed(d, e.s, D) != {}
  {
    hide InsideDisclosed;
    if p :| p in InsideDisclosed(d, e.s, D) {
      assert [Entry(0)] + p in Prefixed(Entry(0), InsideDisclosed(d, e.s, D));
    }
    if d == e.s {
      assert [Entry(0)] in DigestPlaces(d, e, Entry(0), D);
    }
  }

  ghost function Removed(payload: map<string, Json>, D: Supplied): set<string> {
    if SD in payload && payload[SD].Arr? then RemovedBy(payload[SD].items, D) else {}
  }

  lemma {:induction false} NothingRemoved(entries: seq<Json>, D: Supplied)
    requires forall d :: d in D && D[d].kind.ObjectProperty? ==> D[d].name != SD_ALG
    ensures RemovedBy(entries, D) == {}
  {
    if entries != [] {
      NothingRemoved(entries[..|entries| - 1], D);
    }
  }

  lemma {:induction false} KeptListNames(entries: seq<Json>, D: Supplied, name: string)
    requires ExpandNamed(entries, "", D).NamedDone?
    ensures var r := ExpandNamed(entries, "", D);
      && RemovedBy(entries, D) <= r.applied.Keys
      && (FieldsHave(r.fields - {SD_ALG}, name) <==> Gives(r.applied.Keys - RemovedBy(entries, D), D, name))
  {
    hide FieldsHave, Gives, ExpandEntry, RemovedByOne;
    if entries == [] {
      var none: map<string, string>, nothing: map<string, Json> := map[], map[];
      assert none.Keys - {} == none.Keys && nothing - {SD_ALG} == nothing;
      GivesNothing(D, name);
      HasNothing(name);
    } else {
      var n := |entries| - 1;
      var a, b := ExpandNamed(entries[..n], "", D), ExpandEntry(entries[n], "", D);
      KeptListNames(entries[..n], D, name);
      KeptEntryNames(entries[n], D, name);
      var ra, rb := RemovedBy(entries[..n], D), RemovedByOne(entries[n], D);
      FieldsTogether(a.fields - {SD_ALG}, b.fields - {SD_ALG}, name);
      assert (a.fields + b.fields) - {SD_ALG} == (a.fields - {SD_ALG}) + (b.fields - {SD_ALG});
      GivesUnion(a.applied.Keys - ra, b.applied.Keys - rb, D, name);
      Apart(a.applied, b.applied, ra, rb);
    }
  }

  lemma Apart(a: map<string, string>, b: map<string, string>, ra: set<string>, rb: set<string>)
    requires a.Keys !! b.Keys && ra <= a.Keys && rb <= b.Keys
    ensures (a + b).Keys - (ra + rb) == (a.Keys - ra) + (b.Keys - rb) && ra + rb <= (a + b).Keys
  {
  }

  lemma KeptEntryNames(e: Json, D: Supplied, name: string)
    requires ExpandEntry(e, "", D).NamedDone?
    ensures var r := ExpandEntry(e, "", D);
      && RemovedByOne(e, D) <= r.applied.Keys
      && (FieldsHave(r.fields - {SD_ALG}, name) <==> Gives(r.applied.Keys - RemovedByOne(e, D), D, name))
  {
    hide FieldsHave, Gives, Disclosed, InsideDisclosed;
    var r := ExpandEntry(e, "", D);
    EntryNames(e, "", D, name);
    var none: map<string, string> := map[];
    GivesNothing(D, name);
    HasNothing(name);
    if e.s in D && D[e.s].name == SD_ALG {
      assert JoinPath("", SD_ALG) == SD_ALG;
      RemovedAreApplied(e, D);
      assert r.fields - {SD_ALG} == map[];
      assert r.applied.Keys - RemovedByOne(e, D) == none.Keys;
    } else {
      assert r.fields - {SD_ALG} == r.fields;
      assert r.applied.Keys - RemovedByOne(e, D) == r.applied.Keys;
    }
  }

  // ---------------------------------------------------------------- the processed payload

  lemma KeptNames(payload: map<string, Json>, D: Supplied, name: string)
    requires Expand(Obj(payload), "", D).Done?
    ensures var e := Expand(Obj(payload), "", D);
      && e.value.Obj? && Removed(payload, D) <= e.applied.Keys
      && (FieldsHave(e.value.fields - {SD_ALG}, name) <==>
            ShowsName(Obj(payload), name) || Gives(e.applied.Keys - Removed(payload, D), D, name))
  {
    hide FieldsHave, Gives, ShowsName, RemovedBy, ExpandVisible, ExpandNamed, Merge;
    var v := Obj(payload);
    var visible := Merge(ExpandVisible(v, "", D));
    VisibleNames(v, "", D, name);
    assert visible.value.fields - {SD_ALG} == visible.value.fields;
    if SD in payload {
      var named := ExpandNamed(payload[SD].items, "", D);
      KeptListNames(payload[SD].items, D, name);
      VisibleApplied(v, "", D);
      KeptTogether(visible.value.fields, named.fields, visible.applied, named.applied, RemovedBy(payload[SD].items, D), D, name);
    } else {
      assert visible.applied.Keys - {} == visible.applied.Keys;
    }
  }

  lemma VisibleApplied(v: Json, path: string, D: Supplied)
    requires v.Obj? && Merge(ExpandVisible(v, path, D)).Done?
    ensures var merged := Merge(ExpandVisible(v, path, D)); merged.applied.Keys <= merged.refs
  {
    MergedWithin(ExpandVisible(v, path, D), D);
  }

  lemma KeptTogether(visible: map<string, Json>, named: map<string, Json>, a: map<string, string>, b: map<string, string>,
                     removed: set<string>, D: Supplied, name: string)
    requires visible.Keys !! named.Keys && SD_ALG !in visible && a.Keys !! b.Keys && removed <= b.Keys
    ensures removed <= (a + b).Keys
    ensures FieldsHave((visible + named) - {SD_ALG}, name) <==>
      FieldsHave(visible, name) || FieldsHave(named - {SD_ALG}, name)
    ensures Gives((a + b).Keys - removed, D, name) <==> Gives(a.Keys, D, name) || Gives(b.Keys - removed, D, name)
  {
    hide FieldsHave, Gives;
    FieldsTogether(visible, named - {SD_ALG}, name);
    assert (visible + named) - {SD_ALG} == visible + (named - {SD_ALG});
    GivesUnion(a.Keys, b.Keys - removed, D, name);
    assert (a + b).Keys - removed == a.Keys + (b.Keys - removed);
  }

  /**
   * A processed payload has a property of some name, at any depth, exactly when the issuer's payload shows it or one of the
   * disclosures brings it, other than those that go with a disclosed `_sd_alg` at the top. It holds for every name.
   */
  lemma NamesLeft(payload: Option<map<string, Json>>, encoded: seq<string>, codec: Codec, name: string)
    requires Applied(payload, encoded, codec).Processed?
    ensures var D := DecodeAll(encoded, codec).value;
      HasName(Obj(Applied(payload, encoded, codec).payload), name) <==>
      ShowsName(Obj(payload.value), name) || Gives(D.Keys - Removed(payload.value, D), D, name)
  {
    hide Expand, DecodeAll, SortStrings, PathList, ShowsName, Gives, HasName, FieldsHave, Removed;
    KeptNames(payload.value, DecodeAll(encoded, codec).value, name);
    ObjectHas(Applied(payload, encoded, codec).payload, name);
  }

  lemma {:induction false} NeverShown(v: Json, name: string)
    requires Skipped(name)
    ensures !ShowsName(v, name)
  {
    match v
    case Obj(fields) =>
      forall k | k in fields ensures !ShowsName(fields[k], name) {
        NeverShown(fields[k], name);
      }
    case Arr(items) =>
      forall i | 0 <= i < |items| ensures !ShowsName(items[i], name) {
        NeverShown(items[i], name);
      }
    case _ =>
  }

  /** `_sd` and `_sd_alg` are left exactly when a disclosure that is not removed has that name itself. */
  lemma SkippedNamesLeft(payload: Option<map<string, Json>>, encoded: seq<string>, codec: Codec, name: string)
    requires Applied(payload, encoded, codec).Processed? && Skipped(name)
    ensures var D := DecodeAll(encoded, codec).value;
      && (HasName(Obj(Applied(payload, encoded, codec).payload), name) <==>
            exists d :: d in D && d !in Removed(payload.value, D) && D[d].kind.ObjectProperty? && D[d].name == name)
      && ((forall d :: d in D && D[d].kind.ObjectProperty? ==> D[d].name != SD_ALG) ==> Removed(payload.value, D) == {})
  {
    var D := DecodeAll(encoded, codec).value;
    NamesLeft(payload, encoded, codec, name);
    hide Applied, DecodeAll, Removed, ShowsName, HasName, RemovedBy;
    NeverShown(Obj(payload.value), name);
    forall d | d in D ensures !ShowsName(D[d].value, name) {
      NeverShown(D[d].value, name);
    }
    if forall d :: d in D && D[d].kind.ObjectProperty? ==> D[d].name != SD_ALG {
      NoneRemoved(payload.value, D);
    }
  }

  lemma NoneRemoved(payload: map<string, Json>, D: Supplied)
    requires forall d :: d in D && D[d].kind.ObjectProperty? ==> D[d].name != SD_ALG
    ensures Removed(payload, D) == {}
  {
    if SD in payload && payload[SD].Arr? {
      NothingRemoved(payload[SD].items, D);
    }
  }

  // ---------------------------------------------------------------- which names are accepted

  /** A payload that conceals one scalar property under any name at all is processed successfully. */
  lemma NameIsAccepted(name: string, salt: string, value: Json, text: string, codec: Codec)
    requires codec.decode(text) == Some([Str(salt), Str(name), value])
    requires TrimSpace(text) == text && text != "" && !Blank(salt) && !Blank(name) && !Blank(codec.digest(text))
    requires !value.Obj? && !value.Arr?
    ensures Applied(Some(map[SD := Arr([Str(codec.digest(text))])]), [text], codec) ==
            Processed(map[name := value] - {SD_ALG}, [name])
  {
    var digest := codec.digest(text);
    var D: Supplied := map[digest := Decoded(ObjectProperty, name, value)];
    OneDecoded(name, salt, value, text, codec);
    OneDisclosed(name, digest, value);
    OnePath(digest, name);
    hide Expand, DecodeAll, Blank, TrimSpace, SortStrings, PathList;
  }

  lemma OneDecoded(name: string, salt: string, value: Json, text: string, codec: Codec)
    requires codec.decode(text) == Some([Str(salt), Str(name), value])
    requires TrimSpace(text) == text && text != "" && !Blank(salt) && !Blank(name)
    ensures DecodeAll([text], codec) == Some(map[codec.digest(text) := Decoded(ObjectProperty, name, value)])
  {
    hide Blank, TrimSpace;
    assert [text][..0] == [];
    assert DecodeDisclosure(text, codec) == Some((codec.digest(text), Decoded(ObjectProperty, name, value)));
  }

  lemma OneDisclosed(name: string, digest: string, value: Json)
    requires !Blank(digest) && !value.Obj? && !value.Arr?
    ensures Expand(Obj(map[SD := Arr([Str(digest)])]), "", map[digest := Decoded(ObjectProperty, name, value)]) ==
            Done(Obj(map[name := value]), {digest}, map[digest := name])
  {
    hide Blank;
    var D := map[digest := Decoded(ObjectProperty, name, value)];
    var payload := map[SD := Arr([Str(digest)])];
    var list := [Str(digest)];
    assert ExpandVisible(Obj(payload), "", D) == map[];
    MergeNone();
    assert JoinPath("", name) == name;
    assert Expand(value, name, D - {digest}) == Done(value, {}, map[]);
    assert Disclosed(digest, name, D) == Done(value, {digest}, map[digest := name]);
    assert ExpandEntry(list[0], "", D) == NamedDone(map[name := value], {digest}, map[digest := name]);
    assert list[..0] == [];
    assert ExpandNamed(list, "", D) == NamedDone(map[name := value], {digest}, map[digest := name]);
    assert ExpandObject(Obj(payload), "", D) == Done(Obj(map[name := value]), {digest}, map[digest := name]);
  }

  lemma OnePath(digest: string, name: string)
    ensures SortStrings(PathList(map[digest := name])) == [name]
  {
    var m := map[digest := name];
    assert digest in m && Pick(m) == digest;
    assert m - {digest} == map[];
  }

  /** In particular the names that section 7.1 of RFC 9901 has rejected. */
  lemma ReservedNamesAreAccepted(name: string, salt: string, value: Json, text: string, codec: Codec)
    requires name == SD || name == ELLIPSIS
    requires codec.decode(text) == Some([Str(salt), Str(name), value])
    requires TrimSpace(text) == text && text != "" && !Blank(salt) && !Blank(codec.digest(text))
    requires !value.Obj? && !value.Arr?
    ensures Applied(Some(map[SD := Arr([Str(codec.digest(text))])]), [text], codec) == Processed(map[name := value], [name])
  {
    ReservedNotBlank();
    hide Blank, Applied, TrimSpace;
    NameIsAccepted(name, salt, value, text, codec);
    assert map[name := value] - {SD_ALG} == map[name := value];
  }

  lemma ReservedNotBlank()
    ensures !Blank(SD) && !Blank(ELLIPSIS) && SD != SD_ALG && ELLIPSIS != SD_ALG
  {
    assert |SD| == 3 && |ELLIPSIS| == 3 && |SD_ALG| == 7;
  }
}
