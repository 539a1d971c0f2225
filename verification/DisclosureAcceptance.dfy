/**
 * When `ApplyDisclosures` accepts, told without keeping any record of digests seen: the shape that payload and disclosures
 * must have, place by place, and that no digest has two places. internal/credential/sdjwtvc/disclosure.go, section 7.1 of
 * RFC 9901.
 */
module DisclosureAcceptance {
  import opened Common
  import opened Text
  import opened Disclosure
  import opened DisclosureProcessing
  import opened DisclosureApply
  import opened DisclosureReferences
  import opened DisclosureRoundTrip

  // ---------------------------------------------------------------- shape

  /** An `_sd` is a list of digests, a placeholder holds one, and each supplied one fits the place it is disclosed at. */
  ghost predicate Shaped(v: Json, D: Supplied)
    decreases |D|, v, 2
  {
    match v
    case Obj(fields) =>
      && ShapedVisible(v, D)
      && (SD in fields ==> fields[SD].Arr? && ShapedList(fields[SD].items, D) && NamesApart(fields, fields[SD].items, D))
    case Arr(items) => ShapedItems(items, D)
    case _ => true
  }

  ghost predicate ShapedVisible(v: Json, D: Supplied)
    requires v.Obj?
    decreases |D|, v, 0
  {
    forall k :: k in v.fields && k != "_sd" && k != "_sd_alg" ==> Shaped(v.fields[k], D)
  }

  ghost predicate ShapedList(entries: seq<Json>, D: Supplied)
    decreases |D|, entries, 0
  {
    entries == [] || (ShapedList(entries[..|entries| - 1], D) && ShapedReference(entries[|entries| - 1], ObjectProperty, D))
  }

  /** A digest, and if it is supplied, with the kind that the place asks for and a value of the right shape. */
  ghost predicate ShapedReference(e: Json, kind: Kind, D: Supplied)
    decreases |D|, e, 0
  {
    && e.Str? && TrimSpace(e.s) != ""
    && (e.s in D ==> D[e.s].kind == kind && ShapedDisclosed(e.s, D))
  }

  ghost predicate ShapedDisclosed(d: string, D: Supplied)
    requires d in D
    decreases |D| - 1, D[d].value, 4
  {
    Fewer(D, d);
    Shaped(D[d].value, D - {d})
  }

  ghost predicate ShapedItems(items: seq<Json>, D: Supplied)
    decreases |D|, items, 0
  {
    items == [] || (ShapedItems(items[..|items| - 1], D) && ShapedItem(items[|items| - 1], D))
  }

  ghost predicate ShapedItem(item: Json, D: Supplied)
    decreases |D|, item, 3
  {
    if item.Obj? && item.fields.Keys == {"..."} then ShapedReference(item.fields["..."], ArrayElement, D) else Shaped(item, D)
  }

  /** The name that an entry of an `_sd` list discloses. */
  predicate Discloses(e: Json, D: Supplied, name: string) {
    e.Str? && e.s in D && D[e.s].name == name
  }

  /** No entry discloses a name that is visible or that another entry discloses. */
  ghost predicate NamesApart(fields: map<string, Json>, entries: seq<Json>, D: Supplied) {
    && (forall i, name :: 0 <= i < |entries| && Discloses(entries[i], D, name) ==>
          name !in fields || name == "_sd" || name == "_sd_alg")
    && Distinct(entries, D)
  }

  ghost predicate Distinct(entries: seq<Json>, D: Supplied) {
    forall i, j, name :: 0 <= i < j < |entries| && Discloses(entries[i], D, name) ==> !Discloses(entries[j], D, name)
  }

  ghost predicate AtMostOne(places: set<Place>) {
    forall p, q :: p in places && q in places ==> p == q
  }

  // ---------------------------------------------------------------- places begin where they are

  lemma {:induction false} ListPlacesBegin(d: string, entries: seq<Json>, D: Supplied)
    ensures forall p: Place :: p in ListPlaces(d, entries, D) ==> p != [] && p[0].Entry? && p[0].at < |entries|
    decreases entries
  {
    hide InsideDisclosed;
    if entries != [] {
      ListPlacesBegin(d, entries[..|entries| - 1], D);
    }
  }

  lemma {:induction false} ItemPlacesBegin(d: string, items: seq<Json>, D: Supplied)
    ensures forall p: Place :: p in ItemPlaces(d, items, D) ==> p != [] && p[0].Item? && p[0].at < |items|
    decreases items
  {
    hide InsideDisclosed, Places;
    if items != [] {
      var n := |items| - 1;
      ItemPlacesBegin(d, items[..n], D);
      assert forall p: Place :: p in ItemPlace(d, items[n], n, D) ==> p != [] && p[0] == Item(n);
    }
  }

  lemma PlacesBegin(d: string, v: Json, D: Supplied)
    ensures forall p: Place :: p in Places(d, v, D) ==> p != []
  {
    match v
    case Obj(fields) =>
      if SD in fields && fields[SD].Arr? {
        ListPlacesBegin(d, fields[SD].items, D);
      }
    case Arr(items) => ItemPlacesBegin(d, items, D);
    case _ =>
  }

  /** Two places are too many. */
  lemma NotBoth(a: set<Place>, b: set<Place>)
    requires AtMostOne(a + b) && forall p, q :: p in a && q in b ==> p != q
    ensures AtMostOne(a) && AtMostOne(b) && (a == {} || b == {})
  {
    assert forall p :: (p in a || p in b) ==> p in a + b;
  }

  lemma OnePrefixed(step: Step, places: set<Place>)
    requires AtMostOne(Prefixed(step, places))
    ensures AtMostOne(places)
  {
    forall p, q | p in places && q in places ensures p == q {
      assert [step] + p in Prefixed(step, places) && [step] + q in Prefixed(step, places);
      assert ([step] + p)[1..] == p && ([step] + q)[1..] == q;
    }
  }

  // ---------------------------------------------------------------- what is accepted has the shape

  lemma {:induction false} DoneIsShaped(v: Json, path: string, D: Supplied)
    requires Expand(v, path, D).Done?
    ensures Shaped(v, D)
    decreases |D|, v, 2
  {
    hide ExpandNamed, ShapedList, Discloses, Distinct;
    match v
    case Obj(fields) =>
      var parts := ExpandVisible(v, path, D);
      forall k | k in fields && k != SD && k != SD_ALG ensures Shaped(fields[k], D) {
        assert parts[k].Done?;
        DoneIsShaped(fields[k], JoinPath(path, k), D);
      }
      if SD in fields {
        ListIsShaped(fields[SD].items, path, D);
        var entries, named := fields[SD].items, ExpandNamed(fields[SD].items, path, D).fields;
        assert Merge(parts).value.fields.Keys == fields.Keys - {SD, SD_ALG};
        forall i, name | 0 <= i < |entries| && Discloses(entries[i], D, name)
          ensures name !in fields || name == "_sd" || name == "_sd_alg"
        {
          assert name in named.Keys;
        }
      }
    case Arr(items) => ItemsAreShaped(items, path, D);
    case _ =>
  }

  lemma {:induction false} ListIsShaped(entries: seq<Json>, path: string, D: Supplied)
    requires ExpandNamed(entries, path, D).NamedDone?
    ensures ShapedList(entries, D) && Distinct(entries, D)
    ensures forall name :: name in ExpandNamed(entries, path, D).fields <==>
      exists i :: 0 <= i < |entries| && Discloses(entries[i], D, name)
    decreases |D|, entries, 0
  {
    hide Shaped, ShapedDisclosed, Disclosed;
    if entries != [] {
      var n := |entries| - 1;
      ListIsShaped(entries[..n], path, D);
      EntryIsShaped(entries[n], path, D);
      assert forall i :: 0 <= i < n ==> entries[..n][i] == entries[i];
    }
  }

  lemma {:induction false} EntryIsShaped(e: Json, path: string, D: Supplied)
    requires ExpandEntry(e, path, D).NamedDone?
    ensures ShapedReference(e, ObjectProperty, D)
    ensures forall name :: name in ExpandEntry(e, path, D).fields <==> Discloses(e, D, name)
    decreases |D|, e, 0
  {
    if e.s in D {
      DisclosedIsShaped(e.s, JoinPath(path, D[e.s].name), D);
    }
  }

  lemma {:induction false} DisclosedIsShaped(d: string, path: string, D: Supplied)
    requires d in D && Disclosed(d, path, D).Done?
    ensures ShapedDisclosed(d, D)
    decreases |D| - 1, D[d].value, 4
  {
    Fewer(D, d);
    DoneIsShaped(D[d].value, path, D - {d});
  }

  lemma {:induction false} ItemsAreShaped(items: seq<Json>, path: string, D: Supplied)
    requires ExpandItems(items, path, D).ItemsDone?
    ensures ShapedItems(items, D)
    decreases |D|, items, 0
  {
    hide Shaped, ShapedDisclosed, Disclosed;
    if items != [] {
      ItemsAreShaped(items[..|items| - 1], path, D);
      ItemIsShaped(items[|items| - 1], ItemPath(path, |items| - 1), D);
    }
  }

  lemma {:induction false} ItemIsShaped(item: Json, path: string, D: Supplied)
    requires ExpandItem(item, path, D).ItemsDone?
    ensures ShapedItem(item, D)
    decreases |D|, item, 3
  {
    PlaceholderKeys(item);
    if Placeholder(item) {
      var e := item.fields[ELLIPSIS];
      if e.s in D {
        DisclosedIsShaped(e.s, path, D);
      }
    } else {
      DoneIsShaped(item, path, D);
    }
  }

  lemma PlaceholderKeys(item: Json)
    ensures Placeholder(item) <==> item.Obj? && item.fields.Keys == {"..."}
  {
    if item.Obj? {
      assert |item.fields| == |item.fields.Keys|;
      if Placeholder(item) {
        assert |item.fields.Keys - {ELLIPSIS}| == 0;
        assert item.fields.Keys - {ELLIPSIS} == {};
      }
    }
  }

  // ---------------------------------------------------------------- what has the shape, and no digest twice, is accepted

  /** No digest has two places in a value. */
  ghost predicate OnePlaceEach(v: Json, D: Supplied) {
    forall d :: AtMostOne(Places(d, v, D))
  }

  lemma {:induction false} ShapedIsDone(v: Json, path: string, D: Supplied)
    requires Shaped(v, D) && OnePlaceEach(v, D)
    ensures Expand(v, path, D).Done?
    decreases |D|, v, 2
  {
    match v
    case Obj(fields) => ObjectIsDone(v, path, D);
    case Arr(items) =>
      forall d ensures AtMostOne(ItemPlaces(d, items, D)) {
        assert AtMostOne(Places(d, v, D));
      }
      ItemsAreDone(items, path, D);
    case _ =>
  }

  lemma {:induction false} ObjectIsDone(v: Json, path: string, D: Supplied)
    requires v.Obj? && Shaped(v, D) && OnePlaceEach(v, D)
    ensures Expand(v, path, D).Done?
    decreases |D|, v, 1
  {
    hide ShapedList, ListPlaces, VisiblePlaces, ExpandNamed, ExpandVisible, Merge, NamesApart;
    var fields := v.fields;
    forall d ensures AtMostOne(VisiblePlaces(d, v, D)) {
      assert AtMostOne(Places(d, v, D));
      ObjectPlaces(d, v, D);
    }
    VisibleIsDone(v, path, D);
    if SD in fields {
      var entries := fields[SD].items;
      forall d ensures AtMostOne(ListPlaces(d, entries, D)) && (VisiblePlaces(d, v, D) == {} || ListPlaces(d, entries, D) == {}) {
        assert AtMostOne(Places(d, v, D));
        ObjectPlaces(d, v, D);
      }
      ListIsDone(entries, path, D) by { ApartIsDistinct(fields, entries, D); }
      Joined(v, path, D);
    }
  }

  lemma ApartIsDistinct(fields: map<string, Json>, entries: seq<Json>, D: Supplied)
    requires NamesApart(fields, entries, D)
    ensures Distinct(entries, D)
  {
  }

  /** The places in an object are those under its properties and those in its list, which begin differently. */
  lemma ObjectPlaces(d: string, v: Json, D: Supplied)
    requires v.Obj? && AtMostOne(Places(d, v, D))
    ensures AtMostOne(VisiblePlaces(d, v, D))
    ensures SD in v.fields && v.fields[SD].Arr? ==>
      var list := ListPlaces(d, v.fields[SD].items, D);
      AtMostOne(list) && (VisiblePlaces(d, v, D) == {} || list == {})
  {
    hide ListPlaces, VisiblePlaces;
    var visible := VisiblePlaces(d, v, D);
    if SD in v.fields && v.fields[SD].Arr? {
      var list := ListPlaces(d, v.fields[SD].items, D);
      ListPlacesBegin(d, v.fields[SD].items, D);
      VisiblePlacesBegin(d, v, D);
      NotBoth(visible, list);
    } else {
      assert visible + {} == visible;
    }
  }

  lemma VisiblePlacesBegin(d: string, v: Json, D: Supplied)
    requires v.Obj?
    ensures forall p: Place :: p in VisiblePlaces(d, v, D) ==> p != [] && p[0].Field?
  {
    hide Places;
  }

  /** An object whose parts are done and apart is done. */
  lemma Joined(v: Json, path: string, D: Supplied)
    requires v.Obj? && SD in v.fields && v.fields[SD].Arr? && NamesApart(v.fields, v.fields[SD].items, D)
    requires Merge(ExpandVisible(v, path, D)).Done? && ExpandNamed(v.fields[SD].items, path, D).NamedDone?
    requires forall d :: VisiblePlaces(d, v, D) == {} || ListPlaces(d, v.fields[SD].items, D) == {}
    ensures Expand(v, path, D).Done?
  {
    var visible, named := Merge(ExpandVisible(v, path, D)), ExpandNamed(v.fields[SD].items, path, D);
    forall d ensures !(d in visible.refs && d in named.refs) {
      VisibleOnce(d, v, path, D);
      ListOnce(d, v.fields[SD].items, path, D);
    }
    ListIsShaped(v.fields[SD].items, path, D);
    assert visible.value.fields.Keys == v.fields.Keys - {SD, SD_ALG};
    forall name ensures !(name in visible.value.fields && name in named.fields) {
      if name in named.fields {
        var i :| 0 <= i < |v.fields[SD].items| && Discloses(v.fields[SD].items[i], D, name);
      }
    }
    hide ExpandVisible, ExpandNamed, Merge, VisiblePlaces, ListPlaces;
  }

  lemma {:induction false} VisibleIsDone(v: Json, path: string, D: Supplied)
    requires v.Obj? && ShapedVisible(v, D) && forall d :: AtMostOne(VisiblePlaces(d, v, D))
    ensures Merge(ExpandVisible(v, path, D)).Done?
    decreases |D|, v, 0
  {
    var parts := ExpandVisible(v, path, D);
    forall k | k in parts ensures parts[k].Done? {
      forall d ensures AtMostOne(Places(d, v.fields[k], D)) {
        PropertyPlaces(d, v, k, D);
      }
      ShapedIsDone(v.fields[k], JoinPath(path, k), D);
    }
    forall j, k | j in parts && k in parts && j != k ensures parts[j].refs !! parts[k].refs {
      forall d | d in parts[j].refs && d in parts[k].refs ensures false {
        ValueOnce(d, v.fields[j], JoinPath(path, j), D);
        ValueOnce(d, v.fields[k], JoinPath(path, k), D);
        TwoProperties(d, v, j, k, D);
      }
    }
    hide ExpandVisible, MergedPaths, MergedRefs;
  }

  lemma PropertyPlaces(d: string, v: Json, k: string, D: Supplied)
    requires v.Obj? && k in v.fields && k != SD && k != SD_ALG && AtMostOne(VisiblePlaces(d, v, D))
    ensures AtMostOne(Places(d, v.fields[k], D))
  {
    hide Places;
    forall p | p in Prefixed(Field(k), Places(d, v.fields[k], D)) ensures p in VisiblePlaces(d, v, D) {
      var q :| q in Places(d, v.fields[k], D) && p == [Field(k)] + q;
    }
    OnePrefixed(Field(k), Places(d, v.fields[k], D));
  }

  lemma TwoProperties(d: string, v: Json, j: string, k: string, D: Supplied)
    requires v.Obj? && j in v.fields && k in v.fields && j != k && {j, k} !! {SD, SD_ALG}
    requires AtMostOne(VisiblePlaces(d, v, D))
    ensures Places(d, v.fields[j], D) == {} || Places(d, v.fields[k], D) == {}
  {
    hide Places;
    forall p | p in Places(d, v.fields[j], D) ensures [Field(j)] + p in VisiblePlaces(d, v, D) && ([Field(j)] + p)[0] == Field(j) {
    }
    forall q | q in Places(d, v.fields[k], D) ensures [Field(k)] + q in VisiblePlaces(d, v, D) && ([Field(k)] + q)[0] == Field(k) {
    }
  }

  lemma {:induction false} ListIsDone(entries: seq<Json>, path: string, D: Supplied)
    requires ShapedList(entries, D) && Distinct(entries, D) && forall d :: AtMostOne(ListPlaces(d, entries, D))
    ensures ExpandNamed(entries, path, D).NamedDone?
    decreases |D|, entries, 0
  {
    if entries != [] {
      var n := |entries| - 1;
      var before, e := entries[..n], entries[n];
      hide Shaped, ShapedDisclosed, Disclosed, DigestPlaces, Places, ExpandEntry, Discloses;
      assert forall i :: 0 <= i < n ==> before[i] == entries[i];
      forall d
        ensures AtMostOne(ListPlaces(d, before, D)) && AtMostOne(DigestPlaces(d, e, Entry(n), D))
        ensures ListPlaces(d, before, D) == {} || DigestPlaces(d, e, Entry(n), D) == {}
      {
        ListPlacesBegin(d, before, D);
        DigestPlacesBegin(d, e, Entry(n), D);
        assert AtMostOne(ListPlaces(d, entries, D)) && ListPlaces(d, entries, D) == ListPlaces(d, before, D) + DigestPlaces(d, e, Entry(n), D);
        NotBoth(ListPlaces(d, before, D), DigestPlaces(d, e, Entry(n), D));
      }
      ListIsDone(before, path, D);
      EntryIsDone(e, n, path, D);
      var a, b := ExpandNamed(before, path, D), ExpandEntry(e, path, D);
      forall d ensures !(d in a.refs && d in b.refs) {
        ListOnce(d, before, path, D);
        EntryOnce(d, e, n, path, D);
      }
      ListIsShaped(before, path, D);
      EntryIsShaped(e, path, D);
      forall name ensures !(name in a.fields && name in b.fields) {
      }
    }
  }

  lemma DigestPlacesBegin(d: string, e: Json, step: Step, D: Supplied)
    requires e.Str?
    ensures forall p: Place :: p in DigestPlaces(d, e, step, D) ==> p != [] && p[0] == step
  {
    hide InsideDisclosed;
  }

  lemma {:induction false} EntryIsDone(e: Json, at: nat, path: string, D: Supplied)
    requires ShapedReference(e, ObjectProperty, D) && forall d :: AtMostOne(DigestPlaces(d, e, Entry(at), D))
    ensures ExpandEntry(e, path, D).NamedDone?
    decreases |D|, e, 0
  {
    if e.s in D {
      DisclosedIsDone(e, Entry(at), JoinPath(path, D[e.s].name), D);
    }
  }

  /** A supplied digest at a place: its value does not come back to it, for then it would have two places. */
  lemma {:induction false} DisclosedIsDone(e: Json, step: Step, path: string, D: Supplied)
    requires e.Str? && e.s in D && ShapedDisclosed(e.s, D) && forall d :: AtMostOne(DigestPlaces(d, e, step, D))
    ensures Disclosed(e.s, path, D).Done?
    decreases |D| - 1, D[e.s].value, 4
  {
    Fewer(D, e.s);
    var rest, value := D - {e.s}, D[e.s].value;
    forall d ensures AtMostOne(Places(d, value, rest)) && (d == e.s ==> Places(d, value, rest) == {}) {
      InsideOnce(d, e, step, D);
    }
    ShapedIsDone(value, path, rest);
    ValueOnce(e.s, value, path, rest);
  }

  lemma InsideBegins(d: string, e: string, D: Supplied)
    requires e in D
    ensures forall p: Place :: p in InsideDisclosed(d, e, D) ==> p != []
  {
    Fewer(D, e);
    PlacesBegin(d, D[e].value, D - {e});
  }

  lemma InsideOnce(d: string, e: Json, step: Step, D: Supplied)
    requires e.Str? && e.s in D && AtMostOne(DigestPlaces(d, e, step, D))
    ensures AtMostOne(InsideDisclosed(d, e.s, D)) && (d == e.s ==> InsideDisclosed(d, e.s, D) == {})
  {
    var inside := InsideDisclosed(d, e.s, D);
    InsideBegins(d, e.s, D);
    hide InsideDisclosed;
    forall p: Place | p in Prefixed(step, inside) ensures p != [step] {
      var q: Place :| q in inside && p == [step] + q;
      assert |p| == 1 + |q|;
    }
    NotBoth(if e.s == d then {[step]} else {}, Prefixed(step, inside));
    OnePrefixed(step, inside);
    assert forall q :: q in inside ==> [step] + q in Prefixed(step, inside);
  }

  lemma {:induction false} ItemsAreDone(items: seq<Json>, path: string, D: Supplied)
    requires ShapedItems(items, D) && forall d :: AtMostOne(ItemPlaces(d, items, D))
    ensures ExpandItems(items, path, D).ItemsDone?
    decreases |D|, items, 0
  {
    if items != [] {
      var n := |items| - 1;
      var before, item := items[..n], items[n];
      hide Shaped, ShapedItem, Places, ItemPlace, ExpandItem;
      forall d
        ensures AtMostOne(ItemPlaces(d, before, D)) && AtMostOne(ItemPlace(d, item, n, D))
        ensures ItemPlaces(d, before, D) == {} || ItemPlace(d, item, n, D) == {}
      {
        ItemPlacesBegin(d, before, D);
        ItemPlaceBegins(d, item, n, D);
        assert AtMostOne(ItemPlaces(d, items, D)) && ItemPlaces(d, items, D) == ItemPlaces(d, before, D) + ItemPlace(d, item, n, D);
        NotBoth(ItemPlaces(d, before, D), ItemPlace(d, item, n, D));
      }
      ItemsAreDone(before, path, D);
      ItemIsDone(item, n, ItemPath(path, n), D);
      forall d ensures !(d in ExpandItems(before, path, D).refs && d in ExpandItem(item, ItemPath(path, n), D).refs) {
        ItemsOnce(d, before, path, D);
        ItemOnce(d, item, n, ItemPath(path, n), D);
      }
    }
  }

  lemma ItemPlaceBegins(d: string, item: Json, at: nat, D: Supplied)
    ensures forall p: Place :: p in ItemPlace(d, item, at, D) ==> p != [] && p[0] == Item(at)
  {
    hide Places, InsideDisclosed;
  }

  lemma {:induction false} ItemIsDone(item: Json, at: nat, path: string, D: Supplied)
    requires ShapedItem(item, D) && forall d :: AtMostOne(ItemPlace(d, item, at, D))
    ensures ExpandItem(item, path, D).ItemsDone?
    decreases |D|, item, 3
  {
    PlaceholderKeys(item);
    if Placeholder(item) {
      var e := item.fields[ELLIPSIS];
      forall d ensures AtMostOne(DigestPlaces(d, e, Item(at), D)) {
        assert AtMostOne(ItemPlace(d, item, at, D));
      }
      if e.s in D {
        DisclosedIsDone(e, Item(at), path, D);
      }
    } else {
      forall d ensures AtMostOne(Places(d, item, D)) {
        assert AtMostOne(ItemPlace(d, item, at, D));
        OnePrefixed(Item(at), Places(d, item, D));
      }
      ShapedIsDone(item, path, D);
    }
  }

  // ---------------------------------------------------------------- what `ApplyDisclosures` accepts

  /** The algorithm is named as SHA-256, or not at all. */
  predicate NamesNoOther(payload: map<string, Json>) {
    "_sd_alg" !in payload || payload["_sd_alg"] == Str("sha-256")
  }

  /**
   * `ApplyDisclosures` accepts exactly when there is a payload that names no other hash algorithm, every text decodes and
   * none comes twice, payload and disclosures have the right shape, no digest has two places, and every disclosure has one.
   */
  lemma AcceptsExactly(payload: Option<map<string, Json>>, encoded: seq<string>, codec: Codec)
    ensures Applied(payload, encoded, codec).Processed? <==>
      && payload.Some? && NamesNoOther(payload.value) && DecodeAll(encoded, codec).Some?
      && (var v, D := Obj(payload.value), DecodeAll(encoded, codec).value;
          && Shaped(v, D) && OnePlaceEach(v, D) && forall d :: d in D ==> Places(d, v, D) != {})
  {
    if payload.Some? && DecodeAll(encoded, codec).Some? {
      OutcomeExactly(payload.value, DecodeAll(encoded, codec).value);
    }
    hide Outcome, Shaped, OnePlaceEach, Places, DecodeAll;
  }

  lemma OutcomeExactly(payload: map<string, Json>, D: Supplied)
    ensures var v := Obj(payload);
      Outcome(payload, D).Processed? <==> Shaped(v, D) && OnePlaceEach(v, D) && forall d :: d in D ==> Places(d, v, D) != {}
  {
    var v := Obj(payload);
    var e := Expand(v, "", D);
    if Shaped(v, D) && OnePlaceEach(v, D) {
      ShapedIsDone(v, "", D);
    }
    if e.Done? {
      DoneIsShaped(v, "", D);
      forall d ensures AtMostOne(Places(d, v, D)) && (Places(d, v, D) != {} <==> d in e.refs) {
        ValueOnce(d, v, "", D);
      }
      ObjectStays(payload, D);
      assert e.applied.Keys == D.Keys <==> forall d :: d in D ==> d in e.refs;
    }
    hide Expand, Shaped, Places;
  }

  lemma ObjectStays(payload: map<string, Json>, D: Supplied)
    requires Expand(Obj(payload), "", D).Done?
    ensures Expand(Obj(payload), "", D).value.Obj?
  {
  }

  /** Naming SHA-256 makes no difference to any payload, and naming anything else, a string or not, has it refused. */
  lemma AlgorithmDecides(payload: map<string, Json>, alg: Json, encoded: seq<string>, codec: Codec)
    ensures Applied(Some(payload["_sd_alg" := alg]), encoded, codec) ==
      if alg == Str("sha-256") then Applied(Some(payload - {"_sd_alg"}), encoded, codec) else Refused
  {
    hide Outcome, DecodeAll;
    if DecodeAll(encoded, codec).Some? {
      AlgorithmNameIgnored(payload, alg, DecodeAll(encoded, codec).value);
    }
  }

  /**
   * What a disclosure is: trimmed, not empty, and decoding to a salt and a value or a salt, a name and a value, where salt
   * and name are strings that are not blank. Its digest is that of the trimmed text.
   */
  lemma DecodesAs(text: string, codec: Codec, digest: string, x: Decoded)
    ensures DecodeDisclosure(text, codec) == Some((digest, x)) <==>
      && TrimSpace(text) != "" && digest == codec.digest(TrimSpace(text))
      && (exists salt :: TrimSpace(salt) != "" &&
            if x.kind == ArrayElement then x.name == "" && codec.decode(TrimSpace(text)) == Some([Str(salt), x.value])
            else TrimSpace(x.name) != "" && codec.decode(TrimSpace(text)) == Some([Str(salt), Str(x.name), x.value]))
  {
    hide TrimSpace;
    var values := codec.decode(TrimSpace(text));
    if values.Some? && |values.value| == 2 {
      assert values.value == [values.value[0], values.value[1]];
    } else if values.Some? && |values.value| == 3 {
      assert values.value == [values.value[0], values.value[1], values.value[2]];
    }
    if DecodeDisclosure(text, codec) == Some((digest, x)) {
      assert TrimSpace(values.value[0].s) != "" && values.value[0] == Str(values.value[0].s);
    }
  }
}
