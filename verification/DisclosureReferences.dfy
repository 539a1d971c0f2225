/**
 * Where digests are referenced, found by looking through the payload and the supplied disclosures without keeping any
 * record of digests seen.
 */
module DisclosureReferences {
  import opened Common
  import opened Text
  import opened Disclosure
  import opened DisclosureProcessing
  import opened DisclosureApply

  /** A place in a payload: property by property, entry of `_sd` by entry, element by element, through disclosed values. */
  datatype Step = Field(name: string) | Entry(at: nat) | Item(at: nat)

  type Place = seq<Step>

  ghost function Prefixed(step: Step, places: set<Place>): set<Place> {
    set p | p in places :: [step] + p
  }

  /** All places at which digest `d` is referenced. */
  ghost function Places(d: string, v: Json, D: Supplied): set<Place>
    decreases |D|, v, 2
  {
    match v
    case Obj(fields) =>
      VisiblePlaces(d, v, D) + if SD in fields && fields[SD].Arr? then ListPlaces(d, fields[SD].items, D) else {}
    case Arr(items) => ItemPlaces(d, items, D)
    case _ => {}
  }

  ghost function VisiblePlaces(d: string, v: Json, D: Supplied): set<Place>
    requires v.Obj?
    decreases |D|, v, 0
  {
    set k, p | k in v.fields && k != SD && k != SD_ALG && p in Places(d, v.fields[k], D) :: [Field(k)] + p
  }

  ghost function ListPlaces(d: string, entries: seq<Json>, D: Supplied): set<Place>
    decreases |D|, entries, 0
  {
    if entries == [] then {}
    else
      var n := |entries| - 1;
      ListPlaces(d, entries[..n], D) +
      if entries[n].Str? then DigestPlaces(d, entries[n], Entry(n), D) else {}
  }

  /** A reference to a digest, and those inside the value it discloses. */
  ghost function DigestPlaces(d: string, reference: Json, step: Step, D: Supplied): set<Place>
    requires reference.Str?
    decreases |D|, reference, 0
  {
    (if reference.s == d then {[step]} else {}) +
    if reference.s in D then Prefixed(step, InsideDisclosed(d, reference.s, D)) else {}
  }

  ghost function InsideDisclosed(d: string, e: string, D: Supplied): set<Place>
    requires e in D
    decreases |D| - 1, D[e].value, 4
  {
    Fewer(D, e);
    Places(d, D[e].value, D - {e})
  }

  ghost function ItemPlaces(d: string, items: seq<Json>, D: Supplied): set<Place>
    decreases |D|, items, 0
  {
    if items == [] then {}
    else
      var n := |items| - 1;
      ItemPlaces(d, items[..n], D) + ItemPlace(d, items[n], n, D)
  }

  ghost function ItemPlace(d: string, item: Json, at: nat, D: Supplied): set<Place>
    decreases |D|, item, 3
  {
    if Placeholder(item) then
      if item.fields[ELLIPSIS].Str? then DigestPlaces(d, item.fields[ELLIPSIS], Item(at), D) else {}
    else Prefixed(Item(at), Places(d, item, D))
  }

  // ---------------------------------------------------------------- no digest has two places

  /** At most one place, and one exactly when the digest is among those referenced. */
  ghost predicate Single(places: set<Place>, referenced: bool) {
    (forall p, q :: p in places && q in places ==> p == q) && (places != {} <==> referenced)
  }

  lemma SingleUnion(a: set<Place>, b: set<Place>, inA: bool, inB: bool)
    requires Single(a, inA) && Single(b, inB) && !(inA && inB)
    ensures Single(a + b, inA || inB)
  {
  }

  lemma SinglePrefixed(step: Step, places: set<Place>, referenced: bool)
    requires Single(places, referenced)
    ensures Single(Prefixed(step, places), referenced)
  {
    forall p | p in places ensures [step] + p in Prefixed(step, places) {
    }
  }

  lemma {:induction false} ValueOnce(d: string, v: Json, path: string, D: Supplied)
    requires Expand(v, path, D).Done?
    ensures Single(Places(d, v, D), d in Expand(v, path, D).refs)
    decreases |D|, v, 2
  {
    hide Single;
    match v
    case Obj(fields) =>
      var visible := Merge(ExpandVisible(v, path, D));
      VisibleOnce(d, v, path, D);
      if SD in fields {
        ListOnce(d, fields[SD].items, path, D);
        SingleUnion(VisiblePlaces(d, v, D), ListPlaces(d, fields[SD].items, D),
                    d in visible.refs, d in ExpandNamed(fields[SD].items, path, D).refs);
      } else {
        assert VisiblePlaces(d, v, D) + {} == VisiblePlaces(d, v, D);
      }
    case Arr(items) => ItemsOnce(d, items, path, D);
    case _ => NoPlace();
  }

  lemma NoPlace()
    ensures Single({}, false)
  {
  }

  lemma {:induction false} VisibleOnce(d: string, v: Json, path: string, D: Supplied)
    requires v.Obj? && Merge(ExpandVisible(v, path, D)).Done?
    ensures Single(VisiblePlaces(d, v, D), d in Merge(ExpandVisible(v, path, D)).refs)
    decreases |D|, v, 0
  {
    var parts := ExpandVisible(v, path, D);
    forall k | k in parts ensures Single(Places(d, v.fields[k], D), d in parts[k].refs) {
      ValueOnce(d, v.fields[k], JoinPath(path, k), D);
    }
    VisibleTogether(d, v, parts, D);
  }

  lemma VisibleTogether(d: string, v: Json, parts: map<string, Expanded>, D: Supplied)
    requires v.Obj? && parts.Keys == v.fields.Keys - {SD, SD_ALG} && Separate(parts)
    requires forall k :: k in parts ==> Single(Places(d, v.fields[k], D), d in parts[k].refs)
    ensures Single(VisiblePlaces(d, v, D), d in MergedRefs(parts))
  {
    hide Places;
    var all := VisiblePlaces(d, v, D);
    forall p, q | p in all && q in all ensures p == q {
      var k, p' :| k in v.fields && k != SD && k != SD_ALG && p' in Places(d, v.fields[k], D) && p == [Field(k)] + p';
      var j, q' :| j in v.fields && j != SD && j != SD_ALG && q' in Places(d, v.fields[j], D) && q == [Field(j)] + q';
      assert k in parts && j in parts && d in parts[k].refs && d in parts[j].refs;
    }
    if all != {} {
      var p :| p in all;
      var k, p' :| k in v.fields && k != SD && k != SD_ALG && p' in Places(d, v.fields[k], D) && p == [Field(k)] + p';
      assert k in parts && d in parts[k].refs;
    }
    if d in MergedRefs(parts) {
      var k :| k in parts && parts[k].Done? && d in parts[k].refs;
      var p :| p in Places(d, v.fields[k], D);
      assert [Field(k)] + p in all;
    }
  }

  lemma {:induction false} ListOnce(d: string, entries: seq<Json>, path: string, D: Supplied)
    requires ExpandNamed(entries, path, D).NamedDone?
    ensures Single(ListPlaces(d, entries, D), d in ExpandNamed(entries, path, D).refs)
    decreases |D|, entries, 0
  {
    hide Single;
    if entries == [] {
      NoPlace();
    } else {
      var n := |entries| - 1;
      ListOnce(d, entries[..n], path, D);
      EntryOnce(d, entries[n], n, path, D);
      SingleUnion(ListPlaces(d, entries[..n], D), DigestPlaces(d, entries[n], Entry(n), D),
                  d in ExpandNamed(entries[..n], path, D).refs, d in ExpandEntry(entries[n], path, D).refs);
    }
  }

  lemma {:induction false} EntryOnce(d: string, e: Json, at: nat, path: string, D: Supplied)
    requires ExpandEntry(e, path, D).NamedDone?
    ensures e.Str? && Single(DigestPlaces(d, e, Entry(at), D), d in ExpandEntry(e, path, D).refs)
    decreases |D|, e, 0
  {
    if e.s in D {
      DisclosedOnce(d, e, Entry(at), JoinPath(path, D[e.s].name), D);
    }
  }

  /** A reference to a supplied disclosure: the digest itself is not referenced again inside it. */
  lemma {:induction false} DisclosedOnce(d: string, reference: Json, step: Step, path: string, D: Supplied)
    requires reference.Str? && reference.s in D && Disclosed(reference.s, path, D).Done?
    ensures Single(DigestPlaces(d, reference, step, D), d in Disclosed(reference.s, path, D).refs)
    decreases |D| - 1, D[reference.s].value, 4
  {
    var e := reference.s;
    Fewer(D, e);
    ValueOnce(d, D[e].value, path, D - {e});
    var inside := InsideDisclosed(d, e, D);
    SinglePrefixed(step, inside, d in Expand(D[e].value, path, D - {e}).refs);
    SingleUnion(if e == d then {[step]} else {}, Prefixed(step, inside), e == d, d in Expand(D[e].value, path, D - {e}).refs);
  }

  lemma {:induction false} ItemsOnce(d: string, items: seq<Json>, path: string, D: Supplied)
    requires ExpandItems(items, path, D).ItemsDone?
    ensures Single(ItemPlaces(d, items, D), d in ExpandItems(items, path, D).refs)
    decreases |D|, items, 0
  {
    hide Single, Places, DigestPlaces;
    if items == [] {
      NoPlace();
    } else {
      var n := |items| - 1;
      ItemsOnce(d, items[..n], path, D);
      ItemOnce(d, items[n], n, ItemPath(path, n), D);
      SingleUnion(ItemPlaces(d, items[..n], D), ItemPlace(d, items[n], n, D),
                  d in ExpandItems(items[..n], path, D).refs, d in ExpandItem(items[n], ItemPath(path, n), D).refs);
    }
  }

  lemma {:induction false} ItemOnce(d: string, item: Json, at: nat, path: string, D: Supplied)
    requires ExpandItem(item, path, D).ItemsDone?
    ensures Single(ItemPlace(d, item, at, D), d in ExpandItem(item, path, D).refs)
    decreases |D|, item, 3
  {
    if Placeholder(item) {
      var e := item.fields[ELLIPSIS];
      if e.s in D {
        DisclosedOnce(d, e, Item(at), path, D);
      }
    } else {
      ValueOnce(d, item, path, D);
      SinglePrefixed(Item(at), Places(d, item, D), d in Expand(item, path, D).refs);
    }
  }

  /**
   * On success no digest, disclosed or not, is referenced from two places of the payload and the disclosed values, and
   * every supplied disclosure is referenced from exactly one.
   */
  lemma NoDigestTwice(payload: Option<map<string, Json>>, encoded: seq<string>, codec: Codec, d: string)
    requires Applied(payload, encoded, codec).Processed?
    ensures var D := DecodeAll(encoded, codec).value;
      var places := Places(d, Obj(payload.value), D);
      |places| <= 1 && (d in D ==> |places| == 1)
  {
    hide Expand, Places, DecodeAll;
    var D := DecodeAll(encoded, codec).value;
    var v := Obj(payload.value);
    ValueOnce(d, v, "", D);
    SingleSize(Places(d, v, D), d in Expand(v, "", D).refs);
    assert d in D ==> d in Expand(v, "", D).applied.Keys;
  }

  lemma SingleSize(places: set<Place>, referenced: bool)
    requires Single(places, referenced)
    ensures |places| == if referenced then 1 else 0
  {
    if referenced {
      var p :| p in places;
      assert places == {p};
    }
  }
}
