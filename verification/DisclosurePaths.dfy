/**
 * The paths that `ApplyDisclosures` reports: for each disclosure the names and positions that lead to where it is disclosed,
 * counted in the issuer's arrays with what stays undisclosed. internal/credential/sdjwtvc/disclosure.go.
 */
module DisclosurePaths {
  import opened Common
  import opened Text
  import opened Disclosure
  import opened DisclosureProcessing
  import opened DisclosureApply
  import opened DisclosureAcceptance
  import Sorting

  function Under(path: string, name: string): string {
    if path == "" then name else path + "." + name
  }

  function Element(path: string, index: nat): string {
    path + "[" + Decimal(index) + "]"
  }

  /** Disclosure `d` is disclosed at path `s` of a value that stands at `path` itself. */
  ghost predicate At(v: Json, D: Supplied, path: string, d: string, s: string)
    decreases |D|, v, 2
  {
    match v
    case Obj(fields) =>
      || AtVisible(v, D, path, d, s)
      || ("_sd" in fields && fields["_sd"].Arr? && AtList(fields["_sd"].items, D, path, d, s))
    case Arr(items) => AtItems(items, D, path, d, s)
    case _ => false
  }

  ghost predicate AtVisible(v: Json, D: Supplied, path: string, d: string, s: string)
    requires v.Obj?
    decreases |D|, v, 0
  {
    exists k :: k in v.fields && k != "_sd" && k != "_sd_alg" && At(v.fields[k], D, Under(path, k), d, s)
  }

  ghost predicate AtList(entries: seq<Json>, D: Supplied, path: string, d: string, s: string)
    decreases |D|, entries, 0
  {
    entries != [] &&
    var n := |entries| - 1;
    || AtList(entries[..n], D, path, d, s)
    || (entries[n].Str? && entries[n].s in D && AtDisclosed(entries[n].s, D, Under(path, D[entries[n].s].name), d, s))
  }

  /** A disclosure at its place, or one inside its value. */
  ghost predicate AtDisclosed(e: string, D: Supplied, path: string, d: string, s: string)
    requires e in D
    decreases |D| - 1, D[e].value, 4
  {
    Fewer(D, e);
    (d == e && s == path) || At(D[e].value, D - {e}, path, d, s)
  }

  ghost predicate AtItems(items: seq<Json>, D: Supplied, path: string, d: string, s: string)
    decreases |D|, items, 0
  {
    items != [] &&
    var n := |items| - 1;
    AtItems(items[..n], D, path, d, s) || AtItem(items[n], D, Element(path, n), d, s)
  }

  ghost predicate AtItem(item: Json, D: Supplied, path: string, d: string, s: string)
    decreases |D|, item, 3
  {
    if item.Obj? && item.fields.Keys == {"..."} then
      var e := item.fields["..."];
      e.Str? && e.s in D && AtDisclosed(e.s, D, path, d, s)
    else At(item, D, path, d, s)
  }

  /** The map says of each disclosure where it is. */
  predicate Says(applied: map<string, string>, d: string, s: string) {
    d in applied && applied[d] == s
  }

  lemma SaysBoth(a: map<string, string>, b: map<string, string>, d: string, s: string)
    requires a.Keys !! b.Keys
    ensures Says(a + b, d, s) <==> Says(a, d, s) || Says(b, d, s)
  {
  }

  lemma SaysNothing(d: string, s: string)
    ensures !Says(map[], d, s)
  {
  }

  lemma {:induction false} ValuePaths(v: Json, path: string, D: Supplied, d: string, s: string)
    requires Expand(v, path, D).Done?
    ensures Says(Expand(v, path, D).applied, d, s) <==> At(v, D, path, d, s)
    decreases |D|, v, 2
  {
    hide Says;
    match v
    case Obj(fields) =>
      VisiblePaths(v, path, D, d, s);
      if SD in fields {
        var visible, named := Merge(ExpandVisible(v, path, D)), ExpandNamed(fields[SD].items, path, D);
        ListPaths(fields[SD].items, path, D, d, s);
        MergedWithin(ExpandVisible(v, path, D), D);
        SaysBoth(visible.applied, named.applied, d, s);
      }
    case Arr(items) => ItemsPaths(items, path, D, d, s);
    case _ => SaysNothing(d, s);
  }

  lemma {:induction false} VisiblePaths(v: Json, path: string, D: Supplied, d: string, s: string)
    requires v.Obj? && Merge(ExpandVisible(v, path, D)).Done?
    ensures Says(Merge(ExpandVisible(v, path, D)).applied, d, s) <==> AtVisible(v, D, path, d, s)
    decreases |D|, v, 0
  {
    var parts := ExpandVisible(v, path, D);
    forall k | k in parts ensures Says(parts[k].applied, d, s) <==> At(v.fields[k], D, Under(path, k), d, s) {
      ValuePaths(v.fields[k], JoinPath(path, k), D, d, s);
    }
    MergedSays(parts, d, s);
    hide Merge, ExpandVisible, At, Says;
  }

  lemma MergedSays(parts: map<string, Expanded>, d: string, s: string)
    requires Separate(parts) && AppliedWithin(parts)
    ensures Says(Merge(parts).applied, d, s) <==> exists k :: k in parts && Says(parts[k].applied, d, s)
  {
    if d in MergedApplied(parts) {
      OnePath(parts, d);
    }
    if k :| k in parts && Says(parts[k].applied, d, s) {
      assert d in MergedApplied(parts);
    }
  }

  lemma {:induction false} ListPaths(entries: seq<Json>, path: string, D: Supplied, d: string, s: string)
    requires ExpandNamed(entries, path, D).NamedDone?
    ensures Says(ExpandNamed(entries, path, D).applied, d, s) <==> AtList(entries, D, path, d, s)
    decreases |D|, entries, 0
  {
    hide Says, AtDisclosed, Disclosed;
    if entries == [] {
      SaysNothing(d, s);
    } else {
      var n := |entries| - 1;
      ListPaths(entries[..n], path, D, d, s);
      EntryPaths(entries[n], path, D, d, s);
      SaysBoth(ExpandNamed(entries[..n], path, D).applied, ExpandEntry(entries[n], path, D).applied, d, s);
    }
  }

  lemma {:induction false} EntryPaths(e: Json, path: string, D: Supplied, d: string, s: string)
    requires ExpandEntry(e, path, D).NamedDone?
    ensures Says(ExpandEntry(e, path, D).applied, d, s) <==>
      e.Str? && e.s in D && AtDisclosed(e.s, D, Under(path, D[e.s].name), d, s)
    decreases |D|, e, 0
  {
    hide Says;
    if e.s in D {
      assert JoinPath(path, D[e.s].name) == Under(path, D[e.s].name);
      DisclosedPaths(e.s, Under(path, D[e.s].name), D, d, s);
    } else {
      SaysNothing(d, s);
    }
  }

  lemma {:induction false} DisclosedPaths(e: string, path: string, D: Supplied, d: string, s: string)
    requires e in D && Disclosed(e, path, D).Done?
    ensures Says(Disclosed(e, path, D).applied, d, s) <==> AtDisclosed(e, D, path, d, s)
    decreases |D| - 1, D[e].value, 4
  {
    Fewer(D, e);
    ValuePaths(D[e].value, path, D - {e}, d, s);
    SaysBoth(Expand(D[e].value, path, D - {e}).applied, map[e := path], d, s);
  }

  lemma {:induction false} ItemsPaths(items: seq<Json>, path: string, D: Supplied, d: string, s: string)
    requires ExpandItems(items, path, D).ItemsDone?
    ensures Says(ExpandItems(items, path, D).applied, d, s) <==> AtItems(items, D, path, d, s)
    decreases |D|, items, 0
  {
    hide Says, AtItem, ExpandItem;
    if items == [] {
      SaysNothing(d, s);
    } else {
      var n := |items| - 1;
      assert ItemPath(path, n) == Element(path, n);
      ItemsPaths(items[..n], path, D, d, s);
      ItemPaths(items[n], Element(path, n), D, d, s);
      SaysBoth(ExpandItems(items[..n], path, D).applied, ExpandItem(items[n], Element(path, n), D).applied, d, s);
    }
  }

  lemma {:induction false} ItemPaths(item: Json, path: string, D: Supplied, d: string, s: string)
    requires ExpandItem(item, path, D).ItemsDone?
    ensures Says(ExpandItem(item, path, D).applied, d, s) <==> AtItem(item, D, path, d, s)
    decreases |D|, item, 3
  {
    hide Says;
    PlaceholderKeys(item);
    if Placeholder(item) {
      var e := item.fields[ELLIPSIS];
      if e.s in D {
        DisclosedPaths(e.s, path, D, d, s);
      } else {
        SaysNothing(d, s);
      }
    } else {
      ValuePaths(item, path, D, d, s);
    }
  }

  predicate InOrder(paths: seq<string>) {
    forall i, j :: 0 <= i < j < |paths| ==> StringLe(paths[i], paths[j])
  }

  /** Some disclosure is at this path. */
  ghost predicate SomeAt(v: Json, D: Supplied, s: string) {
    exists d :: At(v, D, "", d, s)
  }

  ghost predicate SomeSays(applied: map<string, string>, s: string) {
    exists d :: Says(applied, d, s)
  }

  /** Each disclosure is at one path. */
  ghost predicate OnePathEach(v: Json, D: Supplied) {
    forall d :: d in D ==> exists s :: OnlyAt(v, D, d, s)
  }

  ghost predicate OnlyAt(v: Json, D: Supplied, d: string, s: string) {
    forall t :: At(v, D, "", d, t) <==> t == s
  }

  /**
   * On success the reported paths are in order, and are exactly those at which the disclosures are, names joined by dots and
   * positions in brackets; each disclosure is at one.
   */
  lemma PathsExactly(payload: Option<map<string, Json>>, encoded: seq<string>, codec: Codec)
    requires Applied(payload, encoded, codec).Processed?
    ensures InOrder(Applied(payload, encoded, codec).paths)
    ensures forall s ::
      s in Applied(payload, encoded, codec).paths <==> SomeAt(Obj(payload.value), DecodeAll(encoded, codec).value, s)
    ensures OnePathEach(Obj(payload.value), DecodeAll(encoded, codec).value)
  {
    var v, D := Obj(payload.value), DecodeAll(encoded, codec).value;
    var e, paths := Expand(v, "", D), Applied(payload, encoded, codec).paths;
    assert e.Done? && paths == SortStrings(PathList(e.applied)) && e.applied.Keys == D.Keys;
    hide Applied, Expand, DecodeAll, PathList, SortStrings, InOrder, OnlyAt, SomeAt, SomeSays;
    Reported(e.applied);
    forall s ensures s in paths <==> SomeAt(v, D, s) {
      SaidAt(v, D, s);
    }
    forall d | d in D ensures OnlyAt(v, D, d, e.applied[d]) {
      SaidOnce(v, D, d);
    }
  }

  lemma SaidAt(v: Json, D: Supplied, s: string)
    requires Expand(v, "", D).Done?
    ensures SomeSays(Expand(v, "", D).applied, s) <==> SomeAt(v, D, s)
  {
    hide Expand, At, Says;
    forall d ensures Says(Expand(v, "", D).applied, d, s) <==> At(v, D, "", d, s) {
      ValuePaths(v, "", D, d, s);
    }
  }

  lemma SaidOnce(v: Json, D: Supplied, d: string)
    requires Expand(v, "", D).Done? && d in Expand(v, "", D).applied
    ensures OnlyAt(v, D, d, Expand(v, "", D).applied[d])
  {
    hide Expand, At;
    var applied := Expand(v, "", D).applied;
    forall t ensures At(v, D, "", d, t) <==> t == applied[d] {
      ValuePaths(v, "", D, d, t);
    }
  }

  /** The reported paths are those in the map, in order. */
  lemma Reported(applied: map<string, string>)
    ensures InOrder(SortStrings(PathList(applied)))
    ensures forall s :: s in SortStrings(PathList(applied)) <==> SomeSays(applied, s)
  {
    var list, paths := PathList(applied), SortStrings(PathList(applied));
    StringLeIsTotalOrder();
    Sorting.SortSorts(StringLe, list);
    hide StringLe, PathList;
    forall s ensures s in paths <==> SomeSays(applied, s) {
      PathListed(applied, s);
      assert s in paths <==> s in multiset(paths);
      assert s in list <==> s in multiset(list);
    }
  }

  lemma {:induction false} PathListed(applied: map<string, string>, s: string)
    ensures s in PathList(applied) <==> SomeSays(applied, s)
    decreases applied.Keys
  {
    if applied != map[] {
      var d := Pick(applied);
      var rest := applied - {d};
      assert rest.Keys == applied.Keys - {d};
      PathListed(rest, s);
      assert PathList(applied) == PathList(rest) + [applied[d]];
      hide PathList;
      if s in PathList(rest) {
        var e :| Says(rest, e, s);
        assert Says(applied, e, s);
      } else if s == applied[d] {
        assert Says(applied, d, s);
      }
      if e :| Says(applied, e, s) {
        assert e != d ==> Says(rest, e, s);
      }
    }
  }

  /** The number that decimal digits stand for. */
  function NumberOf(digits: string): int {
    if digits == "" then 0 else 10 * NumberOf(digits[..|digits| - 1]) + (digits[|digits| - 1] as int - '0' as int)
  }

  /** Positions are written in decimal digits without leading zeros, so that different positions give different paths. */
  lemma {:induction false} PositionsAreDecimal(n: nat)
    ensures NumberOf(Decimal(n)) == n && Decimal(n) != "" && (Decimal(n)[0] == '0' ==> n == 0)
    ensures forall i :: 0 <= i < |Decimal(n)| ==> '0' <= Decimal(n)[i] <= '9'
  {
    var digit := ['0' + (n % 10) as char];
    assert NumberOf(digit) == n % 10 by { assert digit[..0] == ""; }
    if n >= 10 {
      PositionsAreDecimal(n / 10);
      assert (Decimal(n / 10) + digit)[..|Decimal(n / 10)|] == Decimal(n / 10);
    }
  }
}
