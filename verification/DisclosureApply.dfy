/** `ApplyDisclosures` as a whole: decoding, processing, the check that everything was used, and what it does not depend on. */
module DisclosureApply {
  import opened Common
  import opened Text
  import opened Disclosure
  import opened DisclosureProcessing

  /** Base64url and JSON decoding of a disclosure into an array of values, and its SHA-256 digest. */
  datatype Codec = Codec(decode: string -> Option<seq<Json>>, digest: string -> string)

  datatype Result = Refused | Processed(payload: map<string, Json>, paths: seq<string>)

  // ---------------------------------------------------------------- decoding

  /** `decodeDisclosure`: the digest of the trimmed text and what it discloses. */
  function DecodeDisclosure(encoded: string, codec: Codec): Option<(string, Decoded)> {
    var text := TrimSpace(encoded);
    if text == "" || codec.decode(text).None? then None
    else
      var values := codec.decode(text).value;
      if |values| != 2 && |values| != 3 then None
      else if !values[0].Str? || Blank(values[0].s) then None
      else if |values| == 3 then
        if !values[1].Str? || Blank(values[1].s) then None
        else Some((codec.digest(text), Decoded(ObjectProperty, values[1].s, values[2])))
      else Some((codec.digest(text), Decoded(ArrayElement, "", values[1])))
  }

  function DecodeStep(D: Option<Supplied>, encoded: string, codec: Codec): Option<Supplied> {
    var d := DecodeDisclosure(encoded, codec);
    if D.None? || d.None? || d.value.0 in D.value then None else Some(D.value[d.value.0 := d.value.1])
  }

  /** All disclosures by digest, if each one decodes and no digest comes twice. */
  function DecodeAll(encoded: seq<string>, codec: Codec): Option<Supplied> {
    if encoded == [] then Some(map[])
    else DecodeStep(DecodeAll(encoded[..|encoded| - 1], codec), encoded[|encoded| - 1], codec)
  }

  lemma {:induction false} DecodeFailureSticks(encoded: seq<string>, k: nat, codec: Codec)
    requires k <= |encoded| && DecodeAll(encoded[..k], codec).None?
    ensures DecodeAll(encoded, codec).None?
  {
    if k == |encoded| {
      assert encoded[..k] == encoded;
    } else {
      assert encoded[..|encoded| - 1][..k] == encoded[..k];
      DecodeFailureSticks(encoded[..|encoded| - 1], k, codec);
    }
  }

  /** Every text decodes by itself, and no two of them have the same digest. */
  ghost predicate Decodes(encoded: seq<string>, codec: Codec) {
    && (forall i :: 0 <= i < |encoded| ==> DecodeDisclosure(encoded[i], codec).Some?)
    && (forall i, j :: 0 <= i < j < |encoded| ==>
          DecodeDisclosure(encoded[i], codec).value.0 != DecodeDisclosure(encoded[j], codec).value.0)
  }

  /** Each text's disclosure under its digest, and nothing else. */
  ghost predicate DecodedOf(D: Supplied, encoded: seq<string>, codec: Codec) {
    && (forall i :: 0 <= i < |encoded| ==> Supplies(D, encoded[i], codec))
    && (forall d :: d in D ==> exists i :: 0 <= i < |encoded| && DecodeDisclosure(encoded[i], codec) == Some((d, D[d])))
  }

  predicate Supplies(D: Supplied, text: string, codec: Codec) {
    var x := DecodeDisclosure(text, codec);
    x.Some? && x.value.0 in D && D[x.value.0] == x.value.1
  }

  /** When a list of disclosures decodes, and what to. */
  lemma {:induction false} DecodesExactly(encoded: seq<string>, codec: Codec)
    ensures DecodeAll(encoded, codec).Some? <==> Decodes(encoded, codec)
    ensures Decodes(encoded, codec) ==> DecodedOf(DecodeAll(encoded, codec).value, encoded, codec)
  {
    hide DecodeDisclosure, DecodedOf, Decodes;
    if encoded == [] {
      NoneDecoded(codec);
    } else {
      var n := |encoded| - 1;
      DecodesExactly(encoded[..n], codec);
      DecodesStep(encoded, codec);
      if Decodes(encoded[..n], codec) {
        OneMoreDecoded(DecodeAll(encoded[..n], codec).value, encoded, codec);
      }
    }
  }

  lemma NoneDecoded(codec: Codec)
    ensures Decodes([], codec) && DecodedOf(map[], [], codec)
  {
  }

  lemma DecodesStep(encoded: seq<string>, codec: Codec)
    requires encoded != []
    ensures Decodes(encoded, codec) ==> Decodes(encoded[..|encoded| - 1], codec)
  {
    hide DecodeDisclosure;
  }

  lemma OneMoreDecoded(D: Supplied, encoded: seq<string>, codec: Codec)
    requires encoded != []
    requires var n := |encoded| - 1; Decodes(encoded[..n], codec) && DecodedOf(D, encoded[..n], codec)
    ensures var r := DecodeStep(Some(D), encoded[|encoded| - 1], codec);
      (r.Some? <==> Decodes(encoded, codec)) && (r.Some? ==> DecodedOf(r.value, encoded, codec))
  {
    hide DecodeDisclosure;
    var n := |encoded| - 1;
    var before, last := encoded[..n], DecodeDisclosure(encoded[n], codec);
    forall i | 0 <= i < n ensures before[i] == encoded[i] && Supplies(D, encoded[i], codec) {
      assert Supplies(D, before[i], codec);
    }
    if last.Some? && last.value.0 in D {
      var i :| 0 <= i < n && DecodeDisclosure(before[i], codec) == Some((last.value.0, D[last.value.0]));
      assert DecodeDisclosure(encoded[i], codec).value.0 == last.value.0;
    } else if last.Some? {
      var more := D[last.value.0 := last.value.1];
      forall d | d in more ensures exists i :: 0 <= i <= n && DecodeDisclosure(encoded[i], codec) == Some((d, more[d])) {
        if d != last.value.0 {
          var i :| 0 <= i < n && DecodeDisclosure(before[i], codec) == Some((d, D[d]));
          assert DecodeDisclosure(encoded[i], codec) == Some((d, more[d]));
        }
      }
    }
  }

  // ---------------------------------------------------------------- the whole of ApplyDisclosures

  predicate HashSupported(payload: map<string, Json>) {
    SD_ALG in payload ==> payload[SD_ALG] == Str("sha-256")
  }

  ghost function PathList(applied: map<string, string>): (paths: seq<string>)
    ensures multiset(paths) == ValuesOf(applied)
    decreases applied.Keys
  {
    if applied == map[] then []
    else
      var d := Pick(applied);
      assert (applied - {d}).Keys == applied.Keys - {d};
      PathList(applied - {d}) + [applied[d]]
  }

  /** What processing a payload with a set of supplied disclosures comes to. */
  ghost function Outcome(payload: map<string, Json>, D: Supplied): Result {
    var e := Expand(Obj(payload), "", D);
    if e.Failed? || !e.value.Obj? || e.applied.Keys != D.Keys then Refused
    else Processed(e.value.fields - {SD_ALG}, SortStrings(PathList(e.applied)))
  }

  /** What `ApplyDisclosures` answers. */
  ghost function Applied(payload: Option<map<string, Json>>, encoded: seq<string>, codec: Codec): Result {
    if payload.None? || !HashSupported(payload.value) || DecodeAll(encoded, codec).None? then Refused
    else Outcome(payload.value, DecodeAll(encoded, codec).value)
  }

  /**
   * `ApplyDisclosures`. The traversal visits the properties of every object in an arbitrary order, and its result is a
   * function of the payload and the disclosures all the same.
   */
  method ApplyDisclosures(payload: Option<map<string, Json>>, encoded: seq<string>, codec: Codec) returns (r: Result)
    ensures r == Applied(payload, encoded, codec)
  {
    hide Expand, ValuesOf, Unused;
    if payload.None? || !HashSupported(payload.value) {
      return Refused;
    }
    var disclosures: Supplied := map[];
    for i := 0 to |encoded|
      invariant DecodeAll(encoded[..i], codec) == Some(disclosures)
    {
      assert encoded[..i + 1][..i] == encoded[..i];
      var decoded := DecodeDisclosure(encoded[i], codec);
      if decoded.None? || decoded.value.0 in disclosures {
        DecodeFailureSticks(encoded, i + 1, codec);
        return Refused;
      }
      disclosures := disclosures[decoded.value.0 := decoded.value.1];
    }
    assert encoded[..|encoded|] == encoded;
    var processing := new Processing(disclosures);
    WithNothingAbove(processing);
    var processed := processing.ProcessValue(Obj(payload.value), "", {});
    if processed.None? || !processed.value.Obj? {
      return Refused;
    }
    ghost var e := Expand(Obj(payload.value), "", disclosures);
    FromScratch(e.refs, e.applied);
    if !(disclosures.Keys <= processing.used) {
      return Refused;
    }
    SortStringsForgetsOrder(processing.disclosedPaths, PathList(e.applied));
    return Processed(processed.value.fields - {SD_ALG}, SortStrings(processing.disclosedPaths));
  }

  lemma WithNothingAbove(p: Processing)
    ensures p.Available({}) == p.disclosures
  {
  }

  lemma FromScratch(refs: set<string>, applied: map<string, string>)
    ensures Grow(Track({}, map[]), refs, applied) == Track(refs, applied) && Fresh(refs, Track({}, map[]))
  {
    assert map[] + applied == applied;
  }

  // ---------------------------------------------------------------- the order of the disclosures

  lemma DecodeStepsCommute(D: Option<Supplied>, a: string, b: string, codec: Codec)
    ensures DecodeStep(DecodeStep(D, a, codec), b, codec) == DecodeStep(DecodeStep(D, b, codec), a, codec)
  {
    var x, y := DecodeDisclosure(a, codec), DecodeDisclosure(b, codec);
    if D.Some? && x.Some? && y.Some? && x.value.0 != y.value.0 {
      assert D.value[x.value.0 := x.value.1][y.value.0 := y.value.1] == D.value[y.value.0 := y.value.1][x.value.0 := x.value.1];
    }
  }

  function Without(s: seq<string>, i: nat): (r: seq<string>)
    requires i < |s|
    ensures |r| == |s| - 1
  {
    s[..i] + s[i + 1..]
  }

  lemma WithoutLast(s: seq<string>, i: nat)
    requires i < |s|
    ensures i == |s| - 1 ==> Without(s, i) == s[..i]
    ensures i < |s| - 1 ==>
      var rest := Without(s, i);
      rest[..|rest| - 1] == Without(s[..|s| - 1], i) && rest[|rest| - 1] == s[|s| - 1]
  {
    if i < |s| - 1 {
      var rest := Without(s, i);
      assert rest[..|rest| - 1] == Without(s[..|s| - 1], i);
    }
  }

  lemma MultisetWithout(s: seq<string>, i: nat)
    requires i < |s|
    ensures multiset(s) == multiset(Without(s, i)) + multiset{s[i]}
  {
    assert s == s[..i] + [s[i]] + s[i + 1..];
  }

  lemma Cancel(x: multiset<string>, y: multiset<string>, z: multiset<string>)
    requires x + z == y + z
    ensures x == y
  {
    assert x == (x + z) - z && y == (y + z) - z;
  }

  lemma DecodeAllStep(encoded: seq<string>, codec: Codec)
    requires encoded != []
    ensures DecodeAll(encoded, codec) ==
            DecodeStep(DecodeAll(encoded[..|encoded| - 1], codec), encoded[|encoded| - 1], codec)
  {
  }

  /** Any disclosure may be decoded last. */
  lemma {:induction false} DecodeLast(encoded: seq<string>, i: nat, codec: Codec)
    requires i < |encoded|
    ensures DecodeAll(encoded, codec) == DecodeStep(DecodeAll(Without(encoded, i), codec), encoded[i], codec)
  {
    hide DecodeAll, DecodeStep, Without;
    var n := |encoded| - 1;
    WithoutLast(encoded, i);
    DecodeAllStep(encoded, codec);
    if i < n {
      DecodeAllStep(Without(encoded, i), codec);
      DecodeLast(encoded[..n], i, codec);
      DecodeStepsCommute(DecodeAll(Without(encoded[..n], i), codec), encoded[i], encoded[n], codec);
    }
  }

  lemma {:induction false} DecodeForgetsOrder(a: seq<string>, b: seq<string>, codec: Codec)
    requires multiset(a) == multiset(b)
    ensures DecodeAll(a, codec) == DecodeAll(b, codec)
    decreases |b|
  {
    hide DecodeStep, Without;
    assert |a| == |multiset(a)| == |multiset(b)| == |b|;
    if b != [] {
      var n := |b| - 1;
      assert b[n] in multiset(a);
      var i :| 0 <= i < |a| && a[i] == b[n];
      MultisetWithout(a, i);
      MultisetWithout(b, n);
      WithoutLast(b, n);
      Cancel(multiset(Without(a, i)), multiset(b[..n]), multiset{b[n]});
      DecodeLast(a, i, codec);
      DecodeForgetsOrder(Without(a, i), b[..n], codec);
    }
  }

  /** Success, payload and reported paths do not depend on the order in which the disclosures are supplied. */
  lemma Confluence(payload: Option<map<string, Json>>, a: seq<string>, b: seq<string>, codec: Codec)
    requires multiset(a) == multiset(b)
    ensures Applied(payload, a, codec) == Applied(payload, b, codec)
  {
    DecodeForgetsOrder(a, b, codec);
  }

  // ---------------------------------------------------------------- exact use

  lemma {:induction false} DecodedCount(encoded: seq<string>, codec: Codec)
    requires DecodeAll(encoded, codec).Some?
    ensures |DecodeAll(encoded, codec).value| == |encoded|
  {
    if encoded != [] {
      DecodedCount(encoded[..|encoded| - 1], codec);
    }
  }

  /** On success every supplied disclosure was applied, and exactly one path is reported for each. */
  lemma EveryDisclosureUsedOnce(payload: Option<map<string, Json>>, encoded: seq<string>, codec: Codec)
    requires Applied(payload, encoded, codec).Processed?
    ensures |Applied(payload, encoded, codec).paths| == |encoded|
    ensures Expand(Obj(payload.value), "", DecodeAll(encoded, codec).value).applied.Keys ==
            DecodeAll(encoded, codec).value.Keys
  {
    hide Expand, ValuesOf;
    var D := DecodeAll(encoded, codec).value;
    var e := Expand(Obj(payload.value), "", D);
    DecodedCount(encoded, codec);
    ValuesCount(e.applied);
    assert |e.applied| == |e.applied.Keys| == |D.Keys| == |D|;
    var paths := SortStrings(PathList(e.applied));
    assert |paths| == |multiset(paths)|;
  }
}
