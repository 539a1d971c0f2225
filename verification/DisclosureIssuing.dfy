/**
 * An issuer that encodes the disclosures of a concealed tree (section 4.2 of RFC 9901), so that what a holder presents can
 * be stated without assuming anything of the decoded disclosures.
 */
module DisclosureIssuing {
  import opened Common
  import opened Text
  import opened Disclosure
  import opened DisclosureApply
  import opened DisclosureRoundTrip

  /** The encoding of an array of values, and for each digest the salt and the encoded disclosure it was computed from. */
  datatype Issuer = Issuer(encode: seq<Json> -> string, codec: Codec, salts: map<string, string>, texts: map<string, string>)

  /**
   * The issuer's texts decode to what was encoded in them, have no blanks around them and stand under their own digests.
   * Salts and names may be anything.
   */
  ghost predicate Sane(issuer: Issuer) {
    && (forall vs :: issuer.encode(vs) in issuer.texts.Values ==> issuer.codec.decode(issuer.encode(vs)) == Some(vs))
    && (forall d :: d in issuer.texts ==> TrimSpace(issuer.texts[d]) == issuer.texts[d] && issuer.texts[d] != "")
    && issuer.salts.Keys == issuer.texts.Keys
    && (forall d :: d in issuer.texts ==> issuer.codec.digest(issuer.texts[d]) == d)
  }

  function PropertyText(issuer: Issuer, d: string, name: string, t: Tree): string
    requires d in issuer.salts
  {
    issuer.encode([Str(issuer.salts[d]), Str(name), Conceal(t)])
  }

  function ElementText(issuer: Issuer, d: string, t: Tree): string
    requires d in issuer.salts
  {
    issuer.encode([Str(issuer.salts[d]), Conceal(t)])
  }

  /** The digests of the tree are those of its encoded disclosures, and the decoys are not. */
  ghost predicate IssuedBy(t: Tree, issuer: Issuer)
    decreases t, 1
  {
    match t
    case Leaf(_) => true
    case Branch(fields, sd) =>
      && (forall k :: k in fields ==> IssuedBy(fields[k].tree, issuer))
      && (forall k :: k in fields && fields[k].mark.Hidden? ==> IssuedProperty(k, fields[k], issuer))
      && (forall d :: d in sd && d in issuer.texts ==> exists k :: k in fields && fields[k].mark == Hidden(d))
    case List(elements) => IssuedAll(elements, issuer)
  }

  predicate IssuedProperty(name: string, slot: Slot, issuer: Issuer)
    requires slot.mark.Hidden?
  {
    var d := slot.mark.digest;
    d in issuer.salts && d in issuer.texts && issuer.texts[d] == PropertyText(issuer, d, name, slot.tree)
  }

  ghost predicate IssuedAll(elements: seq<Element>, issuer: Issuer)
    decreases elements, 0
  {
    elements == [] || (IssuedAll(elements[..|elements| - 1], issuer) && IssuedElement(elements[|elements| - 1], issuer))
  }

  ghost predicate IssuedElement(e: Element, issuer: Issuer)
    decreases e, 1
  {
    match e
    case Element(Shown, t) => IssuedBy(t, issuer)
    case Element(Hidden(d), t) =>
      IssuedBy(t, issuer) && d in issuer.salts && d in issuer.texts && issuer.texts[d] == ElementText(issuer, d, t)
    case Decoy(d) => d !in issuer.texts
  }

  // ---------------------------------------------------------------- decoding what was encoded

  /** A digest hides a property with a blank name. */
  ghost predicate Nameless(t: Tree, d: string)
    decreases t, 1
  {
    match t
    case Leaf(_) => false
    case Branch(fields, _) =>
      || (exists k :: k in fields && fields[k].mark == Hidden(d) && Blank(k))
      || (exists k :: k in fields && Nameless(fields[k].tree, d))
    case List(elements) => NamelessIn(elements, d)
  }

  ghost predicate NamelessIn(elements: seq<Element>, d: string)
    decreases elements, 0
  {
    elements != [] && (NamelessIn(elements[..|elements| - 1], d) || NamelessElement(elements[|elements| - 1], d))
  }

  ghost predicate NamelessElement(e: Element, d: string)
    decreases e, 1
  {
    e.Element? && Nameless(e.tree, d)
  }

  /** The issuer's text under a digest can be read back: its salt is not blank, nor its name if it has one. */
  ghost predicate Readable(t: Tree, issuer: Issuer, d: string) {
    d in issuer.salts && !Blank(issuer.salts[d]) && !Nameless(t, d)
  }

  function TextDecoded(issuer: Issuer, d: string): Option<(string, Decoded)>
    requires d in issuer.texts
  {
    DecodeDisclosure(issuer.texts[d], issuer.codec)
  }

  lemma PropertyDecodes(issuer: Issuer, d: string, name: string, t: Tree)
    requires Sane(issuer) && d in issuer.texts && issuer.texts[d] == PropertyText(issuer, d, name, t)
    ensures TextDecoded(issuer, d) ==
      if Blank(issuer.salts[d]) || Blank(name) then None else Some((d, Decoded(ObjectProperty, name, Conceal(t))))
  {
    hide Blank, TrimSpace, Conceal;
  }

  lemma ElementDecodes(issuer: Issuer, d: string, t: Tree)
    requires Sane(issuer) && d in issuer.texts && issuer.texts[d] == ElementText(issuer, d, t)
    ensures TextDecoded(issuer, d) ==
      if Blank(issuer.salts[d]) then None else Some((d, Decoded(ArrayElement, "", Conceal(t))))
  {
    hide Blank, TrimSpace, Conceal;
  }

  /** Supplied disclosures under the digests of a tree are decoded from the issuer's texts. */
  ghost predicate DecodedFrom(D: Supplied, issuer: Issuer, ours: set<string>) {
    forall d :: d in D && d in ours ==> d in issuer.texts && TextDecoded(issuer, d) == Some((d, D[d]))
  }

  /** Whatever was decoded from the issuer's texts agrees with the tree. */
  lemma {:induction false} IssuedAgrees(t: Tree, issuer: Issuer, D: Supplied, ours: set<string>)
    requires Sane(issuer) && IssuedBy(t, issuer) && WellFormed(t) && Digests(t) <= ours && DecodedFrom(D, issuer, ours)
    ensures Agrees(t, D)
    decreases t, 1
  {
    hide TextDecoded, Conceal, Sane;
    match t
    case Leaf(_) =>
    case Branch(fields, sd) =>
      forall k | k in fields
        ensures Agrees(fields[k].tree, D)
        ensures fields[k].mark.Hidden? && fields[k].mark.digest in D ==>
          D[fields[k].mark.digest] == Decoded(ObjectProperty, k, Conceal(fields[k].tree))
      {
        FieldDigests(t, k);
        IssuedAgrees(fields[k].tree, issuer, D, ours);
        if fields[k].mark.Hidden? {
          assert IssuedProperty(k, fields[k], issuer);
          PropertyDecodes(issuer, fields[k].mark.digest, k, fields[k].tree);
        }
      }
    case List(elements) => AllIssuedAgree(elements, issuer, D, ours);
  }

  lemma FieldDigests(t: Tree, k: string)
    requires t.Branch? && k in t.fields
    ensures Digests(t.fields[k].tree) <= Digests(t)
  {
    forall d | d in Digests(t.fields[k].tree) ensures d in Digests(t) {
      BelowField(t, k, d);
    }
  }

  lemma {:induction false} AllIssuedAgree(elements: seq<Element>, issuer: Issuer, D: Supplied, ours: set<string>)
    requires Sane(issuer) && IssuedAll(elements, issuer) && WellFormedAll(elements)
    requires DigestsOfAll(elements) <= ours && DecodedFrom(D, issuer, ours)
    ensures AgreesAll(elements, D)
    decreases elements, 0
  {
    hide TextDecoded, Sane;
    if elements != [] {
      AllIssuedAgree(elements[..|elements| - 1], issuer, D, ours);
      ElementIssuedAgrees(elements[|elements| - 1], issuer, D, ours);
    }
  }

  lemma {:induction false} ElementIssuedAgrees(e: Element, issuer: Issuer, D: Supplied, ours: set<string>)
    requires Sane(issuer) && IssuedElement(e, issuer) && WellFormedElement(e)
    requires DigestsOf(e) <= ours && DecodedFrom(D, issuer, ours)
    ensures AgreesElement(e, D)
    decreases e, 1
  {
    hide TextDecoded, Conceal, Sane;
    if !e.Decoy? {
      IssuedAgrees(e.tree, issuer, D, ours);
      if e.mark.Hidden? {
        ElementDecodes(issuer, e.mark.digest, e.tree);
      }
    }
  }

  // ---------------------------------------------------------------- which texts can be read back

  lemma {:induction false} NamelessFails(t: Tree, issuer: Issuer, d: string)
    requires Sane(issuer) && IssuedBy(t, issuer) && Nameless(t, d)
    ensures d in issuer.texts && TextDecoded(issuer, d).None?
    decreases t, 1
  {
    hide TextDecoded, Conceal, Sane;
    match t
    case Branch(fields, sd) =>
      if k :| k in fields && fields[k].mark == Hidden(d) && Blank(k) {
        assert IssuedProperty(k, fields[k], issuer);
        PropertyDecodes(issuer, d, k, fields[k].tree);
      } else {
        var k :| k in fields && Nameless(fields[k].tree, d);
        NamelessFails(fields[k].tree, issuer, d);
      }
    case List(elements) => NamelessListFails(elements, issuer, d);
  }

  lemma {:induction false} NamelessListFails(elements: seq<Element>, issuer: Issuer, d: string)
    requires Sane(issuer) && IssuedAll(elements, issuer) && NamelessIn(elements, d)
    ensures d in issuer.texts && TextDecoded(issuer, d).None?
    decreases elements, 0
  {
    hide TextDecoded, Sane;
    if NamelessIn(elements[..|elements| - 1], d) {
      NamelessListFails(elements[..|elements| - 1], issuer, d);
    } else {
      NamelessElementFails(elements[|elements| - 1], issuer, d);
    }
  }

  lemma {:induction false} NamelessElementFails(e: Element, issuer: Issuer, d: string)
    requires Sane(issuer) && IssuedElement(e, issuer) && NamelessElement(e, d)
    ensures d in issuer.texts && TextDecoded(issuer, d).None?
    decreases e, 1
  {
    hide TextDecoded, Sane, Nameless;
    NamelessFails(e.tree, issuer, d);
  }

  /** A text of the tree is refused for its salt or its name only, and is decoded under its own digest. */
  ghost predicate ReadBack(issuer: Issuer, d: string, named: bool)
    requires d in issuer.texts && d in issuer.salts
  {
    && (TextDecoded(issuer, d).Some? ==> TextDecoded(issuer, d).value.0 == d && !Blank(issuer.salts[d]))
    && (!Blank(issuer.salts[d]) && named ==> TextDecoded(issuer, d).Some?)
  }

  lemma {:induction false} DigestDecodes(t: Tree, issuer: Issuer, d: string)
    requires Sane(issuer) && IssuedBy(t, issuer) && d in Digests(t) && d in issuer.texts && d in issuer.salts
    ensures ReadBack(issuer, d, !Nameless(t, d))
    decreases t, 1
  {
    hide TextDecoded, Conceal, Sane, Blank;
    match t
    case Branch(fields, sd) =>
      if d in sd {
        var k :| k in fields && fields[k].mark == Hidden(d);
        assert IssuedProperty(k, fields[k], issuer);
        PropertyDecodes(issuer, d, k, fields[k].tree);
      } else {
        var k :| k in fields && d in Digests(fields[k].tree);
        DigestDecodes(fields[k].tree, issuer, d);
      }
    case List(elements) => ListedDigestDecodes(elements, issuer, d);
  }

  lemma {:induction false} ListedDigestDecodes(elements: seq<Element>, issuer: Issuer, d: string)
    requires Sane(issuer) && IssuedAll(elements, issuer) && d in DigestsOfAll(elements)
    requires d in issuer.texts && d in issuer.salts
    ensures ReadBack(issuer, d, !NamelessIn(elements, d))
    decreases elements, 0
  {
    hide TextDecoded, Sane, Blank;
    if d in DigestsOfAll(elements[..|elements| - 1]) {
      ListedDigestDecodes(elements[..|elements| - 1], issuer, d);
    } else {
      ElementDigestDecodes(elements[|elements| - 1], issuer, d);
    }
  }

  lemma {:induction false} ElementDigestDecodes(e: Element, issuer: Issuer, d: string)
    requires Sane(issuer) && IssuedElement(e, issuer) && d in DigestsOf(e) && d in issuer.texts && d in issuer.salts
    ensures ReadBack(issuer, d, !NamelessElement(e, d))
    decreases e, 1
  {
    hide TextDecoded, Conceal, Sane, Blank;
    if e.mark == Hidden(d) {
      ElementDecodes(issuer, d, e.tree);
    } else {
      DigestDecodes(e.tree, issuer, d);
    }
  }

  /** An issuer's text decodes exactly when neither its salt nor, for a property, its name is blank. */
  lemma DecodesIffReadable(t: Tree, issuer: Issuer, d: string)
    requires Sane(issuer) && IssuedBy(t, issuer) && d in issuer.texts && d in Digests(t)
    ensures TextDecoded(issuer, d).Some? <==> Readable(t, issuer, d)
    ensures TextDecoded(issuer, d).Some? ==> TextDecoded(issuer, d).value.0 == d
  {
    DigestDecodes(t, issuer, d);
    if Nameless(t, d) {
      NamelessFails(t, issuer, d);
    }
  }

  // ---------------------------------------------------------------- what is presented

  function DigestOf(text: string, codec: Codec): string {
    codec.digest(TrimSpace(text))
  }

  function Presented(encoded: seq<string>, codec: Codec): set<string> {
    set x | x in encoded :: DigestOf(x, codec)
  }

  /** A presented text whose digest occurs in the tree is the issuer's own. */
  ghost predicate CollisionFree(encoded: seq<string>, t: Tree, issuer: Issuer) {
    forall x :: x in encoded && DigestOf(x, issuer.codec) in Digests(t) ==>
      DigestOf(x, issuer.codec) in issuer.texts && issuer.texts[DigestOf(x, issuer.codec)] == TrimSpace(x)
  }

  ghost predicate NoneTwice(encoded: seq<string>) {
    forall i, j :: 0 <= i < j < |encoded| ==> TrimSpace(encoded[i]) != TrimSpace(encoded[j])
  }

  /** What a presented text of the issuer decodes to. */
  lemma PresentedText(x: string, t: Tree, issuer: Issuer)
    requires Sane(issuer) && IssuedBy(t, issuer)
    requires var d := DigestOf(x, issuer.codec); d in Digests(t) && d in issuer.texts && issuer.texts[d] == TrimSpace(x)
    ensures var d := DigestOf(x, issuer.codec);
      && DecodeDisclosure(x, issuer.codec) == TextDecoded(issuer, d)
      && (DecodeDisclosure(x, issuer.codec).Some? <==> Readable(t, issuer, d))
  {
    DecodesIffReadable(t, issuer, DigestOf(x, issuer.codec));
    hide IssuedBy, Digests, Readable, TrimSpace, Blank;
  }

  lemma DecodedDigest(x: string, codec: Codec)
    ensures DecodeDisclosure(x, codec).Some? ==> DecodeDisclosure(x, codec).value.0 == DigestOf(x, codec)
  {
    hide TrimSpace, Blank;
  }

  /** A list of the issuer's texts decodes exactly when none comes twice and each can be read back. */
  lemma ChosenDecode(encoded: seq<string>, t: Tree, issuer: Issuer)
    requires Sane(issuer) && IssuedBy(t, issuer) && CollisionFree(encoded, t, issuer)
    requires Presented(encoded, issuer.codec) <= Digests(t)
    ensures Decodes(encoded, issuer.codec) <==>
      NoneTwice(encoded) && forall d :: d in Presented(encoded, issuer.codec) ==> Readable(t, issuer, d)
  {
    hide IssuedBy, Sane, Digests, Readable, TrimSpace, DecodeDisclosure, DigestOf;
    var codec := issuer.codec;
    forall i | 0 <= i < |encoded|
      ensures DecodeDisclosure(encoded[i], codec).Some? <==> Readable(t, issuer, DigestOf(encoded[i], codec))
      ensures DecodeDisclosure(encoded[i], codec).Some? ==> DecodeDisclosure(encoded[i], codec).value.0 == DigestOf(encoded[i], codec)
      ensures issuer.texts[DigestOf(encoded[i], codec)] == TrimSpace(encoded[i])
    {
      assert DigestOf(encoded[i], codec) in Presented(encoded, codec);
      PresentedText(encoded[i], t, issuer);
      DecodedDigest(encoded[i], codec);
    }
    forall i, j | 0 <= i < j < |encoded|
      ensures TrimSpace(encoded[i]) == TrimSpace(encoded[j]) <==> DigestOf(encoded[i], codec) == DigestOf(encoded[j], codec)
    {
      SameTextSameDigest(encoded[i], encoded[j], codec);
    }
  }

  lemma SameTextSameDigest(x: string, y: string, codec: Codec)
    ensures TrimSpace(x) == TrimSpace(y) ==> DigestOf(x, codec) == DigestOf(y, codec)
  {
    hide TrimSpace;
  }

  /** Whatever list of texts decodes, it decodes to one disclosure for each digest, the issuer's where that is of the tree. */
  lemma PresentedDecode(encoded: seq<string>, t: Tree, issuer: Issuer)
    requires Sane(issuer) && IssuedBy(t, issuer) && CollisionFree(encoded, t, issuer)
    requires DecodeAll(encoded, issuer.codec).Some?
    ensures var D := DecodeAll(encoded, issuer.codec).value;
      D.Keys == Presented(encoded, issuer.codec) && DecodedFrom(D, issuer, Digests(t))
  {
    hide IssuedBy, Sane, Digests, Readable, TrimSpace, DecodeDisclosure, DigestOf, DecodeAll, Decodes, TextDecoded;
    var codec := issuer.codec;
    DecodesExactly(encoded, codec);
    var D := DecodeAll(encoded, codec).value;
    forall d | d in D
      ensures d in Presented(encoded, codec)
      ensures d in Digests(t) ==> d in issuer.texts && TextDecoded(issuer, d) == Some((d, D[d]))
    {
      var i :| 0 <= i < |encoded| && DecodeDisclosure(encoded[i], codec) == Some((d, D[d]));
      DecodedDigest(encoded[i], codec);
      if d in Digests(t) {
        PresentedText(encoded[i], t, issuer);
      }
    }
    forall x | x in encoded ensures DigestOf(x, codec) in D {
      var i :| 0 <= i < |encoded| && encoded[i] == x;
      assert Supplies(D, encoded[i], codec);
      DecodedDigest(x, codec);
    }
  }

  lemma {:induction false} HoldsEverything(t: Tree, issuer: Issuer, S: set<string>)
    requires IssuedBy(t, issuer) && issuer.texts.Keys <= S
    ensures AllDisclosed(t, S)
    decreases t, 1
  {
    hide Conceal;
    match t
    case Leaf(_) =>
    case Branch(fields, _) =>
      forall k | k in fields ensures Visible(fields[k].mark, S) && AllDisclosed(fields[k].tree, S) {
        assert fields[k].mark.Hidden? ==> IssuedProperty(k, fields[k], issuer);
        HoldsEverything(fields[k].tree, issuer, S);
      }
    case List(elements) => HoldsAll(elements, issuer, S);
  }

  lemma {:induction false} HoldsAll(elements: seq<Element>, issuer: Issuer, S: set<string>)
    requires IssuedAll(elements, issuer) && issuer.texts.Keys <= S
    ensures forall e :: e in elements && !e.Decoy? ==> Visible(e.mark, S) && AllDisclosed(e.tree, S)
    decreases elements, 0
  {
    hide Conceal, AllDisclosed;
    if elements != [] {
      var n := |elements| - 1;
      HoldsAll(elements[..n], issuer, S);
      HoldsOne(elements[n], issuer, S);
      assert elements == elements[..n] + [elements[n]];
    }
  }

  lemma {:induction false} HoldsOne(e: Element, issuer: Issuer, S: set<string>)
    requires IssuedElement(e, issuer) && issuer.texts.Keys <= S
    ensures !e.Decoy? ==> Visible(e.mark, S) && AllDisclosed(e.tree, S)
    decreases e, 1
  {
    hide Conceal;
    if !e.Decoy? {
      HoldsEverything(e.tree, issuer, S);
    }
  }

  /**
   * From the issuer to the verifier, for any list of texts at all: `ApplyDisclosures` accepts it exactly when all of them
   * are of this tree, none comes twice, none has a blank salt or a blank property name, and no text comes from inside a
   * hidden node that is not disclosed. It then returns the tree without the other hidden nodes; with all texts, the tree
   * the issuer started from.
   */
  lemma PresentationOfIssued(t: Tree, named: bool, issuer: Issuer, encoded: seq<string>)
    requires t.Branch? && WellFormed(t) && Sane(issuer) && IssuedBy(t, issuer) && issuer.texts.Keys <= Digests(t)
    requires CollisionFree(encoded, t, issuer)
    ensures var S := Presented(encoded, issuer.codec);
      var r := Applied(Some(Issued(t, named)), encoded, issuer.codec);
      && (r.Processed? <==>
            S <= issuer.texts.Keys && NoneTwice(encoded) && (forall d :: d in S ==> Readable(t, issuer, d)) && ParentClosed(t, S))
      && (r.Processed? ==> Obj(r.payload) == Reveal(t, S) && |r.paths| == |encoded|)
      && (S == issuer.texts.Keys && NoneTwice(encoded) && (forall d :: d in S ==> Readable(t, issuer, d)) ==>
            r.Processed? && Obj(r.payload) == Plain(t))
  {
    var S := Presented(encoded, issuer.codec);
    assert S <= Digests(t) <==> S <= issuer.texts.Keys by {
      hide Digests, DigestOf, TrimSpace;
      assert forall x :: x in encoded ==> DigestOf(x, issuer.codec) in S;
    }
    hide WellFormed, Sane, IssuedBy, CollisionFree, DecodeAll, Decodes, NoneTwice, Readable, Presented, DecodedFrom,
         Applied, Agrees, ParentClosed, Reveal, Plain, AllDisclosed, Digests;
    if DecodeAll(encoded, issuer.codec).Some? {
      PresentedDecode(encoded, t, issuer);
      IssuedAgrees(t, issuer, DecodeAll(encoded, issuer.codec).value, Digests(t));
    }
    PresentationReveals(t, named, encoded, issuer.codec);
    if S <= Digests(t) {
      ChosenDecode(encoded, t, issuer);
    }
    if S == issuer.texts.Keys {
      HoldsEverything(t, issuer, S);
    }
  }
}
