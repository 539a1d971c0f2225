/** An issuer and trees that meet what `DisclosureIssuing` asks for, and what becomes of some presentations of them. */
module DisclosureExamples {
  import opened Common
  import opened Text
  import opened Disclosure
  import opened DisclosureApply
  import opened DisclosureRoundTrip
  import opened DisclosureIssuing

  /** An issuer of two disclosures: "A" under the digest "a" and "B" under "b". */
  function TwoTexts(salt: string, a: seq<Json>, b: seq<Json>): Issuer {
    Issuer((vs: seq<Json>) => if vs == a then "A" else if vs == b then "B" else "",
           Codec(text => if text == "A" then Some(a) else if text == "B" then Some(b) else None,
                 text => if text == "A" then "a" else if text == "B" then "b" else "other"),
           map["a" := salt, "b" := salt],
           map["a" := "A", "b" := "B"])
  }

  /** Two hidden properties side by side, under the digests "a" and "b". */
  function Pair(first: string, second: string): Tree {
    Branch(map[first := Slot(Hidden("a"), Leaf(Null)), second := Slot(Hidden("b"), Leaf(Null))], ["a", "b"])
  }

  function PairIssuer(salt: string, first: string, second: string): Issuer {
    TwoTexts(salt, [Str(salt), Str(first), Null], [Str(salt), Str(second), Null])
  }

  /** A hidden property inside a hidden property, with a decoy. */
  function Inner(): Tree {
    Branch(map["title" := Slot(Hidden("b"), Leaf(Null))], ["b"])
  }

  function Nested(): Tree {
    Branch(map["job" := Slot(Hidden("a"), Inner())], ["a", "decoy"])
  }

  function NestedIssuer(salt: string): Issuer {
    TwoTexts(salt, [Str(salt), Str("job"), Conceal(Inner())], [Str(salt), Str("title"), Null])
  }

  lemma VisibleNames()
    ensures !Blank("a") && !Blank("b") && !Blank("decoy") && !Blank("job") && !Blank("title")
  {
  }

  lemma TrimmedTexts()
    ensures TrimSpace("A") == "A" && TrimSpace("B") == "B"
  {
  }

  lemma TwoTextsAreSane(salt: string, a: seq<Json>, b: seq<Json>)
    requires a != b
    ensures Sane(TwoTexts(salt, a, b))
  {
    TrimmedTexts();
    hide TrimSpace;
    var issuer := TwoTexts(salt, a, b);
    forall vs ensures issuer.encode(vs) == "A" ==> vs == a {
    }
    forall vs ensures issuer.encode(vs) == "B" ==> vs == b {
    }
    forall vs ensures issuer.encode(vs) in issuer.texts.Values ==> issuer.codec.decode(issuer.encode(vs)) == Some(vs) {
    }
  }

  /** Every list of texts is free of collisions with a tree of these digests. */
  lemma NoOtherDigests(encoded: seq<string>, t: Tree, salt: string, a: seq<Json>, b: seq<Json>)
    requires Digests(t) <= {"a", "b", "decoy"}
    ensures CollisionFree(encoded, t, TwoTexts(salt, a, b))
  {
    hide TrimSpace, Digests;
  }

  lemma PairDigests(first: string, second: string)
    ensures Digests(Pair(first, second)) == {"a", "b"} && BelowFields(Pair(first, second)) == {}
  {
    assert BelowFields(Pair(first, second)) == {};
  }

  lemma PairIsWellFormed(first: string, second: string)
    requires first != second && !Reserved(first) && !Reserved(second)
    ensures WellFormed(Pair(first, second))
  {
    VisibleNames();
    PairDigests(first, second);
    hide Blank;
  }

  lemma PairIsIssued(salt: string, first: string, second: string)
    requires first != second
    ensures IssuedBy(Pair(first, second), PairIssuer(salt, first, second))
  {
    var t, issuer := Pair(first, second), PairIssuer(salt, first, second);
    assert t.fields[first].mark == Hidden("a") && t.fields[second].mark == Hidden("b");
    assert IssuedProperty(first, t.fields[first], issuer) && IssuedProperty(second, t.fields[second], issuer);
  }

  lemma PairNames(first: string, second: string)
    requires first != second
    ensures Nameless(Pair(first, second), "a") <==> Blank(first)
    ensures Nameless(Pair(first, second), "b") <==> Blank(second)
  {
    hide Blank;
    var t := Pair(first, second);
    assert t.fields[first].mark == Hidden("a") && t.fields[second].mark == Hidden("b");
  }

  /** A pair meets everything `PresentationOfIssued` asks for, whatever its names and salts. */
  lemma PairIsSound(salt: string, first: string, second: string, encoded: seq<string>)
    requires first != second && !Reserved(first) && !Reserved(second)
    ensures var t, issuer := Pair(first, second), PairIssuer(salt, first, second);
      && WellFormed(t) && Sane(issuer) && IssuedBy(t, issuer) && issuer.texts.Keys == Digests(t)
      && CollisionFree(encoded, t, issuer)
  {
    PairDigests(first, second);
    PairIsWellFormed(first, second);
    PairIsIssued(salt, first, second);
    hide WellFormed, IssuedBy, Digests, Sane, CollisionFree;
    TwoTextsAreSane(salt, [Str(salt), Str(first), Null], [Str(salt), Str(second), Null]);
    NoOtherDigests(encoded, Pair(first, second), salt, [Str(salt), Str(first), Null], [Str(salt), Str(second), Null]);
  }

  lemma PresentedTexts(salt: string, a: seq<Json>, b: seq<Json>)
    ensures var issuer := TwoTexts(salt, a, b);
      && issuer.texts.Keys == {"a", "b"}
      && Presented(["A"], issuer.codec) == {"a"} && Presented(["B"], issuer.codec) == {"b"}
      && Presented(["A", "B"], issuer.codec) == {"a", "b"}
    ensures NoneTwice(["A"]) && NoneTwice(["B"]) && NoneTwice(["A", "B"])
  {
    TrimmedTexts();
    hide TrimSpace;
    var codec := TwoTexts(salt, a, b).codec;
    assert DigestOf("A", codec) == "a" && DigestOf("B", codec) == "b";
    hide DigestOf, TwoTexts;
    assert ["A", "B"] == ["A"] + ["B"];
    assert forall x :: x in Presented(["A"], codec) ==> x == "a";
    assert forall x :: x in Presented(["B"], codec) ==> x == "b";
    assert "A" in ["A"] && "B" in ["B"];
  }

  lemma PairReadable(salt: string, first: string, second: string)
    requires first != second
    ensures var t, issuer := Pair(first, second), PairIssuer(salt, first, second);
      && (Readable(t, issuer, "a") <==> !Blank(salt) && !Blank(first))
      && (Readable(t, issuer, "b") <==> !Blank(salt) && !Blank(second))
  {
    PairNames(first, second);
    hide Blank, Nameless;
  }

  lemma PairAllReadable(salt: string, first: string, second: string, S: set<string>)
    requires first != second && S != {} && S <= {"a", "b"}
    ensures (forall d :: d in S ==> Readable(Pair(first, second), PairIssuer(salt, first, second), d)) <==>
      !Blank(salt) && ("a" in S ==> !Blank(first)) && ("b" in S ==> !Blank(second))
  {
    hide Readable, Pair, PairIssuer, Blank;
    PairReadable(salt, first, second);
    assert "a" in S || "b" in S;
  }

  lemma PairViews(first: string, second: string)
    requires first != second
    ensures var t := Pair(first, second);
      Reveal(t, {"b"}) == Obj(map[second := Null]) && Reveal(t, {"a", "b"}) == Obj(map[first := Null, second := Null])
  {
  }

  lemma PairTexts(salt: string, first: string, second: string)
    ensures var codec := PairIssuer(salt, first, second).codec;
      Presented(["B"], codec) == {"b"} && Presented(["A", "B"], codec) == {"a", "b"}
    ensures NoneTwice(["B"]) && NoneTwice(["A", "B"]) && PairIssuer(salt, first, second).texts.Keys == {"a", "b"}
  {
    hide Presented, NoneTwice;
    PresentedTexts(salt, [Str(salt), Str(first), Null], [Str(salt), Str(second), Null]);
  }

  /** Which texts of a pair work: those with a salt and a name that are not blank. */
  lemma PairPresented(salt: string, first: string, second: string, encoded: seq<string>, S: set<string>)
    requires first != second && !Reserved(first) && !Reserved(second)
    requires Presented(encoded, PairIssuer(salt, first, second).codec) == S <= {"a", "b"} && S != {} && NoneTwice(encoded)
    ensures var t, codec := Pair(first, second), PairIssuer(salt, first, second).codec;
      var r := Applied(Some(Issued(t, false)), encoded, codec);
      && (r.Processed? <==> !Blank(salt) && ("a" in S ==> !Blank(first)) && ("b" in S ==> !Blank(second)))
      && (r.Processed? ==> Obj(r.payload) == Reveal(t, S))
  {
    var t, issuer := Pair(first, second), PairIssuer(salt, first, second);
    PairIsSound(salt, first, second, encoded);
    PairAllReadable(salt, first, second, S);
    PairClosed(first, second, S);
    assert S <= issuer.texts.Keys;
    hide Pair, PairIssuer, Blank, WellFormed, IssuedBy, Digests, Sane, CollisionFree, Applied, Readable, Issued,
         Presented, NoneTwice, Plain, Reveal, ParentClosed;
    PresentationOfIssued(t, false, issuer, encoded);
  }

  lemma PairClosed(first: string, second: string, S: set<string>)
    ensures Pair(first, second).Branch? && ParentClosed(Pair(first, second), S)
  {
  }

  /** JSON has properties with an empty name. Hidden, such a property cannot be disclosed; the others still can. */
  lemma EmptyNameIsRefused()
    ensures var t, issuer := Pair("", "title"), PairIssuer("salt", "", "title");
      && t.Branch? && WellFormed(t) && Sane(issuer) && IssuedBy(t, issuer) && ParentClosed(t, {"a", "b"})
      && Applied(Some(Issued(t, false)), ["A", "B"], issuer.codec) == Refused
      && Applied(Some(Issued(t, false)), ["B"], issuer.codec).Processed?
      && Applied(Some(Issued(t, false)), ["B"], issuer.codec).payload == map["title" := Null]
  {
    EmptyIsBlank();
    PlainNames();
    hide Reserved;
    PairTexts("salt", "", "title");
    PairViews("", "title");
    PairClosed("", "title", {"a", "b"});
    PairIsSound("salt", "", "title", []);
    hide Pair, PairIssuer, Blank, WellFormed, IssuedBy, Sane, Applied, ParentClosed, CollisionFree, Digests, Presented,
         NoneTwice, Reveal;
    PairPresented("salt", "", "title", ["A", "B"], {"a", "b"});
    PairPresented("salt", "", "title", ["B"], {"b"});
  }

  /** Nor can anything under a blank salt. */
  lemma BlankSaltIsRefused(salt: string, encoded: seq<string>)
    requires Blank(salt) && encoded != [] && (forall x :: x in encoded ==> x == "A" || x == "B") && NoneTwice(encoded)
    ensures Applied(Some(Issued(Pair("job", "title"), false)), encoded, PairIssuer(salt, "job", "title").codec) == Refused
  {
    PlainNames();
    hide Reserved;
    var codec := PairIssuer(salt, "job", "title").codec;
    PairTexts(salt, "job", "title");
    assert DigestOf(encoded[0], codec) in Presented(encoded, codec);
    forall x | x in encoded ensures DigestOf(x, codec) in {"a", "b"} {
      DigestsPresented(x, codec);
    }
    hide Pair, PairIssuer, Blank, Applied, NoneTwice, Reveal, DigestOf;
    PairPresented(salt, "job", "title", encoded, Presented(encoded, codec));
  }

  lemma DigestsPresented(x: string, codec: Codec)
    requires Presented(["A", "B"], codec) == {"a", "b"} && (x == "A" || x == "B")
    ensures DigestOf(x, codec) in {"a", "b"}
  {
    assert x in ["A", "B"];
  }

  lemma PlainNames()
    ensures !Reserved("") && !Reserved("job") && !Reserved("title") && "job" != "title" && "" != "title"
  {
    assert |SD_ALG| == 7 && |SD| == 3 && |ELLIPSIS| == 3 && SD[0] == '_' && ELLIPSIS[0] == '.';
  }

  lemma EmptyIsBlank()
    ensures Blank("") && !Blank("salt") && !Blank("title")
  {
  }

  // ---------------------------------------------------------------- a property inside a property

  lemma NestedDigests()
    ensures Digests(Inner()) == {"b"} && BelowFields(Inner()) == {}
    ensures Digests(Nested()) == {"a", "b", "decoy"} && BelowFields(Nested()) == {"b"}
  {
    assert BelowFields(Inner()) == {};
    assert Digests(Inner()) == {"b"};
    assert Nested().fields["job"].tree == Inner();
    assert BelowFields(Nested()) == {"b"};
  }

  lemma NestedIsWellFormed()
    ensures WellFormed(Nested())
  {
    VisibleNames();
    NestedDigests();
    hide Blank, Digests, BelowFields;
    assert WellFormed(Inner());
  }

  lemma NestedIsIssued(salt: string)
    ensures IssuedBy(Nested(), NestedIssuer(salt))
  {
    var t, issuer := Nested(), NestedIssuer(salt);
    assert t.fields["job"].mark == Hidden("a") && Inner().fields["title"].mark == Hidden("b");
    hide Conceal;
    assert Conceal(Leaf(Null)) == Null by { LeafConceals(); }
    assert [Str(salt), Str("job"), Conceal(Inner())] != [Str(salt), Str("title"), Null] by {
      assert [Str(salt), Str("job"), Conceal(Inner())][1] != [Str(salt), Str("title"), Null][1];
    }
    assert IssuedProperty("job", t.fields["job"], issuer) && IssuedProperty("title", Inner().fields["title"], issuer);
    assert IssuedBy(Inner(), issuer);
  }

  lemma LeafConceals()
    ensures Conceal(Leaf(Null)) == Null
  {
  }

  lemma NestedIsSound(salt: string, encoded: seq<string>)
    ensures var t, issuer := Nested(), NestedIssuer(salt);
      && WellFormed(t) && Sane(issuer) && IssuedBy(t, issuer) && issuer.texts.Keys <= Digests(t)
      && CollisionFree(encoded, t, issuer)
  {
    NestedDigests();
    NestedIsWellFormed();
    NestedIsIssued(salt);
    hide WellFormed, IssuedBy, Digests, Sane, CollisionFree, Conceal;
    var a, b := [Str(salt), Str("job"), Conceal(Inner())], [Str(salt), Str("title"), Null];
    assert a[1] != b[1];
    TwoTextsAreSane(salt, a, b);
    NoOtherDigests(encoded, Nested(), salt, a, b);
  }

  lemma NestedReadable(salt: string, d: string)
    requires !Blank(salt) && (d == "a" || d == "b")
    ensures Readable(Nested(), NestedIssuer(salt), d)
  {
    VisibleNames();
    hide Blank, Conceal;
    assert !Nameless(Inner(), d);
  }

  lemma NestedAllReadable(salt: string, S: set<string>)
    requires !Blank(salt) && S <= {"a", "b"}
    ensures forall d :: d in S ==> Readable(Nested(), NestedIssuer(salt), d)
  {
    hide Readable, Blank;
    forall d | d in S ensures Readable(Nested(), NestedIssuer(salt), d) {
      NestedReadable(salt, d);
    }
  }

  /** What is left of `PresentationOfIssued` for some of the texts of two, once they are known to be readable. */
  lemma NestedPresented(salt: string, encoded: seq<string>, S: set<string>)
    requires Presented(encoded, NestedIssuer(salt).codec) == S <= {"a", "b"} && NoneTwice(encoded) && !Blank(salt)
    ensures var r := Applied(Some(Issued(Nested(), false)), encoded, NestedIssuer(salt).codec);
      && (r.Processed? <==> ParentClosed(Nested(), S))
      && (r.Processed? ==> Obj(r.payload) == Reveal(Nested(), S))
  {
    var t, issuer := Nested(), NestedIssuer(salt);
    NestedIsSound(salt, encoded);
    NestedAllReadable(salt, S);
    assert S <= issuer.texts.Keys;
    hide Nested, NestedIssuer, Blank, WellFormed, IssuedBy, Digests, Sane, CollisionFree, Applied, Readable, Issued,
         Presented, NoneTwice, Plain, Reveal, ParentClosed;
    PresentationOfIssued(t, false, issuer, encoded);
  }

  /** The outer property alone, the inner one alone, and both. */
  lemma NestedPresentations(salt: string)
    requires !Blank(salt)
    ensures var payload, codec := Some(Issued(Nested(), false)), NestedIssuer(salt).codec;
      && Applied(payload, ["A"], codec).Processed? && Applied(payload, ["A"], codec).payload == map["job" := Obj(map[])]
      && Applied(payload, ["B"], codec) == Refused
      && Applied(payload, ["A", "B"], codec).Processed?
      && Applied(payload, ["A", "B"], codec).payload == map["job" := Obj(map["title" := Null])]
  {
    NestedViews();
    NestedClosed();
    NestedTexts(salt);
    hide Nested, NestedIssuer, Blank, Applied, Issued, Presented, NoneTwice, Plain, Reveal, ParentClosed;
    NestedPresented(salt, ["A"], {"a"});
    NestedPresented(salt, ["B"], {"b"});
    NestedPresented(salt, ["A", "B"], {"a", "b"});
  }

  lemma NestedTexts(salt: string)
    ensures var codec := NestedIssuer(salt).codec;
      Presented(["A"], codec) == {"a"} && Presented(["B"], codec) == {"b"} && Presented(["A", "B"], codec) == {"a", "b"}
    ensures NoneTwice(["A"]) && NoneTwice(["B"]) && NoneTwice(["A", "B"])
  {
    hide Presented, NoneTwice, TwoTexts, Conceal;
    PresentedTexts(salt, [Str(salt), Str("job"), Conceal(Inner())], [Str(salt), Str("title"), Null]);
  }

  lemma NestedViews()
    ensures Nested().Branch?
    ensures Reveal(Nested(), {"a"}) == Obj(map["job" := Obj(map[])])
    ensures Reveal(Nested(), {"a", "b"}) == Obj(map["job" := Obj(map["title" := Null])])
  {
    assert Nested().fields["job"] == Slot(Hidden("a"), Inner());
    assert Inner().fields["title"] == Slot(Hidden("b"), Leaf(Null));
    assert Reveal(Inner(), {"a"}) == Obj(map[]);
    assert Reveal(Inner(), {"a", "b"}) == Obj(map["title" := Null]);
  }

  lemma NestedClosed()
    ensures ParentClosed(Nested(), {"a"}) && !ParentClosed(Nested(), {"b"}) && ParentClosed(Nested(), {"a", "b"})
  {
    NestedDigests();
    LeafDigests();
    hide Digests, BelowFields;
    assert Nested().fields["job"] == Slot(Hidden("a"), Inner());
    assert Inner().fields["title"] == Slot(Hidden("b"), Leaf(Null));
    assert ParentClosed(Inner(), {"a", "b"}) && ParentClosed(Inner(), {"a"});
  }

  lemma LeafDigests()
    ensures Digests(Leaf(Null)) == {}
  {
  }
}
