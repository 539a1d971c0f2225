/**
 * Concealing nodes of a JSON tree as an issuer does (sections 4.2.4 to 4.2.6 of RFC 9901) and disclosing some of them
 * again. Digests stand for the hashes of the disclosures.
 */
module DisclosureRoundTrip {
  import opened Common
  import opened Text
  import opened Disclosure
  import opened DisclosureProcessing
  import opened DisclosureApply

  datatype Mark = Shown | Hidden(digest: string)

  /** A JSON tree in which properties and array elements are marked, and digests may be mixed with decoys. */
  datatype Tree =
    | Leaf(value: Json)
    | Branch(fields: map<string, Slot>, sd: seq<string>)
    | List(elements: seq<Element>)

  datatype Slot = Slot(mark: Mark, tree: Tree)

  datatype Element = Element(mark: Mark, tree: Tree) | Decoy(digest: string)

  // ---------------------------------------------------------------- the issuer's side

  function Strings(digests: seq<string>): (items: seq<Json>)
    ensures |items| == |digests|
    ensures forall i :: 0 <= i < |items| ==> items[i] == Str(digests[i])
  {
    seq(|digests|, i requires 0 <= i < |digests| => Str(digests[i]))
  }

  /** The payload: hidden properties leave their digest in `_sd`, hidden elements a placeholder. */
  function Conceal(t: Tree): Json
    decreases t, 1
  {
    match t
    case Leaf(v) => v
    case Branch(_, sd) => Obj(ConcealFields(t) + if sd == [] then map[] else map[SD := Arr(Strings(sd))])
    case List(elements) => Arr(ConcealAll(elements))
  }

  function ConcealFields(t: Tree): map<string, Json>
    requires t.Branch?
    decreases t, 0
  {
    map k | k in t.fields && t.fields[k].mark.Shown? :: Conceal(t.fields[k].tree)
  }

  function ConcealAll(elements: seq<Element>): (items: seq<Json>)
    ensures |items| == |elements|
    decreases elements, 0
  {
    if elements == [] then []
    else ConcealAll(elements[..|elements| - 1]) + [ConcealElement(elements[|elements| - 1])]
  }

  function ConcealElement(e: Element): Json
    decreases e, 1
  {
    match e
    case Element(Shown, t) => Conceal(t)
    case Element(Hidden(d), _) => Obj(map[ELLIPSIS := Str(d)])
    case Decoy(d) => Obj(map[ELLIPSIS := Str(d)])
  }

  // ---------------------------------------------------------------- the digests of a tree

  /** Every digest in a tree, hidden deeply or not, and every decoy. */
  ghost function Digests(t: Tree): set<string>
    decreases t, 1
  {
    match t
    case Leaf(_) => {}
    case Branch(fields, sd) => (set d | d in sd) + BelowFields(t)
    case List(elements) => DigestsOfAll(elements)
  }

  ghost function BelowFields(t: Tree): set<string>
    requires t.Branch?
    decreases t, 0
  {
    set k, d | k in t.fields && d in Digests(t.fields[k].tree) :: d
  }

  ghost function DigestsOfAll(elements: seq<Element>): set<string>
    decreases elements, 0
  {
    if elements == [] then {}
    else DigestsOfAll(elements[..|elements| - 1]) + DigestsOf(elements[|elements| - 1])
  }

  ghost function DigestsOf(e: Element): set<string>
    decreases e, 1
  {
    match e
    case Element(Shown, t) => Digests(t)
    case Element(Hidden(d), t) => {d} + Digests(t)
    case Decoy(d) => {d}
  }

  predicate Reserved(name: string) {
    name == SD || name == SD_ALG || name == ELLIPSIS
  }

  /** Digests are pairwise distinct and not blank, hidden properties are listed, and no name is reserved. */
  ghost predicate WellFormed(t: Tree)
    decreases t, 1
  {
    match t
    case Leaf(v) => !v.Obj? && !v.Arr?
    case Branch(fields, sd) =>
      && (forall k :: k in fields ==> !Reserved(k) && WellFormed(fields[k].tree))
      && (forall k :: k in fields && fields[k].mark.Hidden? ==> fields[k].mark.digest in sd)
      && (forall i :: 0 <= i < |sd| ==> !Blank(sd[i]))
      && (forall i, j :: 0 <= i < j < |sd| ==> sd[i] != sd[j])
      && (forall j, k :: j in fields && k in fields && j != k ==>
            Digests(fields[j].tree) !! Digests(fields[k].tree) &&
            (fields[j].mark.Hidden? && fields[k].mark.Hidden? ==> fields[j].mark.digest != fields[k].mark.digest))
      && (forall d :: d in sd ==> d !in BelowFields(t))
    case List(elements) => WellFormedAll(elements)
  }

  ghost predicate WellFormedAll(elements: seq<Element>)
    decreases elements, 0
  {
    elements == [] ||
    (&& WellFormedAll(elements[..|elements| - 1]) && WellFormedElement(elements[|elements| - 1])
     && DigestsOfAll(elements[..|elements| - 1]) !! DigestsOf(elements[|elements| - 1]))
  }

  ghost predicate WellFormedElement(e: Element)
    decreases e, 1
  {
    match e
    case Element(Shown, t) => WellFormed(t)
    case Element(Hidden(d), t) => !Blank(d) && d !in Digests(t) && WellFormed(t)
    case Decoy(d) => !Blank(d)
  }

  // ---------------------------------------------------------------- the holder's side

  /** Supplied disclosures come from this tree: the right kind, name and value under each digest, and none for a decoy. */
  ghost predicate Agrees(t: Tree, D: Supplied)
    decreases t, 1
  {
    match t
    case Leaf(_) => true
    case Branch(fields, sd) =>
      && (forall k :: k in fields ==> Agrees(fields[k].tree, D))
      && (forall k :: k in fields && fields[k].mark.Hidden? && fields[k].mark.digest in D ==>
            D[fields[k].mark.digest] == Decoded(ObjectProperty, k, Conceal(fields[k].tree)))
      && (forall d :: d in sd && d in D ==> exists k :: k in fields && fields[k].mark == Hidden(d))
    case List(elements) => AgreesAll(elements, D)
  }

  ghost predicate AgreesAll(elements: seq<Element>, D: Supplied)
    decreases elements, 0
  {
    elements == [] || (AgreesAll(elements[..|elements| - 1], D) && AgreesElement(elements[|elements| - 1], D))
  }

  ghost predicate AgreesElement(e: Element, D: Supplied)
    decreases e, 1
  {
    match e
    case Element(Shown, t) => Agrees(t, D)
    case Element(Hidden(d), t) =>
      Agrees(t, D) && (d in D ==> D[d].kind == ArrayElement && D[d].value == Conceal(t))
    case Decoy(d) => d !in D
  }

  predicate Visible(m: Mark, S: set<string>) {
    m.Hidden? ==> m.digest in S
  }

  /** The tree as a verifier should see it: without marks, and without the hidden nodes that were not disclosed. */
  ghost function Reveal(t: Tree, S: set<string>): Json
    decreases t, 1
  {
    match t
    case Leaf(v) => v
    case Branch(fields, _) => Obj(map k | k in fields && Visible(fields[k].mark, S) :: Reveal(fields[k].tree, S))
    case List(elements) => Arr(RevealAll(elements, S))
  }

  ghost function RevealAll(elements: seq<Element>, S: set<string>): seq<Json>
    decreases elements, 0
  {
    if elements == [] then []
    else RevealAll(elements[..|elements| - 1], S) + RevealElement(elements[|elements| - 1], S)
  }

  ghost function RevealElement(e: Element, S: set<string>): seq<Json>
    decreases e, 1
  {
    if e.Decoy? || !Visible(e.mark, S) then [] else [Reveal(e.tree, S)]
  }

  /** An undisclosed node hides nothing that was disclosed. */
  ghost predicate ParentClosed(t: Tree, S: set<string>)
    decreases t, 1
  {
    match t
    case Leaf(_) => true
    case Branch(fields, _) =>
      forall k :: k in fields ==>
        if Visible(fields[k].mark, S) then ParentClosed(fields[k].tree, S) else Digests(fields[k].tree) !! S
    case List(elements) => ParentClosedAll(elements, S)
  }

  ghost predicate ParentClosedAll(elements: seq<Element>, S: set<string>)
    decreases elements, 0
  {
    elements == [] || (ParentClosedAll(elements[..|elements| - 1], S) && ParentClosedElement(elements[|elements| - 1], S))
  }

  ghost predicate ParentClosedElement(e: Element, S: set<string>)
    decreases e, 1
  {
    if e.Decoy? then true
    else if Visible(e.mark, S) then ParentClosed(e.tree, S)
    else Digests(e.tree) !! S
  }

  function KeysVisible(t: Tree, S: set<string>): set<string>
    requires t.Branch?
  {
    set k | k in t.fields && Visible(t.fields[k].mark, S)
  }

  /** The digests that come to light when some disclosures are supplied: those not below an undisclosed node. */
  ghost function Reached(t: Tree, S: set<string>): (r: set<string>)
    ensures r <= Digests(t)
    decreases t, 1
  {
    match t
    case Leaf(_) => {}
    case Branch(fields, sd) =>
      (set d | d in sd) + ReachedBelow(t, KeysVisible(t, S), S)
    case List(elements) => ReachedAll(elements, S)
  }

  ghost function ReachedBelow(t: Tree, keys: set<string>, S: set<string>): (r: set<string>)
    requires t.Branch?
    ensures r <= BelowFields(t)
    decreases t, 0
  {
    set k, d | k in t.fields && k in keys && d in Reached(t.fields[k].tree, S) :: d
  }

  ghost function ReachedAll(elements: seq<Element>, S: set<string>): (r: set<string>)
    ensures r <= DigestsOfAll(elements)
    decreases elements, 0
  {
    if elements == [] then {}
    else ReachedAll(elements[..|elements| - 1], S) + ReachedElement(elements[|elements| - 1], S)
  }

  ghost function ReachedElement(e: Element, S: set<string>): (r: set<string>)
    ensures r <= DigestsOf(e)
    decreases e, 1
  {
    match e
    case Element(Shown, t) => Reached(t, S)
    case Element(Hidden(d), t) => {d} + if d in S then Reached(t, S) else {}
    case Decoy(d) => {d}
  }

  // ---------------------------------------------------------------- setting one disclosure aside

  lemma BelowField(t: Tree, k: string, d: string)
    requires t.Branch? && k in t.fields && d in Digests(t.fields[k].tree)
    ensures d in BelowFields(t) && d in Digests(t)
  {
  }

  /** A digest that is not in a tree makes no difference to it. */
  lemma {:induction false} ForeignDigest(t: Tree, D: Supplied, d: string)
    requires d !in Digests(t) && WellFormed(t)
    ensures Reveal(t, D.Keys - {d}) == Reveal(t, D.Keys) && Reached(t, D.Keys - {d}) == Reached(t, D.Keys)
    ensures Agrees(t, D) ==> Agrees(t, D - {d})
    decreases t, 1
  {
    match t
    case Leaf(_) =>
    case Branch(fields, sd) =>
      hide Reveal, Reached, Agrees;
      forall k | k in fields
        ensures Reveal(fields[k].tree, D.Keys - {d}) == Reveal(fields[k].tree, D.Keys)
        ensures Reached(fields[k].tree, D.Keys - {d}) == Reached(fields[k].tree, D.Keys)
        ensures Agrees(fields[k].tree, D) ==> Agrees(fields[k].tree, D - {d})
        ensures Visible(fields[k].mark, D.Keys - {d}) <==> Visible(fields[k].mark, D.Keys)
      {
        if d in Digests(fields[k].tree) {
          BelowField(t, k, d);
        }
        ForeignDigest(fields[k].tree, D, d);
      }
      ForeignFields(t, D, d);
    case List(elements) =>
      ForeignDigestAll(elements, D, d);
  }

  lemma ForeignFields(t: Tree, D: Supplied, d: string)
    requires t.Branch? && d !in Digests(t)
    requires forall k :: k in t.fields ==>
      && Reveal(t.fields[k].tree, D.Keys - {d}) == Reveal(t.fields[k].tree, D.Keys)
      && Reached(t.fields[k].tree, D.Keys - {d}) == Reached(t.fields[k].tree, D.Keys)
      && (Agrees(t.fields[k].tree, D) ==> Agrees(t.fields[k].tree, D - {d}))
      && (Visible(t.fields[k].mark, D.Keys - {d}) <==> Visible(t.fields[k].mark, D.Keys))
    ensures Reveal(t, D.Keys - {d}) == Reveal(t, D.Keys) && Reached(t, D.Keys - {d}) == Reached(t, D.Keys)
    ensures Agrees(t, D) ==> Agrees(t, D - {d})
  {
    assert KeysVisible(t, D.Keys - {d}) == KeysVisible(t, D.Keys);
    assert ReachedBelow(t, KeysVisible(t, D.Keys), D.Keys - {d}) == ReachedBelow(t, KeysVisible(t, D.Keys), D.Keys);
  }

  lemma {:induction false} ForeignDigestAll(elements: seq<Element>, D: Supplied, d: string)
    requires d !in DigestsOfAll(elements) && WellFormedAll(elements)
    ensures RevealAll(elements, D.Keys - {d}) == RevealAll(elements, D.Keys)
    ensures ReachedAll(elements, D.Keys - {d}) == ReachedAll(elements, D.Keys)
    ensures AgreesAll(elements, D) ==> AgreesAll(elements, D - {d})
    decreases elements, 0
  {
    if elements != [] {
      ForeignDigestAll(elements[..|elements| - 1], D, d);
      ForeignDigestElement(elements[|elements| - 1], D, d);
    }
  }

  lemma {:induction false} ForeignDigestElement(e: Element, D: Supplied, d: string)
    requires d !in DigestsOf(e) && WellFormedElement(e)
    ensures RevealElement(e, D.Keys - {d}) == RevealElement(e, D.Keys)
    ensures ReachedElement(e, D.Keys - {d}) == ReachedElement(e, D.Keys)
    ensures AgreesElement(e, D) ==> AgreesElement(e, D - {d})
    decreases e, 1
  {
    if !e.Decoy? {
      ForeignDigest(e.tree, D, d);
    }
  }

  // ---------------------------------------------------------------- expanding a concealed tree

  /** A property disclosed under a digest expands to what the tree reveals there. */
  lemma {:induction false} DisclosedReveals(t: Tree, d: string, path: string, D: Supplied)
    requires WellFormed(t) && Agrees(t, D) && d in D && D[d].value == Conceal(t) && d !in Digests(t)
    ensures Disclosed(d, path, D).Done? && Disclosed(d, path, D).value == Reveal(t, D.Keys)
    ensures Disclosed(d, path, D).refs == {d} + Reached(t, D.Keys)
    decreases t, 2
  {
    ForeignDigest(t, D, d);
    assert (D - {d}).Keys == D.Keys - {d};
    Reveals(t, path, D - {d});
  }

  /** Processing a concealed tree gives what the tree reveals, and references what the supplied disclosures bring to light. */
  lemma {:induction false} Reveals(t: Tree, path: string, D: Supplied)
    requires WellFormed(t) && Agrees(t, D)
    ensures var e := Expand(Conceal(t), path, D);
      e.Done? && e.value == Reveal(t, D.Keys) && e.refs == Reached(t, D.Keys)
    decreases t, 1
  {
    match t
    case Leaf(_) =>
    case Branch(_, _) => BranchReveals(t, path, D);
    case List(elements) => AllReveal(elements, path, D);
  }

  /** A list, apart from its last element. */
  lemma LastElement(elements: seq<Element>, D: Supplied)
    requires elements != [] && WellFormedAll(elements) && AgreesAll(elements, D)
    ensures var before, last := elements[..|elements| - 1], elements[|elements| - 1];
      && WellFormedAll(before) && AgreesAll(before, D) && WellFormedElement(last) && AgreesElement(last, D)
      && RevealAll(elements, D.Keys) == RevealAll(before, D.Keys) + RevealElement(last, D.Keys)
      && ReachedAll(elements, D.Keys) == ReachedAll(before, D.Keys) + ReachedElement(last, D.Keys)
      && ReachedAll(before, D.Keys) !! ReachedElement(last, D.Keys)
  {
    hide WellFormedElement, AgreesElement, RevealElement, ReachedElement, DigestsOf;
  }

  lemma ConcealedLast(elements: seq<Element>, path: string, D: Supplied)
    requires elements != []
    ensures var n := |elements| - 1;
      ExpandItems(ConcealAll(elements), path, D) ==
      JoinItems(ExpandItems(ConcealAll(elements[..n]), path, D), ExpandItem(ConcealElement(elements[n]), ItemPath(path, n), D))
  {
    hide ExpandItem, ConcealElement, ItemPath, JoinItems;
    var n := |elements| - 1;
    assert ConcealAll(elements)[..n] == ConcealAll(elements[..n]);
  }

  lemma {:induction false} AllReveal(elements: seq<Element>, path: string, D: Supplied)
    requires WellFormedAll(elements) && AgreesAll(elements, D)
    ensures var r := ExpandItems(ConcealAll(elements), path, D);
      r.ItemsDone? && r.items == RevealAll(elements, D.Keys) && r.refs == ReachedAll(elements, D.Keys)
    decreases elements, 0
  {
    if elements != [] {
      hide *;
      var n := |elements| - 1;
      LastElement(elements, D);
      ConcealedLast(elements, path, D);
      AllReveal(elements[..n], path, D);
      ElementReveals(elements[n], ItemPath(path, n), D);
      JoinedItems(ExpandItems(ConcealAll(elements[..n]), path, D), ExpandItem(ConcealElement(elements[n]), ItemPath(path, n), D));
    }
  }

  lemma JoinedItems(a: Items, b: Items)
    requires a.ItemsDone? && b.ItemsDone? && a.refs !! b.refs
    ensures JoinItems(a, b) == ItemsDone(a.items + b.items, a.refs + b.refs, a.applied + b.applied)
  {
  }

  lemma {:induction false} ElementReveals(e: Element, path: string, D: Supplied)
    requires WellFormedElement(e) && AgreesElement(e, D)
    ensures var r := ExpandItem(ConcealElement(e), path, D);
      r.ItemsDone? && r.items == RevealElement(e, D.Keys) && r.refs == ReachedElement(e, D.Keys)
    decreases e, 1
  {
    hide Expand, ExpandItem, Disclosed, WellFormed, Agrees, Conceal, Reveal, Reached, Blank;
    match e
    case Element(Shown, t) =>
      ShownItem(t, path, D);
      Reveals(t, path, D);
    case Element(Hidden(d), t) =>
      PlaceholderItem(d, path, D);
      if d in D {
        DisclosedReveals(t, d, path, D);
      }
    case Decoy(d) =>
      PlaceholderItem(d, path, D);
  }

  lemma ShownItem(t: Tree, path: string, D: Supplied)
    requires WellFormed(t)
    ensures ExpandItem(Conceal(t), path, D) ==
      (var r := Expand(Conceal(t), path, D); if r.Failed? then ItemsFailed else ItemsDone([r.value], r.refs, r.applied))
  {
    hide Expand, ExpandItem, WellFormed, Conceal;
    ShownIsNoPlaceholder(t);
    ItemCases(Conceal(t), path, D);
  }

  lemma PlaceholderItem(d: string, path: string, D: Supplied)
    requires !Blank(d)
    ensures ExpandItem(Obj(map[ELLIPSIS := Str(d)]), path, D) ==
      if d !in D then ItemsDone([], {d}, map[])
      else if D[d].kind != ArrayElement then ItemsFailed
      else (var r := Disclosed(d, path, D); if r.Failed? then ItemsFailed else ItemsDone([r.value], r.refs, r.applied))
  {
    hide ExpandItem, Disclosed, Blank;
    ItemCases(Obj(map[ELLIPSIS := Str(d)]), path, D);
  }

  lemma ShownIsNoPlaceholder(t: Tree)
    requires WellFormed(t)
    ensures !Placeholder(Conceal(t))
  {
  }

  // ---------------------------------------------------------------- the object case

  function KeysShown(t: Tree): set<string>
    requires t.Branch?
  {
    set k | k in t.fields && t.fields[k].mark.Shown?
  }

  /** The property hidden under the digest at position `i`, if that was supplied. */
  function KeysAt(t: Tree, i: nat, S: set<string>): set<string>
    requires t.Branch? && i < |t.sd|
  {
    set k | k in t.fields && t.fields[k].mark == Hidden(t.sd[i]) && t.sd[i] in S
  }

  /** The properties disclosed by the first `i` digests of the list. */
  function KeysDisclosed(t: Tree, i: nat, S: set<string>): set<string>
    requires t.Branch? && i <= |t.sd|
  {
    if i == 0 then {} else KeysDisclosed(t, i - 1, S) + KeysAt(t, i - 1, S)
  }

  ghost function RevealFields(t: Tree, keys: set<string>, S: set<string>): map<string, Json>
    requires t.Branch?
  {
    map k | k in t.fields && k in keys :: Reveal(t.fields[k].tree, S)
  }

  lemma {:induction false} InKeysDisclosed(t: Tree, i: nat, S: set<string>, k: string)
    requires t.Branch? && i <= |t.sd|
    ensures k in KeysDisclosed(t, i, S) <==> exists j :: 0 <= j < i && k in KeysAt(t, j, S)
  {
    if i > 0 {
      InKeysDisclosed(t, i - 1, S, k);
    }
  }

  lemma KeysApart(t: Tree, i: nat, S: set<string>)
    requires t.Branch? && i < |t.sd| && WellFormed(t)
    ensures KeysDisclosed(t, i, S) !! KeysAt(t, i, S)
  {
    forall k | k in KeysDisclosed(t, i, S) ensures k !in KeysAt(t, i, S) {
      InKeysDisclosed(t, i, S, k);
      var j :| 0 <= j < i && k in KeysAt(t, j, S);
      assert t.sd[j] != t.sd[i];
    }
  }

  /** What is visible in the end: what was shown and what was disclosed. */
  lemma KeysTogether(t: Tree, S: set<string>)
    requires t.Branch? && WellFormed(t)
    ensures KeysShown(t) + KeysDisclosed(t, |t.sd|, S) == KeysVisible(t, S)
    ensures KeysShown(t) !! KeysDisclosed(t, |t.sd|, S)
  {
    forall k ensures k in KeysDisclosed(t, |t.sd|, S) <==> k in KeysVisible(t, S) && k !in KeysShown(t) {
      InKeysDisclosed(t, |t.sd|, S, k);
      if k in KeysVisible(t, S) && k !in KeysShown(t) {
        var j :| 0 <= j < |t.sd| && t.sd[j] == t.fields[k].mark.digest;
        assert k in KeysAt(t, j, S);
      }
    }
  }

  /** Different properties bring different digests to light, and none that is listed. */
  lemma ReachedApart(t: Tree, a: set<string>, b: set<string>, S: set<string>)
    requires t.Branch? && WellFormed(t) && a !! b
    ensures ReachedBelow(t, a, S) !! ReachedBelow(t, b, S)
    ensures forall d :: d in t.sd ==> d !in ReachedBelow(t, a, S) && d !in ReachedBelow(t, b, S)
    ensures ReachedBelow(t, a + b, S) == ReachedBelow(t, a, S) + ReachedBelow(t, b, S)
  {
    hide Reached;
    forall d | d in ReachedBelow(t, a, S) ensures d !in ReachedBelow(t, b, S) {
      var j :| j in t.fields && j in a && d in Reached(t.fields[j].tree, S);
      forall k | k in t.fields && k in b ensures d !in Reached(t.fields[k].tree, S) {
        assert j != k && d in Digests(t.fields[j].tree);
      }
    }
  }

  lemma RevealFieldsTogether(t: Tree, a: set<string>, b: set<string>, S: set<string>)
    requires t.Branch? && a !! b
    ensures RevealFields(t, a, S) + RevealFields(t, b, S) == RevealFields(t, a + b, S)
    ensures RevealFields(t, a, S).Keys !! RevealFields(t, b, S).Keys
  {
  }

  lemma ConcealedObject(t: Tree)
    requires t.Branch? && WellFormed(t)
    ensures Conceal(t).Obj? && Conceal(t).fields.Keys - {SD, SD_ALG} == KeysShown(t)
    ensures forall k :: k in KeysShown(t) ==> Conceal(t).fields[k] == Conceal(t.fields[k].tree)
    ensures SD in Conceal(t).fields <==> t.sd != []
    ensures t.sd != [] ==> Conceal(t).fields[SD] == Arr(Strings(t.sd))
  {
    hide WellFormed;
    assert forall k :: k in t.fields ==> !Reserved(k) by {
      NoneReserved(t);
    }
    var fields := ConcealFields(t);
    assert fields.Keys == KeysShown(t);
  }

  lemma NoneReserved(t: Tree)
    requires t.Branch? && WellFormed(t)
    ensures forall k :: k in t.fields ==> !Reserved(k)
  {
  }

  lemma SubtreesGood(t: Tree, D: Supplied)
    requires t.Branch? && WellFormed(t) && Agrees(t, D)
    ensures forall k :: k in t.fields ==> WellFormed(t.fields[k].tree) && Agrees(t.fields[k].tree, D)
    ensures forall j, k :: j in t.fields && k in t.fields && j != k ==>
      Digests(t.fields[j].tree) !! Digests(t.fields[k].tree)
  {
  }

  lemma {:induction false} ShownReveal(t: Tree, path: string, D: Supplied)
    requires t.Branch? && WellFormed(t) && Agrees(t, D)
    ensures var m := Merge(ExpandVisible(Conceal(t), path, D));
      m.Done? && m.value == Obj(RevealFields(t, KeysShown(t), D.Keys)) && m.refs == ReachedBelow(t, KeysShown(t), D.Keys)
    decreases t, 0, 0
  {
    hide WellFormed, Agrees, Conceal, Expand, Reached, Digests;
    ConcealedObject(t);
    SubtreesGood(t, D);
    var parts := ExpandVisible(Conceal(t), path, D);
    forall k | k in KeysShown(t)
      ensures parts[k].Done? && parts[k].value == Reveal(t.fields[k].tree, D.Keys)
      ensures parts[k].refs == Reached(t.fields[k].tree, D.Keys)
    {
      Reveals(t.fields[k].tree, JoinPath(path, k), D);
    }
    PartsTogether(t, parts, D.Keys);
  }

  lemma PartsTogether(t: Tree, parts: map<string, Expanded>, S: set<string>)
    requires t.Branch? && parts.Keys == KeysShown(t)
    requires forall j, k :: j in t.fields && k in t.fields && j != k ==>
      Digests(t.fields[j].tree) !! Digests(t.fields[k].tree)
    requires forall k :: k in parts ==>
      && parts[k].Done? && parts[k].value == Reveal(t.fields[k].tree, S) && parts[k].refs == Reached(t.fields[k].tree, S)
    ensures var m := Merge(parts);
      m.Done? && m.value == Obj(RevealFields(t, KeysShown(t), S)) && m.refs == ReachedBelow(t, KeysShown(t), S)
  {
    hide Reached, Reveal, Digests;
    forall j, k | j in parts && k in parts && j != k ensures parts[j].refs !! parts[k].refs {
      assert Digests(t.fields[j].tree) !! Digests(t.fields[k].tree);
    }
    assert MergedRefs(parts) == ReachedBelow(t, KeysShown(t), S);
    assert Merge(parts).value.fields == RevealFields(t, KeysShown(t), S);
  }

  lemma {:induction false} EntryReveals(t: Tree, i: nat, path: string, D: Supplied)
    requires t.Branch? && i < |t.sd| && WellFormed(t) && Agrees(t, D)
    ensures var r := ExpandEntry(Str(t.sd[i]), path, D);
      && r.NamedDone? && r.fields == RevealFields(t, KeysAt(t, i, D.Keys), D.Keys)
      && r.refs == {t.sd[i]} + ReachedBelow(t, KeysAt(t, i, D.Keys), D.Keys)
    decreases t, 0, 0
  {
    hide Reached, Reveal, Disclosed, Conceal;
    var d := t.sd[i];
    if d in D {
      var k :| k in t.fields && t.fields[k].mark == Hidden(d);
      assert KeysAt(t, i, D.Keys) == {k};
      if d in Digests(t.fields[k].tree) {
        BelowField(t, k, d);
      }
      DisclosedReveals(t.fields[k].tree, d, JoinPath(path, k), D);
      OnlyField(t, k, D.Keys);
    } else {
      assert KeysAt(t, i, D.Keys) == {};
      assert RevealFields(t, {}, D.Keys) == map[] && ReachedBelow(t, {}, D.Keys) == {};
    }
  }

  lemma OnlyField(t: Tree, k: string, S: set<string>)
    requires t.Branch? && k in t.fields
    ensures RevealFields(t, {k}, S) == map[k := Reveal(t.fields[k].tree, S)]
    ensures ReachedBelow(t, {k}, S) == Reached(t.fields[k].tree, S)
  {
    hide Reached, Reveal;
  }

  lemma {:induction false} ListReveals(t: Tree, i: nat, path: string, D: Supplied)
    requires t.Branch? && i <= |t.sd| && WellFormed(t) && Agrees(t, D)
    ensures var r := ExpandNamed(Strings(t.sd)[..i], path, D);
      && r.NamedDone? && r.fields == RevealFields(t, KeysDisclosed(t, i, D.Keys), D.Keys)
      && r.refs == (set d | d in t.sd[..i]) + ReachedBelow(t, KeysDisclosed(t, i, D.Keys), D.Keys)
    decreases t, 0, i + 1
  {
    hide ExpandNamed, ExpandEntry, ReachedBelow, RevealFields, KeysAt, Agrees;
    if i == 0 {
      NothingListed(t, path, D);
    } else {
      var a, b := KeysDisclosed(t, i - 1, D.Keys), KeysAt(t, i - 1, D.Keys);
      ListReveals(t, i - 1, path, D);
      EntryReveals(t, i - 1, path, D);
      NamedStep(Strings(t.sd), i - 1, path, D);
      KeysApart(t, i - 1, D.Keys);
      ReachedApart(t, a, b, D.Keys);
      RevealFieldsTogether(t, a, b, D.Keys);
      assert t.sd[..i] == t.sd[..i - 1] + [t.sd[i - 1]];
      DistinctDigest(t, i - 1);
    }
  }

  lemma DistinctDigest(t: Tree, i: nat)
    requires t.Branch? && i < |t.sd| && WellFormed(t)
    ensures t.sd[i] !in t.sd[..i]
  {
  }

  lemma NothingListed(t: Tree, path: string, D: Supplied)
    requires t.Branch?
    ensures ExpandNamed(Strings(t.sd)[..0], path, D) == NamedDone(map[], {}, map[])
    ensures RevealFields(t, {}, D.Keys) == map[] && ReachedBelow(t, {}, D.Keys) == {}
  {
  }

  lemma {:induction false} BranchReveals(t: Tree, path: string, D: Supplied)
    requires t.Branch? && WellFormed(t) && Agrees(t, D)
    ensures var e := Expand(Conceal(t), path, D);
      e.Done? && e.value == Reveal(t, D.Keys) && e.refs == Reached(t, D.Keys)
    decreases t, 0, |t.sd| + 2
  {
    hide ExpandNamed, ExpandVisible, Merge, WellFormed, Agrees, Conceal, ReachedBelow, KeysDisclosed, KeysVisible, RevealFields;
    var S, n := D.Keys, |t.sd|;
    ConcealedObject(t);
    ShownReveal(t, path, D);
    ListReveals(t, n, path, D);
    KeysTogether(t, S);
    ReachedApart(t, KeysShown(t), KeysDisclosed(t, n, S), S);
    RevealFieldsTogether(t, KeysShown(t), KeysDisclosed(t, n, S), S);
    assert Strings(t.sd)[..n] == Strings(t.sd) && t.sd[..n] == t.sd;
    RevealVisible(t, S);
    if n == 0 {
      NothingListed(t, path, D);
      NothingHidden(t, S);
    }
  }

  lemma RevealVisible(t: Tree, S: set<string>)
    requires t.Branch?
    ensures Reveal(t, S) == Obj(RevealFields(t, KeysVisible(t, S), S))
  {
    assert Reveal(t, S).fields == RevealFields(t, KeysVisible(t, S), S);
  }

  lemma NothingHidden(t: Tree, S: set<string>)
    requires t.Branch? && t.sd == []
    ensures KeysDisclosed(t, |t.sd|, S) == {}
  {
  }

  // ---------------------------------------------------------------- which subsets may be disclosed

  lemma BelowFieldFrom(t: Tree, d: string) returns (k: string)
    requires t.Branch? && d in BelowFields(t)
    ensures k in t.fields && d in Digests(t.fields[k].tree)
  {
    k :| k in t.fields && d in Digests(t.fields[k].tree);
  }

  /** Every supplied disclosure comes to light exactly when none is supplied from inside a node that is not. */
  lemma {:induction false} ClosedIffReached(t: Tree, S: set<string>)
    requires WellFormed(t)
    ensures ParentClosed(t, S) <==> Digests(t) * S <= Reached(t, S)
    decreases t, 1
  {
    match t
    case Leaf(_) =>
    case Branch(_, _) =>
      forall k | k in t.fields
        ensures Digests(t.fields[k].tree) * S <= Reached(t, S) <==>
          if Visible(t.fields[k].mark, S) then ParentClosed(t.fields[k].tree, S) else Digests(t.fields[k].tree) !! S
      {
        ClosedIffReached(t.fields[k].tree, S);
        ReachedInField(t, k, S);
      }
      BranchDigests(t, S);
    case List(elements) => ClosedIffReachedAll(elements, S);
  }

  /** What comes to light below a property comes to light in it, if it is visible at all. */
  lemma ReachedInField(t: Tree, k: string, S: set<string>)
    requires t.Branch? && WellFormed(t) && k in t.fields
    ensures Reached(t, S) * Digests(t.fields[k].tree) ==
            if Visible(t.fields[k].mark, S) then Reached(t.fields[k].tree, S) else {}
  {
    hide Reached, Digests;
    ReachedBranch(t, S);
    forall d | d in Digests(t.fields[k].tree)
      ensures d in Reached(t, S) <==> Visible(t.fields[k].mark, S) && d in Reached(t.fields[k].tree, S)
    {
      assert d in BelowFields(t);
      assert d !in t.sd;
      if d in ReachedBelow(t, KeysVisible(t, S), S) {
        var j :| j in t.fields && j in KeysVisible(t, S) && d in Reached(t.fields[j].tree, S);
        assert d in Digests(t.fields[j].tree);
        assert j == k;
      }
    }
  }

  lemma ReachedBranch(t: Tree, S: set<string>)
    requires t.Branch?
    ensures Reached(t, S) == (set d | d in t.sd) + ReachedBelow(t, KeysVisible(t, S), S)
    ensures Digests(t) == (set d | d in t.sd) + BelowFields(t)
  {
  }

  lemma BranchDigests(t: Tree, S: set<string>)
    requires t.Branch?
    ensures Digests(t) * S <= Reached(t, S) <==>
      forall k :: k in t.fields ==> Digests(t.fields[k].tree) * S <= Reached(t, S)
  {
    hide Reached, Digests;
    ReachedBranch(t, S);
    if forall k :: k in t.fields ==> Digests(t.fields[k].tree) * S <= Reached(t, S) {
      forall d | d in Digests(t) * S ensures d in Reached(t, S) {
        if d !in t.sd {
          var k := BelowFieldFrom(t, d);
        }
      }
    }
    forall k, d | k in t.fields && d in Digests(t.fields[k].tree) ensures d in Digests(t) {
      assert d in BelowFields(t);
    }
  }

  lemma {:induction false} ClosedIffReachedAll(elements: seq<Element>, S: set<string>)
    requires WellFormedAll(elements)
    ensures ParentClosedAll(elements, S) <==> DigestsOfAll(elements) * S <= ReachedAll(elements, S)
    decreases elements, 0
  {
    if elements != [] {
      ClosedIffReachedAll(elements[..|elements| - 1], S);
      ClosedIffReachedElement(elements[|elements| - 1], S);
    }
  }

  lemma {:induction false} ClosedIffReachedElement(e: Element, S: set<string>)
    requires WellFormedElement(e)
    ensures ParentClosedElement(e, S) <==> DigestsOf(e) * S <= ReachedElement(e, S)
    decreases e, 1
  {
    if !e.Decoy? {
      ClosedIffReached(e.tree, S);
    }
  }

  // ---------------------------------------------------------------- the round trip

  /**
   * Disclosing some of what an issuer concealed: `ApplyDisclosures` succeeds exactly when every disclosure is of this tree
   * and none comes from inside a node that is not disclosed, and then returns the tree without the undisclosed nodes.
   */
  lemma DisclosingReveals(t: Tree, D: Supplied)
    requires t.Branch? && WellFormed(t) && Agrees(t, D)
    ensures Outcome(Conceal(t).fields, D).Processed? <==> D.Keys <= Digests(t) && ParentClosed(t, D.Keys)
    ensures D.Keys <= Digests(t) && ParentClosed(t, D.Keys) ==>
      Obj(Outcome(Conceal(t).fields, D).payload) == Reveal(t, D.Keys)
  {
    hide Expand, WellFormed, Agrees, Conceal, Reached;
    Reveals(t, "", D);
    ClosedIffReached(t, D.Keys);
    ConcealedObject(t);
    NoneReserved(t);
    var e := Expand(Conceal(t), "", D);
    assert e.applied.Keys == Reached(t, D.Keys) * D.Keys;
    assert D.Keys <= Reached(t, D.Keys) <==> D.Keys <= Digests(t) && Digests(t) * D.Keys <= Reached(t, D.Keys);
    assert Reveal(t, D.Keys).fields - {SD_ALG} == Reveal(t, D.Keys).fields;
  }

  /** The tree the issuer started from. */
  function Plain(t: Tree): Json
    decreases t, 1
  {
    match t
    case Leaf(v) => v
    case Branch(fields, _) => Obj(map k | k in fields :: Plain(fields[k].tree))
    case List(elements) => Arr(PlainAll(elements))
  }

  function PlainAll(elements: seq<Element>): seq<Json>
    decreases elements, 0
  {
    if elements == [] then []
    else
      PlainAll(elements[..|elements| - 1]) + PlainElement(elements[|elements| - 1])
  }

  function PlainElement(e: Element): seq<Json>
    decreases e, 1
  {
    if e.Decoy? then [] else [Plain(e.tree)]
  }

  /** Every hidden node is disclosed. */
  ghost predicate AllDisclosed(t: Tree, S: set<string>)
    decreases t, 1
  {
    match t
    case Leaf(_) => true
    case Branch(fields, _) => forall k :: k in fields ==> Visible(fields[k].mark, S) && AllDisclosed(fields[k].tree, S)
    case List(elements) => forall e :: e in elements && !e.Decoy? ==> Visible(e.mark, S) && AllDisclosed(e.tree, S)
  }

  lemma {:induction false} FullyRevealed(t: Tree, S: set<string>)
    requires AllDisclosed(t, S)
    ensures Reveal(t, S) == Plain(t) && ParentClosed(t, S)
    decreases t, 1
  {
    match t
    case Leaf(_) =>
    case Branch(fields, _) =>
      forall k | k in fields ensures Reveal(fields[k].tree, S) == Plain(fields[k].tree) && ParentClosed(fields[k].tree, S) {
        FullyRevealed(fields[k].tree, S);
      }
    case List(elements) => FullyRevealedAll(elements, S);
  }

  lemma {:induction false} FullyRevealedAll(elements: seq<Element>, S: set<string>)
    requires forall e :: e in elements && !e.Decoy? ==> Visible(e.mark, S) && AllDisclosed(e.tree, S)
    ensures RevealAll(elements, S) == PlainAll(elements) && ParentClosedAll(elements, S)
    decreases elements, 0
  {
    if elements != [] {
      assert elements[|elements| - 1] in elements;
      FullyRevealedAll(elements[..|elements| - 1], S);
      FullyRevealedElement(elements[|elements| - 1], S);
    }
  }

  lemma {:induction false} FullyRevealedElement(e: Element, S: set<string>)
    requires !e.Decoy? ==> Visible(e.mark, S) && AllDisclosed(e.tree, S)
    ensures RevealElement(e, S) == PlainElement(e) && ParentClosedElement(e, S)
    decreases e, 1
  {
    if !e.Decoy? {
      FullyRevealed(e.tree, S);
    }
  }

  /** Concealing and then disclosing everything returns the original tree. */
  lemma RoundTrip(t: Tree, D: Supplied)
    requires t.Branch? && WellFormed(t) && Agrees(t, D) && D.Keys <= Digests(t) && AllDisclosed(t, D.Keys)
    ensures Outcome(Conceal(t).fields, D).Processed? && Obj(Outcome(Conceal(t).fields, D).payload) == Plain(t)
  {
    FullyRevealed(t, D.Keys);
    DisclosingReveals(t, D);
  }

  /** The name of the hash algorithm in the payload has no part in the result. */
  lemma AlgorithmNameIgnored(payload: map<string, Json>, alg: Json, D: Supplied)
    ensures Outcome(payload[SD_ALG := alg], D) == Outcome(payload - {SD_ALG}, D)
  {
    hide Expand, ExpandNamed;
    var v, w := Obj(payload[SD_ALG := alg]), Obj(payload - {SD_ALG});
    assert ExpandVisible(v, "", D) == ExpandVisible(w, "", D);
    assert SD in v.fields <==> SD in w.fields;
    assert SD in v.fields ==> v.fields[SD] == w.fields[SD];
    assert ExpandObject(v, "", D) == ExpandObject(w, "", D);
    ExpandOfObject(v, "", D);
    ExpandOfObject(w, "", D);
  }

  lemma ExpandOfObject(v: Json, path: string, D: Supplied)
    requires v.Obj?
    ensures Expand(v, path, D) == ExpandObject(v, path, D)
  {
  }

  /** The issued payload, which may name the hash algorithm. */
  function Issued(t: Tree, named: bool): map<string, Json>
    requires t.Branch?
  {
    Conceal(t).fields + if named then map[SD_ALG := Str("sha-256")] else map[]
  }

  /**
   * A presentation end to end: `ApplyDisclosures` succeeds exactly when every text decodes and none comes twice, all are of
   * this tree, and they are closed under parents; it then returns the tree without the other hidden nodes, with one path
   * for each disclosure, and when every hidden node is disclosed, the tree the issuer started from.
   */
  lemma PresentationReveals(t: Tree, named: bool, encoded: seq<string>, codec: Codec)
    requires t.Branch? && WellFormed(t)
    requires DecodeAll(encoded, codec).Some? ==> Agrees(t, DecodeAll(encoded, codec).value)
    ensures DecodeAll(encoded, codec).Some? <==> Decodes(encoded, codec)
    ensures var D, r := DecodeAll(encoded, codec), Applied(Some(Issued(t, named)), encoded, codec);
      && (r.Processed? <==> D.Some? && D.value.Keys <= Digests(t) && ParentClosed(t, D.value.Keys))
      && (r.Processed? ==> Obj(r.payload) == Reveal(t, D.value.Keys) && |r.paths| == |encoded|)
      && (D.Some? && D.value.Keys <= Digests(t) && AllDisclosed(t, D.value.Keys) ==>
            r.Processed? && Obj(r.payload) == Plain(t))
  {
    hide WellFormed, Agrees, Conceal, DecodeAll, Decodes, Outcome, ParentClosed, Reveal, Plain, AllDisclosed;
    DecodesExactly(encoded, codec);
    if DecodeAll(encoded, codec).Some? {
      var D := DecodeAll(encoded, codec).value;
      DisclosingReveals(t, D);
      NamedOrNot(t, named, D);
      if AllDisclosed(t, D.Keys) {
        FullyRevealed(t, D.Keys);
      }
    }
    if Applied(Some(Issued(t, named)), encoded, codec).Processed? {
      EveryDisclosureUsedOnce(Some(Issued(t, named)), encoded, codec);
    }
  }

  /** Naming the hash algorithm in the payload makes no difference. */
  lemma NamedOrNot(t: Tree, named: bool, D: Supplied)
    requires t.Branch? && WellFormed(t)
    ensures HashSupported(Issued(t, named)) && Outcome(Issued(t, named), D) == Outcome(Conceal(t).fields, D)
  {
    hide WellFormed, Conceal, Outcome;
    ConcealedWithoutReserved(t);
    var payload := Conceal(t).fields;
    if named {
      AlgorithmNameIgnored(payload, Str("sha-256"), D);
      assert Issued(t, named) == payload[SD_ALG := Str("sha-256")];
      assert payload - {SD_ALG} == payload;
    } else {
      assert Issued(t, named) == payload;
    }
  }

  lemma ConcealedWithoutReserved(t: Tree)
    requires t.Branch? && WellFormed(t)
    ensures Conceal(t).Obj? && SD_ALG !in Conceal(t).fields
  {
    ConcealedObject(t);
    NoneReserved(t);
  }
}
