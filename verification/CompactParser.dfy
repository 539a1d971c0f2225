/** The compact serialization of an SD-JWT: internal/credential/sdjwtvc/parser.go, section 4 of RFC 9901. */
module CompactParser {
  import opened Text

  datatype Parsed = Parsed(issuerJwt: string, disclosures: seq<string>, kbJwt: string)

  datatype ParseError = CredentialEmpty | IssuerMissing | IssuerNotCompact | DisclosureEmpty(at: nat) | DisclosureInvalid(at: nat)

  datatype Result<T> = Ok(value: T) | Err(error: ParseError)

  // ---------------------------------------------------------------- Go's strings package

  function Count(s: string, c: char): nat {
    if s == "" then 0 else Count(s[1..], c) + if s[0] == c then 1 else 0
  }

  function Join(parts: seq<string>, c: char): string
    requires parts != []
  {
    if |parts| == 1 then parts[0] else parts[0] + [c] + Join(parts[1..], c)
  }

  // ---------------------------------------------------------------- what parsing is

  /** The disclosures, trimmed, up to the first that is empty or has a dot. */
  function Cleaned(rest: seq<string>): (r: Result<seq<string>>) {
    if rest == [] then Ok([])
    else
      var n := |rest| - 1;
      var before := Cleaned(rest[..n]);
      var d := TrimSpace(rest[n]);
      if before.Err? then before
      else if d == "" then Err(DisclosureEmpty(n))
      else if '.' in d then Err(DisclosureInvalid(n))
      else Ok(before.value + [d])
  }

  function WithoutEmptyLast(rest: seq<string>): seq<string> {
    if rest != [] && rest[|rest| - 1] == "" then rest[..|rest| - 1] else rest
  }

  predicate EndsWithJwt(rest: seq<string>) {
    rest != [] && Count(rest[|rest| - 1], '.') == 2
  }

  function Assembled(parts: seq<string>): Result<Parsed>
    requires parts != []
  {
    if Blank(parts[0]) then Err(IssuerMissing)
    else if Count(parts[0], '.') != 2 then Err(IssuerNotCompact)
    else
      var rest := WithoutEmptyLast(parts[1..]);
      var kb := if EndsWithJwt(rest) then rest[|rest| - 1] else "";
      var cleaned := Cleaned(if EndsWithJwt(rest) then rest[..|rest| - 1] else rest);
      if cleaned.Err? then Err(cleaned.error) else Ok(Parsed(parts[0], cleaned.value, kb))
  }

  function Parse(encoded: string): Result<Parsed> {
    var trimmed := TrimSpace(encoded);
    if trimmed == "" then Err(CredentialEmpty) else Assembled(Split(trimmed, '~'))
  }

  lemma {:induction false} CleanedFails(rest: seq<string>, k: nat)
    requires k <= |rest| && Cleaned(rest[..k]).Err?
    ensures Cleaned(rest) == Cleaned(rest[..k])
  {
    if k == |rest| {
      assert rest[..k] == rest;
    } else {
      assert rest[..|rest| - 1][..k] == rest[..k];
      CleanedFails(rest[..|rest| - 1], k);
    }
  }

  method CollectDisclosures(rest: seq<string>) returns (r: Result<seq<string>>)
    ensures r == Cleaned(rest)
  {
    hide TrimSpace;
    var disclosures: seq<string> := [];
    for i := 0 to |rest|
      invariant Cleaned(rest[..i]) == Ok(disclosures)
    {
      assert rest[..i + 1][..i] == rest[..i];
      var disclosure := TrimSpace(rest[i]);
      if disclosure == "" {
        CleanedFails(rest, i + 1);
        return Err(DisclosureEmpty(i));
      }
      if '.' in disclosure {
        CleanedFails(rest, i + 1);
        return Err(DisclosureInvalid(i));
      }
      disclosures := disclosures + [disclosure];
    }
    assert rest[..|rest|] == rest;
    return Ok(disclosures);
  }

  method ParseCompact(encoded: string) returns (r: Result<Parsed>)
    ensures r == Parse(encoded)
  {
    hide TrimSpace, Split, Count, Cleaned;
    var trimmed := TrimSpace(encoded);
    if trimmed == "" {
      return Err(CredentialEmpty);
    }
    var parts := Split(trimmed, '~');
    if TrimSpace(parts[0]) == "" {
      return Err(IssuerMissing);
    }
    if Count(parts[0], '.') != 2 {
      return Err(IssuerNotCompact);
    }
    var out := Parsed(parts[0], [], "");
    NothingCleaned();
    if |parts| == 1 {
      return Ok(out);
    }
    var rest := parts[1..];
    if rest[|rest| - 1] == "" {
      rest := rest[..|rest| - 1];
    }
    if |rest| == 0 {
      return Ok(out);
    }
    var last := rest[|rest| - 1];
    if Count(last, '.') == 2 {
      out := out.(kbJwt := last);
      rest := rest[..|rest| - 1];
    }
    var disclosures := CollectDisclosures(rest);
    if disclosures.Err? {
      return Err(disclosures.error);
    }
    return Ok(out.(disclosures := disclosures.value));
  }

  lemma NothingCleaned()
    ensures Cleaned([]) == Ok([])
  {
  }

  // ---------------------------------------------------------------- rendering

  /** The compact form of the parts; the form without a KB-JWT ends with a tilde. */
  function Render(p: Parsed): string {
    Join([p.issuerJwt] + p.disclosures + [p.kbJwt], '~')
  }

  /** Parts as they come out of the parser: what can be rendered and read back. */
  ghost predicate WellFormed(p: Parsed) {
    && Count(p.issuerJwt, '.') == 2 && '~' !in p.issuerJwt && p.issuerJwt != "" && !IsSpace(p.issuerJwt[0])
    && (forall i :: 0 <= i < |p.disclosures| ==>
         p.disclosures[i] != "" && '.' !in p.disclosures[i] && '~' !in p.disclosures[i] && TrimSpace(p.disclosures[i]) == p.disclosures[i])
    && (p.kbJwt != "" ==> Count(p.kbJwt, '.') == 2) && '~' !in p.kbJwt
  }

  lemma {:induction false} SplitJoin(parts: seq<string>, c: char)
    requires parts != [] && forall i :: 0 <= i < |parts| ==> c !in parts[i]
    ensures Split(Join(parts, c), c) == parts
    decreases |parts|, |parts[0]|
  {
    var s := Join(parts, c);
    if parts[0] == "" {
      if |parts| > 1 {
        assert s == [c] + Join(parts[1..], c);
        SplitJoin(parts[1..], c);
        assert [""] + parts[1..] == parts;
      }
    } else {
      var shorter := [parts[0][1..]] + parts[1..];
      assert shorter[1..] == parts[1..];
      assert s == [parts[0][0]] + Join(shorter, c);
      SplitJoin(shorter, c);
      assert [parts[0][0]] + shorter[0] == parts[0];
      assert [parts[0]] + parts[1..] == parts;
    }
  }

  lemma {:induction false} CountsPresent(s: string, c: char)
    ensures Count(s, c) > 0 <==> c in s
  {
    if s != "" {
      CountsPresent(s[1..], c);
      assert s == [s[0]] + s[1..];
    }
  }

  /** A string with some visible character is not blank. */
  lemma {:induction false} VisibleNotBlank(s: string, c: char)
    requires c in s && !IsSpace(c)
    ensures !Blank(s)
    decreases |s|
  {
    if IsSpace(s[0]) {
      assert s == [s[0]] + s[1..];
      VisibleNotBlank(s[1..], c);
    } else if IsSpace(s[|s| - 1]) {
      assert s == s[..|s| - 1] + [s[|s| - 1]];
      VisibleNotBlank(s[..|s| - 1], c);
    }
  }

  lemma {:induction false} CleanedClean(ds: seq<string>)
    requires forall i :: 0 <= i < |ds| ==> ds[i] != "" && '.' !in ds[i] && TrimSpace(ds[i]) == ds[i]
    ensures Cleaned(ds) == Ok(ds)
  {
    if ds != [] {
      CleanedClean(ds[..|ds| - 1]);
      assert ds[..|ds| - 1] + [ds[|ds| - 1]] == ds;
    }
  }

  /** Well-formed parts are recognized once they are apart. */
  lemma AssembledParts(p: Parsed)
    requires WellFormed(p)
    ensures Assembled([p.issuerJwt] + p.disclosures + [p.kbJwt]) == Ok(p)
  {
    hide TrimSpace, Count, Cleaned;
    var ds := p.disclosures;
    var parts := [p.issuerJwt] + ds + [p.kbJwt];
    CountsPresent(p.issuerJwt, '.');
    VisibleNotBlank(p.issuerJwt, '.');
    CleanedClean(ds);
    assert parts[1..] == ds + [p.kbJwt];
    assert (ds + [p.kbJwt])[..|ds|] == ds;
    if p.kbJwt == "" && ds != [] {
      CountsPresent(ds[|ds| - 1], '.');
    }
  }

  lemma PartsApart(p: Parsed)
    requires WellFormed(p)
    ensures Split(Render(p), '~') == [p.issuerJwt] + p.disclosures + [p.kbJwt]
  {
    SplitJoin([p.issuerJwt] + p.disclosures + [p.kbJwt], '~');
  }

  /** `strings.TrimRightFunc(s, unicode.IsSpace)`. */
  function TrimEnd(s: string): (r: string)
    ensures |r| <= |s|
    ensures r == s <==> s == "" || !IsSpace(s[|s| - 1])
    ensures r == "" || !IsSpace(r[|r| - 1])
    ensures r <= s
  {
    if s != "" && IsSpace(s[|s| - 1]) then TrimEnd(s[..|s| - 1]) else s
  }

  lemma {:induction false} TrimsOnlyTheEnd(s: string)
    requires s != "" && !IsSpace(s[0])
    ensures TrimSpace(s) == TrimEnd(s)
  {
    if IsSpace(s[|s| - 1]) {
      TrimsOnlyTheEnd(s[..|s| - 1]);
    }
  }

  lemma {:induction false} TrimEndOfJoined(a: string, b: string)
    requires a != "" && !IsSpace(a[|a| - 1])
    ensures TrimEnd(a + b) == a + TrimEnd(b)
  {
    if b == "" {
      assert a + b == a;
    } else if IsSpace(b[|b| - 1]) {
      assert (a + b)[..|a + b| - 1] == a + b[..|b| - 1];
      TrimEndOfJoined(a, b[..|b| - 1]);
    }
  }

  lemma {:induction false} JoinLast(parts: seq<string>, last: string, c: char)
    requires parts != []
    ensures Join(parts + [last], c) == Join(parts, c) + [c] + last
  {
    if |parts| == 1 {
      assert (parts + [last])[1..] == [last];
    } else {
      assert (parts + [last])[1..] == parts[1..] + [last];
      JoinLast(parts[1..], last, c);
      assert parts[0] + [c] + (Join(parts[1..], c) + [c] + last) == (parts[0] + [c] + Join(parts[1..], c)) + [c] + last;
    }
  }

  lemma JoinFirst(parts: seq<string>, c: char)
    requires parts != [] && parts[0] != ""
    ensures Join(parts, c) != "" && Join(parts, c)[0] == parts[0][0]
  {
  }

  /** Outer blanks of a rendered form can only be at the end of the KB-JWT. */
  lemma RenderTrimmed(p: Parsed)
    requires WellFormed(p)
    ensures TrimSpace(Render(p)) == Render(p.(kbJwt := TrimEnd(p.kbJwt)))
    ensures TrimSpace(Render(p)) != ""
  {
    hide TrimSpace, TrimEnd;
    var front := [p.issuerJwt] + p.disclosures;
    var head := Join(front, '~') + ['~'];
    JoinLast(front, p.kbJwt, '~');
    JoinLast(front, TrimEnd(p.kbJwt), '~');
    JoinFirst(front + [p.kbJwt], '~');
    TrimsOnlyTheEnd(Render(p));
    TrimEndOfJoined(head, p.kbJwt);
  }

  // ---------------------------------------------------------------- parsing and rendering

  lemma {:induction false} SplitChars(s: string, c: char, i: nat, x: char)
    requires i < |Split(s, c)| && x in Split(s, c)[i]
    ensures x in s
  {
    if s != "" {
      var rest := Split(s[1..], c);
      if s[0] == c {
        SplitChars(s[1..], c, i - 1, x);
      } else if i > 0 || x != s[0] {
        SplitChars(s[1..], c, i, x);
      }
    }
  }

  lemma {:induction false} CleanedParts(rest: seq<string>)
    requires Cleaned(rest).Ok? && forall i :: 0 <= i < |rest| ==> '~' !in rest[i]
    ensures |Cleaned(rest).value| == |rest|
    ensures forall i :: 0 <= i < |rest| ==>
      var d := Cleaned(rest).value[i];
      d == TrimSpace(rest[i]) && d != "" && '.' !in d && '~' !in d && TrimSpace(d) == d
  {
    if rest != [] {
      var n := |rest| - 1;
      CleanedParts(rest[..n]);
      TrimmedStays(TrimSpace(rest[n]));
    }
  }

  lemma TrimmedStays(s: string)
    requires s != "" ==> !IsSpace(s[0]) && !IsSpace(s[|s| - 1])
    ensures TrimSpace(s) == s
  {
  }

  /** What the parser accepts consists of well-formed parts. */
  lemma ParsedIsWellFormed(encoded: string)
    requires Parse(encoded).Ok?
    ensures WellFormed(Parse(encoded).value)
  {
    hide Count, Split, Cleaned, TrimSpace;
    var t := TrimSpace(encoded);
    var parts := Split(t, '~');
    var rest := WithoutEmptyLast(parts[1..]);
    var inner := if EndsWithJwt(rest) then rest[..|rest| - 1] else rest;
    CleanedParts(inner);
    CountsPresent(parts[0], '.');
  }

  /**
   * Rendering what was parsed and parsing that again gives the same parts, on every accepted input, except when a KB-JWT
   * was read with blanks at its end: they are trimmed the second time.
   */
  lemma ReparseExactly(encoded: string)
    requires Parse(encoded).Ok?
    ensures var p := Parse(encoded).value;
      && Parse(Render(p)) == Ok(p.(kbJwt := TrimEnd(p.kbJwt)))
      && (Parse(Render(p)) == Parse(encoded) <==> p.kbJwt == "" || !IsSpace(p.kbJwt[|p.kbJwt| - 1]))
  {
    hide Parse, Split, TrimSpace, Render, Assembled, TrimEnd, Count;
    ParsedIsWellFormed(encoded);
    RenderParses(Parse(encoded).value);
  }

  lemma RenderParses(p: Parsed)
    requires WellFormed(p)
    ensures Parse(Render(p)) == Ok(p.(kbJwt := TrimEnd(p.kbJwt)))
  {
    hide Split, TrimSpace, Render, Assembled, Count;
    var q := p.(kbJwt := TrimEnd(p.kbJwt));
    RenderTrimmed(p);
    TrimEndKeepsDots(p.kbJwt);
    PartsApart(q);
    AssembledParts(q);
  }

  lemma {:induction false} CountJoined(a: string, b: string, c: char)
    ensures Count(a + b, c) == Count(a, c) + Count(b, c)
  {
    if a == "" {
      assert a + b == b;
    } else {
      assert (a + b)[1..] == a[1..] + b;
      CountJoined(a[1..], b, c);
    }
  }

  lemma {:induction false} TrimEndKeepsDots(s: string)
    ensures Count(TrimEnd(s), '.') == Count(s, '.')
  {
    if s != "" && IsSpace(s[|s| - 1]) {
      TrimEndKeepsDots(s[..|s| - 1]);
      CountJoined(s[..|s| - 1], [s[|s| - 1]], '.');
      assert s == s[..|s| - 1] + [s[|s| - 1]];
    }
  }

  /** Parts without blanks, as an issuer produces them: section 4 of RFC 9901. */
  ghost predicate Renderable(p: Parsed) {
    && SpaceFree(p.issuerJwt) && '~' !in p.issuerJwt && Count(p.issuerJwt, '.') == 2
    && (forall i :: 0 <= i < |p.disclosures| ==>
         p.disclosures[i] != "" && SpaceFree(p.disclosures[i]) && '~' !in p.disclosures[i] && '.' !in p.disclosures[i])
    && SpaceFree(p.kbJwt) && '~' !in p.kbJwt && (p.kbJwt != "" ==> Count(p.kbJwt, '.') == 2)
  }

  /** Parsing undoes rendering. */
  lemma ParseUndoesRender(p: Parsed)
    requires Renderable(p)
    ensures Parse(Render(p)) == Ok(p)
  {
    hide Parse, Render, TrimSpace;
    RenderParses(p);
  }

  /** On accepted input without blanks, parsing, rendering and parsing again is parsing once. */
  lemma ReparseWithoutBlanks(encoded: string)
    requires Parse(encoded).Ok? && SpaceFree(encoded)
    ensures Renderable(Parse(encoded).value) && Parse(Render(Parse(encoded).value)) == Parse(encoded)
  {
    hide Split, Render, TrimEnd, Count, Cleaned;
    ParsedIsWellFormed(encoded);
    var p := Parse(encoded).value;
    var parts := Split(encoded, '~');
    forall i: nat, x | i < |parts| && x in parts[i] ensures !IsSpace(x) {
      SplitChars(encoded, '~', i, x);
    }
    var rest := WithoutEmptyLast(parts[1..]);
    CleanedParts(if EndsWithJwt(rest) then rest[..|rest| - 1] else rest);
    ReparseExactly(encoded);
  }

  // ---------------------------------------------------------------- the accepted language

  lemma {:induction false} JoinSplit(s: string, c: char)
    ensures Join(Split(s, c), c) == s
  {
    if s != "" {
      var rest := Split(s[1..], c);
      JoinSplit(s[1..], c);
      assert s == [s[0]] + s[1..];
      if s[0] == c {
        assert ([""] + rest)[1..] == rest;
      } else if |rest| > 1 {
        assert ([[s[0]] + rest[0]] + rest[1..])[1..] == rest[1..];
      }
    }
  }

  /** Parts that end after the last disclosure, or with one more tilde after the KB-JWT, are recognized too. */
  lemma AssembledVariants(p: Parsed)
    requires WellFormed(p)
    ensures p.kbJwt == "" ==> Assembled([p.issuerJwt] + p.disclosures) == Ok(p)
    ensures p.kbJwt != "" ==> Assembled([p.issuerJwt] + p.disclosures + [p.kbJwt] + [""]) == Ok(p)
  {
    hide TrimSpace, Count, Cleaned;
    var ds := p.disclosures;
    CountsPresent(p.issuerJwt, '.');
    VisibleNotBlank(p.issuerJwt, '.');
    CleanedClean(ds);
    assert ([p.issuerJwt] + ds)[1..] == ds;
    assert ([p.issuerJwt] + ds + [p.kbJwt] + [""])[1..] == ds + [p.kbJwt] + [""];
    assert (ds + [p.kbJwt] + [""])[..|ds| + 1] == ds + [p.kbJwt];
    assert (ds + [p.kbJwt])[..|ds|] == ds;
    if ds != [] {
      CountsPresent(ds[|ds| - 1], '.');
    }
  }

  lemma RenderableIsWellFormed(p: Parsed)
    requires Renderable(p)
    ensures WellFormed(p)
  {
    hide TrimSpace;
    CountsPresent(p.issuerJwt, '.');
  }

  /** The final tilde may be missing when there is no KB-JWT. */
  lemma WithoutFinalTilde(p: Parsed, s: string)
    requires Renderable(p) && p.kbJwt == "" && s + "~" == Render(p)
    ensures SpaceFree(s) ==> Parse(s) == Ok(p)
  {
    hide TrimSpace, Split, Assembled, Renderable, WellFormed, Join, Blank;
    RenderableIsWellFormed(p);
    AssembledVariants(p);
    var front := [p.issuerJwt] + p.disclosures;
    JoinLast(front, "", '~');
    assert s + "~" == Join(front, '~') + "~";
    assert s == (s + "~")[..|s|] && Join(front, '~') == (Join(front, '~') + "~")[..|s|];
    TildeFree(p);
    assert forall i :: 0 <= i < |front| ==> front[i] == (front + [p.kbJwt])[i];
    SplitJoin(front, '~');
    NotEmptyJoin(p);
  }

  lemma TildeFree(p: Parsed)
    requires Renderable(p)
    ensures var all := [p.issuerJwt] + p.disclosures + [p.kbJwt]; forall i :: 0 <= i < |all| ==> '~' !in all[i]
  {
  }

  lemma NotEmptyJoin(p: Parsed)
    requires WellFormed(p)
    ensures Join([p.issuerJwt] + p.disclosures, '~') != ""
  {
    JoinFirst([p.issuerJwt] + p.disclosures, '~');
  }

  /** A KB-JWT may be followed by a tilde. */
  lemma WithTildeAfterKbJwt(p: Parsed, s: string)
    requires Renderable(p) && p.kbJwt != "" && s == Render(p) + "~"
    ensures SpaceFree(s) ==> Parse(s) == Ok(p)
  {
    hide TrimSpace, Split, Assembled, Renderable, WellFormed, Join, Blank;
    RenderableIsWellFormed(p);
    AssembledVariants(p);
    var all := [p.issuerJwt] + p.disclosures + [p.kbJwt];
    JoinLast(all, "", '~');
    TildeFree(p);
    SplitJoin(all + [""], '~');
    assert s == Join(all + [""], '~');
  }

  lemma CleanedBlankFree(rest: seq<string>)
    requires Cleaned(rest).Ok? && forall i :: 0 <= i < |rest| ==> '~' !in rest[i] && SpaceFree(rest[i])
    ensures Cleaned(rest).value == rest
  {
    hide TrimSpace, Cleaned;
    CleanedParts(rest);
  }

  /** The parts of accepted input, put together again from what was made of them. */
  lemma PartsTogether(parts: seq<string>, inner: seq<string>, kbJwt: string)
    requires parts != []
    requires var rest := WithoutEmptyLast(parts[1..]);
      if EndsWithJwt(rest) then inner == rest[..|rest| - 1] && kbJwt == rest[|rest| - 1] else inner == rest && kbJwt == ""
    ensures var front := [parts[0]] + inner;
      if kbJwt == "" then parts == front || parts == front + [""]
      else parts == front + [kbJwt] || parts == front + [kbJwt] + [""]
  {
    CountsNothing();
    hide Count;
    var rest := WithoutEmptyLast(parts[1..]);
    assert parts == [parts[0]] + parts[1..];
    if rest != parts[1..] {
      assert parts[1..] == rest + [""];
    }
    if EndsWithJwt(rest) {
      assert rest == inner + [kbJwt];
    }
  }

  /** What accepted blank-free input looks like. */
  lemma AcceptedForms(s: string)
    requires SpaceFree(s) && Parse(s).Ok?
    ensures var p := Parse(s).value;
      s == Render(p) || (p.kbJwt == "" && s + "~" == Render(p)) || (p.kbJwt != "" && s == Render(p) + "~")
  {
    var p := Parse(s).value;
    var parts := Split(s, '~');
    hide Split, Count, Cleaned, Join, TrimSpace;
    JoinSplit(s, '~');
    forall i: nat, x | i < |parts| && x in parts[i] ensures !IsSpace(x) {
      SplitChars(s, '~', i, x);
    }
    var rest := WithoutEmptyLast(parts[1..]);
    var inner := if EndsWithJwt(rest) then rest[..|rest| - 1] else rest;
    forall i | 0 <= i < |inner| ensures '~' !in inner[i] && SpaceFree(inner[i]) {
      assert inner[i] == parts[i + 1];
    }
    CleanedBlankFree(inner);
    assert p == Parsed(parts[0], inner, if EndsWithJwt(rest) then rest[|rest| - 1] else "");
    hide Parse, SpaceFree, EndsWithJwt, WithoutEmptyLast, Split;
    RenderedForms(s, parts, inner, p) by {
      PartsTogether(parts, inner, p.kbJwt);
    }
  }

  lemma RenderedForms(s: string, parts: seq<string>, inner: seq<string>, p: Parsed)
    requires parts != [] && s == Join(parts, '~') && p.issuerJwt == parts[0] && p.disclosures == inner
    requires var front := [parts[0]] + inner;
      if p.kbJwt == "" then parts == front || parts == front + [""]
      else parts == front + [p.kbJwt] || parts == front + [p.kbJwt] + [""]
    ensures s == Render(p) || (p.kbJwt == "" && s + "~" == Render(p)) || (p.kbJwt != "" && s == Render(p) + "~")
  {
    hide Join;
    var front := [parts[0]] + inner;
    JoinLast(front, p.kbJwt, '~');
    JoinLast(front + [p.kbJwt], "", '~');
  }

  lemma CountsNothing()
    ensures Count("", '.') == 0
  {
  }

  /**
   * The accepted language, for input without blanks: a rendered form, a form without KB-JWT that lacks the final tilde,
   * or a form with a KB-JWT and a tilde after it.
   */
  lemma AcceptedExactly(s: string, p: Parsed)
    requires SpaceFree(s)
    ensures Parse(s) == Ok(p) <==>
      Renderable(p) &&
      (s == Render(p) || (p.kbJwt == "" && s + "~" == Render(p)) || (p.kbJwt != "" && s == Render(p) + "~"))
  {
    hide Parse, Render, Renderable;
    if Parse(s) == Ok(p) {
      ReparseWithoutBlanks(s);
      AcceptedForms(s);
    }
    if Renderable(p) {
      if s == Render(p) {
        ParseUndoesRender(p);
      } else if p.kbJwt == "" && s + "~" == Render(p) {
        WithoutFinalTilde(p, s);
      } else if p.kbJwt != "" && s == Render(p) + "~" {
        WithTildeAfterKbJwt(p, s);
      }
    }
  }

  /** Two such inputs, neither of which is a serialization of section 4 of RFC 9901. */
  lemma LooseFormsAreAccepted()
    ensures Parse("a.b.c~d") == Ok(Parsed("a.b.c", ["d"], ""))
    ensures Parse("a.b.c~d~x.y.z~") == Ok(Parsed("a.b.c", ["d"], "x.y.z"))
  {
    ConcreteParts();
    var p, q := Parsed("a.b.c", ["d"], ""), Parsed("a.b.c", ["d"], "x.y.z");
    hide Parse, Renderable, SpaceFree, Render;
    AcceptedExactly("a.b.c~d", p);
    AcceptedExactly("a.b.c~d~x.y.z~", q);
  }

  lemma ConcreteParts()
    ensures Renderable(Parsed("a.b.c", ["d"], "")) && Renderable(Parsed("a.b.c", ["d"], "x.y.z"))
    ensures Render(Parsed("a.b.c", ["d"], "")) == "a.b.c~d~"
    ensures Render(Parsed("a.b.c", ["d"], "x.y.z")) == "a.b.c~d~x.y.z"
    ensures SpaceFree("a.b.c~d") && SpaceFree("a.b.c~d~x.y.z~")
  {
    hide Count, Join, SpaceFree;
    TwoDots();
    Visible();
    JoinThree("a.b.c", "d", "");
    JoinThree("a.b.c", "d", "x.y.z");
  }

  lemma Visible()
    ensures SpaceFree("") && SpaceFree("d") && SpaceFree("a.b.c") && SpaceFree("x.y.z")
    ensures SpaceFree("a.b.c~d") && SpaceFree("a.b.c~d~x.y.z~")
  {
  }

  lemma TwoDots()
    ensures Count("a.b.c", '.') == 2 && Count("x.y.z", '.') == 2
  {
    CountJoined("a.b", ".c", '.');
    assert "a.b" + ".c" == "a.b.c";
    CountJoined("x.y", ".z", '.');
    assert "x.y" + ".z" == "x.y.z";
  }

  lemma JoinThree(a: string, b: string, c: string)
    ensures Join([a] + [b] + [c], '~') == a + "~" + b + "~" + c
  {
    JoinLast([a], b, '~');
    JoinLast([a] + [b], c, '~');
  }
}
