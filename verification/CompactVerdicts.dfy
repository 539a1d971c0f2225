/**
 * What `ParseCompact` answers on every input, told from the parts between the tildes and the dots in them:
 * internal/credential/sdjwtvc/parser.go.
 */
module CompactVerdicts {
  import opened Text
  import opened CompactParser

  function Dots(s: string): nat {
    multiset(s)['.']
  }

  lemma {:induction false} DotsCounted(s: string)
    ensures Count(s, '.') == Dots(s)
  {
    if s != "" {
      DotsCounted(s[1..]);
      assert s == [s[0]] + s[1..];
    }
  }

  /** A last part that is empty is no disclosure, nor is one with two dots then in last place. */
  function DisclosuresEnd(parts: seq<string>): nat
    requires parts != []
  {
    var end := if |parts| > 1 && parts[|parts| - 1] == "" then |parts| - 1 else |parts|;
    if end > 1 && Dots(parts[end - 1]) == 2 then end - 1 else end
  }

  /** The KB-JWT, if there is one. */
  function BindingOf(parts: seq<string>): string
    requires parts != []
  {
    var end := if |parts| > 1 && parts[|parts| - 1] == "" then |parts| - 1 else |parts|;
    if end > 1 && Dots(parts[end - 1]) == 2 then parts[end - 1] else ""
  }

  predicate Faulty(part: string) {
    TrimSpace(part) == "" || '.' in TrimSpace(part)
  }

  /** Part `p` is the first disclosure that is empty or has a dot. */
  predicate FirstFault(parts: seq<string>, p: nat)
    requires parts != []
  {
    1 <= p < DisclosuresEnd(parts) && Faulty(parts[p]) && forall j :: 1 <= j < p ==> !Faulty(parts[j])
  }

  predicate FaultFree(parts: seq<string>)
    requires parts != []
  {
    forall j :: 1 <= j < DisclosuresEnd(parts) ==> !Faulty(parts[j])
  }

  function ErrorAt(part: string, at: nat): ParseError {
    if TrimSpace(part) == "" then DisclosureEmpty(at) else DisclosureInvalid(at)
  }

  lemma {:induction false} CleanedFine(rest: seq<string>)
    requires forall j :: 0 <= j < |rest| ==> !Faulty(rest[j])
    ensures Cleaned(rest).Ok? && |Cleaned(rest).value| == |rest|
    ensures forall j :: 0 <= j < |rest| ==> Cleaned(rest).value[j] == TrimSpace(rest[j])
  {
    hide TrimSpace;
    if rest != [] {
      var n := |rest| - 1;
      assert forall j :: 0 <= j < n ==> rest[..n][j] == rest[j];
      CleanedFine(rest[..n]);
    }
  }

  lemma CleanedFault(rest: seq<string>, i: nat)
    requires i < |rest| && Faulty(rest[i]) && forall j :: 0 <= j < i ==> !Faulty(rest[j])
    ensures Cleaned(rest) == Err(ErrorAt(rest[i], i))
  {
    hide TrimSpace;
    CleanedFine(rest[..i]);
    assert rest[..i + 1][..i] == rest[..i];
    CleanedFails(rest, i + 1);
  }

  /** The parts after the first, without what is no disclosure. */
  lemma MiddleParts(parts: seq<string>)
    requires parts != []
    ensures var rest := WithoutEmptyLast(parts[1..]);
      && (EndsWithJwt(rest) <==> DisclosuresEnd(parts) < |rest| + 1)
      && BindingOf(parts) == (if EndsWithJwt(rest) then rest[|rest| - 1] else "")
      && (if EndsWithJwt(rest) then rest[..|rest| - 1] else rest) == parts[1..DisclosuresEnd(parts)]
  {
    var rest := WithoutEmptyLast(parts[1..]);
    if rest != [] {
      DotsCounted(rest[|rest| - 1]);
    }
    hide Count;
  }

  lemma AssembledFrom(parts: seq<string>)
    requires parts != [] && TrimSpace(parts[0]) != "" && Dots(parts[0]) == 2
    ensures var cleaned := Cleaned(parts[1..DisclosuresEnd(parts)]);
      Assembled(parts) ==
      if cleaned.Err? then Err(cleaned.error) else Ok(Parsed(parts[0], cleaned.value, BindingOf(parts)))
  {
    DotsCounted(parts[0]);
    MiddleParts(parts);
    hide TrimSpace, Count, Cleaned, WithoutEmptyLast, EndsWithJwt, DisclosuresEnd, BindingOf;
  }

  lemma FaultVerdict(parts: seq<string>, p: nat)
    requires parts != [] && TrimSpace(parts[0]) != "" && Dots(parts[0]) == 2 && FirstFault(parts, p)
    ensures Assembled(parts) == Err(ErrorAt(parts[p], p - 1))
  {
    AssembledFrom(parts);
    var middle := parts[1..DisclosuresEnd(parts)];
    hide TrimSpace, Assembled, Cleaned, Faulty, DisclosuresEnd, BindingOf, Dots, ErrorAt;
    assert middle[p - 1] == parts[p];
    forall j | 0 <= j < p - 1 ensures !Faulty(middle[j]) {
      assert middle[j] == parts[j + 1];
    }
    CleanedFault(middle, p - 1);
  }

  /** The issuer JWT and the KB-JWT as they stand, and the disclosures trimmed. */
  predicate ReadFrom(parts: seq<string>, p: Parsed)
    requires parts != []
  {
    && p.issuerJwt == parts[0] && p.kbJwt == BindingOf(parts) && |p.disclosures| == DisclosuresEnd(parts) - 1
    && forall j :: 1 <= j < DisclosuresEnd(parts) ==> p.disclosures[j - 1] == TrimSpace(parts[j])
  }

  lemma FineVerdict(parts: seq<string>)
    requires parts != [] && TrimSpace(parts[0]) != "" && Dots(parts[0]) == 2 && FaultFree(parts)
    ensures Assembled(parts).Ok? && ReadFrom(parts, Assembled(parts).value)
  {
    AssembledFrom(parts);
    var middle := parts[1..DisclosuresEnd(parts)];
    hide TrimSpace, Assembled, Cleaned, Faulty, DisclosuresEnd, BindingOf, Dots;
    forall j | 0 <= j < |middle| ensures !Faulty(middle[j]) {
      assert middle[j] == parts[j + 1];
    }
    CleanedFine(middle);
    forall j | 1 <= j < DisclosuresEnd(parts) ensures Cleaned(middle).value[j - 1] == TrimSpace(parts[j]) {
      assert middle[j - 1] == parts[j];
    }
  }

  /**
   * Every verdict with its exact condition, for any input: `parts` are what stands between the tildes of the trimmed text.
   * Without an issuer JWT of two dots nothing else counts; then the first faulty disclosure is reported with its position,
   * and without any the issuer JWT, the trimmed disclosures and the KB-JWT are returned.
   */
  lemma ParsesExactly(encoded: string, parts: seq<string>)
    requires parts != [] && (forall i :: 0 <= i < |parts| ==> '~' !in parts[i]) && Join(parts, '~') == TrimSpace(encoded)
    ensures Parse(encoded) == Err(CredentialEmpty) <==> TrimSpace(encoded) == ""
    ensures TrimSpace(encoded) != "" ==>
      && (Parse(encoded) == Err(IssuerMissing) <==> TrimSpace(parts[0]) == "")
      && (Parse(encoded) == Err(IssuerNotCompact) <==> TrimSpace(parts[0]) != "" && Dots(parts[0]) != 2)
    ensures TrimSpace(encoded) != "" && TrimSpace(parts[0]) != "" && Dots(parts[0]) == 2 ==>
      && (forall p: nat :: FirstFault(parts, p) ==> Parse(encoded) == Err(ErrorAt(parts[p], p - 1)))
      && (FaultFree(parts) ==> Parse(encoded).Ok? && ReadFrom(parts, Parse(encoded).value))
  {
    ParsedFrom(encoded, parts);
    Verdicts(parts);
    hide *;
    if TrimSpace(parts[0]) != "" && Dots(parts[0]) == 2 {
      forall p: nat | FirstFault(parts, p) ensures Assembled(parts) == Err(ErrorAt(parts[p], p - 1)) {
        FaultVerdict(parts, p);
      }
      if FaultFree(parts) {
        FineVerdict(parts);
      }
    }
  }

  lemma ParsedFrom(encoded: string, parts: seq<string>)
    requires parts != [] && (forall i :: 0 <= i < |parts| ==> '~' !in parts[i]) && Join(parts, '~') == TrimSpace(encoded)
    ensures Parse(encoded) == if TrimSpace(encoded) == "" then Err(CredentialEmpty) else Assembled(parts)
  {
    SplitJoin(parts, '~');
    hide TrimSpace, Split, Join, Assembled;
  }

  lemma Verdicts(parts: seq<string>)
    requires parts != []
    ensures Assembled(parts) == Err(IssuerMissing) <==> TrimSpace(parts[0]) == ""
    ensures Assembled(parts) == Err(IssuerNotCompact) <==> TrimSpace(parts[0]) != "" && Dots(parts[0]) != 2
    ensures Assembled(parts) != Err(CredentialEmpty)
  {
    DotsCounted(parts[0]);
    hide TrimSpace, Count, Dots, WithoutEmptyLast;
    CleanedErrors(if EndsWithJwt(WithoutEmptyLast(parts[1..])) then
                    WithoutEmptyLast(parts[1..])[..|WithoutEmptyLast(parts[1..])| - 1]
                  else WithoutEmptyLast(parts[1..]));
  }

  lemma {:induction false} CleanedErrors(rest: seq<string>)
    ensures Cleaned(rest).Err? ==> Cleaned(rest).error.DisclosureEmpty? || Cleaned(rest).error.DisclosureInvalid?
  {
    hide TrimSpace;
    if rest != [] {
      CleanedErrors(rest[..|rest| - 1]);
    }
  }
}
