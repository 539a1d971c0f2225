/** List parameters of a query string: `parseCSVOrRepeated` of internal/evt/handlers_recruiter_list.go. */
module QueryLists {
  import opened Common
  import opened Text

  /** The parts that are not blank, trimmed. */
  function Trimmed(parts: seq<string>): seq<string> {
    if parts == [] then []
    else
      var p := TrimSpace(parts[|parts| - 1]);
      Trimmed(parts[..|parts| - 1]) + if p != "" then [p] else []
  }

  /** The comma-separated parts of all values, in order. */
  function PartsOf(raw: seq<string>): seq<string> {
    if raw == [] then []
    else PartsOf(raw[..|raw| - 1]) + Trimmed(Split(raw[|raw| - 1], ','))
  }

  /** Each string where it occurs first. */
  function Firsts(s: seq<string>): seq<string> {
    if s == [] then []
    else
      var before, last := Firsts(s[..|s| - 1]), s[|s| - 1];
      if last in before then before else before + [last]
  }

  function ListOf(raw: seq<string>): seq<string> {
    Firsts(PartsOf(raw))
  }

  method ParseCsvOrRepeated(raw: seq<string>) returns (uniq: seq<string>)
    ensures uniq == ListOf(raw)
  {
    hide TrimSpace, Split;
    if |raw| == 0 {
      return [];
    }
    var out: seq<string> := [];
    for i := 0 to |raw|
      invariant out == PartsOf(raw[..i])
    {
      assert raw[..i + 1][..i] == raw[..i];
      var parts := Split(raw[i], ',');
      var sofar := out;
      for j := 0 to |parts|
        invariant out == sofar + Trimmed(parts[..j])
      {
        assert parts[..j + 1][..j] == parts[..j];
        var p := TrimSpace(parts[j]);
        if p != "" {
          out := out + [p];
        }
      }
      assert parts[..|parts|] == parts;
    }
    assert raw[..|raw|] == raw;
    var seen: set<string> := {};
    uniq := [];
    for i := 0 to |out|
      invariant uniq == Firsts(out[..i]) && seen == set s | s in uniq
    {
      assert out[..i + 1][..i] == out[..i];
      if out[i] in seen {
        continue;
      }
      seen := seen + {out[i]};
      uniq := uniq + [out[i]];
    }
    assert out[..|out|] == out;
  }

  // ---------------------------------------------------------------- what such a list is

  /** Some value has this as one of its comma-separated parts. */
  ghost predicate Given(raw: seq<string>, x: string) {
    exists i :: 0 <= i < |raw| && GivenIn(raw[i], x)
  }

  lemma {:induction false} InTrimmed(parts: seq<string>, x: string)
    ensures x in Trimmed(parts) <==> exists j :: 0 <= j < |parts| && x == TrimSpace(parts[j]) != ""
  {
    hide TrimSpace;
    if parts != [] {
      var n := |parts| - 1;
      InTrimmed(parts[..n], x);
      assert forall j :: 0 <= j < n ==> parts[..n][j] == parts[j];
    }
  }

  ghost predicate GivenIn(value: string, x: string) {
    exists j :: 0 <= j < |Split(value, ',')| && x == TrimSpace(Split(value, ',')[j]) != ""
  }

  lemma GivenStep(raw: seq<string>, x: string)
    requires raw != []
    ensures Given(raw, x) <==> Given(raw[..|raw| - 1], x) || GivenIn(raw[|raw| - 1], x)
  {
    hide GivenIn;
    var n := |raw| - 1;
    assert forall i :: 0 <= i < n ==> raw[..n][i] == raw[i];
    if Given(raw[..n], x) {
      var i :| 0 <= i < n && GivenIn(raw[..n][i], x);
      assert GivenIn(raw[i], x);
    }
  }

  lemma NothingGiven(x: string)
    ensures !Given([], x)
  {
  }

  lemma InValue(value: string, x: string)
    ensures x in Trimmed(Split(value, ',')) <==> GivenIn(value, x)
  {
    hide TrimSpace, Split, Trimmed;
    InTrimmed(Split(value, ','), x);
  }

  lemma {:induction false} InParts(raw: seq<string>, x: string)
    ensures x in PartsOf(raw) <==> Given(raw, x)
  {
    hide TrimSpace, Split, Trimmed, Given, GivenIn;
    if raw == [] {
      NothingGiven(x);
    } else {
      var n := |raw| - 1;
      InParts(raw[..n], x);
      InValue(raw[n], x);
      GivenStep(raw, x);
    }
  }

  /** `x` occurs before any `y` does. */
  predicate Precedes(s: seq<string>, x: string, y: string) {
    forall k :: 0 <= k < |s| && s[k] == y ==> x in s[..k]
  }

  /** No repeats, and in the order in which they first occur. */
  predicate InOrder(f: seq<string>, s: seq<string>) {
    forall i, j :: 0 <= i < j < |f| ==> f[i] != f[j] && Precedes(s, f[i], f[j])
  }

  lemma PrecedesStill(s: seq<string>, x: string, y: string)
    requires s != [] && Precedes(s[..|s| - 1], x, y) && y in s[..|s| - 1]
    ensures Precedes(s, x, y)
  {
    var n := |s| - 1;
    forall k | 0 <= k < |s| && s[k] == y ensures x in s[..k] {
      var i :| 0 <= i < n && s[..n][i] == y;
      assert x in s[..n][..i];
      if k < n {
        assert s[..n][k] == y && s[..n][..k] == s[..k];
      }
    }
  }

  lemma PrecedesNew(s: seq<string>, x: string)
    requires s != [] && x in s[..|s| - 1] && s[|s| - 1] !in s[..|s| - 1]
    ensures Precedes(s, x, s[|s| - 1])
  {
    var n := |s| - 1;
    assert forall k :: 0 <= k < n ==> s[k] in s[..n];
  }

  lemma FirstsStep(s: seq<string>, before: seq<string>, f: seq<string>)
    requires s != [] && f == if s[|s| - 1] in before then before else before + [s[|s| - 1]]
    requires forall x :: x in before <==> x in s[..|s| - 1]
    requires InOrder(before, s[..|s| - 1])
    ensures InOrder(f, s)
  {
    hide Precedes;
    forall i, j | 0 <= i < j < |f| ensures f[i] != f[j] && Precedes(s, f[i], f[j]) {
      assert before[i] in before && before[i] in s[..|s| - 1];
      if j < |before| {
        assert before[j] in before && before[j] in s[..|s| - 1];
        assert Precedes(s[..|s| - 1], before[i], before[j]);
        PrecedesStill(s, before[i], before[j]);
      } else {
        PrecedesNew(s, before[i]);
      }
    }
  }

  lemma {:induction false} FirstsExactly(s: seq<string>)
    ensures forall x :: x in Firsts(s) <==> x in s
    ensures InOrder(Firsts(s), s)
  {
    hide Precedes;
    if s != [] {
      var n := |s| - 1;
      FirstsExactly(s[..n]);
      assert s == s[..n] + [s[n]];
      FirstsStep(s, Firsts(s[..n]), Firsts(s)) by {
        assert Firsts(s) == if s[n] in Firsts(s[..n]) then Firsts(s[..n]) else Firsts(s[..n]) + [s[n]];
      }
    }
  }

  /** A list holds exactly the parts given, each once, in the order in which they first come. */
  lemma ListExactly(raw: seq<string>)
    ensures forall x :: x in ListOf(raw) <==> Given(raw, x)
    ensures InOrder(ListOf(raw), PartsOf(raw))
  {
    hide PartsOf, Given;
    FirstsExactly(PartsOf(raw));
    forall x ensures x in PartsOf(raw) <==> Given(raw, x) {
      InParts(raw, x);
    }
  }
}
