/** The completeness check over recording positions, internal/db/authority_repository.go. */
module RecordingPositions {
  import opened Common

  /** A nullable `recording_position` column. */
  type Position = Option<int>

  /** The positions are 1 to `boundary`, each exactly once, and there is no row without one. */
  ghost predicate Exactly(ps: seq<Position>, boundary: int) {
    && multiset(ps)[None] == 0
    && (forall q :: multiset(ps)[Some(q)] == if 1 <= q <= boundary then 1 else 0)
  }

  // ---------------------------------------------------------------- the SQL aggregates

  predicate Untrusted(p: Position, boundary: int) {
    p.None? || p.value <= 0 || p.value > boundary
  }

  function UntrustedCount(ps: seq<Position>, boundary: int): nat {
    if ps == [] then 0
    else UntrustedCount(ps[..|ps| - 1], boundary) + if Untrusted(ps[|ps| - 1], boundary) then 1 else 0
  }

  /** `COUNT(DISTINCT recording_position)`, which ignores NULL. */
  function DistinctCount(ps: seq<Position>): nat {
    |Values(ps)|
  }

  function Values(ps: seq<Position>): set<int> {
    set p | p in ps && p.Some? :: p.value
  }

  /** `COALESCE(MIN(recording_position), 0)`. */
  function MinPosition(ps: seq<Position>): int {
    var m := Least(ps);
    if m.None? then 0 else m.value
  }

  function MaxPosition(ps: seq<Position>): int {
    var m := Greatest(ps);
    if m.None? then 0 else m.value
  }

  function Least(ps: seq<Position>): (m: Position)
    ensures m.None? <==> Values(ps) == {}
    ensures m.Some? ==> m.value in Values(ps) && forall v :: v in Values(ps) ==> m.value <= v
  {
    if ps == [] then None
    else
      var n := |ps| - 1;
      var m := Least(ps[..n]);
      ValuesStep(ps);
      if ps[n].None? then m else if m.None? || ps[n].value < m.value then ps[n] else m
  }

  function Greatest(ps: seq<Position>): (m: Position)
    ensures m.None? <==> Values(ps) == {}
    ensures m.Some? ==> m.value in Values(ps) && forall v :: v in Values(ps) ==> v <= m.value
  {
    if ps == [] then None
    else
      var n := |ps| - 1;
      var m := Greatest(ps[..n]);
      ValuesStep(ps);
      if ps[n].None? then m else if m.None? || ps[n].value > m.value then ps[n] else m
  }

  lemma ValuesStep(ps: seq<Position>)
    requires ps != []
    ensures var n := |ps| - 1;
      Values(ps) == Values(ps[..n]) + if ps[n].Some? then {ps[n].value} else {}
  {
    assert ps == ps[..|ps| - 1] + [ps[|ps| - 1]];
  }

  /** `validateAuthorityRecordingCompleteness`: the two queries over all evidence rows and the comparison of their counts. */
  function CompletenessAccepts(ps: seq<Position>, boundary: int): bool {
    if boundary < 0 then false
    else if UntrustedCount(ps, boundary) != 0 then false
    else
      var count, distinct, min, max := |ps|, DistinctCount(ps), MinPosition(ps), MaxPosition(ps);
      !(count != boundary || distinct != boundary ||
        (boundary == 0 && (min != 0 || max != 0)) ||
        (boundary > 0 && (min != 1 || max != boundary)))
  }

  // ---------------------------------------------------------------- what the check establishes

  lemma {:induction false} UntrustedCountZero(ps: seq<Position>, boundary: int)
    ensures UntrustedCount(ps, boundary) == 0 <==> forall p :: p in ps ==> !Untrusted(p, boundary)
  {
    if ps != [] {
      UntrustedCountZero(ps[..|ps| - 1], boundary);
      assert ps == ps[..|ps| - 1] + [ps[|ps| - 1]];
    }
  }

  function UpTo(n: nat): (s: set<int>)
    ensures forall q :: q in s <==> 1 <= q <= n
    ensures |s| == n
  {
    if n == 0 then {} else UpTo(n - 1) + {n}
  }

  lemma SubsetOfSameSize(s: set<int>, t: set<int>)
    requires s <= t && |s| == |t|
    ensures s == t
  {
    assert |t - s| == |t| - |s|;
  }

  /** As many distinct values as rows: no value is in two rows. */
  lemma {:induction false} AllDistinct(ps: seq<Position>)
    requires forall p :: p in ps ==> p.Some?
    ensures DistinctCount(ps) <= |ps|
    ensures DistinctCount(ps) == |ps| ==> forall p :: multiset(ps)[p] <= 1
  {
    if ps != [] {
      var n := |ps| - 1;
      AllDistinct(ps[..n]);
      assert ps == ps[..n] + [ps[n]];
      assert Values(ps) == Values(ps[..n]) + {ps[n].value};
      if DistinctCount(ps) == |ps| {
        assert ps[n].value !in Values(ps[..n]);
        assert ps[n] !in ps[..n];
      }
    }
  }

  lemma Removed(ps: seq<Position>, i: nat)
    requires i < |ps|
    ensures multiset(ps[..i] + ps[i + 1..]) == multiset(ps) - multiset{ps[i]}
  {
    assert ps == ps[..i] + [ps[i]] + ps[i + 1..];
  }

  lemma InRange(ps: seq<Position>, boundary: nat, i: nat)
    requires Exactly(ps, boundary) && i < |ps|
    ensures ps[i].Some? && 1 <= ps[i].value <= boundary
  {
    assert ps[i] in multiset(ps);
    assert multiset(ps)[ps[i]] > 0;
    if ps[i].Some? {
      assert multiset(ps)[Some(ps[i].value)] > 0;
    }
  }

  lemma {:induction false} ExactlyLength(ps: seq<Position>, boundary: nat)
    requires Exactly(ps, boundary)
    ensures |ps| == boundary
    decreases boundary
  {
    if boundary == 0 {
      if ps != [] {
        InRange(ps, boundary, 0);
      }
    } else {
      var last := Some(boundary as int);
      assert last in multiset(ps);
      var i :| 0 <= i < |ps| && ps[i] == last;
      Removed(ps, i);
      ExactlyLength(ps[..i] + ps[i + 1..], boundary - 1);
    }
  }

  lemma ExactlyValues(ps: seq<Position>, boundary: nat)
    requires Exactly(ps, boundary)
    ensures Values(ps) == UpTo(boundary)
  {
    forall q ensures q in Values(ps) <==> q in UpTo(boundary) {
      assert q in Values(ps) <==> Some(q) in multiset(ps);
    }
  }

  lemma AcceptsWhenExact(ps: seq<Position>, boundary: nat)
    requires Exactly(ps, boundary)
    ensures CompletenessAccepts(ps, boundary)
  {
    ExactlyLength(ps, boundary);
    ExactlyValues(ps, boundary);
    UntrustedCountZero(ps, boundary);
    forall i | 0 <= i < |ps| ensures !Untrusted(ps[i], boundary) {
      InRange(ps, boundary, i);
    }
    if boundary > 0 {
      assert 1 in UpTo(boundary) && boundary in UpTo(boundary);
    }
  }

  lemma ExactWhenAccepts(ps: seq<Position>, boundary: int)
    requires CompletenessAccepts(ps, boundary)
    ensures Exactly(ps, boundary)
  {
    UntrustedCountZero(ps, boundary);
    AllDistinct(ps);
    assert None in ps <==> None in multiset(ps);
    SubsetOfSameSize(Values(ps), UpTo(boundary));
    forall q ensures multiset(ps)[Some(q)] == if 1 <= q <= boundary then 1 else 0 {
      assert q in Values(ps) <==> Some(q) in ps;
      assert q in Values(ps) <==> q in UpTo(boundary);
    }
  }

  /** The counts settle it: the check accepts a table exactly when its positions are 1 to the boundary without repeats. */
  lemma CompletenessExactly(ps: seq<Position>, boundary: int)
    ensures CompletenessAccepts(ps, boundary) <==> boundary >= 0 && Exactly(ps, boundary)
  {
    if CompletenessAccepts(ps, boundary) {
      ExactWhenAccepts(ps, boundary);
    }
    if boundary >= 0 && Exactly(ps, boundary) {
      AcceptsWhenExact(ps, boundary);
    }
  }

  /** Recording one more row at the next position keeps the positions exact. */
  lemma RecordNext(before: seq<Position>, after: seq<Position>, boundary: nat)
    requires Exactly(before, boundary) && multiset(after) == multiset(before) + multiset{Some(boundary + 1)}
    ensures Exactly(after, boundary + 1)
  {
  }
}
