/** The recruiter's candidate list: `RecruiterCandidateList` of internal/evt/repo.go and handlers_recruiter_list.go. */
module Pagination {
  import opened Common
  import opened Text
  import opened Sorting
  import opened RequestWorkflow
  import opened QueryLists

  datatype Badge = BadgeVerified | BadgeInvalid | BadgeUnknown

  datatype TrustMode = AnyTrust | TrustedOnly | IncludeUntrusted

  /** What the list needs of an `evt_requests` row. Ids are in canonical form; times are whole microseconds. */
  datatype ListRow = ListRow(
    requestId: string,
    candidate: string,
    employer: string,
    updatedAt: int,
    status: Status,
    jws: Option<string>,
    trustResult: Option<TrustResult>,
    claim: Claim)

  /** The strings found at the known paths of a claim snapshot. */
  datatype Claim = Claim(
    fullName: Option<string>,
    employeeId: Option<string>,
    issuerName: Option<string>,
    title: Option<string>,
    startDate: Option<string>,
    endDate: Option<string>)

  /** The filters; `matches` is the search over the claim, true when there is none. */
  datatype Query = Query(
    trusted: map<string, bool>,
    trustMode: TrustMode,
    signatures: seq<Badge>,
    companies: seq<string>,
    matches: ListRow -> bool)

  datatype Cursor = Cursor(updatedAt: int, requestId: string)

  datatype TrustBadge = Trusted | Untrusted | TrustUnknown

  /** `CandidateRowSnapshot`. */
  datatype Item = Item(
    candidate: string,
    fullName: string,
    employeeId: Option<string>,
    issuerName: string,
    title: string,
    startDate: string,
    endDate: Option<string>,
    evtId: string,
    signature: Badge,
    trust: TrustBadge,
    state: VerificationState,
    trustResult: Option<TrustResult>,
    requestStatus: Option<Status>,
    updatedAt: int)

  // ---------------------------------------------------------------- the SQL

  function Signature(r: ListRow): Badge {
    if r.jws.Some? && exists i :: 0 <= i < |r.jws.value| && r.jws.value[i] != ' ' then BadgeVerified else BadgeUnknown
  }

  predicate TrustKept(q: Query, r: ListRow) {
    match q.trustMode
    case AnyTrust => true
    case TrustedOnly => r.employer in q.trusted && q.trusted[r.employer]
    case IncludeUntrusted => r.employer in q.trusted
  }

  predicate IsWanted(q: Query, r: ListRow) {
    Signature(r) in q.signatures && (q.companies == [] || r.employer in q.companies) && TrustKept(q, r) && q.matches(r)
  }

  function Wanted(q: Query): ListRow -> bool {
    (r: ListRow) => IsWanted(q, r)
  }

  /** `ORDER BY updated_at DESC, request_id DESC`. */
  predicate Newer(a: ListRow, b: ListRow) {
    a.updatedAt > b.updatedAt || (a.updatedAt == b.updatedAt && StringLe(b.requestId, a.requestId))
  }

  /** `(updated_at, request_id) < (cursor.updated_at, cursor.request_id)`, or no condition. */
  predicate IsAfter(c: Option<Cursor>, r: ListRow) {
    c.None? || r.updatedAt < c.value.updatedAt ||
    (r.updatedAt == c.value.updatedAt && r.requestId != c.value.requestId && StringLe(r.requestId, c.value.requestId))
  }

  function After(c: Option<Cursor>): ListRow -> bool {
    (r: ListRow) => IsAfter(c, r)
  }

  /** `rn = 1`: no visible row of the same candidate is newer. */
  predicate IsPicked(table: seq<ListRow>, r: ListRow) {
    !r.status.Canceled? &&
    forall i :: 0 <= i < |table| && table[i].candidate == r.candidate && !table[i].status.Canceled? ==> Newer(r, table[i])
  }

  function Picked(table: seq<ListRow>): ListRow -> bool {
    (r: ListRow) => IsPicked(table, r)
  }

  function Take<T>(s: seq<T>, n: nat): seq<T> {
    if n <= |s| then s[..n] else s
  }

  /** The query with its `WHERE`, `ORDER BY` and `LIMIT`. */
  function Fetch(table: seq<ListRow>, q: Query, c: Option<Cursor>, n: nat): seq<ListRow> {
    Take(Sort(Newer, Filter(After(c), Filter(Wanted(q), Filter(Picked(table), table)))), n)
  }

  /** The plain list: the latest visible row of each candidate that the filters keep, newest first. */
  function Listing(table: seq<ListRow>, q: Query): seq<ListRow> {
    Sort(Newer, Filter(Wanted(q), Filter(Picked(table), table)))
  }

  // ---------------------------------------------------------------- the page

  function EffectiveLimit(limit: int): (n: nat)
    ensures 1 <= n <= 100
  {
    if limit <= 0 || limit > 100 then 25 else limit
  }

  /** A claim's string, if there is one and it is not blank. */
  function Given(value: Option<string>): Option<string> {
    if value.Some? && !Blank(value.value) then value else None
  }

  function OrElse(value: Option<string>, other: string): string {
    if value.Some? then value.value else other
  }

  function Trust(q: Query, r: ListRow): TrustBadge {
    if r.employer !in q.trusted then TrustUnknown else if q.trusted[r.employer] then Trusted else Untrusted
  }

  function ItemOf(q: Query, r: ListRow): Item {
    Item(r.candidate,
         OrElse(r.claim.fullName, ""),
         Given(r.claim.employeeId),
         OrElse(Given(r.claim.issuerName), r.employer),
         OrElse(r.claim.title, ""),
         OrElse(r.claim.startDate, ""),
         Given(r.claim.endDate),
         r.requestId,
         Signature(r),
         Trust(q, r),
         ListedState(r),
         if r.trustResult.Some? && !r.trustResult.value.TrustOther? then r.trustResult else None,
         if r.status.Canceled? then None else Some(r.status),
         r.updatedAt)
  }

  function ListedState(r: ListRow): VerificationState {
    Listed(Row(r.candidate, r.employer, r.status, 1, "", None, r.jws, r.trustResult, 0))
  }

  function ItemsOf(q: Query, rows: seq<ListRow>): seq<Item> {
    seq(|rows|, i requires 0 <= i < |rows| => ItemOf(q, rows[i]))
  }

  function CursorOf(r: ListRow): Cursor {
    Cursor(r.updatedAt, r.requestId)
  }

  method RecruiterCandidateList(table: seq<ListRow>, q: Query, requested: int, c: Option<Cursor>)
    returns (items: seq<Item>, next: Option<Cursor>)
    ensures var limit := EffectiveLimit(requested);
      var fetched := Fetch(table, q, c, limit + 1);
      && items == ItemsOf(q, Take(fetched, limit))
      && next == if |fetched| > limit then Some(CursorOf(fetched[limit - 1])) else None
  {
    hide Fetch, ItemOf;
    var limit := requested;
    if limit <= 0 || limit > 100 {
      limit := 25;
    }
    var rows := Fetch(table, q, c, limit + 1);
    var dbRows: seq<ListRow> := [];
    for i := 0 to |rows|
      invariant dbRows == rows[..i]
    {
      dbRows := dbRows + [rows[i]];
    }
    next := None;
    if |dbRows| > limit {
      var last := dbRows[limit - 1];
      next := Some(Cursor(last.updatedAt, last.requestId));
      dbRows := dbRows[..limit];
    }
    items := [];
    for i := 0 to |dbRows|
      invariant items == ItemsOf(q, dbRows[..i])
    {
      items := items + [ItemOf(q, dbRows[i])];
    }
    assert dbRows[..|dbRows|] == dbRows;
  }

  // ---------------------------------------------------------------- the handler

  datatype Response = Unauthenticated | Forbidden | BadRequest | Page(items: seq<Item>, next: Option<string>)

  /** Cursor strings: JSON in unpadded base64url, which has no blanks. */
  datatype Codec = Codec(encode: Cursor -> string, decode: string -> Option<Cursor>)

  ghost predicate Faithful(codec: Codec) {
    forall c :: codec.decode(codec.encode(c)) == Some(c) && TrimSpace(codec.encode(c)) == codec.encode(c) && codec.encode(c) != ""
  }

  /** The query string: the values given for each list parameter; `matches` is the search. */
  datatype Params = Params(
    trustMode: Option<string>,
    sort: Option<string>,
    signatures: seq<string>,
    companies: seq<string>,
    matches: ListRow -> bool)

  function TrustModeOf(p: Params): Option<TrustMode> {
    var mode := TrimSpace(if p.trustMode.Some? then p.trustMode.value else "any");
    if mode == "any" then Some(AnyTrust)
    else if mode == "trusted_only" then Some(TrustedOnly)
    else if mode == "include_untrusted" then Some(IncludeUntrusted)
    else None
  }

  predicate SortAccepted(p: Params) {
    TrimSpace(if p.sort.Some? then p.sort.value else "most_recent") == "most_recent"
  }

  function BadgeOf(s: string): Option<Badge> {
    if s == "verified" then Some(BadgeVerified)
    else if s == "invalid" then Some(BadgeInvalid)
    else if s == "unknown" then Some(BadgeUnknown)
    else None
  }

  function BadgesOf(raw: seq<string>): Option<seq<Badge>> {
    if raw == [] then Some([])
    else
      var before, last := BadgesOf(raw[..|raw| - 1]), BadgeOf(raw[|raw| - 1]);
      if before.None? || last.None? then None else Some(before.value + [last.value])
  }

  /** The signature filter; without one every badge is wanted. */
  function SignaturesOf(p: Params): Option<seq<Badge>> {
    var signatures := ListOf(p.signatures);
    if signatures == [] then Some([BadgeVerified, BadgeInvalid, BadgeUnknown]) else BadgesOf(signatures)
  }

  /** The filters a query string stands for, if its mode, order and badges are known ones. */
  function QueryOf(p: Params, trusted: map<string, bool>): Option<Query> {
    if TrustModeOf(p).None? || !SortAccepted(p) || SignaturesOf(p).None? then None
    else Some(Query(trusted, TrustModeOf(p).value, SignaturesOf(p).value, ListOf(p.companies), p.matches))
  }

  lemma {:induction false} BadgesFail(raw: seq<string>, k: nat)
    requires k <= |raw| && BadgesOf(raw[..k]).None?
    ensures BadgesOf(raw).None?
  {
    if k == |raw| {
      assert raw[..k] == raw;
    } else {
      assert raw[..|raw| - 1][..k] == raw[..k];
      BadgesFail(raw[..|raw| - 1], k);
    }
  }

  method ParseBadges(raw: seq<string>) returns (r: Option<seq<Badge>>)
    ensures r == BadgesOf(raw)
  {
    var badges: seq<Badge> := [];
    for i := 0 to |raw|
      invariant BadgesOf(raw[..i]) == Some(badges)
    {
      assert raw[..i + 1][..i] == raw[..i];
      var v := BadgeOf(raw[i]);
      if v.None? {
        BadgesFail(raw, i + 1);
        return None;
      }
      badges := badges + [v.value];
    }
    assert raw[..|raw|] == raw;
    return Some(badges);
  }

  method HasRole(roles: seq<string>, role: string) returns (found: bool)
    ensures found <==> role in roles
  {
    for i := 0 to |roles|
      invariant role !in roles[..i]
    {
      if roles[i] == role {
        return true;
      }
    }
    return false;
  }

  const RECRUITER := "recruiter"

  /**
   * `roles` are those of the caller's claims, if there are any; `limit` is the parsed number of the query string, if there
   * is one, and 0 stands for one that does not parse.
   */
  method ListCandidates(roles: Option<seq<string>>, table: seq<ListRow>, p: Params, trusted: map<string, bool>,
                        limit: Option<int>, cursor: string, codec: Codec)
    returns (r: Response)
    ensures r == if roles.None? then Unauthenticated
                 else if RECRUITER !in roles.value then Forbidden
                 else if QueryOf(p, trusted).None? then BadRequest
                 else Responded(table, QueryOf(p, trusted).value, limit, cursor, codec)
  {
    hide Fetch, ItemsOf, TrimSpace, TrustModeOf, BadgesOf, ListOf;
    if roles.None? {
      return Unauthenticated;
    }
    var recruiter := HasRole(roles.value, RECRUITER);
    if !recruiter {
      return Forbidden;
    }
    var mode := TrustModeOf(p);
    if mode.None? {
      return BadRequest;
    }
    if TrimSpace(if p.sort.Some? then p.sort.value else "most_recent") != "most_recent" {
      return BadRequest;
    }
    var raw := ParseCsvOrRepeated(p.signatures);
    var signatures := Some([BadgeVerified, BadgeInvalid, BadgeUnknown]);
    if raw != [] {
      signatures := ParseBadges(raw);
    }
    if signatures.None? {
      return BadRequest;
    }
    var companies := ParseCsvOrRepeated(p.companies);
    var n := 25;
    if limit.Some? {
      if limit.value < 1 || limit.value > 100 {
        return BadRequest;
      }
      n := limit.value;
    }
    var c: Option<Cursor> := None;
    if TrimSpace(cursor) != "" {
      c := codec.decode(TrimSpace(cursor));
      if c.None? {
        return BadRequest;
      }
    }
    var q := Query(trusted, mode.value, signatures.value, companies, p.matches);
    var items, next := RecruiterCandidateList(table, q, n, c);
    return Page(items, if next.Some? then Some(codec.encode(next.value)) else None);
  }

  predicate LimitAccepted(limit: Option<int>) {
    limit.Some? ==> 1 <= limit.value <= 100
  }

  function LimitOf(limit: Option<int>): (n: nat)
    requires LimitAccepted(limit)
    ensures 1 <= n <= 100
  {
    if limit.Some? then limit.value else 25
  }

  function PageAfter(table: seq<ListRow>, q: Query, n: nat, c: Option<Cursor>, codec: Codec): Response
    requires n >= 1
  {
    var fetched := Fetch(table, q, c, n + 1);
    Page(ItemsOf(q, Take(fetched, n)), if |fetched| > n then Some(codec.encode(CursorOf(fetched[n - 1]))) else None)
  }

  function Responded(table: seq<ListRow>, q: Query, limit: Option<int>, cursor: string, codec: Codec): Response {
    if !LimitAccepted(limit) then BadRequest
    else if TrimSpace(cursor) == "" then PageAfter(table, q, LimitOf(limit), None, codec)
    else
      var c := codec.decode(TrimSpace(cursor));
      if c.None? then BadRequest else PageAfter(table, q, LimitOf(limit), c, codec)
  }

  // ---------------------------------------------------------------- the list is in order

  lemma NewerIsPreorder()
    ensures TotalPreorder(Newer)
  {
    forall x: ListRow, y: ListRow ensures Newer(x, y) || Newer(y, x) {
      StringLeTotal(x.requestId, y.requestId);
    }
    forall x: ListRow, y: ListRow, z: ListRow | Newer(x, y) && Newer(y, z) ensures Newer(x, z) {
      if x.updatedAt == y.updatedAt && y.updatedAt == z.updatedAt {
        StringLeTransitive(z.requestId, y.requestId, x.requestId);
      }
    }
  }

  /** The primary key: request ids do not repeat. */
  ghost predicate Keyed(s: seq<ListRow>) {
    forall i, j :: 0 <= i < j < |s| ==> s[i].requestId != s[j].requestId
  }

  /** The same, whatever the order. */
  ghost predicate KeyedBag(m: multiset<ListRow>) {
    (forall x :: m[x] <= 1) && forall x, y :: x in m && y in m && x.requestId == y.requestId ==> x == y
  }

  lemma {:induction false} KeyedIsBag(s: seq<ListRow>)
    requires Keyed(s)
    ensures KeyedBag(multiset(s))
  {
    if s != [] {
      var n := |s| - 1;
      assert s == s[..n] + [s[n]];
      KeyedIsBag(s[..n]);
      assert multiset(s) == multiset(s[..n]) + multiset{s[n]};
      forall x | x in multiset(s[..n]) ensures x.requestId != s[n].requestId {
        assert x in s[..n];
      }
    }
  }

  lemma TwiceInBag(s: seq<ListRow>, i: nat, j: nat)
    requires i < j < |s| && s[i] == s[j]
    ensures multiset(s)[s[i]] >= 2
  {
    assert s == s[..i] + [s[i]] + s[i + 1..j] + [s[j]] + s[j + 1..];
  }

  lemma BagIsKeyed(s: seq<ListRow>)
    requires KeyedBag(multiset(s))
    ensures Keyed(s)
  {
    forall i, j | 0 <= i < j < |s| ensures s[i].requestId != s[j].requestId {
      assert s[i] in multiset(s) && s[j] in multiset(s);
      if s[i] == s[j] {
        TwiceInBag(s, i, j);
      }
    }
  }

  lemma {:induction false} KeyedFilter(p: ListRow -> bool, s: seq<ListRow>)
    requires Keyed(s)
    ensures Keyed(Filter(p, s))
  {
    if s != [] {
      KeyedFilter(p, s[1..]);
      forall x | x in Filter(p, s[1..]) ensures x.requestId != s[0].requestId {
        assert x in s[1..];
      }
    }
  }

  lemma KeyedSort(s: seq<ListRow>)
    requires Keyed(s)
    ensures Keyed(Sort(Newer, s))
  {
    KeyedIsBag(s);
    BagIsKeyed(Sort(Newer, s));
  }

  /** Newest first, no row twice, one row for each candidate, and exactly the picked rows the filters keep. */
  lemma ListingOrdered(table: seq<ListRow>, q: Query)
    requires Keyed(table)
    ensures SortedBy(Newer, Listing(table, q)) && Keyed(Listing(table, q))
    ensures forall r :: r in Listing(table, q) <==> r in table && IsPicked(table, r) && IsWanted(q, r)
    ensures forall i, j :: 0 <= i < j < |Listing(table, q)| ==> Listing(table, q)[i].candidate != Listing(table, q)[j].candidate
  {
    NewerIsPreorder();
    var kept := Filter(Wanted(q), Filter(Picked(table), table));
    KeyedFilter(Picked(table), table);
    KeyedFilter(Wanted(q), Filter(Picked(table), table));
    KeyedSort(kept);
    SortSorts(Newer, kept);
    var rows := Listing(table, q);
    forall r ensures r in rows <==> r in table && IsPicked(table, r) && IsWanted(q, r) {
      assert r in rows <==> r in multiset(rows);
      assert r in kept <==> r in multiset(kept);
    }
    forall i, j | 0 <= i < j < |rows| ensures rows[i].candidate != rows[j].candidate {
      assert rows[i] in rows && rows[j] in rows;
      if rows[i].candidate == rows[j].candidate {
        OnePicked(table, rows[i], rows[j]);
      }
    }
  }

  /** A candidate with a visible row has exactly one picked row. */
  lemma OnePicked(table: seq<ListRow>, a: ListRow, b: ListRow)
    requires a in table && b in table && IsPicked(table, a) && IsPicked(table, b) && a.candidate == b.candidate
    ensures a.requestId == b.requestId
  {
    var i :| 0 <= i < |table| && table[i] == a;
    var j :| 0 <= j < |table| && table[j] == b;
    assert Newer(b, table[i]) && Newer(a, table[j]);
    StringLeAntisymmetric(a.requestId, b.requestId);
  }

  // ---------------------------------------------------------------- one page is a slice of the list

  lemma {:induction false} FilterSuffix(p: ListRow -> bool, s: seq<ListRow>, k: nat)
    requires k <= |s|
    requires forall i :: 0 <= i < k ==> !p(s[i])
    requires forall i :: k <= i < |s| ==> p(s[i])
    ensures Filter(p, s) == s[k..]
  {
    if s != [] {
      if k > 0 {
        FilterSuffix(p, s[1..], k - 1);
        assert s[1..][k - 1..] == s[k..];
      } else {
        FilterSuffix(p, s[1..], 0);
        assert [s[0]] + s[1..] == s;
      }
    }
  }

  function CursorAt(rows: seq<ListRow>, k: nat): Option<Cursor>
    requires k <= |rows|
  {
    if k == 0 then None else Some(CursorOf(rows[k - 1]))
  }

  lemma AfterRow(rows: seq<ListRow>, k: nat, i: nat)
    requires SortedBy(Newer, rows) && Keyed(rows) && k <= |rows| && i < |rows|
    ensures IsAfter(CursorAt(rows, k), rows[i]) <==> k <= i
  {
    if k > 0 {
      var last := rows[k - 1];
      if i < k - 1 {
        assert Newer(rows[i], last);
        if StringLe(rows[i].requestId, last.requestId) && rows[i].updatedAt == last.updatedAt {
          StringLeAntisymmetric(rows[i].requestId, last.requestId);
        }
      } else if i > k - 1 {
        assert Newer(last, rows[i]);
      }
    }
  }

  /** The row-value comparison skips exactly the rows already shown. */
  lemma FetchIsSlice(table: seq<ListRow>, q: Query, k: nat, n: nat)
    requires Keyed(table) && k <= |Listing(table, q)|
    ensures Fetch(table, q, CursorAt(Listing(table, q), k), n) == Take(Listing(table, q)[k..], n)
  {
    var rows := Listing(table, q);
    var c := CursorAt(rows, k);
    ListingOrdered(table, q);
    NewerIsPreorder();
    FilterSort(Newer, After(c), Filter(Wanted(q), Filter(Picked(table), table)));
    forall i: nat | i < |rows| ensures After(c)(rows[i]) <==> k <= i {
      AfterRow(rows, k, i);
    }
    FilterSuffix(After(c), rows, k);
  }

  // ---------------------------------------------------------------- following the cursors

  /** Pages asked for one after the other, each with the cursor of the one before; none is asked for after the last. */
  ghost predicate Followed(table: seq<ListRow>, q: Query, limit: Option<int>, codec: Codec, pages: seq<Response>) {
    && pages != []
    && (forall i :: 0 <= i < |pages| ==> pages[i].Page?)
    && (forall i :: 0 <= i < |pages| - 1 ==> pages[i].next.Some?)
    && pages[0] == Responded(table, q, limit, "", codec)
    && (forall i :: 0 < i < |pages| ==> pages[i] == Responded(table, q, limit, pages[i - 1].next.value, codec))
  }

  function AllItems(pages: seq<Response>): seq<Item>
    requires forall i :: 0 <= i < |pages| ==> pages[i].Page?
  {
    if pages == [] then [] else AllItems(pages[..|pages| - 1]) + pages[|pages| - 1].items
  }

  function Least(a: nat, b: nat): nat {
    if a <= b then a else b
  }

  /** The cursor after the first `k` rows, when more follow. */
  function NextAt(rows: seq<ListRow>, k: nat, codec: Codec): Option<string> {
    if 0 < k < |rows| then Some(codec.encode(CursorOf(rows[k - 1]))) else None
  }

  /** The page after `k` rows. */
  lemma PageAt(table: seq<ListRow>, q: Query, limit: Option<int>, codec: Codec, cursor: string, k: nat)
    requires Keyed(table) && Faithful(codec) && LimitAccepted(limit) && k <= |Listing(table, q)|
    requires if k == 0 then cursor == "" else cursor == codec.encode(CursorOf(Listing(table, q)[k - 1]))
    ensures var rows := Listing(table, q);
      var end := Least(k + LimitOf(limit), |rows|);
      Responded(table, q, limit, cursor, codec) == Page(ItemsOf(q, rows[k..end]), NextAt(rows, end, codec))
  {
    hide Fetch, Listing, ItemOf, Keyed;
    var rows, n := Listing(table, q), LimitOf(limit);
    var end := Least(k + n, |rows|);
    FetchIsSlice(table, q, k, n + 1);
    assert Responded(table, q, limit, cursor, codec) == PageAfter(table, q, n, CursorAt(rows, k), codec);
    assert Take(Take(rows[k..], n + 1), n) == rows[k..end];
  }

  lemma ItemsTogether(q: Query, rows: seq<ListRow>, k: nat, end: nat)
    requires k <= end <= |rows|
    ensures ItemsOf(q, rows[..k]) + ItemsOf(q, rows[k..end]) == ItemsOf(q, rows[..end])
  {
  }

  /** `m` pages of `n` rows. */
  function Room(m: nat, n: nat): nat {
    if m == 0 then 0 else Room(m - 1, n) + n
  }

  /** After any number of pages exactly the first rows of the list have been shown, and the cursor is at the last of them. */
  lemma {:induction false} ShownSoFar(table: seq<ListRow>, q: Query, limit: Option<int>, codec: Codec, pages: seq<Response>)
    requires Keyed(table) && Faithful(codec) && LimitAccepted(limit) && Followed(table, q, limit, codec, pages)
    ensures var rows, n := Listing(table, q), LimitOf(limit);
      var shown := Least(Room(|pages|, n), |rows|);
      && AllItems(pages) == ItemsOf(q, rows[..shown])
      && (|pages| > 1 ==> Room(|pages| - 1, n) < |rows|)
      && pages[|pages| - 1].next == NextAt(rows, shown, codec)
    decreases |pages|
  {
    hide Responded, Listing, ItemsOf, Keyed, Faithful;
    var rows, n := Listing(table, q), LimitOf(limit);
    var last := |pages| - 1;
    if last == 0 {
      PageAt(table, q, limit, codec, "", 0);
      assert AllItems(pages[..0]) == [];
      assert rows[0..Least(n, |rows|)] == rows[..Least(n, |rows|)];
    } else {
      var before := pages[..last];
      ShownSoFar(table, q, limit, codec, before);
      assert pages[last - 1].next.Some?;
      var k := Room(last, n);
      PageAt(table, q, limit, codec, pages[last - 1].next.value, k);
      ItemsTogether(q, rows, k, Least(k + n, |rows|));
    }
  }

  lemma {:induction false} RoomIsProduct(m: nat, n: nat)
    ensures Room(m, n) == m * n
  {
    if m > 0 {
      RoomIsProduct(m - 1, n);
    }
  }

  /**
   * Following `next_cursor` from the start ends, after one page or as many as the list fills, and what the pages showed
   * together is the plain list: no gap, no repeat, one row for each candidate, newest first.
   */
  lemma PagesAreTheList(table: seq<ListRow>, q: Query, limit: Option<int>, codec: Codec, pages: seq<Response>)
    requires Keyed(table) && Faithful(codec) && LimitAccepted(limit) && Followed(table, q, limit, codec, pages)
    ensures var rows, n := Listing(table, q), LimitOf(limit);
      var total := if rows == [] then 1 else (|rows| + n - 1) / n;
      && |pages| <= total
      && (pages[|pages| - 1].next.None? <==> |pages| == total)
      && (|pages| == total ==> AllItems(pages) == ItemsOf(q, rows))
  {
    hide Followed, Listing, Keyed, Faithful, ItemsOf, AllItems, Room;
    ShownSoFar(table, q, limit, codec, pages);
    var rows, n := Listing(table, q), LimitOf(limit);
    assert pages != [] by {
      AtLeastOne(table, q, limit, codec, pages);
    }
    RoomIsProduct(|pages|, n);
    RoomIsProduct(|pages| - 1, n);
    PageCount(|rows|, n, |pages|);
    assert rows[..|rows|] == rows;
  }

  /** The list can always be started, and a cursor handed out is always accepted. */
  lemma CursorsAreHonored(table: seq<ListRow>, q: Query, limit: Option<int>, codec: Codec, pages: seq<Response>)
    requires Keyed(table) && Faithful(codec) && LimitAccepted(limit)
    ensures Followed(table, q, limit, codec, [Responded(table, q, limit, "", codec)])
    ensures Followed(table, q, limit, codec, pages) && pages[|pages| - 1].next.Some? ==>
      Followed(table, q, limit, codec, pages + [Responded(table, q, limit, pages[|pages| - 1].next.value, codec)])
  {
    hide Responded, Listing, ItemsOf, Keyed, Faithful, Room;
    PageAt(table, q, limit, codec, "", 0);
    if Followed(table, q, limit, codec, pages) && pages[|pages| - 1].next.Some? {
      ShownSoFar(table, q, limit, codec, pages);
      var shown := Least(Room(|pages|, LimitOf(limit)), |Listing(table, q)|);
      PageAt(table, q, limit, codec, pages[|pages| - 1].next.value, shown);
    }
  }

  lemma AtLeastOne(table: seq<ListRow>, q: Query, limit: Option<int>, codec: Codec, pages: seq<Response>)
    requires Followed(table, q, limit, codec, pages)
    ensures pages != []
  {
  }

  lemma PageCount(rows: nat, n: nat, m: nat)
    requires n >= 1 && m >= 1 && (m > 1 ==> (m - 1) * n < rows)
    ensures var total := if rows == 0 then 1 else (rows + n - 1) / n;
      m <= total && (rows <= m * n <==> m == total)
  {
    var total := (rows + n - 1) / n;
    assert total * n <= rows + n - 1 < total * n + n;
    if m > total {
      assert (m - 1) * n >= total * n by { Multiples(total, m - 1, n); }
    }
    if m < total {
      Multiples(m + 1, total, n);
    }
  }

  lemma Multiples(a: int, b: int, n: nat)
    requires a <= b
    ensures a * n <= b * n
  {
  }
}
