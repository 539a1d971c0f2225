/**
 * What a recruiter is shown, told from the rows of the table and the words of the query string alone: the items of the
 * pages of `ListCandidates`, internal/evt/handlers_recruiter_list.go and repo.go.
 */
module PaginationContents {
  import opened Common
  import opened Text
  import opened Sorting
  import opened RequestWorkflow
  import QueryLists
  import opened Pagination

  // ---------------------------------------------------------------- what is asked for

  function Asked(value: Option<string>, otherwise: string): string {
    TrimSpace(if value == None then otherwise else value.value)
  }

  /** The trust mode admits an employer of this standing with the recruiter. */
  predicate TrustAsked(p: Params, trusted: map<string, bool>, employer: string) {
    var mode := Asked(p.trustMode, "any");
    && (mode == "trusted_only" ==> employer in trusted && trusted[employer] == true)
    && (mode == "include_untrusted" ==> employer in trusted)
  }

  /** The badge's word is one of those asked for, or none is. */
  ghost predicate SignatureAsked(p: Params, signed: bool) {
    (exists word :: QueryLists.Given(p.signatures, word)) ==>
    QueryLists.Given(p.signatures, if signed then "verified" else "unknown")
  }

  ghost predicate CompanyAsked(p: Params, employer: string) {
    (exists word :: QueryLists.Given(p.companies, word)) ==> QueryLists.Given(p.companies, employer)
  }

  /** The attestation is there and not made of spaces only. */
  predicate Signed(r: ListRow) {
    r.jws.Some? && exists i :: 0 <= i < |r.jws.value| && r.jws.value[i] != ' '
  }

  /** No other request of the candidate that is not canceled was updated later, nor at the same time under a greater id. */
  predicate Latest(table: seq<ListRow>, r: ListRow) {
    r.status != RequestWorkflow.Canceled &&
    forall s :: s in table && s.candidate == r.candidate && s.status != RequestWorkflow.Canceled && s.requestId != r.requestId ==>
      s.updatedAt < r.updatedAt || (s.updatedAt == r.updatedAt && StringLe(s.requestId, r.requestId))
  }

  /** What the query string asks for. */
  ghost predicate Eligible(table: seq<ListRow>, p: Params, trusted: map<string, bool>, r: ListRow) {
    && r in table && Latest(table, r) && SignatureAsked(p, Signed(r)) && CompanyAsked(p, r.employer)
    && TrustAsked(p, trusted, r.employer) && p.matches(r)
  }

  // ---------------------------------------------------------------- what is shown

  /** A string of the claim, unless it is missing or blank. */
  function Filled(value: Option<string>): Option<string> {
    if value == None || TrimSpace(value.value) == "" then None else value
  }

  /** What the status, and after it the trust result, say of the verification. */
  predicate Classified(r: ListRow, state: VerificationState) {
    && (state == ListedPending <==>
         r.status in {Draft, Submitted, AttestationPending, Attested})
    && (state == ListedVerified <==>
         || r.status == RequestWorkflow.Verified
         || (r.status in {Consumed, Closed} && r.trustResult in {Some(TrustVerified), Some(TrustVerifiedWithFlags)}))
    && (state == ListedUnverified <==>
         || r.status in {RequestWorkflow.Unverified, RequestWorkflow.Rejected}
         || (r.status in {Consumed, Closed} && r.trustResult == Some(TrustUnverified)))
  }

  /** An item tells of a row what the table and the recruiter's trust map say of it. */
  predicate Tells(item: Item, r: ListRow, trusted: map<string, bool>) {
    && item.candidate == r.candidate && item.evtId == r.requestId && item.updatedAt == r.updatedAt
    && item.requestStatus == Some(r.status)
    && (item.signature == if Signed(r) then BadgeVerified else BadgeUnknown)
    && (item.trust == Trusted <==> r.employer in trusted && trusted[r.employer] == true)
    && (item.trust == Untrusted <==> r.employer in trusted && trusted[r.employer] == false)
    && Classified(r, item.state)
    && (item.trustResult == if r.trustResult in {Some(TrustVerified), Some(TrustVerifiedWithFlags), Some(TrustUnverified)}
                            then r.trustResult else None)
    && item.fullName == (if r.claim.fullName == None then "" else r.claim.fullName.value)
    && item.title == (if r.claim.title == None then "" else r.claim.title.value)
    && item.startDate == (if r.claim.startDate == None then "" else r.claim.startDate.value)
    && item.employeeId == Filled(r.claim.employeeId) && item.endDate == Filled(r.claim.endDate)
    && item.issuerName == (if Filled(r.claim.issuerName) == None then r.employer else r.claim.issuerName.value)
  }

  // ---------------------------------------------------------------- the query

  lemma {:induction false} BadgeAmong(raw: seq<string>, badge: Badge, word: string)
    requires BadgesOf(raw).Some? && BadgeOf(word) == Some(badge)
    ensures badge in BadgesOf(raw).value <==> word in raw
  {
    if raw != [] {
      var n := |raw| - 1;
      BadgeAmong(raw[..n], badge, word);
      assert raw == raw[..n] + [raw[n]];
    }
  }

  lemma NoneGiven(raw: seq<string>)
    ensures QueryLists.ListOf(raw) == [] <==> forall word :: !QueryLists.Given(raw, word)
  {
    hide QueryLists.ListOf, QueryLists.Given;
    QueryLists.ListExactly(raw);
    var l := QueryLists.ListOf(raw);
    if l != [] {
      assert l[0] in l;
    }
  }

  lemma SignaturesAsked(p: Params, r: ListRow)
    requires SignaturesOf(p).Some?
    ensures Signature(r) in SignaturesOf(p).value <==> SignatureAsked(p, Signed(r))
  {
    hide QueryLists.ListOf, QueryLists.Given, BadgesOf;
    NoneGiven(p.signatures);
    QueryLists.ListExactly(p.signatures);
    var raw := QueryLists.ListOf(p.signatures);
    if raw != [] {
      BadgeAmong(raw, Signature(r), if Signed(r) then "verified" else "unknown");
    }
  }

  lemma CompaniesAsked(p: Params, employer: string)
    ensures QueryLists.ListOf(p.companies) == [] || employer in QueryLists.ListOf(p.companies) <==> CompanyAsked(p, employer)
  {
    hide QueryLists.ListOf, QueryLists.Given;
    NoneGiven(p.companies);
    QueryLists.ListExactly(p.companies);
  }

  lemma TrustIsAsked(p: Params, trusted: map<string, bool>, q: Query, r: ListRow)
    requires QueryOf(p, trusted) == Some(q)
    ensures TrustKept(q, r) <==> TrustAsked(p, trusted, r.employer)
  {
    hide TrimSpace, SignaturesOf;
    assert |"any"| == 3 && |"trusted_only"| == 12 && |"include_untrusted"| == 17;
  }

  lemma PickedIsLatest(table: seq<ListRow>, r: ListRow)
    requires Keyed(table) && r in table
    ensures IsPicked(table, r) <==> Latest(table, r)
  {
    hide StringLe;
    forall i | 0 <= i < |table| && table[i].requestId == r.requestId ensures table[i] == r && Newer(r, table[i]) {
      var j :| 0 <= j < |table| && table[j] == r;
      assert i == j;
      assert StringLe(r.requestId, r.requestId) by { StringLeTotal(r.requestId, r.requestId); }
    }
    if Latest(table, r) {
      forall i | 0 <= i < |table| && table[i].candidate == r.candidate && !table[i].status.Canceled? ensures Newer(r, table[i]) {
        assert table[i] in table;
      }
    }
    if IsPicked(table, r) {
      forall s | s in table && s.candidate == r.candidate && s.status != RequestWorkflow.Canceled && s.requestId != r.requestId
        ensures s.updatedAt < r.updatedAt || (s.updatedAt == r.updatedAt && StringLe(s.requestId, r.requestId))
      {
        var i :| 0 <= i < |table| && table[i] == s;
        assert Newer(r, table[i]);
      }
    }
  }

  /** A row is in the plain list exactly when the query string asks for it. */
  lemma ListedExactly(table: seq<ListRow>, p: Params, trusted: map<string, bool>, r: ListRow)
    requires Keyed(table) && QueryOf(p, trusted).Some?
    ensures r in Listing(table, QueryOf(p, trusted).value) <==> Eligible(table, p, trusted, r)
  {
    var q := QueryOf(p, trusted).value;
    ListingOrdered(table, q);
    if r in table {
      PickedIsLatest(table, r);
      SignaturesAsked(p, r);
      CompaniesAsked(p, r.employer);
      TrustIsAsked(p, trusted, q, r);
    }
    hide Listing, IsPicked, Latest, SignatureAsked, CompanyAsked, TrustAsked, TrustKept, Signature, Signed, QueryLists.ListOf,
         TrustModeOf, SortAccepted, SignaturesOf;
  }

  lemma ItemTells(q: Query, r: ListRow)
    requires !r.status.Canceled?
    ensures Tells(ItemOf(q, r), r, q.trusted)
  {
    hide TrimSpace;
  }

  /** The items made of some rows. */
  lemma ItemsTell(q: Query, rows: seq<ListRow>, item: Item)
    ensures item in ItemsOf(q, rows) <==> exists r :: r in rows && ItemOf(q, r) == item
  {
    hide ItemOf;
    var items := ItemsOf(q, rows);
    if item in items {
      var i :| 0 <= i < |items| && items[i] == item;
      assert rows[i] in rows && ItemOf(q, rows[i]) == item;
    }
    if r :| r in rows && ItemOf(q, r) == item {
      var i :| 0 <= i < |rows| && rows[i] == r;
      assert items[i] == item;
    }
  }

  /** One row of the list, and its item. */
  lemma RowTells(table: seq<ListRow>, p: Params, trusted: map<string, bool>, r: ListRow)
    requires Keyed(table) && QueryOf(p, trusted).Some?
    ensures r in Listing(table, QueryOf(p, trusted).value) <==> Eligible(table, p, trusted, r)
    ensures Eligible(table, p, trusted, r) ==> Tells(ItemOf(QueryOf(p, trusted).value, r), r, trusted)
  {
    hide Keyed, Eligible, Tells, Listing, ItemOf, QueryOf;
    ListedExactly(table, p, trusted, r);
    if Eligible(table, p, trusted, r) {
      EligibleIsVisible(table, p, trusted, r);
      ItemTells(QueryOf(p, trusted).value, r);
      QueryTrusts(p, trusted);
    }
  }

  /**
   * Everything the pages show, once all have been followed, and nothing else: each item tells of a row that the query
   * string asks for what the table and the trust map say of it, and each such row is told of by an item.
   */
  lemma PagesShowExactly(table: seq<ListRow>, p: Params, trusted: map<string, bool>, limit: Option<int>, codec: Codec,
                         pages: seq<Response>)
    requires Keyed(table) && Faithful(codec) && LimitAccepted(limit) && QueryOf(p, trusted).Some?
    requires Followed(table, QueryOf(p, trusted).value, limit, codec, pages) && pages[|pages| - 1].next.None?
    ensures forall item :: item in AllItems(pages) ==>
      exists r :: Eligible(table, p, trusted, r) && Tells(item, r, trusted)
    ensures forall r :: Eligible(table, p, trusted, r) ==> exists item :: item in AllItems(pages) && Tells(item, r, trusted)
  {
    var q := QueryOf(p, trusted).value;
    PagesAreTheList(table, q, limit, codec, pages);
    var rows, items := Listing(table, q), AllItems(pages);
    hide Followed, AllItems, Faithful, Keyed, Eligible, Tells, Listing, ItemOf, ItemsOf, QueryOf;
    forall item | item in items ensures exists r :: Eligible(table, p, trusted, r) && Tells(item, r, trusted) {
      ItemsTell(q, rows, item);
      var r :| r in rows && ItemOf(q, r) == item;
      RowTells(table, p, trusted, r);
    }
    forall r | Eligible(table, p, trusted, r) ensures exists item :: item in items && Tells(item, r, trusted) {
      RowTells(table, p, trusted, r);
      ItemsTell(q, rows, ItemOf(q, r));
    }
  }

  /** In the order of their updates, the latest first, and among those of one time by id; one item for each candidate. */
  lemma PagesInOrder(table: seq<ListRow>, p: Params, trusted: map<string, bool>, limit: Option<int>, codec: Codec,
                     pages: seq<Response>, i: nat, j: nat)
    requires Keyed(table) && Faithful(codec) && LimitAccepted(limit) && QueryOf(p, trusted).Some?
    requires Followed(table, QueryOf(p, trusted).value, limit, codec, pages) && pages[|pages| - 1].next.None?
    requires i < j < |AllItems(pages)|
    ensures var a, b := AllItems(pages)[i], AllItems(pages)[j];
      && a.candidate != b.candidate
      && (a.updatedAt > b.updatedAt || (a.updatedAt == b.updatedAt && StringLe(b.evtId, a.evtId)))
  {
    var q := QueryOf(p, trusted).value;
    PagesAreTheList(table, q, limit, codec, pages);
    ListingOrdered(table, q);
    var rows := Listing(table, q);
    hide Followed, Faithful, Keyed, Listing, QueryOf, AllItems, StringLe, IsPicked, IsWanted;
    assert Newer(rows[i], rows[j]);
  }

  /** Every page but the last is full: as many items as asked for, and 25 when no limit is given. */
  lemma PagesAreFull(table: seq<ListRow>, q: Query, limit: Option<int>, codec: Codec, pages: seq<Response>, i: nat)
    requires Keyed(table) && Faithful(codec) && LimitAccepted(limit) && Followed(table, q, limit, codec, pages) && i < |pages|
    ensures var n := if limit == None then 25 else limit.value;
      |pages[i].items| <= n && (i < |pages| - 1 ==> |pages[i].items| == n)
  {
    PagesOnly(table, q, limit, codec, pages);
    assert Room(i + 1, LimitOf(limit)) == Room(i, LimitOf(limit)) + LimitOf(limit);
    assert Room(0, LimitOf(limit)) == 0;
    hide Followed, Keyed, Faithful, AllItems, Room, Listing;
    Counted(table, q, limit, codec, pages, i);
    Counted(table, q, limit, codec, pages, i + 1);
    AllOfPrefix(pages, i);
  }

  lemma AllOfPrefix(pages: seq<Response>, i: nat)
    requires i < |pages| && forall j :: 0 <= j < |pages| ==> pages[j].Page?
    ensures AllItems(pages[..i + 1]) == AllItems(pages[..i]) + pages[i].items
  {
    assert pages[..i + 1][..i] == pages[..i];
  }

  /** How much the first so many pages have shown. */
  lemma Counted(table: seq<ListRow>, q: Query, limit: Option<int>, codec: Codec, pages: seq<Response>, i: nat)
    requires forall j :: 0 <= j < |pages| ==> pages[j].Page?
    requires Keyed(table) && Faithful(codec) && LimitAccepted(limit) && Followed(table, q, limit, codec, pages) && i <= |pages|
    ensures var rows, n := Listing(table, q), LimitOf(limit);
      |AllItems(pages[..i])| == Least(Room(i, n), |rows|) && (0 < i < |pages| ==> Room(i, n) < |rows|)
  {
    assert Room(0, LimitOf(limit)) == 0;
    hide Followed, Listing, Keyed, Faithful, Responded, Room;
    if i > 0 {
      FollowedPrefix(table, q, limit, codec, pages, i);
      ShownSoFar(table, q, limit, codec, pages[..i]);
      if i < |pages| {
        FollowedPrefix(table, q, limit, codec, pages, i + 1);
        ShownSoFar(table, q, limit, codec, pages[..i + 1]);
      }
    }
  }

  lemma PagesOnly(table: seq<ListRow>, q: Query, limit: Option<int>, codec: Codec, pages: seq<Response>)
    requires Followed(table, q, limit, codec, pages)
    ensures forall j :: 0 <= j < |pages| ==> pages[j].Page?
  {
    hide Responded;
  }

  lemma FollowedPrefix(table: seq<ListRow>, q: Query, limit: Option<int>, codec: Codec, pages: seq<Response>, k: nat)
    requires Followed(table, q, limit, codec, pages) && 0 < k <= |pages|
    ensures Followed(table, q, limit, codec, pages[..k])
  {
    hide Responded;
  }

  /** What is refused: an unknown trust mode, order or signature word; every other word is answered with a page. */
  lemma RefusedExactly(p: Params, trusted: map<string, bool>)
    ensures QueryOf(p, trusted).None? <==>
      || Asked(p.trustMode, "any") !in {"any", "trusted_only", "include_untrusted"}
      || Asked(p.sort, "most_recent") != "most_recent"
      || exists word :: QueryLists.Given(p.signatures, word) && !SignatureWord(word)
  {
    hide TrimSpace, QueryLists.ListOf, QueryLists.Given, BadgesOf;
    var raw := QueryLists.ListOf(p.signatures);
    QueryLists.ListExactly(p.signatures);
    BadgesKnown(raw);
  }

  predicate SignatureWord(word: string) {
    word == "verified" || word == "invalid" || word == "unknown"
  }

  lemma {:induction false} BadgesKnown(raw: seq<string>)
    ensures BadgesOf(raw).Some? <==> forall word :: word in raw ==> SignatureWord(word)
  {
    if raw != [] {
      var before, last := raw[..|raw| - 1], raw[|raw| - 1];
      BadgesKnown(before);
      assert raw == before + [last];
      assert BadgeOf(last).Some? <==> SignatureWord(last);
      hide BadgeOf, SignatureWord;
    }
  }

  lemma EligibleIsVisible(table: seq<ListRow>, p: Params, trusted: map<string, bool>, r: ListRow)
    requires Eligible(table, p, trusted, r)
    ensures !r.status.Canceled?
  {
    hide SignatureAsked, CompanyAsked, TrustAsked, Signed;
  }

  lemma QueryTrusts(p: Params, trusted: map<string, bool>)
    requires QueryOf(p, trusted).Some?
    ensures QueryOf(p, trusted).value.trusted == trusted
  {
    hide TrustModeOf, SortAccepted, SignaturesOf, QueryLists.ListOf;
  }

  /** A limit out of range is refused when it is asked for, and counts as 25 further down; so does a cursor nobody handed out. */
  lemma LimitsExactly(table: seq<ListRow>, q: Query, limit: Option<int>, cursor: string, codec: Codec, requested: int)
    ensures Responded(table, q, limit, cursor, codec) == BadRequest <==>
      || (limit.Some? && (limit.value < 1 || limit.value > 100))
      || (TrimSpace(cursor) != "" && codec.decode(TrimSpace(cursor)) == None)
    ensures EffectiveLimit(requested) == if 1 <= requested <= 100 then requested else 25
  {
    hide TrimSpace, Fetch;
  }
}
