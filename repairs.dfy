/** The public repair routes of repairs.py: the filtered listing, creating a
    request from JSON, submitting a quote, accepting a quote, and the
    caller's own requests and quotes. Each handler returns the HTTP status it
    answers with; on any status other than success the tables are unchanged. */
module Repairs {
  import opened Common
  import opened Models
  import opened Database

  // ---------------------------------------------------------------------
  // GET /requests
  // ---------------------------------------------------------------------

  /** The query-string parameters; `None` is a parameter that is absent. */
  datatype RequestFilters = RequestFilters(
    category: Option<string>, city: Option<string>, status: Option<string>, search: Option<string>)

  /** The conjunction of the active filters: category exact unless empty or
      `all`; city a case-insensitive substring; status `open` by default and
      no filter for `all`; search a case-insensitive substring of title or
      description. */
  predicate MatchesFilters(f: RequestFilters, r: RepairRequest) {
    && (!Truthy(f.category) || f.category.value == "all" || r.category == f.category.value)
    && (!Truthy(f.city) || ILike(r.city, f.city.value))
    && (var st := f.status.GetOr(OPEN); st == "all" || r.status == st)
    && (!Truthy(f.search) || ILike(r.title, f.search.value) || ILike(r.description, f.search.value))
  }

  /** The body of the listing: the rows (each emitted through `RequestToDict`)
      and `total`. */
  datatype Listing = Listing(requests: seq<RepairRequest>, total: nat)

  /** `get_repair_requests`: exactly the requests matching every active
      filter, each once per occurrence, newest first, with `total` their number. */
  function ListRequests(requests: seq<RepairRequest>, f: RequestFilters): (r: Listing)
    ensures r.total == |r.requests|
    ensures NewestFirst(r.requests, RequestCreated)
    ensures forall x :: multiset(r.requests)[x] == if MatchesFilters(f, x) then multiset(requests)[x] else 0
  {
    var rows := Query(requests, (x: RepairRequest) => MatchesFilters(f, x), RequestCreated);
    Listing(rows, |rows|)
  }

  /** Without a status parameter only open requests are listed, and a
      category or status filter admits only rows equal to it. */
  lemma ListingFilters(requests: seq<RepairRequest>, f: RequestFilters)
    ensures f.status.None? ==> forall x :: x in ListRequests(requests, f).requests ==> x.status == OPEN
    ensures f.status.Some? && f.status.value != "all" ==>
      forall x :: x in ListRequests(requests, f).requests ==> x.status == f.status.value
    ensures Truthy(f.category) && f.category.value != "all" ==>
      forall x :: x in ListRequests(requests, f).requests ==> x.category == f.category.value
  {
    var rows := ListRequests(requests, f).requests;
    assert forall x :: x in rows ==> multiset(rows)[x] > 0;
  }

  /** With status `all` and no other filter the listing is every request. */
  lemma ListAllIsEveryRequest(requests: seq<RepairRequest>)
    ensures multiset(ListRequests(requests, RequestFilters(None, None, Some("all"), None)).requests) == multiset(requests)
  {
    var rows := ListRequests(requests, RequestFilters(None, None, Some("all"), None)).requests;
    assert forall x :: multiset(rows)[x] == multiset(requests)[x];
  }

  // ---------------------------------------------------------------------
  // POST /requests (JSON body)
  // ---------------------------------------------------------------------

  /** The JSON body; `None` is an absent key. */
  datatype RequestInput = RequestInput(
    title: Option<string>, description: Option<string>, category: Option<string>, city: Option<string>,
    subcategory: Option<string>, address: Option<string>,
    budgetMin: Option<int>, budgetMax: Option<int>, visibility: Option<string>)

  /** The first of title, description, category, city (in that order) that is
      absent or empty. */
  function MissingField(input: RequestInput): (r: Option<string>)
    ensures r.None? <==> Truthy(input.title) && Truthy(input.description) && Truthy(input.category) && Truthy(input.city)
    ensures r == Some("title") <==> !Truthy(input.title)
    ensures r == Some("description") <==> Truthy(input.title) && !Truthy(input.description)
    ensures r == Some("category") <==> Truthy(input.title) && Truthy(input.description) && !Truthy(input.category)
    ensures r == Some("city") <==>
      Truthy(input.title) && Truthy(input.description) && Truthy(input.category) && !Truthy(input.city)
  {
    if !Truthy(input.title) then Some("title")
    else if !Truthy(input.description) then Some("description")
    else if !Truthy(input.category) then Some("category")
    else if !Truthy(input.city) then Some("city")
    else None
  }

  /** The row `create_repair_request` inserts: owned by the session user,
      status open, visibility as given or public. */
  function RequestFromInput(id: int, input: RequestInput, clientId: int, now: int): (r: RepairRequest)
    requires MissingField(input).None?
    ensures r.id == id && r.clientId == clientId && r.status == OPEN && r.acceptedQuoteId.None?
    ensures r.visibility == input.visibility.GetOr(PUBLIC)
    ensures r.title == input.title.value && r.description == input.description.value
    ensures r.category == input.category.value && r.city == input.city.value
    ensures r.subcategory == input.subcategory && r.address == input.address
    ensures r.budgetMin == input.budgetMin && r.budgetMax == input.budgetMax
    ensures r.createdAt == now && r.updatedAt == now
  {
    NewRequest(id, input.title.value, input.description.value, input.category.value, input.city.value, clientId, now)
      .(subcategory := input.subcategory, address := input.address,
        budgetMin := input.budgetMin, budgetMax := input.budgetMax,
        visibility := input.visibility.GetOr(PUBLIC))
  }

  /** `create_repair_request`: 401 without a session user, 400 on the first
      missing field, otherwise 201 with the new row appended. */
  method CreateRepairRequest(store: Store, session: Session, input: RequestInput, now: int) returns (code: int)
    requires store.Valid()
    modifies store`requests, store`nextRequestId
    ensures store.Valid()
    ensures code == (if session.userId.None? then 401 else if MissingField(input).Some? then 400 else 201)
    ensures code != 201 ==> store.requests == old(store.requests) && store.nextRequestId == old(store.nextRequestId)
    ensures code == 201 ==>
      && store.requests == old(store.requests) + [RequestFromInput(old(store.nextRequestId), input, session.userId.value, now)]
      && store.nextRequestId == old(store.nextRequestId) + 1
  {
    if session.userId.None? {
      return 401;
    }
    if MissingField(input).Some? {
      return 400;
    }
    var r := RequestFromInput(store.nextRequestId, input, session.userId.value, now);
    AppendRequestKeepsTables(store.users, store.requests, store.quotes, store.nextUserId, store.nextRequestId, store.nextQuoteId, r);
    store.requests := store.requests + [r];
    store.nextRequestId := store.nextRequestId + 1;
    code := 201;
  }

  // ---------------------------------------------------------------------
  // GET /requests/<id>
  // ---------------------------------------------------------------------

  /** `get_repair_request`: 200 with the request's projection, or 404 when no
      request has that id (this handler answers its not-found error with 404
      itself). */
  function GetRepairRequest(requests: seq<RepairRequest>, users: seq<User>, quotes: seq<Quote>, rid: int)
    : (r: (int, Option<map<string, Json>>))
    ensures r.0 == 404 <==> forall k :: 0 <= k < |requests| ==> requests[k].id != rid
    ensures r.0 == 404 ==> r.1.None?
    ensures r.0 != 404 ==>
      && r.0 == 200 && FindRequest(requests, rid).Some?
      && r.1 == Some(RequestToDict(requests[FindRequest(requests, rid).value], users, quotes))
  {
    match FindRequest(requests, rid)
    case None => (404, None)
    case Some(k) => (200, Some(RequestToDict(requests[k], users, quotes)))
  }

  // ---------------------------------------------------------------------
  // POST /requests/<id>/quotes
  // ---------------------------------------------------------------------

  /** A JSON number as written, `digits · 10^-scale` (45.50 is Decimal(4550, 2)). */
  datatype Decimal = Decimal(digits: int, scale: nat)

  /** The scale factor of `n` decimals: at least one, a multiple of ten exactly when there are decimals, and growing with `n`. */
  function Pow10(n: nat): (p: nat)
    ensures p >= 1
    ensures p % 10 == 0 <==> n > 0
    ensures p > n
  {
    if n == 0 then 1 else 10 * Pow10(n - 1)
  }

  /** Integer division rounding toward zero, as Python's `int()` of a quotient. */
  function TruncDiv(n: int, p: nat): (q: int)
    requires p >= 1
    ensures n >= 0 ==> q >= 0
    ensures n <= 0 ==> q <= 0
    ensures -(p as int) < n < p ==> q == 0
  {
    if n >= 0 then DivBounds(n, p); n / p else DivBounds(-n, p); -((-n) / p)
  }

  /** Truncating division never overshoots and falls short by less than `p`,
      on either side of zero. */
  lemma TruncDivBounds(n: int, p: nat)
    requires p >= 1
    ensures n >= 0 ==> 0 <= TruncDiv(n, p) && TruncDiv(n, p) * p <= n < TruncDiv(n, p) * p + p
    ensures n < 0 ==> TruncDiv(n, p) <= 0 && -TruncDiv(n, p) * p <= -n < -TruncDiv(n, p) * p + p
  {
    if n >= 0 {
      DivBounds(n, p);
    } else {
      DivBounds(-n, p);
      assert -TruncDiv(n, p) == (-n) / p;
    }
  }

  lemma DivBounds(n: nat, p: nat)
    requires p >= 1
    ensures 0 <= n / p && (n / p) * p <= n < (n / p) * p + p
  {
  }

  /** `int(price * 100)`: the price in cents, truncated toward zero, so the
      sign is kept and a fraction of a cent becomes zero. */
  function ToCents(d: Decimal): (c: int)
    ensures d.digits >= 0 ==> c >= 0
    ensures d.digits <= 0 ==> c <= 0
    ensures -(Pow10(d.scale) as int) < d.digits * 100 < Pow10(d.scale) ==> c == 0
  {
    TruncDiv(d.digits * 100, Pow10(d.scale))
  }

  /** The conversion truncates toward zero: the cents never exceed the price
      in magnitude and fall short of it by less than one cent. */
  lemma ToCentsTruncates(d: Decimal)
    ensures var c, p := ToCents(d), Pow10(d.scale);
      d.digits >= 0 ==> 0 <= c && c * p <= d.digits * 100 < c * p + p
    ensures var c, p := ToCents(d), Pow10(d.scale);
      d.digits < 0 ==> c <= 0 && -c * p <= -d.digits * 100 < -c * p + p
  {
    TruncDivBounds(d.digits * 100, Pow10(d.scale));
  }

  /** With at most two decimals nothing is lost: 45.50 becomes 4550 cents and
      dividing by 100 gives back 45.50. */
  lemma {:induction false} ToCentsExact(d: Decimal)
    requires d.scale <= 2
    ensures ToCents(d) * Pow10(d.scale) == d.digits * 100
  {
    var p := Pow10(d.scale);
    assert p == 1 || p == 10 || p == 100 by {
      if d.scale == 1 { assert Pow10(1) == 10 * Pow10(0); }
      else if d.scale == 2 { assert Pow10(2) == 10 * Pow10(1); assert Pow10(1) == 10 * Pow10(0); }
    }
    var n := d.digits * 100;
    assert n == (n / p) * p && -n == ((-n) / p) * p by {
      if p == 10 { assert n == (d.digits * 10) * 10; }
      else if p == 100 { assert n == d.digits * 100; }
    }
  }

  /** The JSON body of a quote; `None` is an absent key. */
  datatype QuoteInput = QuoteInput(
    price: Option<Decimal>, estimatedDuration: Option<string>,
    conditions: Option<string>, locationType: Option<string>)

  /** `data.get('price')` is truthy: present and not zero. */
  predicate PriceGiven(input: QuoteInput) {
    input.price.Some? && input.price.value.digits != 0
  }

  predicate MayQuote(u: User) {
    u.role == REPAIRER || u.role == ADMIN
  }

  /** The status `create_quote` answers with, in the order it checks: 401
      without a session, 500 when the session user or the request does not
      exist, 403 for a role other than repairer or admin, 400 when the request
      is not open, 400 without a truthy price and duration, otherwise 201. */
  function QuoteDecision(users: seq<User>, requests: seq<RepairRequest>, uid: Option<int>, rid: int, input: QuoteInput): (code: int)
    ensures code == 401 <==> uid.None?
    ensures code == 403 <==>
      uid.Some? && FindUser(users, uid.value).Some? && !MayQuote(users[FindUser(users, uid.value).value])
    ensures code == 201 <==>
      && uid.Some? && FindUser(users, uid.value).Some? && MayQuote(users[FindUser(users, uid.value).value])
      && FindRequest(requests, rid).Some? && requests[FindRequest(requests, rid).value].status == OPEN
      && PriceGiven(input) && Truthy(input.estimatedDuration)
    ensures code == 500 <==>
      uid.Some? && (FindUser(users, uid.value).None?
                    || (MayQuote(users[FindUser(users, uid.value).value]) && FindRequest(requests, rid).None?))
    ensures code == 400 <==>
      && uid.Some? && FindUser(users, uid.value).Some? && MayQuote(users[FindUser(users, uid.value).value])
      && FindRequest(requests, rid).Some?
      && (requests[FindRequest(requests, rid).value].status != OPEN || !PriceGiven(input) || !Truthy(input.estimatedDuration))
    ensures code == 401 || code == 403 || code == 500 || code == 400 || code == 201
  {
    if uid.None? then 401
    else match FindUser(users, uid.value)
      case None => 500
      case Some(u) =>
        if !MayQuote(users[u]) then 403
        else match FindRequest(requests, rid)
          case None => 500
          case Some(k) =>
            if requests[k].status != OPEN then 400
            else if !PriceGiven(input) || !Truthy(input.estimatedDuration) then 400
            else 201
  }

  /** The quote `create_quote` inserts: pending, price in cents, conditions
      `''` and location `domicile` unless given. */
  function QuoteFromInput(id: int, rid: int, repairerId: int, input: QuoteInput, now: int): (q: Quote)
    requires PriceGiven(input) && Truthy(input.estimatedDuration)
    ensures q.id == id && q.requestId == rid && q.repairerId == repairerId && q.status == PENDING
    ensures q.price == ToCents(input.price.value)
    ensures q.estimatedDuration == input.estimatedDuration
    ensures q.conditions == Some(input.conditions.GetOr(""))
    ensures q.locationType == input.locationType.GetOr(DOMICILE)
    ensures q.createdAt == now
  {
    NewQuote(id, rid, repairerId, ToCents(input.price.value), now)
      .(estimatedDuration := input.estimatedDuration,
        conditions := Some(input.conditions.GetOr("")),
        locationType := input.locationType.GetOr(DOMICILE))
  }

  /** The request table after a successful quote on request `rid`: the
      request moves to `quoted` and `updated_at` is refreshed. */
  function AfterQuote(requests: seq<RepairRequest>, rid: int, now: int): (rs: seq<RepairRequest>)
    requires FindRequest(requests, rid).Some?
    ensures |rs| == |requests|
    ensures var k := FindRequest(requests, rid).value;
      rs[k].status == QUOTED && rs[k].updatedAt == now && rs[k].id == rid
      && forall m :: 0 <= m < |requests| && m != k ==> rs[m] == requests[m]
    ensures var k := FindRequest(requests, rid).value;
      rs[k].(status := requests[k].status, updatedAt := requests[k].updatedAt) == requests[k]
  {
    var k := FindRequest(requests, rid).value;
    requests[k := requests[k].(status := QUOTED, updatedAt := now)]
  }

  /** Rewriting the row a lookup found, without changing its id, leaves the
      lookup where it was. */
  lemma {:induction false} FindRequestAfterUpdate(requests: seq<RepairRequest>, rid: int, r: RepairRequest)
    requires FindRequest(requests, rid).Some?
    requires r.id == rid
    ensures FindRequest(requests[FindRequest(requests, rid).value := r], rid) == FindRequest(requests, rid)
  {
    var k := FindRequest(requests, rid).value;
    assert requests[k := r][k].id == rid;
  }

  /** The quirk of checking `open` before moving to `quoted`: once a quote
      has been submitted for a request, every later quote on it is refused,
      with 400 for any repairer or admin. */
  lemma {:induction false} SecondQuoteRefused(users: seq<User>, requests: seq<RepairRequest>, uid: Option<int>, rid: int,
                            input: QuoteInput, now: int, uid2: Option<int>, input2: QuoteInput)
    requires QuoteDecision(users, requests, uid, rid, input) == 201
    ensures QuoteDecision(users, AfterQuote(requests, rid, now), uid2, rid, input2) != 201
    ensures uid2.Some? && FindUser(users, uid2.value).Some? && MayQuote(users[FindUser(users, uid2.value).value]) ==>
      QuoteDecision(users, AfterQuote(requests, rid, now), uid2, rid, input2) == 400
  {
    var k := FindRequest(requests, rid).value;
    FindRequestAfterUpdate(requests, rid, requests[k].(status := QUOTED, updatedAt := now));
  }

  /** `create_quote`. On 201 the pending quote is appended and the request
      moves `open` to `quoted`; on any other status nothing changes. */
  method CreateQuote(store: Store, session: Session, rid: int, input: QuoteInput, now: int) returns (code: int)
    requires store.Valid()
    modifies store`quotes, store`requests, store`nextQuoteId
    ensures store.Valid()
    ensures code == QuoteDecision(old(store.users), old(store.requests), session.userId, rid, input)
    ensures code != 201 ==>
      store.quotes == old(store.quotes) && store.requests == old(store.requests) && store.nextQuoteId == old(store.nextQuoteId)
    ensures code == 201 ==>
      && store.quotes == old(store.quotes) + [QuoteFromInput(old(store.nextQuoteId), rid, session.userId.value, input, now)]
      && store.requests == AfterQuote(old(store.requests), rid, now)
      && store.nextQuoteId == old(store.nextQuoteId) + 1
  {
    code := QuoteDecision(store.users, store.requests, session.userId, rid, input);
    if code != 201 {
      return;
    }
    var q := QuoteFromInput(store.nextQuoteId, rid, session.userId.value, input, now);
    AppendQuoteKeeps(store.requests, store.quotes, q);
    var k := FindRequest(store.requests, rid).value;
    UpdateRequestKeepsLinks(store.requests, store.quotes + [q], k, store.requests[k].(status := QUOTED, updatedAt := now));
    store.quotes := store.quotes + [q];
    store.requests := AfterQuote(store.requests, rid, now);
    store.nextQuoteId := store.nextQuoteId + 1;
  }

  // ---------------------------------------------------------------------
  // POST /quotes/<id>/accept
  // ---------------------------------------------------------------------

  /** The status `accept_quote` answers with: 401 without a session, 500 when
      the quote or its request does not exist, 403 unless the session user is
      the request's client, otherwise 200. */
  function AcceptDecision(requests: seq<RepairRequest>, quotes: seq<Quote>, uid: Option<int>, qid: int): (code: int)
    ensures code == 401 <==> uid.None?
    ensures code == 200 <==>
      && uid.Some? && FindQuote(quotes, qid).Some?
      && FindRequest(requests, quotes[FindQuote(quotes, qid).value].requestId).Some?
      && requests[FindRequest(requests, quotes[FindQuote(quotes, qid).value].requestId).value].clientId == uid.value
    ensures code == 403 <==>
      && uid.Some? && FindQuote(quotes, qid).Some?
      && FindRequest(requests, quotes[FindQuote(quotes, qid).value].requestId).Some?
      && requests[FindRequest(requests, quotes[FindQuote(quotes, qid).value].requestId).value].clientId != uid.value
    ensures code == 500 <==>
      uid.Some? && (FindQuote(quotes, qid).None? || FindRequest(requests, quotes[FindQuote(quotes, qid).value].requestId).None?)
    ensures code == 401 || code == 500 || code == 403 || code == 200
  {
    if uid.None? then 401
    else match FindQuote(quotes, qid)
      case None => 500
      case Some(j) =>
        match FindRequest(requests, quotes[j].requestId)
        case None => 500
        case Some(k) => if requests[k].clientId != uid.value then 403 else 200
  }

  /** One quote after accepting `qid` on request `rid`. */
  function Reassessed(q: Quote, rid: int, qid: int): Quote {
    if q.id == qid then q.(status := ACCEPTED)
    else if q.requestId == rid then q.(status := REJECTED)
    else q
  }

  /** The quote table after accepting `qid`, a quote of request `rid`. */
  function Swept(quotes: seq<Quote>, rid: int, qid: int): (r: seq<Quote>)
    ensures |r| == |quotes|
    ensures forall i :: 0 <= i < |quotes| ==> r[i] == Reassessed(quotes[i], rid, qid)
  {
    seq(|quotes|, i requires 0 <= i < |quotes| => Reassessed(quotes[i], rid, qid))
  }

  /** The positions of the accepted quotes of request `rid`. */
  ghost function AcceptedOf(quotes: seq<Quote>, rid: int): set<nat> {
    set i: nat | i < |quotes| && quotes[i].requestId == rid && quotes[i].status == ACCEPTED
  }

  /** After the sweep the target is the one accepted quote of its request,
      every sibling is rejected, and quotes of other requests are untouched. */
  lemma {:induction false} SweepLeavesOneAccepted(quotes: seq<Quote>, rid: int, qid: int, j: nat)
    requires UniqueQuoteIds(quotes)
    requires j < |quotes| && quotes[j].id == qid && quotes[j].requestId == rid
    ensures AcceptedOf(Swept(quotes, rid, qid), rid) == {j}
    ensures forall i :: 0 <= i < |quotes| && i != j && quotes[i].requestId == rid ==> Swept(quotes, rid, qid)[i].status == REJECTED
    ensures forall i :: 0 <= i < |quotes| && quotes[i].requestId != rid ==> Swept(quotes, rid, qid)[i] == quotes[i]
  {
    var r := Swept(quotes, rid, qid);
    forall i | 0 <= i < |quotes| && i != j
      ensures quotes[i].id != qid
    {
      if i < j { assert quotes[i].id != quotes[j].id; } else { assert quotes[j].id != quotes[i].id; }
    }
    assert r[j].status == ACCEPTED;
  }

  /** `accept_quote` has no status guard: accepting a second quote of the
      same request moves the acceptance to it and rejects the first. */
  lemma {:induction false} AcceptanceMoves(quotes: seq<Quote>, rid: int, q1: int, q2: int, j1: nat, j2: nat)
    requires UniqueQuoteIds(quotes)
    requires j1 < |quotes| && quotes[j1].id == q1 && quotes[j1].requestId == rid
    requires j2 < |quotes| && quotes[j2].id == q2 && quotes[j2].requestId == rid
    requires j1 != j2
    ensures Swept(Swept(quotes, rid, q1), rid, q2)[j1].status == REJECTED
    ensures AcceptedOf(Swept(Swept(quotes, rid, q1), rid, q2), rid) == {j2}
  {
    var once := Swept(quotes, rid, q1);
    assert UniqueQuoteIds(once) by {
      forall a, b | 0 <= a < b < |once| ensures once[a].id != once[b].id {
        assert once[a].id == quotes[a].id && once[b].id == quotes[b].id;
      }
    }
    if j1 < j2 { assert quotes[j1].id != quotes[j2].id; } else { assert quotes[j2].id != quotes[j1].id; }
    SweepLeavesOneAccepted(once, rid, q2, j2);
  }

  /** The sweep, together with recording the quote on its request, keeps the
      table constraints: at most one accepted quote per request, and every
      `accepted_quote_id` names an accepted quote of its request. */
  lemma {:induction false} SweepKeepsTables(users: seq<User>, requests: seq<RepairRequest>, quotes: seq<Quote>,
                          nu: int, nr: int, nq: int, qid: int, j: nat, k: nat, now: int)
    requires TablesOk(users, requests, quotes, nu, nr, nq)
    requires j < |quotes| && quotes[j].id == qid
    requires k < |requests| && requests[k].id == quotes[j].requestId
    ensures var rid := quotes[j].requestId;
      TablesOk(users, requests[k := requests[k].(status := ACCEPTED, acceptedQuoteId := Some(qid), updatedAt := now)],
               Swept(quotes, rid, qid), nu, nr, nq)
  {
    var rid := quotes[j].requestId;
    var qs := Swept(quotes, rid, qid);
    var rs := requests[k := requests[k].(status := ACCEPTED, acceptedQuoteId := Some(qid), updatedAt := now)];
    SweepLeavesOneAccepted(quotes, rid, qid, j);
    assert UniqueQuoteIds(qs) by {
      forall a, b | 0 <= a < b < |qs| ensures qs[a].id != qs[b].id {
        assert qs[a].id == quotes[a].id && qs[b].id == quotes[b].id;
      }
    }
    assert UniqueRequestIds(rs) by {
      forall a, b | 0 <= a < b < |rs| ensures rs[a].id != rs[b].id {
        assert rs[a].id == requests[a].id && rs[b].id == requests[b].id;
      }
    }
    assert AtMostOneAccepted(qs) by {
      forall a, b | 0 <= a < b < |qs| && qs[a].requestId == qs[b].requestId
        ensures !(qs[a].status == ACCEPTED && qs[b].status == ACCEPTED)
      {
        if qs[a].requestId == rid {
          assert a !in AcceptedOf(qs, rid) || b !in AcceptedOf(qs, rid);
        } else {
          assert qs[a] == quotes[a] && qs[b] == quotes[b];
        }
      }
    }
    assert AcceptedLinks(rs, qs) by {
      forall m | 0 <= m < |rs| && rs[m].acceptedQuoteId.Some?
        ensures AcceptedQuoteOf(qs, rs[m].acceptedQuoteId.value, rs[m].id)
      {
        if m == k {
          assert qs[j].id == qid && qs[j].requestId == rid && qs[j].status == ACCEPTED;
        } else {
          assert rs[m] == requests[m];
          assert requests[m].id != rid by {
            if m < k { assert requests[m].id != requests[k].id; } else { assert requests[k].id != requests[m].id; }
          }
          var w :| 0 <= w < |quotes| && quotes[w].id == requests[m].acceptedQuoteId.value
                   && quotes[w].requestId == requests[m].id && quotes[w].status == ACCEPTED;
          assert qs[w] == quotes[w];
        }
      }
    }
  }

  /** `accept_quote`. On 200 the quote is accepted, its request records it and
      becomes `accepted`, and every other quote of that request is rejected;
      on any other status nothing changes. */
  method AcceptQuote(store: Store, session: Session, qid: int, now: int) returns (code: int)
    requires store.Valid()
    modifies store`quotes, store`requests
    ensures store.Valid()
    ensures code == AcceptDecision(old(store.requests), old(store.quotes), session.userId, qid)
    ensures code != 200 ==> store.quotes == old(store.quotes) && store.requests == old(store.requests)
    ensures code == 200 ==>
      var j := FindQuote(old(store.quotes), qid).value;
      var rid := old(store.quotes)[j].requestId;
      var k := FindRequest(old(store.requests), rid).value;
      && store.quotes == Swept(old(store.quotes), rid, qid)
      && store.requests == old(store.requests)[k := old(store.requests)[k].(status := ACCEPTED, acceptedQuoteId := Some(qid), updatedAt := now)]
  {
    code := AcceptDecision(store.requests, store.quotes, session.userId, qid);
    if code != 200 {
      return;
    }
    var j := FindQuote(store.quotes, qid).value;
    var rid := store.quotes[j].requestId;
    var k := FindRequest(store.requests, rid).value;
    SweepKeepsTables(store.users, store.requests, store.quotes, store.nextUserId, store.nextRequestId,
                     store.nextQuoteId, qid, j, k, now);

    var qs := store.quotes;
    qs := qs[j := qs[j].(status := ACCEPTED)];
    var i := 0;
    while i < |qs|
      invariant |qs| == |store.quotes|
      invariant 0 <= i <= |qs|
      invariant forall m :: 0 <= m < i ==> qs[m] == Reassessed(store.quotes[m], rid, qid)
      invariant forall m :: i <= m < |qs| ==>
        qs[m] == if m == j then store.quotes[m].(status := ACCEPTED) else store.quotes[m]
    {
      if qs[i].requestId == rid && qs[i].id != qid {
        qs := qs[i := qs[i].(status := REJECTED)];
      }
      i := i + 1;
    }
    store.requests := store.requests[k := store.requests[k].(status := ACCEPTED, acceptedQuoteId := Some(qid), updatedAt := now)];
    store.quotes := qs;
  }

  // ---------------------------------------------------------------------
  // GET /my-requests and GET /my-quotes
  // ---------------------------------------------------------------------

  /** A read-only answer: a refusal status, or the rows. */
  datatype Rows<T> = Denied(code: int) | Found(rows: seq<T>)

  /** `get_my_requests`: 401 without a session, otherwise exactly the
      requests whose client is the session user, newest first. */
  function MyRequests(requests: seq<RepairRequest>, uid: Option<int>): (r: Rows<RepairRequest>)
    ensures uid.None? <==> r == Denied(401)
    ensures r.Found? ==> NewestFirst(r.rows, RequestCreated)
    ensures r.Found? ==> forall x :: multiset(r.rows)[x] == if x.clientId == uid.value then multiset(requests)[x] else 0
  {
    if uid.None? then Denied(401)
    else Found(Query(requests, (x: RepairRequest) => x.clientId == uid.value, RequestCreated))
  }

  /** `get_my_quotes`: 401 without a session, otherwise exactly the quotes
      whose repairer is the session user, newest first. */
  function MyQuotes(quotes: seq<Quote>, uid: Option<int>): (r: Rows<Quote>)
    ensures uid.None? <==> r == Denied(401)
    ensures r.Found? ==> NewestFirst(r.rows, QuoteCreated)
    ensures r.Found? ==> forall x :: multiset(r.rows)[x] == if x.repairerId == uid.value then multiset(quotes)[x] else 0
  {
    if uid.None? then Denied(401)
    else Found(Query(quotes, (x: Quote) => x.repairerId == uid.value, QuoteCreated))
  }
}
