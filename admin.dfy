/** The administration routes of src/routes/admin.py: the admin gate, the
    dashboard counts, the filtered listings, the two status overrides and the
    token-protected deletion of a user by email. */
module Admin {
  import opened Common
  import opened Models
  import opened Database
  import opened Repairs

  /** `require_admin`: 401 without a session user id, 403 when that user does
      not exist or is not an admin. */
  function RequireAdmin(users: seq<User>, uid: Option<int>): (g: Gate)
    ensures g == Refused(401) <==> uid.None?
    ensures g == Refused(403) <==>
      uid.Some? && (FindUser(users, uid.value).None? || users[FindUser(users, uid.value).value].role != ADMIN)
    ensures g.Admitted? ==> g.index < |users| && users[g.index].id == uid.value && users[g.index].role == ADMIN
    ensures g.Refused? ==> g.code == 401 || g.code == 403
  {
    if uid.None? then Refused(401)
    else match FindUser(users, uid.value)
      case None => Refused(403)
      case Some(i) => if users[i].role != ADMIN then Refused(403) else Admitted(i)
  }

  // ---------------------------------------------------------------------
  // GET /dashboard
  // ---------------------------------------------------------------------

  /** The statuses and roles the dashboard breaks the counts down by; `draft`
      and `rated` are not among the statuses. */
  const DASHBOARD_STATUSES: seq<string> := [OPEN, QUOTED, ACCEPTED, IN_PROGRESS, DONE, CLOSED]
  const DASHBOARD_ROLES: seq<string> := [CLIENT, REPAIRER, ADMIN]
  /** Seven days, in seconds. */
  const WEEK := 7 * 24 * 60 * 60

  /** A request in status `s`. */
  function HasStatus(s: string): RepairRequest -> bool {
    (r: RepairRequest) => r.status == s
  }

  /** A user with role `role`. */
  function HasRole(role: string): User -> bool {
    (u: User) => u.role == role
  }

  /** A request whose status is one the dashboard lists. */
  predicate Listed(r: RepairRequest) {
    r.status in DASHBOARD_STATUSES
  }

  /** `RepairRequest.query.filter_by(status=s).count()`. */
  function StatusCount(requests: seq<RepairRequest>, s: string): (n: nat)
    ensures n == |Filter(requests, HasStatus(s))|
    ensures n == 0 <==> forall k :: 0 <= k < |requests| ==> requests[k].status != s
  {
    Count(requests, HasStatus(s))
  }

  /** `User.query.filter_by(role=role).count()`. */
  function RoleCount(users: seq<User>, role: string): (n: nat)
    ensures n == |Filter(users, HasRole(role))|
    ensures n == 0 <==> forall k :: 0 <= k < |users| ==> users[k].role != role
  {
    Count(users, HasRole(role))
  }

  /** The requests whose status is one the dashboard lists. */
  function ListedCount(requests: seq<RepairRequest>): (n: nat)
    ensures n == |Filter(requests, Listed)|
    ensures n <= |requests|
  {
    Count(requests, Listed)
  }

  /** The per-status counts add up to the requests with a listed status, and
      those exclude the `rated` and `draft` ones, so the breakdown can fall
      short of `total_requests`. */
  lemma {:induction false} ByStatusSum(requests: seq<RepairRequest>)
    ensures StatusCount(requests, OPEN) + StatusCount(requests, QUOTED) + StatusCount(requests, ACCEPTED)
      + StatusCount(requests, IN_PROGRESS) + StatusCount(requests, DONE) + StatusCount(requests, CLOSED)
      == ListedCount(requests)
    ensures ListedCount(requests) + StatusCount(requests, RATED) + StatusCount(requests, DRAFT) <= |requests|
  {
    if |requests| > 0 {
      ByStatusSum(requests[1..]);
      StatusCountStep(requests, OPEN);
      StatusCountStep(requests, QUOTED);
      StatusCountStep(requests, ACCEPTED);
      StatusCountStep(requests, IN_PROGRESS);
      StatusCountStep(requests, DONE);
      StatusCountStep(requests, CLOSED);
      StatusCountStep(requests, RATED);
      StatusCountStep(requests, DRAFT);
      ListedCountStep(requests);
      StatusIndicators(requests[0].status);
    }
  }

  function Ind(b: bool): nat {
    if b then 1 else 0
  }

  /** One status is one of the six listed ones at most once, and never also
      `rated` or `draft`. */
  lemma StatusIndicators(h: string)
    ensures Ind(h == OPEN) + Ind(h == QUOTED) + Ind(h == ACCEPTED) + Ind(h == IN_PROGRESS) + Ind(h == DONE)
      + Ind(h == CLOSED) == Ind(h in DASHBOARD_STATUSES)
    ensures Ind(h in DASHBOARD_STATUSES) + Ind(h == RATED) + Ind(h == DRAFT) <= 1
  {
  }

  lemma StatusCountStep(requests: seq<RepairRequest>, s: string)
    requires |requests| > 0
    ensures StatusCount(requests, s) == Ind(requests[0].status == s) + StatusCount(requests[1..], s)
  {
    assert HasStatus(s)(requests[0]) <==> requests[0].status == s;
  }

  lemma ListedCountStep(requests: seq<RepairRequest>)
    requires |requests| > 0
    ensures ListedCount(requests) == Ind(requests[0].status in DASHBOARD_STATUSES) + ListedCount(requests[1..])
  {
  }

  /** Rows created at or after `since`. */
  function UsersSince(users: seq<User>, since: int): nat {
    Count(users, (u: User) => u.createdAt >= since)
  }

  function RequestsSince(requests: seq<RepairRequest>, since: int): nat {
    Count(requests, (r: RepairRequest) => r.createdAt >= since)
  }

  function QuotesSince(quotes: seq<Quote>, since: int): nat {
    Count(quotes, (q: Quote) => q.createdAt >= since)
  }

  datatype Stats = Stats(
    totalUsers: nat, totalRequests: nat, totalQuotes: nat,
    requestsByStatus: map<string, nat>, usersByRole: map<string, nat>,
    newUsers: nat, newRequests: nat, newQuotes: nat)

  /** The dashboard's `for key in keys: counts[key] = count(key)` loop: one
      entry per key, holding that key's count. */
  method CountPerKey(keys: seq<string>, count: string -> nat) returns (counts: map<string, nat>)
    ensures forall k :: k in counts <==> k in keys
    ensures forall k :: k in counts ==> counts[k] == count(k)
  {
    counts := map[];
    var i := 0;
    while i < |keys|
      invariant 0 <= i <= |keys|
      invariant forall k :: k in counts <==> k in keys[..i]
      invariant forall k :: k in counts ==> counts[k] == count(k)
    {
      counts := counts[keys[i] := count(keys[i])];
      assert keys[..i + 1] == keys[..i] + [keys[i]];
      i := i + 1;
    }
    assert keys[..i] == keys;
  }

  /** `get_dashboard`: after the admin gate, the table sizes, one count per
      listed status and per role, and the rows of the last seven days. */
  method Dashboard(store: Store, session: Session, now: int) returns (code: int, stats: Option<Stats>)
    ensures RequireAdmin(store.users, session.userId).Refused? ==>
      code == RequireAdmin(store.users, session.userId).code && stats.None?
    ensures RequireAdmin(store.users, session.userId).Admitted? ==> code == 200 && stats.Some?
    ensures stats.Some? ==>
      var st := stats.value;
      && st.totalUsers == |store.users| && st.totalRequests == |store.requests| && st.totalQuotes == |store.quotes|
      && (forall s :: s in st.requestsByStatus <==> s in DASHBOARD_STATUSES)
      && (forall s :: s in st.requestsByStatus ==> st.requestsByStatus[s] == StatusCount(store.requests, s))
      && (forall r :: r in st.usersByRole <==> r in DASHBOARD_ROLES)
      && (forall r :: r in st.usersByRole ==> st.usersByRole[r] == RoleCount(store.users, r))
      && st.newUsers == UsersSince(store.users, now - WEEK)
      && st.newRequests == RequestsSince(store.requests, now - WEEK)
      && st.newQuotes == QuotesSince(store.quotes, now - WEEK)
  {
    var gate := RequireAdmin(store.users, session.userId);
    if gate.Refused? {
      return gate.code, None;
    }
    var requests, users := store.requests, store.users;
    var byStatus := CountPerKey(DASHBOARD_STATUSES, s => StatusCount(requests, s));
    var byRole := CountPerKey(DASHBOARD_ROLES, r => RoleCount(users, r));
    var since := now - WEEK;
    stats := Some(Stats(|users|, |requests|, |store.quotes|, byStatus, byRole,
                        UsersSince(users, since), RequestsSince(requests, since), QuotesSince(store.quotes, since)));
    code := 200;
  }

  // ---------------------------------------------------------------------
  // GET /users, /requests, /quotes
  // ---------------------------------------------------------------------

  /** A filter given as a query parameter applies only when it is non-empty. */
  predicate Passes(filter: Option<string>, value: string) {
    !Truthy(filter) || value == filter.value
  }

  /** `get_all_users`: after the admin gate, exactly the users matching the
      role and status filters, newest first. */
  function AdminUsers(users: seq<User>, uid: Option<int>, role: Option<string>, status: Option<string>): (r: Rows<User>)
    ensures r.Denied? <==> RequireAdmin(users, uid).Refused?
    ensures r.Denied? ==> r.code == RequireAdmin(users, uid).code
    ensures r.Found? ==> NewestFirst(r.rows, UserCreated)
    ensures r.Found? ==> forall u ::
      multiset(r.rows)[u] == if Passes(role, u.role) && Passes(status, u.status) then multiset(users)[u] else 0
  {
    var gate := RequireAdmin(users, uid);
    if gate.Refused? then Denied(gate.code)
    else Found(Query(users, (u: User) => Passes(role, u.role) && Passes(status, u.status), UserCreated))
  }

  /** `get_all_requests`: after the admin gate, exactly the requests matching
      the status and category filters, newest first; unlike the public
      listing there is no default status. */
  function AdminRequests(users: seq<User>, requests: seq<RepairRequest>, uid: Option<int>,
                         status: Option<string>, category: Option<string>): (r: Rows<RepairRequest>)
    ensures r.Denied? <==> RequireAdmin(users, uid).Refused?
    ensures r.Denied? ==> r.code == RequireAdmin(users, uid).code
    ensures r.Found? ==> NewestFirst(r.rows, RequestCreated)
    ensures r.Found? ==> forall x ::
      multiset(r.rows)[x] == if Passes(status, x.status) && Passes(category, x.category) then multiset(requests)[x] else 0
  {
    var gate := RequireAdmin(users, uid);
    if gate.Refused? then Denied(gate.code)
    else Found(Query(requests, (x: RepairRequest) => Passes(status, x.status) && Passes(category, x.category), RequestCreated))
  }

  /** `get_all_quotes`: after the admin gate, exactly the quotes matching the
      status filter, newest first. */
  function AdminQuotes(users: seq<User>, quotes: seq<Quote>, uid: Option<int>, status: Option<string>): (r: Rows<Quote>)
    ensures r.Denied? <==> RequireAdmin(users, uid).Refused?
    ensures r.Denied? ==> r.code == RequireAdmin(users, uid).code
    ensures r.Found? ==> NewestFirst(r.rows, QuoteCreated)
    ensures r.Found? ==> forall q :: multiset(r.rows)[q] == if Passes(status, q.status) then multiset(quotes)[q] else 0
  {
    var gate := RequireAdmin(users, uid);
    if gate.Refused? then Denied(gate.code)
    else Found(Query(quotes, (q: Quote) => Passes(status, q.status), QuoteCreated))
  }

  /** Without filters the admin sees every user. */
  lemma AdminSeesEveryUser(users: seq<User>, uid: Option<int>)
    requires RequireAdmin(users, uid).Admitted?
    ensures multiset(AdminUsers(users, uid, None, None).rows) == multiset(users)
  {
    var rows := AdminUsers(users, uid, None, None).rows;
    assert forall u :: multiset(rows)[u] == multiset(users)[u];
  }

  // ---------------------------------------------------------------------
  // PUT /users/<id>/status
  // ---------------------------------------------------------------------

  const USER_STATUSES: seq<string> := [ACTIVE, SUSPENDED, PENDING_VERIFICATION]

  /** The status `update_user_status` answers with: the gate; 500 when the
      target user does not exist (the not-found error is caught by the
      handler's generic clause); 400 without a status or with one outside the
      three user statuses; otherwise 200. */
  function UserStatusDecision(users: seq<User>, uid: Option<int>, target: int, status: Option<string>): (code: int)
    ensures RequireAdmin(users, uid).Refused? ==> code == RequireAdmin(users, uid).code
    ensures code == 200 <==>
      RequireAdmin(users, uid).Admitted? && FindUser(users, target).Some? && status.Some? && status.value in USER_STATUSES
    ensures code == 500 <==> RequireAdmin(users, uid).Admitted? && FindUser(users, target).None?
    ensures code == 400 <==>
      && RequireAdmin(users, uid).Admitted? && FindUser(users, target).Some?
      && (status.None? || status.value !in USER_STATUSES)
    ensures code == 401 || code == 403 || code == 500 || code == 400 || code == 200
  {
    var gate := RequireAdmin(users, uid);
    if gate.Refused? then gate.code
    else if FindUser(users, target).None? then 500
    else if status.None? then 400
    else if status.value !in USER_STATUSES then 400
    else 200
  }

  /** The user after the override: the new status, and `verified_at` set to
      `now` on activation only if it was unset; an existing `verified_at` is
      kept and no other column changes. */
  function WithStatus(u: User, status: string, now: int): (v: User)
    ensures v.status == status
    ensures u.verifiedAt.Some? ==> v.verifiedAt == u.verifiedAt
    ensures u.verifiedAt.None? ==> v.verifiedAt == (if status == ACTIVE then Some(now) else None)
    ensures v.(status := u.status, verifiedAt := u.verifiedAt) == u
  {
    var v := u.(status := status);
    if status == ACTIVE && u.verifiedAt.None? then v.(verifiedAt := Some(now)) else v
  }

  /** Applying a run of overrides (status, time) one after another. */
  function ApplyStatuses(u: User, overrides: seq<(string, int)>): User
    decreases |overrides|
  {
    if |overrides| == 0 then u
    else ApplyStatuses(WithStatus(u, overrides[0].0, overrides[0].1), overrides[1..])
  }

  /** However many overrides follow, a set `verified_at` is never changed or
      cleared, and once any override activates the user it is set. */
  lemma {:induction false} VerifiedAtIsSticky(u: User, overrides: seq<(string, int)>)
    ensures u.verifiedAt.Some? ==> ApplyStatuses(u, overrides).verifiedAt == u.verifiedAt
    ensures (exists i :: 0 <= i < |overrides| && overrides[i].0 == ACTIVE) ==> ApplyStatuses(u, overrides).verifiedAt.Some?
    ensures ApplyStatuses(u, overrides).(status := u.status, verifiedAt := u.verifiedAt) == u
    decreases |overrides|
  {
    if |overrides| > 0 {
      var v := WithStatus(u, overrides[0].0, overrides[0].1);
      VerifiedAtIsSticky(v, overrides[1..]);
      if exists i :: 0 <= i < |overrides| && overrides[i].0 == ACTIVE {
        var i :| 0 <= i < |overrides| && overrides[i].0 == ACTIVE;
        if i > 0 {
          assert overrides[1..][i - 1].0 == ACTIVE;
        }
      }
    }
  }

  /** `update_user_status`. On 200 the target row is rewritten by `WithStatus`;
      on any other status nothing changes. */
  method UpdateUserStatus(store: Store, session: Session, target: int, status: Option<string>, now: int)
    returns (code: int)
    requires store.Valid()
    modifies store`users
    ensures store.Valid()
    ensures code == UserStatusDecision(old(store.users), session.userId, target, status)
    ensures code != 200 ==> store.users == old(store.users)
    ensures code == 200 ==>
      var k := FindUser(old(store.users), target).value;
      store.users == old(store.users)[k := WithStatus(old(store.users)[k], status.value, now)]
  {
    code := UserStatusDecision(store.users, session.userId, target, status);
    if code != 200 {
      return;
    }
    var k := FindUser(store.users, target).value;
    var v := WithStatus(store.users[k], status.value, now);
    ReplaceUserKeepsTables(store.users, store.requests, store.quotes, store.nextUserId, store.nextRequestId,
                           store.nextQuoteId, k, v);
    store.users := store.users[k := v];
  }

  // ---------------------------------------------------------------------
  // PUT /requests/<id>/status
  // ---------------------------------------------------------------------

  /** Every request status except `draft`. */
  const REQUEST_STATUSES: seq<string> := [OPEN, QUOTED, ACCEPTED, IN_PROGRESS, DONE, RATED, CLOSED]

  /** The status `update_request_status` answers with: the gate; 500 when the
      request does not exist; 400 without a status or with one outside the
      seven accepted values (so `draft` is refused); otherwise 200, whatever
      the current status. */
  function RequestStatusDecision(users: seq<User>, requests: seq<RepairRequest>, uid: Option<int>, rid: int,
                                 status: Option<string>): (code: int)
    ensures RequireAdmin(users, uid).Refused? ==> code == RequireAdmin(users, uid).code
    ensures code == 500 <==> RequireAdmin(users, uid).Admitted? && FindRequest(requests, rid).None?
    ensures code == 400 <==>
      && RequireAdmin(users, uid).Admitted? && FindRequest(requests, rid).Some?
      && (status.None? || status.value !in REQUEST_STATUSES)
    ensures code == 200 <==>
      RequireAdmin(users, uid).Admitted? && FindRequest(requests, rid).Some? && status.Some? && status.value in REQUEST_STATUSES
    ensures status == Some(DRAFT) ==> code != 200
    ensures code == 401 || code == 403 || code == 500 || code == 400 || code == 200
  {
    var gate := RequireAdmin(users, uid);
    if gate.Refused? then gate.code
    else if FindRequest(requests, rid).None? then 500
    else if status.None? then 400
    else if status.value !in REQUEST_STATUSES then 400
    else 200
  }

  /** `update_request_status`. On 200 the request takes the new status and
      `updated_at` is refreshed; on any other status nothing changes. */
  method UpdateRequestStatus(store: Store, session: Session, rid: int, status: Option<string>, now: int)
    returns (code: int)
    requires store.Valid()
    modifies store`requests
    ensures store.Valid()
    ensures code == RequestStatusDecision(store.users, old(store.requests), session.userId, rid, status)
    ensures code != 200 ==> store.requests == old(store.requests)
    ensures code == 200 ==>
      var k := FindRequest(old(store.requests), rid).value;
      store.requests == old(store.requests)[k := old(store.requests)[k].(status := status.value, updatedAt := now)]
  {
    code := RequestStatusDecision(store.users, store.requests, session.userId, rid, status);
    if code != 200 {
      return;
    }
    var k := FindRequest(store.requests, rid).value;
    var r := store.requests[k].(status := status.value, updatedAt := now);
    ReplaceRequestKeepsTables(store.users, store.requests, store.quotes, store.nextUserId, store.nextRequestId,
                              store.nextQuoteId, k, r);
    store.requests := store.requests[k := r];
  }

  // ---------------------------------------------------------------------
  // POST /users/delete-by-email
  // ---------------------------------------------------------------------

  /** The JSON body's `email` and `token` and the `X-Admin-Token` header;
      `None` is an absent key or header. */
  datatype DeleteInput = DeleteInput(email: Option<string>, bodyToken: Option<string>, headerToken: Option<string>)

  datatype DeleteOutcome = BadToken | EmailRequired | Absent | Deleted(index: nat) | DeleteFailed {
    function Code(): int {
      match this
      case BadToken => 403
      case EmailRequired => 400
      case Absent => 200
      case Deleted(_) => 200
      case DeleteFailed => 500
    }
  }

  /** `(payload.get('email') or '').strip().lower()`: the stripped text with
      its ASCII capitals lowered and every other character kept. */
  function NormalizedEmail(o: Option<string>): (e: string)
    ensures var t := Strip(o.GetOr(""));
      |e| == |t| && forall i :: 0 <= i < |t| ==>
        if IsAsciiUpper(t[i]) then e[i] as int == t[i] as int + 32 else e[i] == t[i]
    ensures e == [] <==> o.None? || forall i :: 0 <= i < |o.value| ==> IsSpace(o.value[i])
    ensures forall i :: 0 <= i < |e| ==> !IsAsciiUpper(e[i])
  {
    Lower(Strip(o.GetOr("")))
  }

  /** The user at `k` is still referenced as a client or as a repairer. */
  predicate OwnsRows(requests: seq<RepairRequest>, quotes: seq<Quote>, id: int) {
    (exists i :: 0 <= i < |requests| && requests[i].clientId == id)
    || (exists i :: 0 <= i < |quotes| && quotes[i].repairerId == id)
  }

  /** The outcome of `delete_user_by_email`, in its order: 403 unless a token
      is expected (`ADMIN_DELETE_TOKEN`, else `SECRET_KEY`) and the presented
      one (the header, else the body's) equals it; 400 for an empty email; 200
      `absent` when no user has that email; 500 when the user still owns
      requests or quotes (their non-null owner column cannot be cleared);
      otherwise the user is deleted. */
  function DeleteDecision(users: seq<User>, requests: seq<RepairRequest>, quotes: seq<Quote>, input: DeleteInput,
                          adminToken: Option<string>, secretKey: Option<string>): (o: DeleteOutcome)
    ensures o == BadToken <==>
      !Truthy(OrElse(adminToken, secretKey)) || OrElse(input.headerToken, input.bodyToken) != OrElse(adminToken, secretKey)
    ensures o == EmailRequired <==> o != BadToken && NormalizedEmail(input.email) == ""
    ensures o == Absent ==> forall k :: 0 <= k < |users| ==> users[k].email != NormalizedEmail(input.email)
    ensures o.Deleted? || o == DeleteFailed ==>
      o != BadToken && FindUserByEmail(users, NormalizedEmail(input.email)).Some?
    ensures o.Deleted? ==>
      && o.index < |users| && users[o.index].email == NormalizedEmail(input.email)
      && !OwnsRows(requests, quotes, users[o.index].id)
    ensures o == DeleteFailed ==>
      OwnsRows(requests, quotes, users[FindUserByEmail(users, NormalizedEmail(input.email)).value].id)
  {
    var expected := OrElse(adminToken, secretKey);
    var token := OrElse(input.headerToken, input.bodyToken);
    var email := NormalizedEmail(input.email);
    if !Truthy(expected) || token != expected then BadToken
    else if email == "" then EmailRequired
    else match FindUserByEmail(users, email)
      case None => Absent
      case Some(k) => if OwnsRows(requests, quotes, users[k].id) then DeleteFailed else Deleted(k)
  }

  /** Without any configured token the route refuses everyone. */
  lemma NoTokenConfigured(users: seq<User>, requests: seq<RepairRequest>, quotes: seq<Quote>, input: DeleteInput)
    ensures DeleteDecision(users, requests, quotes, input, None, None) == BadToken
    ensures DeleteDecision(users, requests, quotes, input, Some(""), Some("")) == BadToken
  {
  }

  /** A deletion removes exactly the matched user: every other user remains,
      in order, and with unique emails no user with that email is left. */
  lemma {:induction false} DeletionRemovesExactlyOne(users: seq<User>, k: nat)
    requires UniqueUsers(users) && k < |users|
    ensures multiset(RemoveAt(users, k)) + multiset{users[k]} == multiset(users)
    ensures forall i :: 0 <= i < |RemoveAt(users, k)| ==> RemoveAt(users, k)[i].email != users[k].email
  {
    var r := RemoveAt(users, k);
    forall i | 0 <= i < |r| ensures r[i].email != users[k].email {
      if i < k { assert r[i] == users[i]; } else { assert r[i] == users[i + 1]; }
    }
  }

  /** `delete_user_by_email`. On a deletion the user's row is removed; on
      every other outcome the table is unchanged. */
  method DeleteUserByEmail(store: Store, input: DeleteInput, adminToken: Option<string>, secretKey: Option<string>)
    returns (outcome: DeleteOutcome)
    requires store.Valid()
    modifies store`users
    ensures store.Valid()
    ensures outcome == DeleteDecision(old(store.users), store.requests, store.quotes, input, adminToken, secretKey)
    ensures !outcome.Deleted? ==> store.users == old(store.users)
    ensures outcome.Deleted? ==> store.users == RemoveAt(old(store.users), outcome.index)
  {
    outcome := DeleteDecision(store.users, store.requests, store.quotes, input, adminToken, secretKey);
    if outcome.Deleted? {
      RemoveUserKeepsTables(store.users, store.requests, store.quotes, store.nextUserId, store.nextRequestId,
                            store.nextQuoteId, outcome.index);
      store.users := RemoveAt(store.users, outcome.index);
    }
  }
}
