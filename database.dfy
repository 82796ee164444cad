/** The mutable state the route handlers share: the database tables (one
    sequence per table, each row with its integer primary key), the files in
    the upload directory, and the per-client session holding `user_id` and
    `user_role`. Every handler runs as one transaction: it either commits all
    of its writes or leaves the tables as they were. */
module Database {
  import opened Common
  import opened Models

  /** The Flask session: only the two keys the routes read and write. */
  class Session {
    var userId: Option<int>
    var userRole: Option<string>

    constructor ()
      ensures userId.None? && userRole.None?
    {
      userId := None;
      userRole := None;
    }

    /** `session.clear()`. */
    method Clear()
      modifies this
      ensures userId.None? && userRole.None?
    {
      userId := None;
      userRole := None;
    }
  }

  /** The outcome of a login or role gate: a refusal status, or the position
      of the session user in the user table. */
  datatype Gate = Refused(code: int) | Admitted(index: nat)

  /** No request has two accepted quotes. */
  ghost predicate AtMostOneAccepted(quotes: seq<Quote>) {
    forall i, j :: 0 <= i < j < |quotes| && quotes[i].requestId == quotes[j].requestId ==>
      !(quotes[i].status == ACCEPTED && quotes[j].status == ACCEPTED)
  }

  /** Quote `qid` exists, belongs to request `rid` and is accepted. */
  ghost predicate AcceptedQuoteOf(quotes: seq<Quote>, qid: int, rid: int) {
    exists j :: 0 <= j < |quotes| && quotes[j].id == qid && quotes[j].requestId == rid && quotes[j].status == ACCEPTED
  }

  /** `accepted_quote_id`, when set, names an accepted quote of that request. */
  ghost predicate AcceptedLinks(requests: seq<RepairRequest>, quotes: seq<Quote>) {
    forall k :: 0 <= k < |requests| && requests[k].acceptedQuoteId.Some? ==>
      AcceptedQuoteOf(quotes, requests[k].acceptedQuoteId.value, requests[k].id)
  }

  ghost predicate IdsBelow(users: seq<User>, requests: seq<RepairRequest>, quotes: seq<Quote>,
                           nextUser: int, nextRequest: int, nextQuote: int) {
    && (forall i :: 0 <= i < |users| ==> users[i].id < nextUser)
    && (forall i :: 0 <= i < |requests| ==> requests[i].id < nextRequest)
    && (forall i :: 0 <= i < |quotes| ==> quotes[i].id < nextQuote)
  }

  /** The constraints the tables keep between transactions. */
  ghost predicate TablesOk(users: seq<User>, requests: seq<RepairRequest>, quotes: seq<Quote>,
                           nextUser: int, nextRequest: int, nextQuote: int) {
    && UniqueUsers(users) && UniqueRequestIds(requests) && UniqueQuoteIds(quotes)
    && IdsBelow(users, requests, quotes, nextUser, nextRequest, nextQuote)
    && AtMostOneAccepted(quotes)
    && AcceptedLinks(requests, quotes)
  }

  class Store {
    var users: seq<User>
    var requests: seq<RepairRequest>
    var quotes: seq<Quote>
    /** Names of the files saved in the upload directory. */
    var uploads: seq<string>
    var nextUserId: int
    var nextRequestId: int
    var nextQuoteId: int

    ghost predicate Valid()
      reads this
    {
      TablesOk(users, requests, quotes, nextUserId, nextRequestId, nextQuoteId)
    }

    constructor ()
      ensures Valid()
      ensures users == [] && requests == [] && quotes == [] && uploads == []
    {
      users, requests, quotes, uploads := [], [], [], [];
      nextUserId, nextRequestId, nextQuoteId := 1, 1, 1;
    }
  }

  // ---------------------------------------------------------------------
  // How single-row writes keep the constraints
  // ---------------------------------------------------------------------

  /** Inserting a quote that is not accepted keeps both quote constraints. */
  lemma {:induction false} AppendQuoteKeeps(requests: seq<RepairRequest>, quotes: seq<Quote>, q: Quote)
    requires AtMostOneAccepted(quotes) && AcceptedLinks(requests, quotes)
    requires q.status != ACCEPTED
    ensures AtMostOneAccepted(quotes + [q]) && AcceptedLinks(requests, quotes + [q])
  {
    var qs := quotes + [q];
    forall k | 0 <= k < |requests| && requests[k].acceptedQuoteId.Some?
      ensures AcceptedQuoteOf(qs, requests[k].acceptedQuoteId.value, requests[k].id)
    {
      var j :| 0 <= j < |quotes| && quotes[j].id == requests[k].acceptedQuoteId.value
               && quotes[j].requestId == requests[k].id && quotes[j].status == ACCEPTED;
      assert qs[j] == quotes[j];
    }
  }

  /** Rewriting one request without touching its id or its accepted quote
      keeps the links. */
  lemma {:induction false} UpdateRequestKeepsLinks(requests: seq<RepairRequest>, quotes: seq<Quote>, k: nat, r: RepairRequest)
    requires AcceptedLinks(requests, quotes)
    requires k < |requests| && r.id == requests[k].id && r.acceptedQuoteId == requests[k].acceptedQuoteId
    ensures AcceptedLinks(requests[k := r], quotes)
  {
    var rs := requests[k := r];
    forall m | 0 <= m < |rs| && rs[m].acceptedQuoteId.Some?
      ensures AcceptedQuoteOf(quotes, rs[m].acceptedQuoteId.value, rs[m].id)
    {
      assert rs[m].acceptedQuoteId == requests[m].acceptedQuoteId && rs[m].id == requests[m].id;
    }
  }

  /** Inserting a request under the next request id, without an accepted
      quote, keeps every table constraint. */
  lemma {:induction false} AppendRequestKeepsTables(users: seq<User>, requests: seq<RepairRequest>, quotes: seq<Quote>,
                                                    nu: int, nr: int, nq: int, r: RepairRequest)
    requires TablesOk(users, requests, quotes, nu, nr, nq)
    requires r.id == nr && r.acceptedQuoteId.None?
    ensures TablesOk(users, requests + [r], quotes, nu, nr + 1, nq)
  {
    var rs := requests + [r];
    AppendRequestKeepsLinks(requests, quotes, r);
    assert UniqueRequestIds(rs) by {
      forall a, b | 0 <= a < b < |rs| ensures rs[a].id != rs[b].id {
        if b < |requests| { assert rs[a] == requests[a] && rs[b] == requests[b]; }
        else { assert rs[a] == requests[a]; }
      }
    }
    assert forall i :: 0 <= i < |rs| ==> rs[i].id < nr + 1 by {
      forall i | 0 <= i < |rs| ensures rs[i].id < nr + 1 {
        if i < |requests| { assert rs[i] == requests[i]; }
      }
    }
  }

  /** Inserting a user under the next user id, with an email and a username
      no existing user has, keeps every table constraint. */
  lemma {:induction false} AppendUserKeepsTables(users: seq<User>, requests: seq<RepairRequest>, quotes: seq<Quote>,
                                                 nu: int, nr: int, nq: int, u: User)
    requires TablesOk(users, requests, quotes, nu, nr, nq)
    requires u.id == nu
    requires forall m :: 0 <= m < |users| ==> users[m].email != u.email && users[m].username != u.username
    ensures TablesOk(users + [u], requests, quotes, nu + 1, nr, nq)
  {
    var us := users + [u];
    assert UniqueUsers(us) by {
      forall a, b | 0 <= a < b < |us|
        ensures us[a].id != us[b].id && us[a].username != us[b].username && us[a].email != us[b].email
      {
        assert us[a] == users[a];
        if b < |users| { assert us[b] == users[b]; }
      }
    }
    assert forall i :: 0 <= i < |us| ==> us[i].id < nu + 1 by {
      forall i | 0 <= i < |us| ensures us[i].id < nu + 1 {
        if i < |users| { assert us[i] == users[i]; }
      }
    }
  }

  /** Rewriting user `k` keeps every table constraint when its id and email
      stay and its username is either unchanged or held by no other user. */
  lemma {:induction false} ReplaceUserKeepsTables(users: seq<User>, requests: seq<RepairRequest>, quotes: seq<Quote>,
                                                  nu: int, nr: int, nq: int, k: nat, v: User)
    requires TablesOk(users, requests, quotes, nu, nr, nq)
    requires k < |users| && v.id == users[k].id && v.email == users[k].email
    requires v.username == users[k].username || forall m :: 0 <= m < |users| && m != k ==> users[m].username != v.username
    ensures TablesOk(users[k := v], requests, quotes, nu, nr, nq)
  {
    var us := users[k := v];
    assert UniqueUsers(us) by {
      forall a, b | 0 <= a < b < |us|
        ensures us[a].id != us[b].id && us[a].username != us[b].username && us[a].email != us[b].email
      {
        assert users[a].id != users[b].id && users[a].username != users[b].username && users[a].email != users[b].email;
      }
    }
    assert forall i :: 0 <= i < |us| ==> us[i].id < nu by {
      forall i | 0 <= i < |us| ensures us[i].id < nu {
        assert us[i].id == users[i].id;
      }
    }
  }

  /** The table without row `k`, the others in their order. */
  function RemoveAt<T>(s: seq<T>, k: nat): (r: seq<T>)
    requires k < |s|
    ensures |r| == |s| - 1
    ensures forall i :: 0 <= i < k ==> r[i] == s[i]
    ensures forall i :: k <= i < |r| ==> r[i] == s[i + 1]
    ensures multiset(r) + multiset{s[k]} == multiset(s)
  {
    assert s == s[..k] + [s[k]] + s[k + 1..];
    s[..k] + s[k + 1..]
  }

  /** Deleting a user keeps every table constraint. */
  lemma {:induction false} RemoveUserKeepsTables(users: seq<User>, requests: seq<RepairRequest>, quotes: seq<Quote>,
                                                 nu: int, nr: int, nq: int, k: nat)
    requires TablesOk(users, requests, quotes, nu, nr, nq)
    requires k < |users|
    ensures TablesOk(RemoveAt(users, k), requests, quotes, nu, nr, nq)
  {
    var us := RemoveAt(users, k);
    assert UniqueUsers(us) by {
      forall a, b | 0 <= a < b < |us|
        ensures us[a].id != us[b].id && us[a].username != us[b].username && us[a].email != us[b].email
      {
        var a', b' := if a < k then a else a + 1, if b < k then b else b + 1;
        assert us[a] == users[a'] && us[b] == users[b'] && a' < b';
      }
    }
    assert forall i :: 0 <= i < |us| ==> us[i].id < nu by {
      forall i | 0 <= i < |us| ensures us[i].id < nu {
        if i >= k { assert us[i] == users[i + 1]; }
      }
    }
  }

  /** Rewriting request `k` without changing its id or its accepted quote
      keeps every table constraint. */
  lemma {:induction false} ReplaceRequestKeepsTables(users: seq<User>, requests: seq<RepairRequest>, quotes: seq<Quote>,
                                                     nu: int, nr: int, nq: int, k: nat, r: RepairRequest)
    requires TablesOk(users, requests, quotes, nu, nr, nq)
    requires k < |requests| && r.id == requests[k].id && r.acceptedQuoteId == requests[k].acceptedQuoteId
    ensures TablesOk(users, requests[k := r], quotes, nu, nr, nq)
  {
    var rs := requests[k := r];
    UpdateRequestKeepsLinks(requests, quotes, k, r);
    assert UniqueRequestIds(rs) by {
      forall a, b | 0 <= a < b < |rs| ensures rs[a].id != rs[b].id {
        assert rs[a].id == requests[a].id && rs[b].id == requests[b].id;
      }
    }
    assert forall i :: 0 <= i < |rs| ==> rs[i].id < nr by {
      forall i | 0 <= i < |rs| ensures rs[i].id < nr {
        assert rs[i].id == requests[i].id;
      }
    }
  }

  /** Inserting a request without an accepted quote keeps the links. */
  lemma {:induction false} AppendRequestKeepsLinks(requests: seq<RepairRequest>, quotes: seq<Quote>, r: RepairRequest)
    requires AcceptedLinks(requests, quotes)
    requires r.acceptedQuoteId.None?
    ensures AcceptedLinks(requests + [r], quotes)
  {
    var rs := requests + [r];
    forall m | 0 <= m < |rs| && rs[m].acceptedQuoteId.Some?
      ensures AcceptedQuoteOf(quotes, rs[m].acceptedQuoteId.value, rs[m].id)
    {
      assert rs[m] == requests[m];
    }
  }
}
