/** The audit log over runs of requests, one at a time. */
module AuditLog {
  import opened Schemas
  import opened Model
  import opened Stores
  import opened Ids
  import opened Filters
  import opened Gaps
  import opened Requests
  import opened Audited
  import opened Traces

  lemma UserRequestKeepsAudit(cfg: Config, m: Rows, req: UserRequest, now: nat)
    ensures ServeUser(cfg, m, req, now).0.audit == m.audit
  {
    hide NewID, InOrder, Selected, LoginTaken;
  }

  lemma GroupRequestKeepsAudit(cfg: Config, m: Rows, req: GroupRequest, now: nat)
    ensures ServeGroup(cfg, m, req, now).0.audit == m.audit
  {
    hide NewID, InOrder, Selected, NameTaken;
  }

  lemma AppRequestKeepsAudit(cfg: Config, m: Rows, req: AppRequest, now: nat)
    ensures ServeApp(cfg, m, req, now).0.audit == m.audit
  {
    hide NewID, InOrder, Selected;
  }

  /** One request adds its entry to the log, under the next number, whatever it was answered. */
  lemma HitAppends(cfg: Config, sys: System, hit: Hit)
    requires !ResetsLog(hit)
    ensures var (sys', resp) := ServeHit(cfg, sys, hit);
            && sys'.seqNo == Next(sys.seqNo)
            && sys'.seqNo in sys'.rows.audit
            && sys'.rows.audit == sys.rows.audit[sys'.seqNo := sys'.rows.audit[sys'.seqNo]]
            && var e := sys'.rows.audit[sys'.seqNo]; e.id == sys'.seqNo && Records(e, hit, resp)
  {
    hide ServeUser, ServeGroup, ServeApp;
    match hit.req
    case ForUsers(r) => UserRequestKeepsAudit(cfg, sys.rows, r, hit.now);
    case ForGroups(r) => GroupRequestKeepsAudit(cfg, sys.rows, r, hit.now);
    case ForApps(r) => AppRequestKeepsAudit(cfg, sys.rows, r, hit.now);
    case _ =>
  }

  /** The log holds exactly the entries 1 to k, and k is the last number given. */
  ghost predicate Counts(sys: System, k: nat) {
    sys.seqNo == k && forall n: nat :: n in sys.rows.audit <==> 1 <= n <= k
  }

  ghost function Answered(cfg: Config, sys: System, hits: seq<Hit>, i: nat): Response
    requires i < |hits|
  {
    ServeHit(cfg, After(cfg, sys, hits[..i]), hits[i]).1
  }

  ghost predicate Logged(cfg: Config, sys: System, hits: seq<Hit>, k: nat, i: nat, log: map<nat, AuditEntry>)
    requires i < |hits|
  {
    k + i + 1 in log && log[k + i + 1].id == k + i + 1
    && Records(log[k + i + 1], hits[i], Answered(cfg, sys, hits, i))
  }

  /** Each request adds exactly one entry, in order; earlier entries stay as they are. */
  lemma {:induction false} OneEntryPerRequest(cfg: Config, sys: System, hits: seq<Hit>, k: nat)
    requires Counts(sys, k) && k + |hits| < COUNTER_RANGE
    requires forall i | 0 <= i < |hits| :: !ResetsLog(hits[i])
    ensures var log := After(cfg, sys, hits).rows.audit;
            && Counts(After(cfg, sys, hits), k + |hits|)
            && (forall n: nat | 1 <= n <= k :: log[n] == sys.rows.audit[n])
            && (forall i | 0 <= i < |hits| :: Logged(cfg, sys, hits, k, i, log))
    decreases |hits|
  {
    hide ServeHit;
    if hits != [] {
      var before, last := hits[..|hits| - 1], |hits| - 1;
      assert forall i | 0 <= i < last :: before[i] == hits[i];
      OneEntryPerRequest(cfg, sys, before, k);
      HitAppends(cfg, After(cfg, sys, before), hits[last]);
      var log := After(cfg, sys, hits).rows.audit;
      forall i | 0 <= i < |hits| ensures Logged(cfg, sys, hits, k, i, log) {
        if i < last {
          assert Logged(cfg, sys, before, k, i, After(cfg, sys, before).rows.audit);
          assert before[..i] == hits[..i];
        }
      }
    }
  }

  /** Every identifier the registry can answer is a real one. */
  lemma {:induction false} AnswersAreNotEmpty(gs: seq<Gap>, verb: string, path: string)
    requires forall i | 0 <= i < |gs| :: gs[i].id != ""
    ensures Lookup(gs, verb, path).0 != ""
  {
    hide Hits;
    if gs != [] {
      assert forall i | 0 <= i < |gs| - 1 :: gs[1..][i] == gs[i + 1];
      AnswersAreNotEmpty(gs[1..], verb, path);
    }
  }

  /**
    A request no handler serves changes nothing but the log, where its entry carries 501 and
    the identifier of the first registry entry that matches it, or the uncatalogued one; the
    gap report lists that identifier.
  */
  lemma UnroutedHitIsLogged(cfg: Config, sys: System, hit: Hit)
    requires hit.authorized && hit.req == Unrouted(hit.verb, hit.path)
    ensures var (sys', resp) := ServeHit(cfg, sys, hit);
            var gap := Lookup(REGISTRY, hit.verb, hit.path).0;
            && sys'.rows == sys.rows.(audit := sys'.rows.audit)
            && sys'.seqNo in sys'.rows.audit && sys'.rows.audit[sys'.seqNo].status == 501
            && sys'.rows.audit[sys'.seqNo].gapId == gap && gap in GapIds(sys'.rows)
            && ((forall i | 0 <= i < |REGISTRY| :: !Applies(REGISTRY[i], hit.verb, hit.path))
                ==> gap == "MOCKTA_GAP_UNCATALOGED")
            && forall i | 0 <= i < |REGISTRY| && Applies(REGISTRY[i], hit.verb, hit.path)
                          && (forall j | 0 <= j < i :: !Applies(REGISTRY[j], hit.verb, hit.path)) ::
                 gap == REGISTRY[i].id
  {
    assert forall i | 0 <= i < |REGISTRY| :: |REGISTRY[i].id| == 15 by { IdsAreFifteenLong(); }
    hide Hits, Applies, REGISTRY, Lookup;
    AnswersAreNotEmpty(REGISTRY, hit.verb, hit.path);
    LookupIsFirstCovering(REGISTRY, hit.verb, hit.path);
    assert ServeHit(cfg, sys, hit).0.seqNo in ServeHit(cfg, sys, hit).0.rows.audit;
  }

  lemma IdsAreFifteenLong()
    ensures forall i | 0 <= i < |REGISTRY| :: |REGISTRY[i].id| == 15
  {
    hide On;
  }

  lemma {:induction false} AfterJoins(cfg: Config, sys: System, first: seq<Hit>, second: seq<Hit>)
    ensures After(cfg, sys, first + second) == After(cfg, After(cfg, sys, first), second)
    decreases |second|
  {
    hide ServeHit;
    var all := first + second;
    if second == [] {
      assert all == first;
    } else {
      var before := second[..|second| - 1];
      AfterJoins(cfg, sys, first, before);
      assert all[..|all| - 1] == first + before;
    }
  }

  lemma ResetLeavesItself(cfg: Config, sys: System, reset: Hit)
    requires ResetsLog(reset)
    ensures var sys' := ServeHit(cfg, sys, reset).0;
            && Counts(sys', 1) && sys'.rows == NOTHING.(audit := sys'.rows.audit)
            && sys'.rows.audit[1].id == 1 && Records(sys'.rows.audit[1], reset, Response(204, Nothing, ""))
  {
  }

  /**
    After a successful reset the log is that reset request as entry 1 followed by exactly
    the later requests, whatever came before.
  */
  lemma LogAfterReset(cfg: Config, sys: System, before: seq<Hit>, reset: Hit, later: seq<Hit>)
    requires ResetsLog(reset) && 1 + |later| < COUNTER_RANGE
    requires forall i | 0 <= i < |later| :: !ResetsLog(later[i])
    ensures var restart := ServeHit(cfg, After(cfg, sys, before), reset).0;
            var end := After(cfg, sys, before + [reset] + later);
            && end == After(cfg, restart, later)
            && Counts(end, 1 + |later|)
            && end.rows.audit[1].id == 1 && Records(end.rows.audit[1], reset, Response(204, Nothing, ""))
            && (forall i | 0 <= i < |later| :: Logged(cfg, restart, later, 1, i, end.rows.audit))
  {
    hide ServeHit;
    var s := After(cfg, sys, before);
    AfterJoins(cfg, sys, before + [reset], later);
    assert (before + [reset])[..|before|] == before;
    ResetLeavesItself(cfg, s, reset);
    OneEntryPerRequest(cfg, ServeHit(cfg, s, reset).0, later, 1);
  }

  // Rejected requests.

  /** The rows without the log. */
  function Data(m: Rows): Rows { m.(audit := map[]) }

  /** A rejected request is answered 401, whatever it asks for, and leaves one entry and nothing else. */
  lemma RejectedTouchesNothing(cfg: Config, sys: System, hit: Hit)
    requires !hit.authorized
    ensures var (sys', resp) := ServeHit(cfg, sys, hit);
            var m, m' := sys.rows, sys'.rows;
            && resp == Response(401, Nothing, "")
            && m'.users == m.users && m'.groups == m.groups && m'.members == m.members && m'.apps == m.apps
            && m'.audit.Keys == m.audit.Keys + {sys'.seqNo} && m'.audit == m.audit[sys'.seqNo := m'.audit[sys'.seqNo]]
            && m'.audit[sys'.seqNo] == AuditEntry(sys'.seqNo, hit.now, hit.verb, hit.path, 401, "")
            && sys'.seqNo == Next(sys.seqNo)
  {
    hide Serve;
  }

  /** An authorized one does and answers what Serve says. */
  lemma AuthorizedIsServed(cfg: Config, sys: System, hit: Hit)
    requires hit.authorized
    ensures var (sys', resp) := ServeHit(cfg, sys, hit);
            var (m, served) := Serve(cfg, sys.rows, hit.req, hit.now);
            resp == served && Data(sys'.rows) == Data(m)
  {
    hide Serve;
  }

  // No request reads the log.

  lemma LookupsReadNoLog(m: Rows, log: map<nat, AuditEntry>, key: string, id: string)
    requires Inv(m) && Inv(m.(audit := log))
    ensures ByLogin(m.(audit := log), key) == ByLogin(m, key)
    ensures LoginTaken(m.(audit := log), key, id) == LoginTaken(m, key, id)
  {
    var m' := m.(audit := log);
    if k :| k in m.users && m.users[k].login == key {
      ByLoginIsTheRow(m, k);
      ByLoginIsTheRow(m', k);
    }
  }

  lemma UsersReadNoLog(cfg: Config, m: Rows, log: map<nat, AuditEntry>, req: UserRequest, now: nat)
    requires Inv(m) && Inv(m.(audit := log))
    ensures ServeUser(cfg, m.(audit := log), req, now)
         == (ServeUser(cfg, m, req, now).0.(audit := log), ServeUser(cfg, m, req, now).1)
  {
    hide NewID, InOrder, Selected, LimitOf, LooksValid, ParseUserFilter, Inv, ByLogin, LoginTaken, Limited;
    match req
    case PostUser(body, activate) =>
      if Validated(cfg.strict, body).Some? {
        var u := NewUser(cfg, Validated(cfg.strict, body).value, activate, now);
        LookupsReadNoLog(m, log, u.login, u.id);
      }
    case FetchUser(key) => LookupsReadNoLog(m, log, key, key);
    case PutUser(id, body) =>
      if Validated(cfg.strict, body).Some? && id in m.users {
        LookupsReadNoLog(m, log, Validated(cfg.strict, body).value.login, m.users[id].id);
      }
    case _ =>
  }

  lemma {:induction false} FoundWithoutLog(rows: seq<Membership>, m: Rows, log: map<nat, AuditEntry>)
    ensures UsersFound(rows, seq(|rows|, _ => m)) == UsersFound(rows, seq(|rows|, _ => m.(audit := log)))
  {
    if rows != [] {
      var k := |rows| - 1;
      FoundWithoutLog(rows[..k], m, log);
      assert seq(|rows|, _ => m)[..k] == seq(k, _ => m);
      assert seq(|rows|, _ => m.(audit := log))[..k] == seq(k, _ => m.(audit := log));
    }
  }

  lemma MembersWithoutLog(m: Rows, log: map<nat, AuditEntry>, gid: string)
    ensures MemberUsers(m.(audit := log), gid) == MemberUsers(m, gid)
  {
    hide UsersFound;
    var m', rows := m.(audit := log), MembersOf(m, gid);
    assert MemberIds(m', gid) == MemberIds(m, gid);
    assert MembersOf(m', gid) == rows;
    FoundWithoutLog(rows, m, log);
    assert seq(|MembersOf(m', gid)|, _ => m') == seq(|rows|, _ => m.(audit := log));
  }

  lemma GroupsReadNoLog(cfg: Config, m: Rows, log: map<nat, AuditEntry>, req: GroupRequest, now: nat)
    ensures ServeGroup(cfg, m.(audit := log), req, now)
         == (ServeGroup(cfg, m, req, now).0.(audit := log), ServeGroup(cfg, m, req, now).1)
  {
    hide NewID, InOrder, Selected, LimitOf, Limited, MemberUsers;
    forall name: string, id: string ensures NameTaken(m.(audit := log), name, id) == NameTaken(m, name, id) { }
    hide NameTaken;
    if req.BrowseMembers? { MembersWithoutLog(m, log, req.gid); }
  }

  lemma AppsReadNoLog(cfg: Config, m: Rows, log: map<nat, AuditEntry>, req: AppRequest, now: nat)
    ensures ServeApp(cfg, m.(audit := log), req, now)
         == (ServeApp(cfg, m, req, now).0.(audit := log), ServeApp(cfg, m, req, now).1)
  {
    hide NewID, InOrder, Selected, LimitOf, Limited, ParseAppFilter, AppTest, FirstNonEmpty;
  }

  lemma NobodyReadsTheLog(cfg: Config, m: Rows, m': Rows, req: Request, now: nat)
    requires Inv(m) && Inv(m') && Data(m) == Data(m')
    ensures Serve(cfg, m, req, now).1 == Serve(cfg, m', req, now).1
    ensures Data(Serve(cfg, m, req, now).0) == Data(Serve(cfg, m', req, now).0)
  {
    hide ServeUser, ServeGroup, ServeApp, Lookup, Inv;
    assert m' == m.(audit := m'.audit) by { assert Data(m).users == m'.users; }
    match req
    case ForUsers(r) => UsersReadNoLog(cfg, m, m'.audit, r, now);
    case ForGroups(r) => GroupsReadNoLog(cfg, m, m'.audit, r, now);
    case ForApps(r) => AppsReadNoLog(cfg, m, m'.audit, r, now);
    case _ =>
  }

  /** The requests with a token, in order. */
  function Authorized(hits: seq<Hit>): seq<Hit> {
    if hits == [] then []
    else Authorized(hits[..|hits| - 1]) + if hits[|hits| - 1].authorized then [hits[|hits| - 1]] else []
  }

  /**
    Apart from the log, a run of requests leaves what its authorized requests alone leave,
    and each of those is answered as it is without the rejected ones.
  */
  lemma {:induction false} RejectedLeaveNoTrace(cfg: Config, sys: System, hits: seq<Hit>)
    requires Inv(sys.rows)
    ensures Data(After(cfg, sys, hits).rows) == Data(After(cfg, sys, Authorized(hits)).rows)
    ensures forall hit: Hit | hit.authorized :: ServeHit(cfg, After(cfg, sys, hits), hit).1
                                               == ServeHit(cfg, After(cfg, sys, Authorized(hits)), hit).1
    decreases |hits|
  {
    hide ServeHit, Serve, Data, Inv;
    RunKeepsInv(cfg, sys, hits);
    RunKeepsInv(cfg, sys, Authorized(hits));
    if hits != [] {
      var before, last := hits[..|hits| - 1], hits[|hits| - 1];
      RejectedLeaveNoTrace(cfg, sys, before);
      RunKeepsInv(cfg, sys, before);
      RunKeepsInv(cfg, sys, Authorized(before));
      if last.authorized {
        AuthorizedIsServed(cfg, After(cfg, sys, before), last);
        AuthorizedIsServed(cfg, After(cfg, sys, Authorized(before)), last);
        NobodyReadsTheLog(cfg, After(cfg, sys, before).rows, After(cfg, sys, Authorized(before)).rows,
                          last.req, last.now);
        assert Authorized(hits)[..|Authorized(hits)| - 1] == Authorized(before);
      } else {
        RejectedKeepsData(cfg, After(cfg, sys, before), last);
        assert Authorized(hits) == Authorized(before);
      }
    }
    forall hit: Hit | hit.authorized
      ensures ServeHit(cfg, After(cfg, sys, hits), hit).1 == ServeHit(cfg, After(cfg, sys, Authorized(hits)), hit).1
    {
      AuthorizedIsServed(cfg, After(cfg, sys, hits), hit);
      AuthorizedIsServed(cfg, After(cfg, sys, Authorized(hits)), hit);
      NobodyReadsTheLog(cfg, After(cfg, sys, hits).rows, After(cfg, sys, Authorized(hits)).rows, hit.req, hit.now);
    }
  }

  lemma RejectedKeepsData(cfg: Config, sys: System, hit: Hit)
    requires !hit.authorized
    ensures Data(ServeHit(cfg, sys, hit).0.rows) == Data(sys.rows)
  {
    hide Serve;
  }
}
