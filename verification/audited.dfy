/**
  A request as the server runs it: authentication inside, the audit middleware outside.
  Every request leaves one audit entry, rejected requests included.
*/
module Audited {
  import opened Schemas
  import opened Model
  import opened Stores
  import opened Gaps
  import opened Requests
  import H = Handlers

  datatype Hit = Hit(req: Request, authorized: bool, verb: string, path: string, now: nat)

  /** The rows and the audit counter. */
  datatype System = System(rows: Rows, seqNo: nat)

  const FRESH := System(NOTHING, 0)

  predicate ResetsLog(hit: Hit) { hit.req.ResetAll? && hit.authorized }

  ghost function Inner(cfg: Config, m: Rows, hit: Hit): (Rows, Response) {
    if hit.authorized then Serve(cfg, m, hit.req, hit.now) else (m, Plain(401))
  }

  function EntryFor(hit: Hit, resp: Response, n: nat): AuditEntry {
    AuditEntry(n, hit.now, hit.verb, hit.path, resp.status, resp.gap)
  }

  /** The entry carries the request's verb, path and time, and the status and gap of its answer. */
  predicate Records(e: AuditEntry, hit: Hit, resp: Response) {
    e.verb == hit.verb && e.path == hit.path && e.ts == hit.now && e.status == resp.status && e.gapId == resp.gap
  }

  ghost function ServeHit(cfg: Config, sys: System, hit: Hit): (System, Response) {
    var (m, resp) := Inner(cfg, sys.rows, hit);
    var n := Next(if ResetsLog(hit) then 0 else sys.seqNo);
    (System(m.(audit := m.audit[n := EntryFor(hit, resp, n)]), n), resp)
  }

  /** Captures the status a handler writes; a handler that writes none answers 200. */
  class StatusRecorder {
    var status: nat

    constructor ()
      ensures status == 200
    {
      status := 200;
    }

    method WriteHeader(code: nat)
      modifies this
      ensures status == code
    {
      status := code;
    }
  }

  method Route(s: Store, cfg: Config, req: Request, now: nat) returns (resp: Response)
    requires s.Valid()
    modifies s
    ensures s.Valid()
    ensures (View(s.db), resp) == Serve(cfg, old(View(s.db)), req, now)
    ensures s.auditSeq == if req.ResetAll? then 0 else old(s.auditSeq)
  {
    hide ConsistentDb, Inv;
    match req
    case ForUsers(r) => resp := RouteUser(s, cfg, r, now);
    case ForGroups(r) => resp := RouteGroup(s, cfg, r, now);
    case ForApps(r) => resp := RouteApp(s, cfg, r, now);
    case ResetAll =>
      s.Reset();
      resp := Plain(204);
    case Unrouted(verb, path) =>
      var (gapId, known) := Lookup(REGISTRY, verb, path);
      resp := Gapped(501, gapId);
  }

  method RouteUser(s: Store, cfg: Config, r: UserRequest, now: nat) returns (resp: Response)
    requires s.Valid()
    modifies s`db
    ensures s.Valid() && (View(s.db), resp) == ServeUser(cfg, old(View(s.db)), r, now)
  {
    hide ServeUser, Good;
    match r
    case PostUser(body, activate) => resp := H.UsersCreate(s, cfg, body, activate, now);
    case FetchUser(key) => resp := H.UsersGet(s, cfg, key, now);
    case PutUser(id, body) => resp := H.UsersUpdate(s, cfg, id, body, now);
    case ActivateUser(id) => resp := H.UserLifecycle(s, cfg, id, ACTIVE, now);
    case DeactivateUser(id) => resp := H.UserLifecycle(s, cfg, id, DEPROVISIONED, now);
    case DropUser(id) => resp := H.UsersDelete(s, cfg, id, now);
    case BrowseUsers(filter, limit) => resp := H.UsersList(s, cfg, filter, limit, now);
  }

  method RouteGroup(s: Store, cfg: Config, r: GroupRequest, now: nat) returns (resp: Response)
    requires s.Valid()
    modifies s`db
    ensures s.Valid() && (View(s.db), resp) == ServeGroup(cfg, old(View(s.db)), r, now)
  {
    hide ConsistentDb, Inv;
    match r
    case PostGroup(body) => resp := H.GroupsCreate(s, cfg, body, now);
    case FetchGroup(id) =>
      var g := s.GetGroup(id);
      resp := if g.OneGroup? then Shown(TheGroup(g.group)) else StoreError(g);
    case PutGroup(id, body) => resp := H.GroupsUpdate(s, cfg, id, body, now);
    case DropGroup(id) => resp := H.GroupsDelete(s, cfg, id, now);
    case BrowseGroups(filter, q, limit) => resp := H.GroupsList(s, cfg, filter, q, limit, now);
    case PutMember(gid, uid) => resp := H.MembershipAdd(s, cfg, gid, uid, now);
    case DropMember(gid, uid) => resp := H.MembershipRemove(s, cfg, gid, uid, now);
    case BrowseMembers(gid) => resp := H.MembershipList(s, cfg, gid, now);
  }

  method RouteApp(s: Store, cfg: Config, r: AppRequest, now: nat) returns (resp: Response)
    requires s.Valid()
    modifies s`db
    ensures s.Valid() && (View(s.db), resp) == ServeApp(cfg, old(View(s.db)), r, now)
  {
    hide ConsistentDb, Inv;
    match r
    case PostApp(body) => resp := H.AppsCreate(s, cfg, body, now);
    case FetchApp(id) =>
      var a := s.GetApp(id);
      resp := if a.OneApp? then Shown(TheApp(a.app)) else StoreError(a);
    case PutApp(id, body) => resp := H.AppsUpdate(s, cfg, id, body, now);
    case ActivateApp(id) => resp := H.AppLifecycle(s, cfg, id, ACTIVE, now);
    case DeactivateApp(id) => resp := H.AppLifecycle(s, cfg, id, INACTIVE, now);
    case DropApp(id) => resp := H.AppsDelete(s, cfg, id, now);
    case BrowseApps(filter, limit) => resp := H.AppsList(s, cfg, filter, limit, now);
  }

  method Handle(s: Store, cfg: Config, hit: Hit) returns (resp: Response)
    requires s.Valid()
    modifies s
    ensures s.Valid()
    ensures (System(View(s.db), s.auditSeq), resp) == ServeHit(cfg, old(System(View(s.db), s.auditSeq)), hit)
  {
    hide ConsistentDb, Inv, Serve;
    var rec := new StatusRecorder();
    if hit.authorized {
      resp := Route(s, cfg, hit.req, hit.now);
    } else {
      resp := Plain(401);
    }
    if resp.status != 200 {
      rec.WriteHeader(resp.status);
    }
    var entry := AuditEntry(0, hit.now, hit.verb, hit.path, rec.status, resp.gap);
    var stored := s.AppendAudit(entry, hit.now);
  }
}
