/**
  The registry of unimplemented endpoints. Resource and notes texts are not part of this
  model; identifiers, endpoints and their order are.
*/
module Gaps {
  import opened Filters
  import opened Wrappers

  datatype Gap = Gap(id: string, verb: string, endpoint: string, resource: string, status: string, notes: string)

  const UNCATALOGUED := "MOCKTA_GAP_UNCATALOGED"

  function Open(id: string, endpoint: string): Gap { Gap(id, "", endpoint, "", "open", "") }

  function On(verb: string, path: string): string { verb + [' '] + path }

  /** An endpoint is a verb and a path prefix, or a path prefix alone for any verb. */
  function MatchPattern(endpoint: string, verb: string, path: string): bool {
    var parts := SplitN(endpoint, ' ', 2);
    if |parts| == 1 then parts[0] <= path
    else if |parts| == 2 then parts[0] == verb && parts[1] <= path
    else false
  }

  predicate Hits(g: Gap, verb: string, path: string) {
    (g.verb == "" || g.verb == verb) && MatchPattern(g.endpoint, verb, path)
  }

  function Lookup(gs: seq<Gap>, verb: string, path: string): (string, bool) {
    if gs == [] then (UNCATALOGUED, false)
    else if Hits(gs[0], verb, path) then (gs[0].id, true)
    else Lookup(gs[1..], verb, path)
  }

  /** The answer is the first entry that matches; unknown exactly when none does. */
  lemma {:induction false} LookupIsFirstMatch(gs: seq<Gap>, verb: string, path: string)
    ensures Lookup(gs, verb, path).1 <==> exists i :: 0 <= i < |gs| && Hits(gs[i], verb, path)
    ensures !Lookup(gs, verb, path).1 ==> Lookup(gs, verb, path).0 == UNCATALOGUED
    ensures forall i | 0 <= i < |gs| && Hits(gs[i], verb, path)
                     && (forall j | 0 <= j < i :: !Hits(gs[j], verb, path)) ::
              Lookup(gs, verb, path) == (gs[i].id, true)
  {
    if gs != [] && !Hits(gs[0], verb, path) {
      var rest := gs[1..];
      LookupIsFirstMatch(rest, verb, path);
      assert forall i | 0 <= i < |rest| :: rest[i] == gs[i + 1];
      assert forall i | 0 < i < |gs| :: gs[i] == rest[i - 1];
      forall i | 0 <= i < |gs| && Hits(gs[i], verb, path) && (forall j | 0 <= j < i :: !Hits(gs[j], verb, path))
        ensures Lookup(gs, verb, path) == (gs[i].id, true)
      {
        assert rest[i - 1] == gs[i];
        assert forall j | 0 <= j < i - 1 :: rest[j] == gs[j + 1];
      }
    }
  }

  /**
    What an endpoint covers: without a space, every request whose path it starts; otherwise
    it is a verb, a space and a path, and covers the requests by that verb whose path it starts.
  */
  ghost predicate Covers(endpoint: string, verb: string, path: string) {
    || (' ' !in endpoint && exists rest :: path == endpoint + rest)
    || (' ' !in verb && exists p: string, rest: string :: endpoint == verb + " " + p && path == p + rest)
  }

  /** For a verb without a space, the path must start with the entry's and the verb be its verb. */
  lemma MatchesWithVerb(verb: string, p: string, v: string, path: string)
    requires ' ' !in verb
    ensures MatchPattern(verb + " " + p, v, path) <==> v == verb && exists rest :: path == p + rest
  {
    SplitsAfter(verb, p, 2);
    StartsIff(p, path);
    assert SplitN(p, ' ', 1) == [p];
    assert SplitN(verb + " " + p, ' ', 2) == [verb, p];
  }

  lemma MatchesAnyVerb(p: string, v: string, path: string)
    requires ' ' !in p
    ensures MatchPattern(p, v, path) <==> exists rest :: path == p + rest
  {
    StartsIff(p, path);
  }

  /** An entry matches exactly what its endpoint covers. */
  lemma MatchesIff(endpoint: string, verb: string, path: string)
    ensures MatchPattern(endpoint, verb, path) <==> Covers(endpoint, verb, path)
  {
    hide MatchPattern;
    if ' ' !in endpoint {
      MatchesAnyVerb(endpoint, verb, path);
      forall p: string ensures endpoint != verb + " " + p { assert (verb + " " + p)[|verb|] == ' '; }
    } else {
      var i := Find(endpoint, ' ');
      var (a, p) := (endpoint[..i], endpoint[i + 1..]);
      assert endpoint == a + " " + p;
      MatchesWithVerb(a, p, verb, path);
      if ' ' !in verb {
        forall q: string | endpoint == verb + " " + q ensures verb == a && q == p {
          FindSkips(verb, q, ' ');
          assert endpoint == verb + [' '] + q;
        }
      }
    }
  }

  ghost predicate Applies(g: Gap, verb: string, path: string) {
    g.verb in {"", verb} && Covers(g.endpoint, verb, path)
  }

  /** The first entry that covers the request answers it; unknown exactly when none does. */
  lemma LookupIsFirstCovering(gs: seq<Gap>, verb: string, path: string)
    ensures Lookup(gs, verb, path).1 <==> exists i :: 0 <= i < |gs| && Applies(gs[i], verb, path)
    ensures !Lookup(gs, verb, path).1 ==> Lookup(gs, verb, path).0 == "MOCKTA_GAP_UNCATALOGED"
    ensures forall i | 0 <= i < |gs| && Applies(gs[i], verb, path)
                     && (forall j | 0 <= j < i :: !Applies(gs[j], verb, path)) ::
              Lookup(gs, verb, path) == (gs[i].id, true)
  {
    hide MatchPattern, Covers;
    LookupIsFirstMatch(gs, verb, path);
    forall i | 0 <= i < |gs| ensures Hits(gs[i], verb, path) <==> Applies(gs[i], verb, path) {
      MatchesIff(gs[i].endpoint, verb, path);
    }
  }

  // When the order of entries matters.

  function PathOf(endpoint: string): string {
    var parts := SplitN(endpoint, ' ', 2);
    parts[|parts| - 1]
  }

  predicate HasVerb(endpoint: string) { |SplitN(endpoint, ' ', 2)| == 2 }

  /** Paths that are prefixes of one another are equal, and then both name a verb or neither does. */
  predicate PrefixFree(gs: seq<Gap>) {
    forall i, j | 0 <= i < |gs| && 0 <= j < |gs| && PathOf(gs[i].endpoint) <= PathOf(gs[j].endpoint) ::
      && PathOf(gs[i].endpoint) == PathOf(gs[j].endpoint)
      && HasVerb(gs[i].endpoint) == HasVerb(gs[j].endpoint)
  }

  /** The entries of one endpoint, in order. */
  function Under(gs: seq<Gap>, endpoint: string): seq<Gap> {
    if gs == [] then []
    else (if gs[0].endpoint == endpoint then [gs[0]] else []) + Under(gs[1..], endpoint)
  }

  lemma SplitIsOneOrTwo(endpoint: string)
    ensures 1 <= |SplitN(endpoint, ' ', 2)| <= 2
    ensures HasVerb(endpoint) ==> endpoint == On(SplitN(endpoint, ' ', 2)[0], SplitN(endpoint, ' ', 2)[1])
    ensures !HasVerb(endpoint) ==> endpoint == SplitN(endpoint, ' ', 2)[0]
  {
    var i := Find(endpoint, ' ');
    if i < |endpoint| {
      assert endpoint == endpoint[..i] + [' '] + endpoint[i + 1..];
    }
  }

  lemma TwoPrefixes(p: string, q: string, path: string)
    requires p <= path && q <= path
    ensures p <= q || q <= p
  {
    if |p| <= |q| {
      assert p == path[..|p|] == q[..|p|];
    } else {
      assert q == path[..|q|] == p[..|q|];
    }
  }

  /** In a prefix-free registry all entries that match one request have the same endpoint. */
  lemma MatchesShareTheEndpoint(gs: seq<Gap>, verb: string, path: string, i: nat, j: nat)
    requires PrefixFree(gs) && i < |gs| && j < |gs| && Hits(gs[i], verb, path) && Hits(gs[j], verb, path)
    ensures gs[i].endpoint == gs[j].endpoint
  {
    SplitIsOneOrTwo(gs[i].endpoint);
    SplitIsOneOrTwo(gs[j].endpoint);
    TwoPrefixes(PathOf(gs[i].endpoint), PathOf(gs[j].endpoint), path);
  }

  lemma {:induction false} LookupWithin(gs: seq<Gap>, verb: string, path: string, endpoint: string)
    requires forall i | 0 <= i < |gs| && Hits(gs[i], verb, path) :: gs[i].endpoint == endpoint
    ensures Lookup(gs, verb, path) == Lookup(Under(gs, endpoint), verb, path)
  {
    hide Hits;
    if gs != [] {
      var rest := gs[1..];
      assert forall i | 0 <= i < |rest| :: rest[i] == gs[i + 1];
      LookupWithin(rest, verb, path, endpoint);
      var tail := Under(rest, endpoint);
      if gs[0].endpoint == endpoint {
        assert Under(gs, endpoint) == [gs[0]] + tail;
        assert ([gs[0]] + tail)[1..] == tail;
      } else {
        assert Under(gs, endpoint) == tail;
      }
    }
  }

  lemma {:induction false} UnderMembers(gs: seq<Gap>, endpoint: string)
    ensures forall g :: g in Under(gs, endpoint) <==> g in gs && g.endpoint == endpoint
  {
    if gs != [] {
      UnderMembers(gs[1..], endpoint);
      assert gs == [gs[0]] + gs[1..];
    }
  }

  lemma {:induction false} NoneUnder(gs: seq<Gap>, endpoint: string)
    requires forall g | g in gs :: g.endpoint != endpoint
    ensures Under(gs, endpoint) == []
  {
    if gs != [] {
      assert gs[0] in gs && forall g | g in gs[1..] :: g in gs;
      NoneUnder(gs[1..], endpoint);
    }
  }

  /**
    Lookup does not depend on the order of a prefix-free registry, as long as entries of
    the same endpoint keep their order.
  */
  lemma OrderIsIrrelevant(gs: seq<Gap>, hs: seq<Gap>, verb: string, path: string)
    requires PrefixFree(gs) && forall e: string :: Under(gs, e) == Under(hs, e)
    ensures Lookup(gs, verb, path) == Lookup(hs, verb, path)
  {
    forall g ensures g in gs <==> g in hs {
      UnderMembers(gs, g.endpoint);
      UnderMembers(hs, g.endpoint);
    }
    if i :| 0 <= i < |gs| && Hits(gs[i], verb, path) {
      var e := gs[i].endpoint;
      forall j | 0 <= j < |gs| && Hits(gs[j], verb, path) ensures gs[j].endpoint == e {
        MatchesShareTheEndpoint(gs, verb, path, i, j);
      }
      forall j | 0 <= j < |hs| && Hits(hs[j], verb, path) ensures hs[j].endpoint == e {
        assert hs[j] in hs;
        var k :| 0 <= k < |gs| && gs[k] == hs[j];
        MatchesShareTheEndpoint(gs, verb, path, i, k);
      }
      LookupWithin(gs, verb, path, e);
      LookupWithin(hs, verb, path, e);
    } else {
      forall j | 0 <= j < |hs| ensures !Hits(hs[j], verb, path) {
        assert hs[j] in hs;
        var k :| 0 <= k < |gs| && gs[k] == hs[j];
      }
      LookupIsFirstMatch(gs, verb, path);
      LookupIsFirstMatch(hs, verb, path);
    }
  }

  // Exactly when two orders answer alike.

  ghost predicate AnswersAgree(gs: seq<Gap>, hs: seq<Gap>) {
    forall verb: string, path: string :: Lookup(gs, verb, path) == Lookup(hs, verb, path)
  }

  function FirstId(gs: seq<Gap>, endpoint: string): Option<string> {
    if Under(gs, endpoint) == [] then None else Some(Under(gs, endpoint)[0].id)
  }

  ghost predicate FirstsAgree(gs: seq<Gap>, hs: seq<Gap>) {
    forall e: string :: FirstId(gs, e) == FirstId(hs, e)
  }

  ghost predicate SameEntries(gs: seq<Gap>, hs: seq<Gap>) { forall g :: g in gs <==> g in hs }

  /** The endpoint alone says which requests an entry matches. */
  predicate AnyMethod(gs: seq<Gap>) { forall i | 0 <= i < |gs| :: gs[i].verb == "" }

  /** The request that names exactly this endpoint. */
  function VerbOf(endpoint: string): string { SplitN(endpoint, ' ', 2)[0] }

  lemma AnswerIsFirstId(gs: seq<Gap>, hs: seq<Gap>, verb: string, path: string, i: nat)
    requires PrefixFree(gs) && AnyMethod(gs) && SameEntries(gs, hs) && i < |gs| && Hits(gs[i], verb, path)
    ensures FirstId(hs, gs[i].endpoint).Some?
    ensures Lookup(hs, verb, path) == (FirstId(hs, gs[i].endpoint).value, true)
  {
    hide PrefixFree, MatchPattern, SplitN;
    var e := gs[i].endpoint;
    forall j | 0 <= j < |hs| && Hits(hs[j], verb, path) ensures hs[j].endpoint == e {
      assert hs[j] in hs;
      var k :| 0 <= k < |gs| && gs[k] == hs[j];
      MatchesShareTheEndpoint(gs, verb, path, i, k);
    }
    LookupWithin(hs, verb, path, e);
    UnderMembers(hs, e);
    assert gs[i] in gs && gs[i] in Under(hs, e);
    var first := Under(hs, e)[0];
    assert first in Under(hs, e) && first in gs;
    var k :| 0 <= k < |gs| && gs[k] == first;
    assert Hits(first, verb, path);
  }

  lemma NoAnswer(gs: seq<Gap>, hs: seq<Gap>, verb: string, path: string)
    requires SameEntries(gs, hs) && forall i | 0 <= i < |gs| :: !Hits(gs[i], verb, path)
    ensures Lookup(hs, verb, path) == (UNCATALOGUED, false)
  {
    hide Hits;
    forall j | 0 <= j < |hs| ensures !Hits(hs[j], verb, path) {
      assert hs[j] in hs;
      var k :| 0 <= k < |gs| && gs[k] == hs[j];
    }
    LookupIsFirstMatch(hs, verb, path);
  }

  lemma NamedRequestHits(g: Gap)
    requires g.verb == ""
    ensures Hits(g, VerbOf(g.endpoint), PathOf(g.endpoint))
  {
    SplitIsOneOrTwo(g.endpoint);
  }

  /**
    Two lists of the same entries, prefix-free and bound to no other method, answer every
    request alike if and only if each endpoint has the same first identifier in both.
  */
  lemma AnswersAgreeIff(gs: seq<Gap>, hs: seq<Gap>)
    requires PrefixFree(gs) && AnyMethod(gs) && SameEntries(gs, hs)
    ensures AnswersAgree(gs, hs) <==> FirstsAgree(gs, hs)
  {
    hide PrefixFree, Hits, Lookup, Under;
    if FirstsAgree(gs, hs) {
      forall verb: string, path: string ensures Lookup(gs, verb, path) == Lookup(hs, verb, path) {
        if i: nat :| i < |gs| && Hits(gs[i], verb, path) {
          AnswerIsFirstId(gs, gs, verb, path, i);
          AnswerIsFirstId(gs, hs, verb, path, i);
        } else {
          NoAnswer(gs, gs, verb, path);
          NoAnswer(gs, hs, verb, path);
        }
      }
    }
    if AnswersAgree(gs, hs) {
      forall e: string ensures FirstId(gs, e) == FirstId(hs, e) {
        UnderMembers(gs, e);
        UnderMembers(hs, e);
        if i: nat :| i < |gs| && gs[i].endpoint == e {
          NamedRequestHits(gs[i]);
          AnswerIsFirstId(gs, gs, VerbOf(e), PathOf(e), i);
          AnswerIsFirstId(gs, hs, VerbOf(e), PathOf(e), i);
        } else {
          NoneUnder(gs, e);
          NoneUnder(hs, e);
        }
      }
    }
  }

  // The registry itself.

  const REGISTRY: seq<Gap> := [
    Open("MOCKTA_GAP_0001", On("GET", "/api/v1/users")),
    Open("MOCKTA_GAP_0002", On("GET", "/api/v1/groups")),
    Open("MOCKTA_GAP_0003", On("GET", "/api/v1/apps")),
    Open("MOCKTA_GAP_0004", On("POST", "/api/v1/groups")),
    Open("MOCKTA_GAP_0005", On("POST", "/api/v1/groups")),
    Open("MOCKTA_GAP_0006", On("POST", "/api/v1/apps")),
    Open("MOCKTA_GAP_0010", "/api/v1/policies"),
    Open("MOCKTA_GAP_0011", "/api/v1/authorizationServers"),
    Open("MOCKTA_GAP_0012", "/api/v1/idps"),
    Open("MOCKTA_GAP_0013", "/api/v1/trustedOrigins"),
    Open("MOCKTA_GAP_0014", "/api/v1/inlineHooks"),
    Open("MOCKTA_GAP_0015", "/api/v1/eventHooks"),
    Open("MOCKTA_GAP_0016", "/api/v1/behaviors"),
    Open("MOCKTA_GAP_0017", "/api/v1/networkZones"),
    Open("MOCKTA_GAP_0018", "/api/v1/meta/schemas"),
    Open("MOCKTA_GAP_0019", "/api/v1/sessions"),
    Open("MOCKTA_GAP_0020", "/scim/v2")
  ]

  // How the proofs tell the endpoints apart: comparing each pair of strings would be long, so
  // the endpoint is computed from a few of its bytes. No statement about the registry mentions
  // these functions; that they are right about every entry is proved by EveryEntryTells and
  // EntrySlot.

  /** The registered path whose resource starts with these two letters, and whether it has a verb. */
  function Registered(c: char, d: char): (bool, string) {
    if c == 'u' then (true, "/api/v1/users")
    else if c == 'g' then (true, "/api/v1/groups")
    else if c == 'p' then (false, "/api/v1/policies")
    else if c == 'i' then (false, if d == 'd' then "/api/v1/idps" else "/api/v1/inlineHooks")
    else if c == 't' then (false, "/api/v1/trustedOrigins")
    else if c == 'e' then (false, "/api/v1/eventHooks")
    else if c == 'b' then (false, "/api/v1/behaviors")
    else if c == 'n' then (false, "/api/v1/networkZones")
    else if c == 'm' then (false, "/api/v1/meta/schemas")
    else if c == 's' then (false, "/api/v1/sessions")
    else if d == 'p' then (true, "/api/v1/apps")
    else (false, "/api/v1/authorizationServers")
  }

  /** An endpoint that three of its path's bytes determine. */
  predicate Telling(endpoint: string) {
    var path := PathOf(endpoint);
    && |path| >= 8
    && (if path[1] == 's' then (HasVerb(endpoint), path) == (false, "/scim/v2")
        else |path| >= 10 && (HasVerb(endpoint), path) == Registered(path[8], path[9]))
  }

  lemma WithVerb(verb: string, path: string)
    requires ' ' !in verb
    ensures HasVerb(On(verb, path)) && PathOf(On(verb, path)) == path
  {
    FindSkips(verb, path, ' ');
    assert On(verb, path)[..|verb|] == verb && On(verb, path)[|verb| + 1..] == path;
  }

  lemma WithoutVerb(path: string)
    requires ' ' !in path
    ensures !HasVerb(path) && PathOf(path) == path
  {
  }

  lemma RoutedEndpointsTell()
    ensures Telling(On("GET", "/api/v1/users"))
    ensures Telling(On("GET", "/api/v1/groups")) && Telling(On("POST", "/api/v1/groups"))
    ensures Telling(On("GET", "/api/v1/apps")) && Telling(On("POST", "/api/v1/apps"))
  {
    hide HasVerb, PathOf, On;
    WithVerb("GET", "/api/v1/users");
    WithVerb("GET", "/api/v1/groups");
    WithVerb("POST", "/api/v1/groups");
    WithVerb("GET", "/api/v1/apps");
    WithVerb("POST", "/api/v1/apps");
  }

  lemma PoliciesTell()
    ensures Telling("/api/v1/policies")
    ensures Telling("/api/v1/idps")
  {
    hide HasVerb, PathOf;
    WithoutVerb("/api/v1/policies");
    WithoutVerb("/api/v1/idps");
  }

  lemma ServersTell()
    ensures Telling("/api/v1/authorizationServers")
  {
    hide HasVerb, PathOf;
    WithoutVerb("/api/v1/authorizationServers");
  }

  lemma HooksTell()
    ensures Telling("/api/v1/inlineHooks")
    ensures Telling("/api/v1/eventHooks")
  {
    hide HasVerb, PathOf;
    WithoutVerb("/api/v1/inlineHooks");
    WithoutVerb("/api/v1/eventHooks");
  }

  lemma OriginsTell()
    ensures Telling("/api/v1/trustedOrigins")
    ensures Telling("/api/v1/behaviors")
  {
    hide HasVerb, PathOf;
    WithoutVerb("/api/v1/trustedOrigins");
    WithoutVerb("/api/v1/behaviors");
  }

  lemma ZonesTell()
    ensures Telling("/api/v1/networkZones")
    ensures Telling("/api/v1/meta/schemas")
  {
    hide HasVerb, PathOf;
    WithoutVerb("/api/v1/networkZones");
    WithoutVerb("/api/v1/meta/schemas");
  }

  lemma SessionsTell()
    ensures Telling("/api/v1/sessions")
    ensures Telling("/scim/v2")
  {
    hide HasVerb, PathOf;
    WithoutVerb("/api/v1/sessions");
    WithoutVerb("/scim/v2");
  }

  lemma EveryEntryTells(i: nat)
    requires i < |REGISTRY|
    ensures Telling(REGISTRY[i].endpoint)
  {
    hide Telling, On;
    RoutedEndpointsTell();
    PoliciesTell();
    ServersTell();
    HooksTell();
    OriginsTell();
    ZonesTell();
    SessionsTell();
  }

  /** No registered path is a proper prefix of another. */
  lemma RegistryIsPrefixFree()
    ensures PrefixFree(REGISTRY)
  {
    hide HasVerb, PathOf, REGISTRY;
    forall i, j | && 0 <= i < |REGISTRY| && 0 <= j < |REGISTRY|
                  && PathOf(REGISTRY[i].endpoint) <= PathOf(REGISTRY[j].endpoint)
      ensures PathOf(REGISTRY[i].endpoint) == PathOf(REGISTRY[j].endpoint)
      ensures HasVerb(REGISTRY[i].endpoint) == HasVerb(REGISTRY[j].endpoint)
    {
      EveryEntryTells(i);
      EveryEntryTells(j);
    }
  }

  /** The number of this endpoint among the sixteen, told by a few of its bytes; SlotAt has those of the entries. */
  function Slot(e: string): nat {
    if |e| == 8 then 15
    else if |e| == 12 then 7
    else if |e| < 14 then 16
    else if e[0] == 'G' then (if e[12] == 'u' then 0 else if e[12] == 'g' then 1 else 2)
    else if e[0] == 'P' then (if e[13] == 'g' then 3 else 4)
    else if e[8] == 'p' then 5
    else if e[8] == 'a' then 6
    else if e[8] == 't' then 8
    else if e[8] == 'i' then 9
    else if e[8] == 'e' then 10
    else if e[8] == 'b' then 11
    else if e[8] == 'n' then 12
    else if e[8] == 'm' then 13
    else 14
  }

  function SlotAt(i: nat): nat { if i <= 3 then i else i - 1 }

  lemma RoutedSlots()
    ensures Slot(On("GET", "/api/v1/users")) == 0 && Slot(On("GET", "/api/v1/groups")) == 1
    ensures Slot(On("GET", "/api/v1/apps")) == 2
    ensures Slot(On("POST", "/api/v1/groups")) == 3 && Slot(On("POST", "/api/v1/apps")) == 4
  {
  }

  lemma BareSlots()
    ensures Slot("/api/v1/policies") == 5 && Slot("/api/v1/authorizationServers") == 6 && Slot("/api/v1/idps") == 7
    ensures Slot("/api/v1/trustedOrigins") == 8 && Slot("/api/v1/inlineHooks") == 9 && Slot("/api/v1/eventHooks") == 10
  {
  }

  lemma MoreBareSlots()
    ensures Slot("/api/v1/behaviors") == 11 && Slot("/api/v1/networkZones") == 12 && Slot("/api/v1/meta/schemas") == 13
    ensures Slot("/api/v1/sessions") == 14 && Slot("/scim/v2") == 15
  {
  }

  lemma EntrySlot(i: nat)
    requires i < |REGISTRY|
    ensures Slot(REGISTRY[i].endpoint) == SlotAt(i)
  {
    hide Slot, On;
    RoutedSlots();
    BareSlots();
    MoreBareSlots();
  }

  const APP_GROUP_ENTRY: nat := 3
  const BUILT_IN_ENTRY: nat := 4

  lemma TwoEntriesOfOneEndpoint()
    ensures |REGISTRY| == 17 && AnyMethod(REGISTRY)
    ensures REGISTRY[APP_GROUP_ENTRY].endpoint == REGISTRY[BUILT_IN_ENTRY].endpoint
    ensures REGISTRY[APP_GROUP_ENTRY].id != REGISTRY[BUILT_IN_ENTRY].id
  {
    hide On;
    assert REGISTRY[APP_GROUP_ENTRY].id[14] != REGISTRY[BUILT_IN_ENTRY].id[14];
  }

  /** The list has the APP_GROUP entry before any BUILT_IN one. */
  ghost predicate AppGroupFirst(hs: seq<Gap>)
    requires |REGISTRY| == 17
  {
    exists i: nat ::
      i < |hs| && hs[i] == REGISTRY[APP_GROUP_ENTRY] && forall j | 0 <= j < i :: hs[j] != REGISTRY[BUILT_IN_ENTRY]
  }

  lemma {:induction false} UnderFirst(gs: seq<Gap>, e: string, i: nat)
    requires i < |gs| && gs[i].endpoint == e && forall j | 0 <= j < i :: gs[j].endpoint != e
    ensures Under(gs, e) != [] && Under(gs, e)[0] == gs[i]
  {
    if i > 0 {
      assert forall j | 0 <= j < i - 1 :: gs[1..][j] == gs[j + 1];
      UnderFirst(gs[1..], e, i - 1);
    }
  }

  /** The index of an endpoint's first entry. */
  lemma {:induction false} FirstIndex(gs: seq<Gap>, e: string) returns (i: nat)
    requires exists g :: g in gs && g.endpoint == e
    ensures i < |gs| && gs[i].endpoint == e && forall j | 0 <= j < i :: gs[j].endpoint != e
  {
    if gs[0].endpoint == e {
      i := 0;
    } else {
      var g :| g in gs && g.endpoint == e;
      assert g in gs[1..];
      var k := FirstIndex(gs[1..], e);
      i := k + 1;
      assert forall j | 0 < j < i :: gs[j] == gs[1..][j - 1];
    }
  }

  /** Apart from POST groups each endpoint has one entry. */
  lemma OneEntryEach(i: nat, j: nat)
    requires i < |REGISTRY| && j < |REGISTRY| && REGISTRY[i].endpoint == REGISTRY[j].endpoint
    ensures i == j || (i in {APP_GROUP_ENTRY, BUILT_IN_ENTRY} && j in {APP_GROUP_ENTRY, BUILT_IN_ENTRY})
  {
    hide REGISTRY, Slot;
    EntrySlot(i);
    EntrySlot(j);
  }

  /** What comes first for an endpoint, in the registry and in any list of the same entries. */
  lemma FirstIdsOfRegistry(hs: seq<Gap>, e: string)
    requires SameEntries(REGISTRY, hs) && |REGISTRY| == 17
    ensures e != REGISTRY[APP_GROUP_ENTRY].endpoint ==> FirstId(REGISTRY, e) == FirstId(hs, e)
    ensures e == REGISTRY[APP_GROUP_ENTRY].endpoint ==> (FirstId(REGISTRY, e) == FirstId(hs, e) <==> AppGroupFirst(hs))
  {
    hide REGISTRY, Under;
    TwoEntriesOfOneEndpoint();
    UnderMembers(REGISTRY, e);
    UnderMembers(hs, e);
    if exists g :: g in hs && g.endpoint == e {
      var a := FirstIndex(REGISTRY, e);
      var b := FirstIndex(hs, e);
      UnderFirst(REGISTRY, e, a);
      UnderFirst(hs, e, b);
      assert hs[b] in REGISTRY;
      var k: nat :| k < |REGISTRY| && REGISTRY[k] == hs[b];
      OneEntryEach(a, k);
      if e == REGISTRY[APP_GROUP_ENTRY].endpoint {
        OneEntryEach(a, APP_GROUP_ENTRY);
        FirstOfTwo(hs, b);
      }
    } else {
      NoneUnder(REGISTRY, e);
      NoneUnder(hs, e);
    }
  }

  lemma FirstOfTwo(hs: seq<Gap>, b: nat)
    requires SameEntries(REGISTRY, hs) && |REGISTRY| == 17 && b < |hs|
    requires hs[b].endpoint == REGISTRY[APP_GROUP_ENTRY].endpoint
    requires forall j | 0 <= j < b :: hs[j].endpoint != hs[b].endpoint
    ensures AppGroupFirst(hs) <==> hs[b] == REGISTRY[APP_GROUP_ENTRY]
    ensures hs[b] in {REGISTRY[APP_GROUP_ENTRY], REGISTRY[BUILT_IN_ENTRY]}
  {
    hide REGISTRY;
    TwoEntriesOfOneEndpoint();
    assert hs[b] in REGISTRY;
    var k: nat :| k < |REGISTRY| && REGISTRY[k] == hs[b];
    OneEntryEach(k, APP_GROUP_ENTRY);
    if AppGroupFirst(hs) {
      var i: nat :| i < |hs| && hs[i] == REGISTRY[APP_GROUP_ENTRY]
                    && forall j | 0 <= j < i :: hs[j] != REGISTRY[BUILT_IN_ENTRY];
      assert b <= i;
      assert b < i ==> hs[b] != REGISTRY[BUILT_IN_ENTRY];
    }
  }

  /**
    Any list of the registry's entries answers every request as the registry does if and
    only if it has the APP_GROUP entry for POST groups before the BUILT_IN one.
  */
  lemma RegistryOrderIff(hs: seq<Gap>)
    requires SameEntries(REGISTRY, hs)
    ensures |REGISTRY| == 17 && (AnswersAgree(REGISTRY, hs) <==> AppGroupFirst(hs))
  {
    hide REGISTRY, PrefixFree, FirstId, AnyMethod, AnswersAgree;
    TwoEntriesOfOneEndpoint();
    RegistryIsPrefixFree();
    AnswersAgreeIff(REGISTRY, hs);
    FirstIdsOfRegistry(hs, REGISTRY[APP_GROUP_ENTRY].endpoint);
    if AppGroupFirst(hs) {
      forall e: string ensures FirstId(REGISTRY, e) == FirstId(hs, e) { FirstIdsOfRegistry(hs, e); }
    }
  }

  /** Every request on an entry's path, or below it, is answered with the first identifier of that endpoint. */
  lemma RegistryAnswers(i: nat, verb: string, path: string)
    requires i < |REGISTRY| && Covers(REGISTRY[i].endpoint, verb, path)
    ensures exists k :: 0 <= k <= i && REGISTRY[k].endpoint == REGISTRY[i].endpoint
                        && (forall j | 0 <= j < k :: REGISTRY[j].endpoint != REGISTRY[i].endpoint)
                        && Lookup(REGISTRY, verb, path) == (REGISTRY[k].id, true)
  {
    hide REGISTRY, MatchPattern, Covers, PrefixFree;
    TwoEntriesOfOneEndpoint();
    RegistryIsPrefixFree();
    var k := FirstIndex(REGISTRY, REGISTRY[i].endpoint);
    MatchesIff(REGISTRY[i].endpoint, verb, path);
    assert Hits(REGISTRY[k], verb, path);
    forall j | 0 <= j < k ensures !Hits(REGISTRY[j], verb, path) {
      if Hits(REGISTRY[j], verb, path) { MatchesShareTheEndpoint(REGISTRY, verb, path, i, j); }
    }
    LookupIsFirstMatch(REGISTRY, verb, path);
  }

  lemma EntryAnswers(i: nat, verb: string, path: string)
    requires i < |REGISTRY| && i != BUILT_IN_ENTRY && Covers(REGISTRY[i].endpoint, verb, path)
    ensures Lookup(REGISTRY, verb, path) == (REGISTRY[i].id, true)
  {
    hide REGISTRY, Lookup, Covers;
    RegistryAnswers(i, verb, path);
    var k: nat :| k <= i && REGISTRY[k].endpoint == REGISTRY[i].endpoint
                  && Lookup(REGISTRY, verb, path) == (REGISTRY[k].id, true);
    OneEntryEach(i, k);
  }

  lemma PathCovers(p: string, verb: string, rest: string)
    requires ' ' !in p
    ensures Covers(p, verb, p + rest)
  {
  }

  lemma VerbCovers(verb: string, p: string, rest: string)
    requires ' ' !in verb
    ensures Covers(On(verb, p), verb, p + rest)
  {
    assert On(verb, p) == verb + " " + p;
  }

  // The answers of the registry, whatever follows the path.

  lemma AnswersForAnyVerb(verb: string, rest: string)
    ensures Lookup(REGISTRY, verb, "/api/v1/policies" + rest) == ("MOCKTA_GAP_0010", true)
    ensures Lookup(REGISTRY, verb, "/api/v1/idps" + rest) == ("MOCKTA_GAP_0012", true)
    ensures Lookup(REGISTRY, verb, "/api/v1/trustedOrigins" + rest) == ("MOCKTA_GAP_0013", true)
  {
    hide Lookup, Covers, On;
    PathCovers("/api/v1/policies", verb, rest);
    EntryAnswers(6, verb, "/api/v1/policies" + rest);
    PathCovers("/api/v1/idps", verb, rest);
    EntryAnswers(8, verb, "/api/v1/idps" + rest);
    PathCovers("/api/v1/trustedOrigins", verb, rest);
    EntryAnswers(9, verb, "/api/v1/trustedOrigins" + rest);
  }

  lemma ServersForAnyVerb(verb: string, rest: string)
    ensures Lookup(REGISTRY, verb, "/api/v1/authorizationServers" + rest) == ("MOCKTA_GAP_0011", true)
  {
    hide Lookup, Covers, On;
    PathCovers("/api/v1/authorizationServers", verb, rest);
    EntryAnswers(7, verb, "/api/v1/authorizationServers" + rest);
  }

  lemma MoreAnswersForAnyVerb(verb: string, rest: string)
    ensures Lookup(REGISTRY, verb, "/api/v1/inlineHooks" + rest) == ("MOCKTA_GAP_0014", true)
    ensures Lookup(REGISTRY, verb, "/api/v1/eventHooks" + rest) == ("MOCKTA_GAP_0015", true)
    ensures Lookup(REGISTRY, verb, "/api/v1/behaviors" + rest) == ("MOCKTA_GAP_0016", true)
    ensures Lookup(REGISTRY, verb, "/api/v1/networkZones" + rest) == ("MOCKTA_GAP_0017", true)
  {
    hide Lookup, Covers, On;
    PathCovers("/api/v1/inlineHooks", verb, rest);
    EntryAnswers(10, verb, "/api/v1/inlineHooks" + rest);
    PathCovers("/api/v1/eventHooks", verb, rest);
    EntryAnswers(11, verb, "/api/v1/eventHooks" + rest);
    PathCovers("/api/v1/behaviors", verb, rest);
    EntryAnswers(12, verb, "/api/v1/behaviors" + rest);
    PathCovers("/api/v1/networkZones", verb, rest);
    EntryAnswers(13, verb, "/api/v1/networkZones" + rest);
  }

  lemma LastAnswersForAnyVerb(verb: string, rest: string)
    ensures Lookup(REGISTRY, verb, "/api/v1/meta/schemas" + rest) == ("MOCKTA_GAP_0018", true)
    ensures Lookup(REGISTRY, verb, "/api/v1/sessions" + rest) == ("MOCKTA_GAP_0019", true)
    ensures Lookup(REGISTRY, verb, "/scim/v2" + rest) == ("MOCKTA_GAP_0020", true)
  {
    hide Lookup, Covers, On;
    PathCovers("/api/v1/meta/schemas", verb, rest);
    EntryAnswers(14, verb, "/api/v1/meta/schemas" + rest);
    PathCovers("/api/v1/sessions", verb, rest);
    EntryAnswers(15, verb, "/api/v1/sessions" + rest);
    PathCovers("/scim/v2", verb, rest);
    EntryAnswers(16, verb, "/scim/v2" + rest);
  }

  lemma AnswersByVerb(rest: string)
    ensures Lookup(REGISTRY, "GET", "/api/v1/users" + rest) == ("MOCKTA_GAP_0001", true)
    ensures Lookup(REGISTRY, "GET", "/api/v1/groups" + rest) == ("MOCKTA_GAP_0002", true)
    ensures Lookup(REGISTRY, "GET", "/api/v1/apps" + rest) == ("MOCKTA_GAP_0003", true)
    ensures Lookup(REGISTRY, "POST", "/api/v1/groups" + rest) == ("MOCKTA_GAP_0004", true)
    ensures Lookup(REGISTRY, "POST", "/api/v1/apps" + rest) == ("MOCKTA_GAP_0006", true)
  {
    hide Lookup, Covers, On;
    VerbCovers("GET", "/api/v1/users", rest);
    EntryAnswers(0, "GET", "/api/v1/users" + rest);
    VerbCovers("GET", "/api/v1/groups", rest);
    EntryAnswers(1, "GET", "/api/v1/groups" + rest);
    VerbCovers("GET", "/api/v1/apps", rest);
    EntryAnswers(2, "GET", "/api/v1/apps" + rest);
    VerbCovers("POST", "/api/v1/groups", rest);
    EntryAnswers(3, "POST", "/api/v1/groups" + rest);
    VerbCovers("POST", "/api/v1/apps", rest);
    EntryAnswers(5, "POST", "/api/v1/apps" + rest);
  }
}
