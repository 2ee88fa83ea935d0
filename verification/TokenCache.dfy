/**
 The token broker: the request gate (internal/usecase/broker_token.go), the minting broker
 (internal/adapter/output/github/installation_token_broker.go) and the cache between them
 (internal/adapter/output/cache/installation_token_cache.go, internal/composition/broker_dependencies.go).
 Requests run concurrently; those that miss the cache for the same key share one upstream mint.
 */
module TokenCache {
  import opened Wrappers
  import opened Projects
  import Text

  // ---------------------------------------------------------------- the grant matrix

  datatype Level = NoAccess | ReadAccess | WriteAccess

  datatype Permissions = Permissions(contents: Level, pullRequests: Level)

  datatype BrokerError = ToolNotPermitted | ProjectNotFound | ProjectNotActive | InstallationMissing | MintFailed

  function PermissionsFor(tool: string): (r: Result<Permissions, BrokerError>)
    ensures r.Ok? ==> '|' !in tool
  {
    if tool == "paintress" then Ok(Permissions(WriteAccess, WriteAccess))
    else if tool == "sightjack" then Ok(Permissions(ReadAccess, NoAccess))
    else if tool == "amadeus" then Ok(Permissions(ReadAccess, ReadAccess))
    else if tool == "dominator" then Ok(Permissions(ReadAccess, NoAccess))
    else Err(ToolNotPermitted)
  }

  predicate KnownCaller(caller: string) {
    caller in {"human-operator", "gateway-service", "ai-agent", "workspace-daemon"}
  }

  // ---------------------------------------------------------------- requests, tokens, keys

  datatype Actor = Actor(caller: string, email: string, session: string)

  datatype Request = Request(project: string, tool: string)

  datatype Token = Token(raw: string, expiresAt: int, actor: Actor, project: string, tool: string,
      permissions: Permissions)

  function CacheKey(req: Request, actor: Actor): string {
    req.project + "|" + req.tool + "|" + actor.caller + "|" + actor.email
  }

  lemma KeyGroups(req: Request, actor: Actor)
    ensures CacheKey(req, actor) == req.project + ['|'] + (req.tool + ['|'] + (actor.caller + ['|'] + actor.email))
  {
  }

  /** One key, one project, tool, caller type and email; only the session may differ. */
  lemma CacheKeyInjective(req: Request, actor: Actor, req': Request, actor': Actor)
    requires forall part | part in {req.project, req.tool, actor.caller, req'.project, req'.tool, actor'.caller} ::
        '|' !in part
    ensures CacheKey(req, actor) == CacheKey(req', actor') <==>
            req == req' && actor.caller == actor'.caller && actor.email == actor'.email
  {
    KeyGroups(req, actor);
    KeyGroups(req', actor');
    if CacheKey(req, actor) == CacheKey(req', actor') {
      var c, c' := actor.caller + ['|'] + actor.email, actor'.caller + ['|'] + actor'.email;
      Text.SeparatorSplits(req.project, '|', req.tool + ['|'] + c, req'.project, req'.tool + ['|'] + c');
      Text.SeparatorSplits(req.tool, '|', c, req'.tool, c');
      Text.SeparatorSplits(actor.caller, '|', actor.email, actor'.caller, actor'.email);
    }
  }

  /** Without the restriction on project ids, two projects would share a key. */
  lemma KeyNeedsCleanIds()
    ensures CacheKey(Request("a|b", "c"), Actor("d", "e", "")) == CacheKey(Request("a", "b|c"), Actor("d", "e", ""))
  {
    assert "a|b" + "|" + "c" == "a" + "|" + "b|c";
  }

  // ---------------------------------------------------------------- the broker without a cache

  /** The gate in front of the broker; the row it read is kept with the request. */
  function Gate(projects: Table, req: Request): Result<Project, BrokerError> {
    if PermissionsFor(req.tool).Err? then Err(PermissionsFor(req.tool).error)
    else if req.project !in projects then Err(ProjectNotFound)
    else
      var row := projects[req.project];
      if row.status != Active then Err(ProjectNotActive)
      else if row.fields.installation == 0 then Err(InstallationMissing)
      else Ok(row)
  }

  /** Which tools are served at all, and which of them may write. */
  lemma PermissionsAre(tool: string)
    ensures PermissionsFor(tool).Ok? <==> tool in {"paintress", "sightjack", "amadeus", "dominator"}
    ensures PermissionsFor(tool).Err? ==> PermissionsFor(tool).error == ToolNotPermitted
    ensures PermissionsFor(tool).Ok? ==>
              var p := PermissionsFor(tool).value;
              && p.contents == (if tool == "paintress" then WriteAccess else ReadAccess)
              && p.pullRequests == (if tool == "paintress" then WriteAccess
                                    else if tool == "amadeus" then ReadAccess else NoAccess)
  {
  }

  /** A request is admitted exactly for a served tool and an active project with an installation. */
  lemma GateAdmits(projects: Table, req: Request)
    ensures Gate(projects, req).Ok? <==>
      && req.tool in {"paintress", "sightjack", "amadeus", "dominator"}
      && req.project in projects
      && projects[req.project].status == Active && projects[req.project].fields.installation != 0
    ensures Gate(projects, req).Ok? ==> Gate(projects, req).value == projects[req.project]
    ensures Gate(projects, req).Err? ==>
      match Gate(projects, req).error
      case ToolNotPermitted => req.tool !in {"paintress", "sightjack", "amadeus", "dominator"}
      case ProjectNotFound => req.project !in projects
      case ProjectNotActive => projects[req.project].status == Archived
      case InstallationMissing => projects[req.project].fields.installation == 0
      case MintFailed => false
  {
    PermissionsAre(req.tool);
    hide PermissionsFor;
  }

  /** What GitHub answers to one mint call. */
  type Upstream = Option<(string, int)>

  function DirectMint(projects: Table, req: Request, actor: Actor, upstream: Upstream): Result<Token, BrokerError> {
    var permissions := PermissionsFor(req.tool);
    if permissions.Err? then Err(permissions.error)
    else if req.project !in projects then Err(ProjectNotFound)
    else if upstream.None? then Err(MintFailed)
    else Ok(Token(upstream.value.0, upstream.value.1, actor, req.project, req.tool, permissions.value))
  }

  /** The token a direct mint would give for this request, up to value, expiry and session. */
  predicate Matches(token: Token, req: Request, actor: Actor) {
    && token.project == req.project && token.tool == req.tool
    && token.actor.caller == actor.caller && token.actor.email == actor.email
    && PermissionsFor(req.tool) == Ok(token.permissions)
  }

  lemma DirectMatches(projects: Table, req: Request, actor: Actor, upstream: Upstream)
    ensures var r := DirectMint(projects, req, actor, upstream);
            && (r.Ok? <==> PermissionsFor(req.tool).Ok? && req.project in projects && upstream.Some?)
            && (r.Ok? ==> Matches(r.value, req, actor) && upstream == Some((r.value.raw, r.value.expiresAt)))
            && (r.Err? ==> match r.error
                           case ToolNotPermitted => PermissionsFor(req.tool).Err?
                           case ProjectNotFound => req.project !in projects
                           case MintFailed => upstream.None?
                           case _ => false)
  {
    PermissionsAre(req.tool);
  }

  // ---------------------------------------------------------------- the cache

  /** Five minutes, in nanoseconds. */
  const SAFETY_MARGIN := 300_000_000_000

  type Items = map<string, Token>

  predicate FreshAt(token: Token, now: int) {
    token.expiresAt - now > SAFETY_MARGIN
  }

  /** A lookup: the token if it is fresh; one that is not is dropped. */
  function Found(items: Items, key: string, now: int): Option<Token> {
    if key in items && FreshAt(items[key], now) then Some(items[key]) else None
  }

  function Swept(items: Items, key: string, now: int): Items {
    if key in items && !FreshAt(items[key], now) then items - {key} else items
  }

  class InstallationTokenCache {
    var items: Items

    constructor ()
      ensures items == map[]
    {
      items := map[];
    }

    method Lookup(key: string, now: int) returns (token: Option<Token>)
      modifies this
      ensures token == Found(old(items), key, now) && items == Swept(old(items), key, now)
      ensures token.Some? <==> key in old(items) && now + 5 * 60 * 1_000_000_000 < old(items)[key].expiresAt
      ensures token.Some? ==> token.value == old(items)[key] && items == old(items)
      ensures token.None? ==> items == old(items) - {key}
    {
      if key !in items {
        return None;
      }
      var found := items[key];
      if found.expiresAt - now <= SAFETY_MARGIN {
        items := items - {key};
        return None;
      }
      return Some(found);
    }

    method Store(key: string, token: Token)
      modifies this
      ensures items == old(items)[key := token]
    {
      items := items[key := token];
    }

    /**
     One undisturbed call, its two lookups at `now` and `later`: a fresh token is returned as it
     is; otherwise the fetched one is returned and stored, and an error is not.
     */
    method GetOrFetch(key: string, now: int, later: int, fetched: Result<Token, BrokerError>)
      returns (r: Result<Token, BrokerError>)
      modifies this
      ensures key in old(items) && now + 5 * 60 * 1_000_000_000 < old(items)[key].expiresAt ==>
                r == Ok(old(items)[key]) && items == old(items)
      ensures !(key in old(items) && now + 5 * 60 * 1_000_000_000 < old(items)[key].expiresAt) ==>
                r == fetched && items == if fetched.Ok? then old(items)[key := fetched.value] else old(items) - {key}
    {
      var hit := Lookup(key, now);
      if hit.Some? {
        return Ok(hit.value);
      }
      hit := Lookup(key, later);
      assert hit == None;   // nobody else can have stored it meanwhile
      if fetched.Err? {
        return fetched;
      }
      Store(key, fetched.value);
      return fetched;
    }
  }

  /**
   A token served at one time is served, and kept, at every earlier one; one dropped is dropped
   at every later one; and dropping one key leaves every other as it was.
   */
  lemma ServedEarlier(items: Items, key: string, now: int, earlier: int)
    requires earlier <= now
    ensures Found(items, key, now).Some? ==>
              Found(items, key, earlier) == Found(items, key, now) && Swept(items, key, earlier) == items
    ensures Found(items, key, earlier).None? ==> Found(items, key, now).None? && key !in Swept(items, key, now)
    ensures forall k | k != key && k in items :: k in Swept(items, key, now) && Swept(items, key, now)[k] == items[k]
  {
  }

  // ---------------------------------------------------------------- concurrent requests

  datatype Stage =
    | Start
    | Gated                                        // admitted
    | Queued                                       // missed the cache
    | Leading                                      // first of its key in the flight group
    | Minting                                      // missed the cache again
    | Fetched(token: Token)                        // minted, not stored yet
    | Finishing(result: Result<Token, BrokerError>, seenAt: Option<int>)
    | Waiting(leader: nat)                         // shares the leader's result
    | Done(result: Result<Token, BrokerError>, seenAt: Option<int>)

  /** `gate` is the registry row the gate admitted; `seenAt` the time of the lookup that gave a cached token. */
  datatype Thread = Thread(req: Request, actor: Actor, gate: Option<Project>, stage: Stage)

  datatype State = State(projects: Table, items: Items, flights: map<string, nat>, threads: map<nat, Thread>, now: int)

  datatype Event =
    | Spawn(t: nat, req: Request, actor: Actor)
    | Admit(t: nat)
    | Look(t: nat)
    | Join(t: nat)
    | Recheck(t: nat)
    | Fetch(t: nat, upstream: Upstream)
    | Keep(t: nat)
    | Release(t: nat)
    | Clock(now: int)
    | AddProject(id: string, fields: Fields)
    | ArchiveProject(id: string)

  function Key(th: Thread): string {
    CacheKey(th.req, th.actor)
  }

  predicate Leads(stage: Stage) {
    stage.Leading? || stage.Minting? || stage.Fetched? || stage.Finishing?
  }

  function At(s: State, t: nat, stage: Stage): State
    requires t in s.threads
  {
    s.(threads := s.threads[t := s.threads[t].(stage := stage)])
  }

  function AdmitStep(s: State, t: nat): State
    requires t in s.threads
  {
    var th := s.threads[t];
    if th.stage != Start then s
    else
      match Gate(s.projects, th.req)
      case Ok(row) => s.(threads := s.threads[t := th.(gate := Some(row), stage := Gated)])
      case Err(e) => At(s, t, Done(Err(e), None))
  }

  function LookStep(s: State, t: nat): State
    requires t in s.threads
  {
    var key := Key(s.threads[t]);
    var found := Found(s.items, key, s.now);
    if s.threads[t].stage != Gated then s
    else At(s, t, if found.Some? then Done(Ok(found.value), Some(s.now))
        else Queued).(items := Swept(s.items, key, s.now))
  }

  function JoinStep(s: State, t: nat): State
    requires t in s.threads
  {
    var key := Key(s.threads[t]);
    if s.threads[t].stage != Queued then s
    else if key in s.flights then At(s, t, Waiting(s.flights[key]))
    else At(s, t, Leading).(flights := s.flights[key := t])
  }

  function RecheckStep(s: State, t: nat): State
    requires t in s.threads
  {
    var key := Key(s.threads[t]);
    var found := Found(s.items, key, s.now);
    if s.threads[t].stage != Leading then s
    else At(s, t, if found.Some? then Finishing(Ok(found.value), Some(s.now))
        else Minting).(items := Swept(s.items, key, s.now))
  }

  function FetchStep(s: State, t: nat, upstream: Upstream): State
    requires t in s.threads
  {
    var th := s.threads[t];
    if th.stage != Minting then s
    else
      var r := DirectMint(s.projects, th.req, th.actor, upstream);
      At(s, t, if r.Ok? then Fetched(r.value) else Finishing(r, None))
  }

  function KeepStep(s: State, t: nat): State
    requires t in s.threads
  {
    var th := s.threads[t];
    if !th.stage.Fetched? then s
    else At(s, t, Finishing(Ok(th.stage.token), None)).(items := s.items[Key(th) := th.stage.token])
  }

  /** The leader and everyone waiting for it return its result; the key is free again. */
  function Released(th: Thread, leads: bool, leader: nat, result: Result<Token, BrokerError>,
                    seenAt: Option<int>): Thread {
    if leads || th.stage == Waiting(leader) then th.(stage := Done(result, seenAt)) else th
  }

  function ReleaseStep(s: State, t: nat): State
    requires t in s.threads
  {
    var th := s.threads[t];
    if !th.stage.Finishing? then s
    else s.(flights := s.flights - {Key(th)},
            threads := map u | u in s.threads :: Released(s.threads[u], u == t, t, th.stage.result, th.stage.seenAt))
  }

  /** One atomic step; an event that is not enabled changes nothing. */
  function Next(s: State, e: Event): State {
    match e
    case Spawn(t, req, actor) =>
      if t in s.threads || !KnownCaller(actor.caller) then s
      else s.(threads := s.threads[t := Thread(req, actor, None, Start)])
    case Admit(t) => if t !in s.threads then s else AdmitStep(s, t)
    case Look(t) => if t !in s.threads then s else LookStep(s, t)
    case Join(t) => if t !in s.threads then s else JoinStep(s, t)
    case Recheck(t) => if t !in s.threads then s else RecheckStep(s, t)
    case Fetch(t, upstream) => if t !in s.threads then s else FetchStep(s, t, upstream)
    case Keep(t) => if t !in s.threads then s else KeepStep(s, t)
    case Release(t) => if t !in s.threads then s else ReleaseStep(s, t)
    case Clock(now) => s.(now := now)
    case AddProject(id, fields) =>
      var r := AddRow(s.projects, id, fields, s.now); if r.Ok? then s.(projects := r.value) else s
    case ArchiveProject(id) =>
      var r := ArchiveRow(s.projects, id, s.now); if r.Ok? then s.(projects := r.value) else s
  }

  function Run(s: State, events: seq<Event>): State
    decreases |events|
  {
    if events == [] then s else Run(Next(s, events[0]), events[1..])
  }

  const START := State(map[], map[], map[], map[], 0)

  // ---------------------------------------------------------------- the invariant

  ghost predicate ProjectsOk(projects: Table) {
    forall id | id in projects :: ValidProjectId(id)
  }

  /** A token sits under the key of the requests it answers. */
  predicate ItemOk(key: string, token: Token) {
    && key == CacheKey(Request(token.project, token.tool), token.actor)
    && ValidProjectId(token.project) && KnownCaller(token.actor.caller)
    && PermissionsFor(token.tool) == Ok(token.permissions)
  }

  ghost predicate ItemsOk(items: Items) {
    forall k | k in items :: ItemOk(k, items[k])
  }

  /** The gate admitted this request for an active project with an installation. */
  predicate GatePassed(th: Thread) {
    && th.gate.Some? && th.gate.value.status == Active && th.gate.value.fields.installation != 0
    && ValidProjectId(th.req.project) && PermissionsFor(th.req.tool).Ok?
  }

  predicate ResultOk(th: Thread, result: Result<Token, BrokerError>, seenAt: Option<int>) {
    result.Ok? ==>
      && GatePassed(th) && Matches(result.value, th.req, th.actor)
      && (seenAt.Some? ==> FreshAt(result.value, seenAt.value))
  }

  predicate ThreadOk(th: Thread) {
    && KnownCaller(th.actor.caller)
    && match th.stage
       case Start => true
       case Done(result, seenAt) => ResultOk(th, result, seenAt)
       case Finishing(result, seenAt) => GatePassed(th) && ResultOk(th, result, seenAt)
       case Fetched(token) => GatePassed(th) && Matches(token, th.req, th.actor)
       case _ => GatePassed(th)
  }

  ghost predicate ThreadsOk(s: State) {
    forall t | t in s.threads :: ThreadOk(s.threads[t])
  }

  /** One leader per key, and waiters wait for the leader of their own key. */
  ghost predicate FlightsOk(s: State) {
    && (forall k | k in s.flights :: s.flights[k] in s.threads && Key(s.threads[s.flights[k]]) == k
          && Leads(s.threads[s.flights[k]].stage))
    && (forall t | t in s.threads && Leads(s.threads[t].stage) ::
          Key(s.threads[t]) in s.flights && s.flights[Key(s.threads[t])] == t)
    && (forall t | t in s.threads && s.threads[t].stage.Waiting? ::
          Key(s.threads[t]) in s.flights && s.flights[Key(s.threads[t])] == s.threads[t].stage.leader)
  }

  ghost predicate Inv(s: State) {
    ProjectsOk(s.projects) && ItemsOk(s.items) && ThreadsOk(s) && FlightsOk(s)
  }

  lemma NoBars(req: Request, caller: string)
    requires ValidProjectId(req.project) && PermissionsFor(req.tool).Ok? && KnownCaller(caller)
    ensures '|' !in req.project && '|' !in req.tool && '|' !in caller
  {
  }

  /** A token found under a request's key answers that request. */
  lemma FoundMatches(items: Items, th: Thread, now: int)
    requires ItemsOk(items) && GatePassed(th) && KnownCaller(th.actor.caller)
    ensures var found := Found(items, Key(th), now); found.Some? ==> ResultOk(th, Ok(found.value), Some(now))
    ensures ItemsOk(Swept(items, Key(th), now))
  {
    var key := Key(th);
    if Found(items, key, now).Some? {
      var token := items[key];
      assert ItemOk(key, token);
      hide CacheKey, ValidProjectId, PermissionsFor, KnownCaller;
      NoBars(th.req, th.actor.caller);
      NoBars(Request(token.project, token.tool), token.actor.caller);
      CacheKeyInjective(th.req, th.actor, Request(token.project, token.tool), token.actor);
    }
  }

  /** Requests with one key are answered by the same tokens. */
  lemma SharedMatches(a: Thread, b: Thread, result: Result<Token, BrokerError>, seenAt: Option<int>)
    requires GatePassed(a) && GatePassed(b) && KnownCaller(a.actor.caller) && KnownCaller(b.actor.caller)
        && Key(a) == Key(b)
    requires ResultOk(a, result, seenAt)
    ensures ResultOk(b, result, seenAt)
  {
    hide CacheKey, ValidProjectId, PermissionsFor, KnownCaller;
    NoBars(a.req, a.actor.caller);
    NoBars(b.req, b.actor.caller);
    CacheKeyInjective(a.req, a.actor, b.req, b.actor);
  }

  // ---------------------------------------------------------------- each step keeps it

  lemma AdmitInv(s: State, t: nat)
    requires Inv(s) && t in s.threads
    ensures Inv(AdmitStep(s, t))
  {
    hide CacheKey, ItemsOk, PermissionsFor, KnownCaller, ValidProjectId, FlightsOk;
    AdmitFlights(s, t);
  }

  lemma AdmitFlights(s: State, t: nat)
    requires FlightsOk(s) && t in s.threads
    ensures FlightsOk(AdmitStep(s, t))
  {
    hide CacheKey, Gate;
  }

  lemma LookInv(s: State, t: nat)
    requires Inv(s) && t in s.threads
    ensures Inv(LookStep(s, t))
  {
    hide CacheKey, ItemsOk, PermissionsFor, KnownCaller, ValidProjectId, Found, Swept, ResultOk, GatePassed;
    if s.threads[t].stage == Gated {
      FoundMatches(s.items, s.threads[t], s.now);
      ResultIgnoresStage(s.threads[t]);
    }
  }

  /** What a thread was asked and admitted for does not depend on its stage. */
  lemma ResultIgnoresStage(th: Thread)
    ensures forall stage: Stage :: GatePassed(th.(stage := stage)) == GatePassed(th)
    ensures forall stage: Stage, result, seenAt ::
        ResultOk(th.(stage := stage), result, seenAt) == ResultOk(th, result, seenAt)
  {
  }

  lemma JoinInv(s: State, t: nat)
    requires Inv(s) && t in s.threads
    ensures Inv(JoinStep(s, t))
  {
    hide ItemsOk, FlightsOk, KnownCaller, ResultOk, GatePassed;
    JoinFlights(s, t);
    ResultIgnoresStage(s.threads[t]);
  }

  lemma JoinFlights(s: State, t: nat)
    requires FlightsOk(s) && t in s.threads
    ensures FlightsOk(JoinStep(s, t))
  {
    hide Key;
    KeyIgnoresStage(s.threads[t]);
  }

  lemma KeyIgnoresStage(th: Thread)
    ensures forall stage: Stage :: Key(th.(stage := stage)) == Key(th)
  {
  }

  lemma RecheckInv(s: State, t: nat)
    requires Inv(s) && t in s.threads
    ensures Inv(RecheckStep(s, t))
  {
    hide CacheKey, ItemsOk, PermissionsFor, KnownCaller, ValidProjectId, Found, Swept, ResultOk, GatePassed;
    if s.threads[t].stage == Leading {
      FoundMatches(s.items, s.threads[t], s.now);
      ResultIgnoresStage(s.threads[t]);
    }
  }

  lemma FetchInv(s: State, t: nat, upstream: Upstream)
    requires Inv(s) && t in s.threads
    ensures Inv(FetchStep(s, t, upstream))
  {
    hide CacheKey, ItemsOk, PermissionsFor, KnownCaller, ValidProjectId, DirectMint, FlightsOk;
    FetchFlights(s, t, upstream);
    DirectMatches(s.projects, s.threads[t].req, s.threads[t].actor, upstream);
  }

  lemma FetchFlights(s: State, t: nat, upstream: Upstream)
    requires FlightsOk(s) && t in s.threads
    ensures FlightsOk(FetchStep(s, t, upstream))
  {
    hide Key, DirectMint;
    KeyIgnoresStage(s.threads[t]);
  }

  lemma KeepInv(s: State, t: nat)
    requires Inv(s) && t in s.threads
    ensures Inv(KeepStep(s, t))
  {
    hide CacheKey, PermissionsFor, KnownCaller, ValidProjectId, FlightsOk, ItemOk;
    KeepFlights(s, t);
    if s.threads[t].stage.Fetched? {
      MintedItem(s.threads[t], s.threads[t].stage.token);
    }
  }

  lemma KeepFlights(s: State, t: nat)
    requires FlightsOk(s) && t in s.threads
    ensures FlightsOk(KeepStep(s, t))
  {
    hide Key;
    KeyIgnoresStage(s.threads[t]);
  }

  /** A minted token belongs under the key of the request it was minted for. */
  lemma MintedItem(th: Thread, token: Token)
    requires GatePassed(th) && KnownCaller(th.actor.caller) && Matches(token, th.req, th.actor)
    ensures ItemOk(Key(th), token)
  {
    hide PermissionsFor, KnownCaller, ValidProjectId;
  }

  lemma ReleaseInv(s: State, t: nat)
    requires Inv(s) && t in s.threads
    ensures Inv(ReleaseStep(s, t))
  {
    hide CacheKey, ItemsOk, PermissionsFor, KnownCaller, ValidProjectId, ResultOk, GatePassed;
    var s', th := ReleaseStep(s, t), s.threads[t];
    if th.stage.Finishing? {
      forall u | u in s'.threads ensures ThreadOk(s'.threads[u]) {
        ResultIgnoresStage(s.threads[u]);
        if s.threads[u].stage == Waiting(t) {
          SharedMatches(th, s.threads[u], th.stage.result, th.stage.seenAt);
        }
      }
    }
  }

  lemma NextInv(s: State, e: Event)
    requires Inv(s)
    ensures Inv(Next(s, e))
  {
    hide CacheKey, ItemsOk, PermissionsFor, KnownCaller, ValidProjectId, AdmitStep, LookStep, JoinStep, RecheckStep,
        FetchStep, KeepStep, ReleaseStep;
    match e {
      case Admit(t) => if t in s.threads { AdmitInv(s, t); }
      case Look(t) => if t in s.threads { LookInv(s, t); }
      case Join(t) => if t in s.threads { JoinInv(s, t); }
      case Recheck(t) => if t in s.threads { RecheckInv(s, t); }
      case Fetch(t, upstream) => if t in s.threads { FetchInv(s, t, upstream); }
      case Keep(t) => if t in s.threads { KeepInv(s, t); }
      case Release(t) => if t in s.threads { ReleaseInv(s, t); }
      case _ =>
    }
  }

  lemma {:induction false} RunInv(s: State, events: seq<Event>)
    requires Inv(s)
    ensures Inv(Run(s, events))
    decreases |events|
  {
    if events != [] {
      hide Next, Inv;
      NextInv(s, events[0]);
      RunInv(Next(s, events[0]), events[1..]);
    }
  }

  // ---------------------------------------------------------------- results

  lemma {:induction false} RunSnoc(s: State, events: seq<Event>, e: Event)
    ensures Run(s, events + [e]) == Next(Run(s, events), e)
    decreases |events|
  {
    hide Next;
    if events == [] {
      assert [] + [e] == [e] && [e][1..] == [];
    } else {
      assert (events + [e])[1..] == events[1..] + [e];
      RunSnoc(Next(s, events[0]), events[1..], e);
    }
  }

  /** Only the gate writes a thread's registry row. */
  lemma GateWrites(s: State, e: Event, t: nat)
    requires t in Next(s, e).threads
    ensures var th := Next(s, e).threads[t];
            if t !in s.threads then th.gate == None
            else th.req == s.threads[t].req && th.actor == s.threads[t].actor
                 && (th.gate != s.threads[t].gate ==>
                       th.req.project in s.projects && th.gate == Some(s.projects[th.req.project]))
  {
    hide CacheKey, PermissionsFor, DirectMint, Found, Swept;
  }

  predicate RowWas(events: seq<Event>, n: nat, req: Request, row: Project) {
    n <= |events| && req.project in Run(START, events[..n]).projects
        && Run(START, events[..n]).projects[req.project] == row
  }

  /** The row a request was admitted on was in the registry at some point of the run. */
  lemma {:induction false} GateReadRegistry(events: seq<Event>, t: nat)
    requires t in Run(START, events).threads && Run(START, events).threads[t].gate.Some?
    ensures var th := Run(START, events).threads[t];
            exists n: nat :: RowWas(events, n, th.req, th.gate.value)
    decreases |events|
  {
    var n, th := |events| - 1, Run(START, events).threads[t];
    var s, e := Run(START, events[..n]), events[n];
    assert events == events[..n] + [e];
    RunSnoc(START, events[..n], e);
    GateWrites(s, e, t);
    hide Next, Run;
    if th.gate == s.threads[t].gate {
      GateReadRegistry(events[..n], t);
      var m: nat :| RowWas(events[..n], m, th.req, th.gate.value);
      assert events[..n][..m] == events[..m];
      assert RowWas(events, m, th.req, th.gate.value);
    } else {
      assert RowWas(events, n, th.req, th.gate.value);
    }
  }

  // Where a token comes from.

  /** The n-th event of the run is GitHub's answer `token` to a mint for this key. */
  predicate MintedAt(events: seq<Event>, n: nat, key: string, token: Token) {
    && n < |events| && events[n].Fetch? && events[n].upstream == Some((token.raw, token.expiresAt))
    && var s := Run(START, events[..n]);
       events[n].t in s.threads && s.threads[events[n].t].stage == Minting
       && Key(s.threads[events[n].t]) == key && token.actor == s.threads[events[n].t].actor
  }

  ghost predicate Minted(events: seq<Event>, key: string, token: Token) {
    exists n: nat :: MintedAt(events, n, key, token)
  }

  /** The token a stage carries, if any. */
  function TokenOf(stage: Stage): Option<Token> {
    match stage
    case Fetched(token) => Some(token)
    case Finishing(Ok(token), _) => Some(token)
    case Done(Ok(token), _) => Some(token)
    case _ => None
  }

  /** Every token in the cache or in a thread was minted in this run, for its key. */
  ghost predicate Sourced(events: seq<Event>, s: State) {
    && (forall k | k in s.items :: Minted(events, k, s.items[k]))
    && (forall t | t in s.threads && TokenOf(s.threads[t].stage).Some? ::
          Minted(events, Key(s.threads[t]), TokenOf(s.threads[t].stage).value))
  }

  lemma MintedStays(events: seq<Event>, e: Event, key: string, token: Token)
    requires Minted(events, key, token)
    ensures Minted(events + [e], key, token)
  {
    var n: nat :| MintedAt(events, n, key, token);
    assert (events + [e])[..n] == events[..n];
    assert MintedAt(events + [e], n, key, token);
  }

  /** A step brings no token to the cache that its thread did not hold. */
  lemma ItemOrigin(s: State, e: Event, k: string)
    requires k in Next(s, e).items
    ensures var token := Next(s, e).items[k];
            || (k in s.items && s.items[k] == token)
            || (e.Keep? && e.t in s.threads && Key(s.threads[e.t]) == k && TokenOf(s.threads[e.t].stage) == Some(token))
  {
    hide CacheKey, PermissionsFor, DirectMint, Gate;
  }

  /** The ways a thread may come by its token in one step. */
  predicate Comes(s: State, e: Event, t: nat, th: Thread, token: Token) {
    || (t in s.threads && Key(s.threads[t]) == Key(th) && TokenOf(s.threads[t].stage) == Some(token))
    || (Key(th) in s.items && s.items[Key(th)] == token)
    || (e.Fetch? && e.t == t && e.upstream == Some((token.raw, token.expiresAt))
        && t in s.threads && s.threads[t].stage == Minting && Key(s.threads[t]) == Key(th)
            && token.actor == s.threads[t].actor)
    || (e.Release? && e.t in s.threads && Key(s.threads[e.t]) == Key(th)
          && TokenOf(s.threads[e.t].stage) == Some(token))
  }

  /** Apart from its own thread, only a release touches any. */
  lemma OnlyOwn(s: State, e: Event, t: nat)
    requires t in Next(s, e).threads && !e.Release? && !(e.Spawn? && e.t == t)
    requires e.Clock? || e.AddProject? || e.ArchiveProject? || e.t != t
    ensures t in s.threads && Next(s, e).threads[t] == s.threads[t]
  {
    hide CacheKey, PermissionsFor, DirectMint, Gate, AddRow, ArchiveRow, Found, Swept;
  }

  lemma OwnOrigin(s: State, e: Event, t: nat)
    requires t in s.threads && (e.Admit? || e.Look? || e.Join? || e.Recheck? || e.Keep?) && e.t == t
    ensures var s' := Next(s, e);
            && t in s'.threads && Key(s'.threads[t]) == Key(s.threads[t])
            && var token := TokenOf(s'.threads[t].stage);
               token.Some? ==> TokenOf(s.threads[t].stage) == token
                               || (Key(s.threads[t]) in s.items && s.items[Key(s.threads[t])] == token.value)
  {
    hide CacheKey, PermissionsFor, Gate, Swept, Key;
    KeyIgnoresStage(s.threads[t]);
    KeyIgnoresGate(s.threads[t]);
  }

  lemma KeyIgnoresGate(th: Thread)
    ensures forall gate, stage: Stage :: Key(th.(gate := gate, stage := stage)) == Key(th)
  {
  }

  lemma FetchOrigin(s: State, t: nat, upstream: Upstream)
    requires t in s.threads
    ensures var s' := FetchStep(s, t, upstream);
            && t in s'.threads && Key(s'.threads[t]) == Key(s.threads[t])
            && var token := TokenOf(s'.threads[t].stage);
               token.Some? ==> TokenOf(s.threads[t].stage) == token
                               || (s.threads[t].stage == Minting
                                     && upstream == Some((token.value.raw, token.value.expiresAt))
                                   && token.value.actor == s.threads[t].actor)
  {
    hide CacheKey, DirectMint, Key;
    KeyIgnoresStage(s.threads[t]);
    DirectAnswer(s.projects, s.threads[t].req, s.threads[t].actor, upstream);
  }

  /** A thread's token is one it held, one it found, the answer to its own mint, or its leader's. */
  lemma TokenOrigin(s: State, e: Event, t: nat)
    requires FlightsOk(s) && t in Next(s, e).threads && TokenOf(Next(s, e).threads[t].stage).Some?
    ensures Comes(s, e, t, Next(s, e).threads[t], TokenOf(Next(s, e).threads[t].stage).value)
  {
    hide Key, TokenOf, FlightsOk, AdmitStep, LookStep, JoinStep, RecheckStep, FetchStep, KeepStep, ReleaseStep,
        AddRow, ArchiveRow;
    match e {
      case Release(u) =>
        if u in s.threads {
          ReleaseThreads(s, u);
          ReleaseOrigin(s, u, t);
        }
      case Fetch(u, upstream) =>
        if u == t && t in s.threads { FetchOrigin(s, t, upstream); } else if u != t { OnlyOwn(s, e, t); }
      case Spawn(u, req, actor) =>
        if u == t { SpawnedHasNone(s, e, t); } else { OnlyOwn(s, e, t); }
      case Clock(_) => OnlyOwn(s, e, t);
      case AddProject(_, _) => OnlyOwn(s, e, t);
      case ArchiveProject(_) => OnlyOwn(s, e, t);
      case _ =>
        if e.t == t && t in s.threads { OwnOrigin(s, e, t); } else if e.t != t { OnlyOwn(s, e, t); }
    }
  }

  lemma SpawnedHasNone(s: State, e: Event, t: nat)
    requires e.Spawn? && e.t == t && t in Next(s, e).threads
    ensures (t in s.threads && Next(s, e).threads[t] == s.threads[t]) || TokenOf(Next(s, e).threads[t].stage).None?
  {
  }

  lemma ReleaseThreads(s: State, u: nat)
    requires u in s.threads
    ensures ReleaseStep(s, u).threads.Keys == s.threads.Keys
  {
    hide CacheKey;
  }

  lemma DirectAnswer(projects: Table, req: Request, actor: Actor, upstream: Upstream)
    ensures var r := DirectMint(projects, req, actor, upstream);
            r.Ok? ==> upstream == Some((r.value.raw, r.value.expiresAt)) && r.value.actor == actor
  {
  }

  lemma ReleaseOrigin(s: State, u: nat, t: nat)
    requires FlightsOk(s) && u in s.threads && t in s.threads
    ensures var s' := ReleaseStep(s, u);
            && t in s'.threads && Key(s'.threads[t]) == Key(s.threads[t])
            && (s'.threads[t] == s.threads[t] ||
                (Key(s.threads[u]) == Key(s.threads[t]) && TokenOf(s'.threads[t].stage) == TokenOf(s.threads[u].stage)))
  {
    hide CacheKey;
  }

  lemma {:induction false} RunSourced(events: seq<Event>)
    ensures Sourced(events, Run(START, events))
    decreases |events|
  {
    if events != [] {
      var n := |events| - 1;
      var so, e := events[..n], events[n];
      var s := Run(START, so);
      assert events == so + [e];
      RunSourced(so);
      RunSnoc(START, so, e);
      RunInv(START, so);
      SourcedNext(so, e);
    }
  }

  lemma SourcedNext(so: seq<Event>, e: Event)
    requires FlightsOk(Run(START, so)) && Sourced(so, Run(START, so))
    ensures Sourced(so + [e], Next(Run(START, so), e))
  {
    hide Run, Next, FlightsOk, Minted, Key, TokenOf;
    var s := Run(START, so);
    var s' := Next(s, e);
    forall k | k in s'.items ensures Minted(so + [e], k, s'.items[k]) {
      ItemOrigin(s, e, k);
      MintedStays(so, e, k, s'.items[k]);
    }
    forall t | t in s'.threads && TokenOf(s'.threads[t].stage).Some?
      ensures Minted(so + [e], Key(s'.threads[t]), TokenOf(s'.threads[t].stage).value)
    {
      var key, token := Key(s'.threads[t]), TokenOf(s'.threads[t].stage).value;
      TokenOrigin(s, e, t);
      if Minted(so, key, token) {
        MintedStays(so, e, key, token);
      } else {
        MintedNow(so, e, key, token);
      }
    }
  }

  lemma MintedNow(so: seq<Event>, e: Event, key: string, token: Token)
    requires var s := Run(START, so);
             && e.Fetch? && e.upstream == Some((token.raw, token.expiresAt)) && e.t in s.threads
             && s.threads[e.t].stage == Minting && Key(s.threads[e.t]) == key && token.actor == s.threads[e.t].actor
    ensures Minted(so + [e], key, token)
  {
    var events := so + [e];
    assert events[..|so|] == so && events[|so|] == e;
    assert MintedAt(events, |so|, key, token);
  }

  /**
   Over any run, a returned token is the one a direct mint would give its own caller, up to value,
   expiry and session; value and expiry are GitHub's answer to one mint of this run, made by a
   request with the same key; the gate had seen the project active and installed; and a token taken
   from the cache had more than five minutes left when it was looked up.
   */
  lemma CacheAgreesWithBroker(events: seq<Event>, t: nat)
    requires t in Run(START, events).threads
    requires var stage := Run(START, events).threads[t].stage; stage.Done? && stage.result.Ok?
    ensures var th := Run(START, events).threads[t];
            && GatePassed(th)
            && Matches(th.stage.result.value, th.req, th.actor)
            && Minted(events, Key(th), th.stage.result.value)
            && (th.stage.seenAt.Some? ==>
                  th.stage.seenAt.value + 5 * 60 * 1_000_000_000 < th.stage.result.value.expiresAt)
  {
    hide Key, Minted, Run, PermissionsFor, ValidProjectId, KnownCaller;
    RunInv(START, events);
    RunSourced(events);
  }

  /**
   A lookup for an admitted request is a hit exactly when a token with more than five minutes left
   is stored under its key: then it is done with that token and nothing is dropped; otherwise it
   waits its turn and the key holds none.
   */
  lemma LookDoes(s: State, t: nat)
    requires t in s.threads && s.threads[t].stage == Gated
    ensures var s', key := Next(s, Look(t)), Key(s.threads[t]);
            && t in s'.threads
            && if key in s.items && s.now + 5 * 60 * 1_000_000_000 < s.items[key].expiresAt
               then s'.threads[t].stage == Done(Ok(s.items[key]), Some(s.now)) && s'.items == s.items
               else s'.threads[t].stage == Queued && s'.items == s.items - {key}
  {
    hide CacheKey;
  }

  /** A mint is started only by a second look that found no token with more than five minutes left. */
  lemma MintsOnlyWhenStale(s: State, e: Event, t: nat)
    requires t in Next(s, e).threads && Next(s, e).threads[t].stage == Minting
    requires !(t in s.threads && s.threads[t].stage == Minting)
    ensures e == Recheck(t) && t in s.threads && s.threads[t].stage == Leading
    ensures var key := Key(s.threads[t]);
            !(key in s.items && s.now + 5 * 60 * 1_000_000_000 < s.items[key].expiresAt)
  {
    hide CacheKey, PermissionsFor, DirectMint, Gate, AddRow, ArchiveRow;
  }

  /** A finished leader gives its result to all who waited for it, and frees its key. */
  lemma WaitersShare(s: State, t: nat)
    requires FlightsOk(s) && t in s.threads && s.threads[t].stage.Finishing?
    ensures var s', result := Next(s, Release(t)), s.threads[t].stage.result;
            && s'.threads.Keys == s.threads.Keys && s'.items == s.items && s'.projects == s.projects
            && s'.flights == s.flights - {Key(s.threads[t])}
            && forall u | u in s.threads ::
                 if u == t || (s.threads[u].stage.Waiting? && Key(s.threads[u]) == Key(s.threads[t]))
                 then s'.threads[u].stage == Done(result, s.threads[t].stage.seenAt)
                 else s'.threads[u] == s.threads[u]
  {
    hide CacheKey;
  }

  /** All steps of one request, back to back. */
  function Steps(t: nat, upstream: Upstream): seq<Event> {
    [Admit(t), Look(t), Join(t), Recheck(t), Fetch(t, upstream), Keep(t), Release(t)]
  }

  lemma {:induction false} RunSteps(s: State, t: nat, upstream: Upstream)
    ensures Run(s, Steps(t, upstream))
         == Next(Next(Next(Next(Next(Next(Next(s, Admit(t)), Look(t)), Join(t)), Recheck(t)), Fetch(t, upstream)),
                      Keep(t)), Release(t))
  {
    hide Next;
    var e := Steps(t, upstream);
    var s1 := Next(s, e[0]);
    var s2 := Next(s1, e[1]);
    var s3 := Next(s2, e[2]);
    var s4 := Next(s3, e[3]);
    var s5 := Next(s4, e[4]);
    var s6 := Next(s5, e[5]);
    assert Run(s, e) == Run(s1, e[1..]);
    assert Run(s1, e[1..]) == Run(s2, e[1..][1..]) && e[1..][1..] == e[2..];
    assert Run(s2, e[2..]) == Run(s3, e[2..][1..]) && e[2..][1..] == e[3..];
    assert Run(s3, e[3..]) == Run(s4, e[3..][1..]) && e[3..][1..] == e[4..];
    assert Run(s4, e[4..]) == Run(s5, e[4..][1..]) && e[4..][1..] == e[5..];
    assert Run(s5, e[5..]) == Run(s6, e[5..][1..]) && e[5..][1..] == e[6..];
    assert Run(s6, e[6..]) == Run(Next(s6, e[6]), e[6..][1..]) && e[6..][1..] == [];
  }

  /** The state s with request t at a stage, and these tokens and leaders. */
  function Standing(s: State, t: nat, row: Option<Project>, stage: Stage, items: Items,
                    flights: map<string, nat>): (s': State)
    requires t in s.threads
    ensures t in s'.threads && Key(s'.threads[t]) == Key(s.threads[t])
  {
    s.(threads := s.threads[t := s.threads[t].(gate := row, stage := stage)], items := items, flights := flights)
  }

  lemma StandingAdmit(s: State, t: nat)
    requires t in s.threads && s.threads[t].stage == Start
    ensures var th, gate := s.threads[t], Gate(s.projects, s.threads[t].req);
            Next(s, Admit(t)) == match gate
                                 case Ok(row) => Standing(s, t, Some(row), Gated, s.items, s.flights)
                                 case Err(e) => Standing(s, t, th.gate, Done(Err(e), None), s.items, s.flights)
  {
    hide Gate;
  }

  lemma StandingLook(s: State, t: nat, row: Option<Project>, items: Items, flights: map<string, nat>)
    requires t in s.threads
    ensures var found := Found(items, Key(s.threads[t]), s.now);
            Next(Standing(s, t, row, Gated, items, flights), Look(t))
            == Standing(s, t, row, if found.Some? then Done(Ok(found.value), Some(s.now)) else Queued,
                        Swept(items, Key(s.threads[t]), s.now), flights)
  {
    hide Key, Found, Swept;
  }

  lemma StandingJoin(s: State, t: nat, row: Option<Project>, items: Items, flights: map<string, nat>)
    requires t in s.threads && Key(s.threads[t]) !in flights
    ensures Next(Standing(s, t, row, Queued, items, flights), Join(t))
         == Standing(s, t, row, Leading, items, flights[Key(s.threads[t]) := t])
  {
    hide Key;
  }

  lemma StandingRecheck(s: State, t: nat, row: Option<Project>, items: Items, flights: map<string, nat>)
    requires t in s.threads && Found(items, Key(s.threads[t]), s.now).None?
    ensures Next(Standing(s, t, row, Leading, items, flights), Recheck(t))
         == Standing(s, t, row, Minting, Swept(items, Key(s.threads[t]), s.now), flights)
  {
    hide Key, Found, Swept;
  }

  lemma StandingFetch(s: State, t: nat, row: Option<Project>, items: Items, flights: map<string, nat>,
                      upstream: Upstream)
    requires t in s.threads
    ensures var r := DirectMint(s.projects, s.threads[t].req, s.threads[t].actor, upstream);
            Next(Standing(s, t, row, Minting, items, flights), Fetch(t, upstream))
            == Standing(s, t, row, if r.Ok? then Fetched(r.value) else Finishing(r, None), items, flights)
  {
    hide Key, DirectMint;
  }

  lemma StandingKeep(s: State, t: nat, row: Option<Project>, stage: Stage, items: Items, flights: map<string, nat>)
    requires t in s.threads && (stage.Fetched? || stage.Finishing?)
    ensures Next(Standing(s, t, row, stage, items, flights), Keep(t))
         == if stage.Fetched?
            then Standing(s, t, row, Finishing(Ok(stage.token), None), items[Key(s.threads[t]) := stage.token], flights)
            else Standing(s, t, row, stage, items, flights)
  {
    hide Key;
  }

  lemma StandingRelease(s: State, t: nat, row: Option<Project>, stage: Stage, items: Items,
                        flights: map<string, nat>)
    requires t in s.threads && stage.Finishing?
    requires forall u | u in s.threads :: s.threads[u].stage != Waiting(t)
    ensures Next(Standing(s, t, row, stage, items, flights), Release(t))
         == Standing(s, t, row, Done(stage.result, stage.seenAt), items, flights - {Key(s.threads[t])})
  {
    hide Key;
    var s', s'' := Next(Standing(s, t, row, stage, items, flights), Release(t)),
                   Standing(s, t, row, Done(stage.result, stage.seenAt), items, flights - {Key(s.threads[t])});
    assert s'.threads == s''.threads;
  }

  /** A finished request has nothing left to do. */
  lemma DoneStays(s: State, t: nat, upstream: Upstream)
    requires t in s.threads && s.threads[t].stage.Done?
    ensures forall e | e in Steps(t, upstream) :: Next(s, e) == s
  {
    hide CacheKey, Gate, DirectMint, Found, Swept;
  }

  /**
   One request that nobody interferes with: refused at the gate; or answered from the cache, with a
   token that has more than five minutes left; or by GitHub, whose answer is stored, while its
   failure is passed on and not stored.
   */
  lemma Undisturbed(s: State, t: nat, upstream: Upstream)
    requires t in s.threads && s.threads[t].stage == Start && Key(s.threads[t]) !in s.flights
    requires forall u | u in s.threads :: s.threads[u].stage != Waiting(t)
    ensures var s', req, actor, key := Run(s, Steps(t, upstream)), s.threads[t].req, s.threads[t].actor,
                Key(s.threads[t]);
            && t in s'.threads && s'.flights == s.flights && s'.projects == s.projects
            && (forall u | u in s.threads && u != t :: u in s'.threads && s'.threads[u] == s.threads[u])
            && match Gate(s.projects, req)
               case Err(e) => s'.threads[t].stage == Done(Err(e), None) && s'.items == s.items
               case Ok(row) =>
                 if key in s.items && s.now + 5 * 60 * 1_000_000_000 < s.items[key].expiresAt
                 then s'.threads[t].stage == Done(Ok(s.items[key]), Some(s.now)) && s'.items == s.items
                 else match upstream
                   case None => s'.threads[t].stage == Done(Err(MintFailed), None) && s'.items == s.items - {key}
                   case Some((raw, expiresAt)) =>
                     && PermissionsFor(req.tool).Ok?
                     && var token := Token(raw, expiresAt, actor, req.project, req.tool,
                                           PermissionsFor(req.tool).value);
                        s'.threads[t].stage == Done(Ok(token), None) && s'.items == s.items[key := token]
  {
    RunSteps(s, t, upstream);
    hide Run, Next, Gate, PermissionsFor, Key, Standing, DirectMint, Found, Swept;
    var th, key := s.threads[t], Key(s.threads[t]);
    StandingAdmit(s, t);
    var gate := Gate(s.projects, th.req);
    if gate.Err? {
      StandingEnds(s, t, th.gate, Done(Err(gate.error), None), s.items, s.flights, upstream);
    } else {
      var row := Some(gate.value);
      StandingLook(s, t, row, s.items, s.flights);
      LookedUp(s.items, key, s.now);
      var found := Found(s.items, key, s.now);
      if found.Some? {
        StandingEnds(s, t, row, Done(Ok(found.value), Some(s.now)), s.items, s.flights, upstream);
      } else {
        StandingJoin(s, t, row, s.items - {key}, s.flights);
        GateAdmits(s.projects, th.req);
        PermissionsAre(th.req.tool);
        var end := LeaderMints(s, t, row, upstream);
        StandingEnds(s, t, row, end, if end.result.Ok? then s.items[key := end.result.value] else s.items - {key},
                     s.flights, upstream);
      }
    }
  }

  /** A leader that nobody waits for, from its second look to its release. */
  lemma LeaderMints(s: State, t: nat, row: Option<Project>, upstream: Upstream) returns (end: Stage)
    requires t in s.threads && Key(s.threads[t]) !in s.flights
    requires forall u | u in s.threads :: s.threads[u].stage != Waiting(t)
    requires PermissionsFor(s.threads[t].req.tool).Ok? && s.threads[t].req.project in s.projects
    ensures end.Done?
    ensures match upstream
            case None => end == Done(Err(MintFailed), None)
            case Some((raw, expiresAt)) =>
              var th := s.threads[t];
              end == Done(Ok(Token(raw, expiresAt, th.actor, th.req.project, th.req.tool,
                                   PermissionsFor(th.req.tool).value)), None)
    ensures var key := Key(s.threads[t]);
            var leading := Standing(s, t, row, Leading, s.items - {key}, s.flights[key := t]);
            Next(Next(Next(Next(leading, Recheck(t)), Fetch(t, upstream)), Keep(t)), Release(t))
            == Standing(s, t, row, end, if end.result.Ok? then s.items[key := end.result.value]
                                        else s.items - {key}, s.flights)
  {
    hide Run, Next, Gate, PermissionsFor, Key, Standing, Found, Swept;
    var th, key := s.threads[t], Key(s.threads[t]);
    var items, flights := s.items - {key}, s.flights[key := t];
    assert flights - {key} == s.flights;
    LookedUp(s.items, key, s.now);
    StandingRecheck(s, t, row, items, flights);
    StandingFetch(s, t, row, items, flights, upstream);
    var r := DirectMint(s.projects, th.req, th.actor, upstream);
    if r.Ok? {
      assert items[key := r.value] == s.items[key := r.value];
      StandingKeep(s, t, row, Fetched(r.value), items, flights);
      StandingRelease(s, t, row, Finishing(r, None), s.items[key := r.value], flights);
    } else {
      StandingKeep(s, t, row, Finishing(r, None), items, flights);
      StandingRelease(s, t, row, Finishing(r, None), items, flights);
    }
    end := Done(r, None);
  }

  lemma LookedUp(items: Items, key: string, now: int)
    ensures if key in items && now + 5 * 60 * 1_000_000_000 < items[key].expiresAt
            then Found(items, key, now) == Some(items[key]) && Swept(items, key, now) == items
            else Found(items, key, now) == None && Swept(items, key, now) == items - {key}
    ensures Found(items - {key}, key, now) == None && Swept(items - {key}, key, now) == items - {key}
  {
  }

  lemma StandingEnds(s: State, t: nat, row: Option<Project>, stage: Stage, items: Items, flights: map<string, nat>,
                     upstream: Upstream)
    requires t in s.threads && stage.Done?
    ensures var s' := Standing(s, t, row, stage, items, flights);
            && s'.threads[t].stage == stage && s'.items == items && s'.flights == flights && s'.projects == s.projects
            && (forall u | u in s.threads && u != t :: u in s'.threads && s'.threads[u] == s.threads[u])
            && (forall e | e in Steps(t, upstream) :: Next(s', e) == s')
            && Steps(t, upstream) == [Admit(t), Look(t), Join(t), Recheck(t), Fetch(t, upstream), Keep(t), Release(t)]
            && forall i | 0 <= i < 7 :: Steps(t, upstream)[i] in Steps(t, upstream)
  {
    hide Key;
    DoneStays(Standing(s, t, row, stage, items, flights), t, upstream);
  }

  /** At any time at most one request per key is minting. */
  lemma OneMintPerKey(events: seq<Event>, t: nat, u: nat)
    requires var s := Run(START, events);
             && t in s.threads && u in s.threads && Leads(s.threads[t].stage) && Leads(s.threads[u].stage)
             && Key(s.threads[t]) == Key(s.threads[u])
    ensures t == u
  {
    RunInv(START, events);
  }
}
