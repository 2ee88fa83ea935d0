/**
 The code behind the approval protocol's steps: the pending store, the project registry, the
 orchestrator's three handlers and createPending, each of which changes its fields in place.
 Run in one piece, a handler does exactly what its steps do in the transition system, in any
 state of that system and whatever fails.
 */
module ApprovalService {
  import opened Wrappers
  import opened Projects
  import opened Approval
  import opened ApprovalSafety
  import opened ApprovalResults

  /** What is stored after a backend call that may go wrong. */
  function Stored<T, E>(before: T, result: Result<T, E>, fault: Fault): T {
    if result.Ok? && fault != Lost then result.value else before
  }

  /** What the caller of a backend call is told. */
  function Told<T, E>(result: Result<T, E>, fault: Fault, unavailable: E): Option<E> {
    if fault != NoFault then Some(unavailable) else if result.Err? then Some(result.error) else None
  }

  function Refusal(result: Result<Table, RegistryError>, fault: Fault): Option<ApplyError> {
    if fault != NoFault then Some(RegistryUnavailable) else if result.Err? then Some(Refused(result.error)) else None
  }

  class PendingStore {
    var rows: Rows

    constructor (rows: Rows)
      ensures this.rows == rows
    {
      this.rows := rows;
    }

    method Get(key: string, fault: Fault) returns (r: Result<Pending, StoreError>)
      ensures fault != NoFault ==> r == Err(Unavailable)
      ensures fault == NoFault ==>
          (r.Ok? <==> key in rows) && (r.Ok? ==> r.value == rows[key]) && (r.Err? ==> r.error == RowNotFound)
    {
      if fault != NoFault {
        return Err(Unavailable);
      }
      if key !in rows {
        return Err(RowNotFound);
      }
      return Ok(rows[key]);
    }

    /** INSERT under a unique key; a collision hands back the stored record. */
    method CreateIfNotExists(p: Pending, fault: Fault) returns (error: Option<StoreError>)
      modifies this
      ensures rows == Stored(old(rows), CreateRow(old(rows), p), fault)
      ensures error == Told(CreateRow(old(rows), p), fault, Unavailable)
      ensures p.key != "" && p.key !in old(rows) && fault == NoFault ==> error == None && rows == old(rows)[p.key := p]
      ensures p.key == "" || p.key in old(rows) || fault == Lost ==> rows == old(rows)
      ensures p.key != "" && p.key in old(rows) && fault == NoFault ==>
                error == Some(StoreError.AlreadyExists(old(rows)[p.key]))
    {
      if p.key == "" {
        return if fault != NoFault then Some(Unavailable) else Some(KeyRequired);
      }
      if p.key in rows {
        var existing := rows[p.key];
        return if fault != NoFault then Some(Unavailable) else Some(StoreError.AlreadyExists(existing));
      }
      if fault != Lost {
        rows := rows[p.key := p];
      }
      return if fault != NoFault then Some(Unavailable) else None;
    }

    /** The terminal check and the update, in one transaction. */
    method Transition(key: string, to: Status, appliedAt: Option<int>, fault: Fault) returns (error: Option<StoreError>)
      modifies this
      ensures rows == Stored(old(rows), TransitionRow(old(rows), key, to, appliedAt), fault)
      ensures error == Told(TransitionRow(old(rows), key, to, appliedAt), fault, Unavailable)
    {
      if fault == Lost {
        return Some(Unavailable);
      }
      if to == ApprovedApplied && appliedAt.None? {
        error := Some(AppliedAtRequired);
      } else if to != ApprovedApplied && appliedAt.Some? {
        error := Some(AppliedAtForbidden);
      } else if key !in rows {
        error := Some(RowNotFound);
      } else if Terminal(rows[key].status) {
        error := Some(TerminalTransition);
      } else {
        var row := rows[key].(status := to);
        if appliedAt.Some? {
          row := row.(appliedAt := appliedAt);
        }
        rows := rows[key := row];
        error := None;
      }
      if fault != NoFault {
        error := Some(Unavailable);
      }
    }
  }

  class ProjectRegistry {
    var projects: Table

    constructor (projects: Table)
      ensures this.projects == projects
    {
      this.projects := projects;
    }

    method Add(id: string, fields: Fields, now: int, fault: Fault) returns (error: Option<ApplyError>)
      modifies this
      ensures projects == Stored(old(projects), AddRow(old(projects), id, fields, now), fault)
      ensures error == Refusal(AddRow(old(projects), id, fields, now), fault)
    {
      if !ValidProjectId(id) {
        error := Some(Refused(InvalidProjectId));
      } else if id in projects {
        error := Some(Refused(RegistryError.AlreadyExists));
      } else {
        if fault != Lost {
          projects := projects[id := Project(fields, Active, now, None)];
        }
        error := None;
      }
      if fault != NoFault {
        error := Some(RegistryUnavailable);
      }
    }

    /** Archiving an archived project again succeeds and keeps its first archive time. */
    method Archive(id: string, now: int, fault: Fault) returns (error: Option<ApplyError>)
      modifies this
      ensures projects == Stored(old(projects), ArchiveRow(old(projects), id, now), fault)
      ensures error == Refusal(ArchiveRow(old(projects), id, now), fault)
    {
      if id !in projects {
        error := Some(Refused(NotFound));
      } else {
        if fault != Lost {
          var p := projects[id];
          if p.archivedAt.None? {
            p := p.(archivedAt := Some(now));
          }
          projects := projects[id := p.(status := Archived)];
        }
        error := None;
      }
      if fault != NoFault {
        error := Some(RegistryUnavailable);
      }
    }
  }

  // ---------------------------------------------------------------- what a handler leaves behind

  /** The handler's thread ended with this error, in a system left with these rows and projects. */
  predicate Left(s: State, t: nat, rows: Rows, projects: Table, error: Option<HandlerError>) {
    s.pending == rows && s.projects == projects && t in s.threads && s.threads[t].stage == Done(error)
  }

  /** The registry after applying a record, and what apply returns. */
  function ApplyOutcome(dec: Decoder, projects: Table, p: Pending, fault: Fault, now: int): (Table,
                        Option<ApplyError>) {
    if p.op.OpUnknown? then (projects, Some(UnknownOp))
    else if !Decodes(dec, p) then (projects, Some(DecodeFailed))
    else
      var result := ApplyOp(dec, projects, p, now);
      (Stored(projects, result, fault), Refusal(result, fault))
  }

  lemma ApplyStepOutcome(dec: Decoder, s: State, t: nat, fault: Fault, now: int)
    requires t in s.threads && s.threads[t].request.Ack? && s.threads[t].stage.Fetched?
    ensures var s', p := ApplyStep(dec, s, t, fault, now), s.threads[t].stage.p;
            var outcome := ApplyOutcome(dec, s.projects, p, fault, now);
            && s'.pending == s.pending && s'.projects == outcome.0 && t in s'.threads
            && s'.threads[t] == s.threads[t].(stage := if outcome.1.Some? then Done(Some(ApplyFailed(outcome.1.value)))
                else Applied(p))
  {
    hide ApplyOp, Decodes;
  }

  /** The state a thread's request starts in. */
  lemma Spawned(dec: Decoder, s: State, t: nat, request: Request)
    requires t !in s.threads && WellFormedRequest(request)
    ensures var s0 := Next(dec, s, Spawn(t, request));
            && s0.pending == s.pending && s0.projects == s.projects && s0.posts == s.posts
            && t in s0.threads && s0.threads[t] == Thread(request, Start)
  {
  }

  class Orchestrator {
    const store: PendingStore
    const registry: ProjectRegistry
    const dec: Decoder

    constructor (store: PendingStore, registry: ProjectRegistry, dec: Decoder)
      ensures this.store == store && this.registry == registry && this.dec == dec
    {
      this.store, this.registry, this.dec := store, registry, dec;
    }

    /** The record, unless it is missing or already terminal. */
    method FetchActive(key: string, fault: Fault) returns (r: Result<Pending, HandlerError>)
      ensures r.Ok? <==> fault == NoFault && key in store.rows && !Terminal(store.rows[key].status)
      ensures r.Ok? ==> r.value == store.rows[key]
      ensures r.Err? ==> r.error == if fault != NoFault then FetchFailed else if key !in store.rows then Missing
          else AlreadyTerminal
    {
      var got := store.Get(key, fault);
      if got.Err? {
        return Err(if got.error == RowNotFound then Missing else FetchFailed);
      }
      if Terminal(got.value.status) {
        return Err(AlreadyTerminal);
      }
      return Ok(got.value);
    }

    method Apply(p: Pending, fault: Fault, now: int) returns (error: Option<ApplyError>)
      modifies registry
      ensures (registry.projects, error) == ApplyOutcome(dec, old(registry.projects), p, fault, now)
    {
      match p.op {
        case OpAdd =>
          var body := dec.add(p.body);
          if body.None? {
            return Some(DecodeFailed);
          }
          error := registry.Add(body.value.id, body.value.fields, now, fault);
        case OpArchive =>
          var id := dec.archive(p.body);
          if id.None? {
            return Some(DecodeFailed);
          }
          error := registry.Archive(id.value, now, fault);
        case OpUnknown(_) =>
          return Some(UnknownOp);
      }
    }

    /** Fetch, validate, apply, transition: what the approve click runs. */
    method OnApprovalAck(key: string, approver: string, approverType: CallerType, faults: Faults, now: int,
                         ghost s: State, ghost t: nat)
      returns (error: Option<HandlerError>)
      requires s.pending == store.rows && s.projects == registry.projects && t !in s.threads
      modifies store, registry
      ensures Left(Run(dec, s, Handle(t, Ack(key, approver, approverType), faults, now)), t,
                   store.rows, registry.projects, error)
    {
      ghost var request := Ack(key, approver, approverType);
      HandleSteps(dec, s, t, request, faults, now);
      Spawned(dec, s, t, request);
      ghost var s0 := Next(dec, s, Spawn(t, request));
      hide Next, Run, Handle, ApplyStep, TransitionRow, ApplyOutcome, Terminal, Validate4Eyes;
      var fetched := FetchActive(key, faults.fetch);
      if fetched.Err? {
        StaysDone(dec, FetchStep(s0, t, faults.fetch), t, faults, now);
        return Some(fetched.error);
      }
      var refusal := Validate4Eyes(fetched.value, approver, approverType);
      if refusal.Some? {
        StaysDone(dec, FetchStep(s0, t, faults.fetch), t, faults, now);
        return refusal;
      }
      ApplyStepOutcome(dec, FetchStep(s0, t, faults.fetch), t, faults.apply, now);
      var failure := Apply(fetched.value, faults.apply, now);
      if failure.Some? {
        return Some(ApplyFailed(failure.value));
      }
      var reason := store.Transition(key, ApprovedApplied, Some(now), faults.transit);
      if reason.Some? {
        return Some(TransitionFailed(reason.value));
      }
      return None;
    }

    /** A human approver, the requester included, closes the record without touching the registry. */
    method OnApprovalDeny(key: string, approver: string, approverType: CallerType, faults: Faults, now: int,
                          ghost s: State, ghost t: nat)
      returns (error: Option<HandlerError>)
      requires s.pending == store.rows && s.projects == registry.projects && t !in s.threads
      modifies store
      ensures Left(Run(dec, s, Handle(t, Deny(key, approver, approverType), faults, now)), t,
                   store.rows, registry.projects, error)
    {
      ghost var request := Deny(key, approver, approverType);
      HandleSteps(dec, s, t, request, faults, now);
      Spawned(dec, s, t, request);
      ghost var s0 := Next(dec, s, Spawn(t, request));
      hide Next, Run, Handle, TransitionRow, Terminal;
      var fetched := FetchActive(key, faults.fetch);
      if fetched.Err? {
        return Some(fetched.error);
      }
      if approverType != HumanOperator {
        return Some(ApproverNotHuman);
      }
      var reason := store.Transition(key, Denied, None, faults.transit);
      if reason.Some? {
        return Some(TransitionFailed(reason.value));
      }
      return None;
    }

    method OnApprovalTimeout(key: string, faults: Faults, now: int, ghost s: State, ghost t: nat)
      returns (error: Option<HandlerError>)
      requires s.pending == store.rows && s.projects == registry.projects && t !in s.threads
      modifies store
      ensures Left(Run(dec, s, Handle(t, Expire(key), faults, now)), t, store.rows, registry.projects, error)
    {
      ghost var request := Expire(key);
      HandleSteps(dec, s, t, request, faults, now);
      Spawned(dec, s, t, request);
      ghost var s0 := Next(dec, s, Spawn(t, request));
      hide Next, Run, Handle, TransitionRow, Terminal;
      var fetched := FetchActive(key, faults.fetch);
      if fetched.Err? {
        return Some(fetched.error);
      }
      var reason := store.Transition(key, TimedOut, None, faults.transit);
      if reason.Some? {
        return Some(TransitionFailed(reason.value));
      }
      return None;
    }
  }

  /** A finished thread's later steps do nothing. */
  lemma StaysDone(dec: Decoder, s: State, t: nat, faults: Faults, now: int)
    requires t in s.threads && s.threads[t].stage.Done?
    ensures ApplyStep(dec, s, t, faults.apply, now) == s && TransitStep(s, t, faults.transit, now) == s
  {
  }

  // ---------------------------------------------------------------- creating a record

  lemma CreateSteps(dec: Decoder, s: State, t: nat, record: Pending, faults: Faults, now: int)
    requires t !in s.threads && WellFormedRequest(Create(record))
    ensures var s0 := Next(dec, s, Spawn(t, Create(record)));
            && t in s0.threads
            && t in InsertStep(s0, t, faults.insert).threads
            && Run(dec, s, Handle(t, Create(record), faults, now)) == PostStep(InsertStep(s0, t, faults.insert), t)
  {
    var e := Handle(t, Create(record), faults, now);
    var s0 := Next(dec, s, e[0]);
    RunSix(dec, s, e);
    Spawned(dec, s, t, Create(record));
    hide CreateRow;
    assert Next(dec, s0, e[1]) == s0 && Next(dec, s0, e[2]) == s0 && Next(dec, s0, e[3]) == s0;
  }

  class PendingCreator {
    const store: PendingStore
    var posts: seq<string>

    constructor (store: PendingStore)
      ensures this.store == store && posts == []
    {
      this.store := store;
      this.posts := [];
    }

    /**
     createPending, given the request's key (a digest, so never empty): only a record that was
     not there before is posted for approval; a repeated request reports success and posts nothing.
     */
    method CreatePending(dec: Decoder, key: string, op: Op, body: string, operator: string, actorType: string,
                         createdAt: int,
                         faults: Faults, ghost s: State, ghost t: nat)
      returns (error: Option<HandlerError>)
      requires key != ""
      requires s.pending == store.rows && s.posts == posts && t !in s.threads
      modifies this, store
      ensures var record := Pending(key, op, body, operator, actorType, createdAt, PendingApproval, None);
              var s' := Run(dec, s, Handle(t, Create(record), faults, createdAt));
              Left(s', t, store.rows, s.projects, error) && s'.posts == posts
      ensures faults.insert == NoFault ==>
                && error == None
                && if key in old(store.rows) then store.rows == old(store.rows) && posts == old(posts)
                   else
                     && posts == old(posts) + [key]
                     && store.rows == old(store.rows)[key := Pending(key, op, body, operator, actorType, createdAt,
                                                                     PendingApproval, None)]
    {
      var record := Pending(key, op, body, operator, actorType, createdAt, PendingApproval, None);
      CreateSteps(dec, s, t, record, faults, createdAt);
      Spawned(dec, s, t, Create(record));
      hide Next, Run, Handle, CreateRow;
      var newlyCreated := false;
      var reason := store.CreateIfNotExists(record, faults.insert);
      if reason.None? {
        newlyCreated := true;
      } else if !reason.value.AlreadyExists? {
        return Some(CreateFailed(reason.value));
      }
      if newlyCreated {
        posts := posts + [key];
      }
      return None;
    }
  }
}
