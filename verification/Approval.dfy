/**
 The admin approval protocol (internal/usecase/admin_approval/orchestrator.go and the pending
 store): every acknowledge, deny, timeout and create request is a thread whose store and registry
 calls are separate atomic steps, interleaved in any order and each of them allowed to fail.
 */
module Approval {
  import opened Wrappers
  import opened Projects

  datatype Op = OpAdd | OpArchive | OpUnknown(name: string)

  datatype Status = PendingApproval | ApprovedApplied | Denied | TimedOut

  predicate Terminal(s: Status) {
    s != PendingApproval
  }

  datatype Pending = Pending(
    key: string,
    op: Op,
    body: string,
    requester: string,
    requesterType: string,
    createdAt: int,
    status: Status,
    appliedAt: Option<int>)

  datatype CallerType = HumanOperator | GatewayService | AIAgent | WorkspaceDaemon | OtherCaller(name: string)

  // ---------------------------------------------------------------- the pending store

  type Rows = map<string, Pending>

  datatype StoreError = KeyRequired | AlreadyExists(existing: Pending) | RowNotFound | TerminalTransition
                      | AppliedAtRequired | AppliedAtForbidden | Unavailable

  function CreateRow(rows: Rows, p: Pending): Result<Rows, StoreError> {
    if p.key == "" then Err(KeyRequired)
    else if p.key in rows then Err(StoreError.AlreadyExists(rows[p.key]))
    else Ok(rows[p.key := p])
  }

  function TransitionRow(rows: Rows, key: string, to: Status, appliedAt: Option<int>): Result<Rows, StoreError> {
    if to == ApprovedApplied && appliedAt.None? then Err(AppliedAtRequired)
    else if to != ApprovedApplied && appliedAt.Some? then Err(AppliedAtForbidden)
    else if key !in rows then Err(RowNotFound)
    else if Terminal(rows[key].status) then Err(TerminalTransition)
    else Ok(rows[key := rows[key].(status := to, appliedAt := if appliedAt.Some? then appliedAt
        else rows[key].appliedAt)])
  }

  // ---------------------------------------------------------------- applying an operation

  datatype AddBody = AddBody(id: string, fields: Fields)

  /** json.Unmarshal of the two body shapes; any pair of partial functions will do. */
  datatype Decoder = Decoder(add: string -> Option<AddBody>, archive: string -> Option<string>)

  datatype ApplyError = UnknownOp | DecodeFailed | Refused(error: RegistryError) | RegistryUnavailable

  predicate Decodes(dec: Decoder, p: Pending) {
    match p.op
    case OpAdd => dec.add(p.body).Some?
    case OpArchive => dec.archive(p.body).Some?
    case OpUnknown(_) => false
  }

  /** The registry call an approved record stands for. */
  function ApplyOp(dec: Decoder, projects: Table, p: Pending, now: int): Result<Table, RegistryError>
    requires Decodes(dec, p)
  {
    match p.op
    case OpAdd => var b := dec.add(p.body).value; AddRow(projects, b.id, b.fields, now)
    case OpArchive => ArchiveRow(projects, dec.archive(p.body).value, now)
  }

  /** The registry shows what the record asked for. */
  predicate Effective(dec: Decoder, projects: Table, p: Pending) {
    Decodes(dec, p) &&
    match p.op
    case OpAdd => var b := dec.add(p.body).value; b.id in projects && projects[b.id].fields == b.fields
    case OpArchive => var id := dec.archive(p.body).value; id in projects && projects[id].status == Archived
  }

  lemma ApplyOpEffective(dec: Decoder, projects: Table, p: Pending, now: int)
    requires Decodes(dec, p) && ApplyOp(dec, projects, p, now).Ok?
    ensures Effective(dec, ApplyOp(dec, projects, p, now).value, p)
    ensures Grows(projects, ApplyOp(dec, projects, p, now).value)
  {
  }

  lemma EffectiveStays(dec: Decoder, before: Table, after: Table, p: Pending)
    requires Grows(before, after) && Effective(dec, before, p)
    ensures Effective(dec, after, p)
  {
  }

  datatype HandlerError = Missing | AlreadyTerminal | FetchFailed
                        | UnresolvedRequester | ApproverNotHuman | SelfApproval
                        | ApplyFailed(cause: ApplyError) | TransitionFailed(reason: StoreError)
                            | CreateFailed(reason: StoreError)

  /** The 4-eyes rule. */
  function Validate4Eyes(p: Pending, approver: string, approverType: CallerType): Option<HandlerError> {
    if p.requester == "" then Some(UnresolvedRequester)
    else if approverType != HumanOperator then Some(ApproverNotHuman)
    else if p.requester == approver then Some(SelfApproval)
    else None
  }

  predicate FourEyes(p: Pending, approver: string, approverType: CallerType) {
    p.requester != "" && approverType == HumanOperator && approver != p.requester
  }

  // ---------------------------------------------------------------- threads and steps

  datatype Request =
    | Ack(key: string, approver: string, approverType: CallerType)
    | Deny(key: string, approver: string, approverType: CallerType)
    | Expire(key: string)
    | Create(record: Pending)

  function KeyOf(r: Request): string {
    if r.Create? then r.record.key else r.key
  }

  datatype Stage =
    | Start
    | Fetched(p: Pending)              // read as active, and validated
    | Applied(p: Pending)              // the registry call went through
    | ToPost                           // freshly created, approval message not posted yet
    | Done(error: Option<HandlerError>)

  datatype Thread = Thread(request: Request, stage: Stage)

  /** How a backend call may go wrong: nothing happened, or it happened and the caller is told it did not. */
  datatype Fault = NoFault | Lost | Unseen

  /** One registry call made by an acknowledge thread. */
  datatype RegistryCall = RegistryCall(p: Pending, approver: string, approverType: CallerType, changed: bool)

  datatype State = State(
    pending: Rows,
    projects: Table,
    threads: map<nat, Thread>,
    calls: seq<RegistryCall>,
    posts: seq<string>)

  datatype Event =
    | Spawn(t: nat, request: Request)
    | Fetch(t: nat, fault: Fault)
    | Apply(t: nat, fault: Fault, now: int)
    | Transit(t: nat, fault: Fault, now: int)
    | Insert(t: nat, fault: Fault)
    | Post(t: nat)
    | DirectAdd(id: string, fields: Fields, now: int)   // the operator's own command line
    | DirectArchive(id: string, now: int)

  /** A new request: createPending always stores a pending record under a non-empty key. */
  predicate WellFormedRequest(r: Request) {
    r.Create? ==> r.record.key != "" && r.record.status == PendingApproval && r.record.appliedAt == None
  }

  function SetStage(s: State, t: nat, stage: Stage): State
    requires t in s.threads
  {
    s.(threads := s.threads[t := s.threads[t].(stage := stage)])
  }

  function Fail(s: State, t: nat, e: HandlerError): State
    requires t in s.threads
  {
    SetStage(s, t, Done(Some(e)))
  }

  /** fetchActive and the checks that need nothing but the fetched record. */
  function FetchStep(s: State, t: nat, fault: Fault): State
    requires t in s.threads
  {
    var r := s.threads[t].request;
    if r.Create? || s.threads[t].stage != Start then s
    else if fault != NoFault then Fail(s, t, FetchFailed)
    else if r.key !in s.pending then Fail(s, t, Missing)
    else
      var p := s.pending[r.key];
      if Terminal(p.status) then Fail(s, t, AlreadyTerminal)
      else
        match r
        case Ack(_, approver, approverType) =>
          var refusal := Validate4Eyes(p, approver, approverType);
          if refusal.Some? then Fail(s, t, refusal.value) else SetStage(s, t, Fetched(p))
        case Deny(_, _, approverType) =>
          if approverType != HumanOperator then Fail(s, t, ApproverNotHuman) else SetStage(s, t, Fetched(p))
        case _ => SetStage(s, t, Fetched(p))
  }

  /** apply: decode the fetched body and call the registry. */
  function ApplyStep(dec: Decoder, s: State, t: nat, fault: Fault, now: int): State
    requires t in s.threads
  {
    var r, stage := s.threads[t].request, s.threads[t].stage;
    if !r.Ack? || !stage.Fetched? then s
    else if stage.p.op.OpUnknown? then Fail(s, t, ApplyFailed(UnknownOp))
    else if !Decodes(dec, stage.p) then Fail(s, t, ApplyFailed(DecodeFailed))
    else
      var result := ApplyOp(dec, s.projects, stage.p, now);
      var happened := result.Ok? && fault != Lost;
      var call := RegistryCall(stage.p, r.approver, r.approverType, happened);
      var s' := s.(projects := if happened then result.value else s.projects, calls := s.calls + [call]);
      if fault != NoFault then Fail(s', t, ApplyFailed(RegistryUnavailable))
      else if result.Err? then Fail(s', t, ApplyFailed(Refused(result.error)))
      else SetStage(s', t, Applied(stage.p))
  }

  /** The final status change, one store transaction. */
  function TransitStep(s: State, t: nat, fault: Fault, now: int): State
    requires t in s.threads
  {
    var r, stage := s.threads[t].request, s.threads[t].stage;
    if !(match r case Ack(_, _, _) => stage.Applied? case Create(_) => false case _ => stage.Fetched?) then s
    else
      var result := match r
        case Ack(key, _, _) => TransitionRow(s.pending, key, ApprovedApplied, Some(now))
        case Deny(key, _, _) => TransitionRow(s.pending, key, Denied, None)
        case Expire(key) => TransitionRow(s.pending, key, TimedOut, None)
        case Create(_) => Ok(s.pending);
      var s' := s.(pending := if result.Ok? && fault != Lost then result.value else s.pending);
      if fault != NoFault then Fail(s', t, TransitionFailed(Unavailable))
      else if result.Err? then Fail(s', t, TransitionFailed(result.error))
      else SetStage(s', t, Done(None))
  }

  /** CreateIfNotExists: only a fresh record goes on to be posted. */
  function InsertStep(s: State, t: nat, fault: Fault): State
    requires t in s.threads
  {
    var r := s.threads[t].request;
    if !r.Create? || s.threads[t].stage != Start then s
    else
      var result := CreateRow(s.pending, r.record);
      var s' := s.(pending := if result.Ok? && fault != Lost then result.value else s.pending);
      if fault != NoFault then Fail(s', t, CreateFailed(Unavailable))
      else if result.Ok? then SetStage(s', t, ToPost)
      else if result.error.AlreadyExists? then SetStage(s', t, Done(None))
      else Fail(s', t, CreateFailed(result.error))
  }

  function PostStep(s: State, t: nat): State
    requires t in s.threads
  {
    if s.threads[t].stage != ToPost then s
    else SetStage(s.(posts := s.posts + [KeyOf(s.threads[t].request)]), t, Done(None))
  }

  /** One atomic step; an event that is not enabled changes nothing. */
  function Next(dec: Decoder, s: State, e: Event): State {
    match e
    case Spawn(t, request) =>
      if t in s.threads || !WellFormedRequest(request) then s
      else s.(threads := s.threads[t := Thread(request, Start)])
    case Fetch(t, fault) => if t !in s.threads then s else FetchStep(s, t, fault)
    case Apply(t, fault, now) => if t !in s.threads then s else ApplyStep(dec, s, t, fault, now)
    case Transit(t, fault, now) => if t !in s.threads then s else TransitStep(s, t, fault, now)
    case Insert(t, fault) => if t !in s.threads then s else InsertStep(s, t, fault)
    case Post(t) => if t !in s.threads then s else PostStep(s, t)
    case DirectAdd(id, fields, now) =>
      var r := AddRow(s.projects, id, fields, now); if r.Ok? then s.(projects := r.value) else s
    case DirectArchive(id, now) =>
      var r := ArchiveRow(s.projects, id, now); if r.Ok? then s.(projects := r.value) else s
  }

  function Run(dec: Decoder, s: State, events: seq<Event>): State
    decreases |events|
  {
    if events == [] then s else Run(dec, Next(dec, s, events[0]), events[1..])
  }

  lemma {:induction false} RunAppend(dec: Decoder, s: State, a: seq<Event>, b: seq<Event>)
    ensures Run(dec, s, a + b) == Run(dec, Run(dec, s, a), b)
    decreases |a|
  {
    hide Next;
    if a == [] {
      assert a + b == b;
    } else {
      assert (a + b)[1..] == a[1..] + b;
      RunAppend(dec, Next(dec, s, a[0]), a[1..], b);
    }
  }

  /** At start-up no request is running; stored records are pending, legacy ones perhaps without a requester. */
  predicate Initial(s: State) {
    && s.threads == map[] && s.calls == [] && s.posts == []
    && (forall k | k in s.pending ::
          s.pending[k].key == k && s.pending[k].status == PendingApproval && s.pending[k].appliedAt == None)
  }
}
