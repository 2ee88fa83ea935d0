/**
 What the approval protocol does, in the caller's own terms: a stored record is the request some
 create made, a registry change carries out such a request, a status changes only as its handler
 says, and what one undisturbed handler answers and leaves.
 */
module ApprovalRequests {
  import opened Wrappers
  import opened Projects
  import opened Approval
  import opened ApprovalSafety
  import opened ApprovalResults

  // ---------------------------------------------------------------- records and the requests that made them

  /** Thread t was started to create this record, and the record is stored as asked. */
  predicate PutBy(s: State, t: nat, key: string) {
    && t in s.threads && s.threads[t].request.Create? && key in s.pending
    && var asked, row := s.threads[t].request.record, s.pending[key];
       && asked.key == key && row.key == key && row.op == asked.op && row.body == asked.body
       && row.requester == asked.requester && row.requesterType == asked.requesterType
       && row.createdAt == asked.createdAt
  }

  lemma PutByStays(dec: Decoder, s: State, e: Event, t: nat, key: string)
    requires PutBy(s, t, key)
    ensures PutBy(Next(dec, s, e), t, key)
  {
    NextEvolves(dec, s, e);
    hide Next;
  }

  lemma NewKeyPut(dec: Decoder, s: State, e: Event, key: string)
    requires key in Next(dec, s, e).pending && key !in s.pending
    ensures e.Insert? && PutBy(Next(dec, s, e), e.t, key)
  {
    hide FetchStep, ApplyStep, AddRow, ArchiveRow;
    if e.Fetch? && e.t in s.threads { FetchLeaves(s, e.t, e.fault); }
    if e.Apply? && e.t in s.threads { ApplyLeaves(dec, s, e.t, e.fault, e.now); }
  }

  lemma {:induction false} RunPut(dec: Decoder, s: State, events: seq<Event>, key: string) returns (t: nat)
    requires key in Run(dec, s, events).pending && (key in s.pending ==> exists u: nat :: PutBy(s, u, key))
    ensures PutBy(Run(dec, s, events), t, key)
    decreases |events|
  {
    if events == [] {
      t :| PutBy(s, t, key);
    } else {
      hide Next, PutBy;
      var s' := Next(dec, s, events[0]);
      if key in s'.pending {
        if key in s.pending {
          var u: nat :| PutBy(s, u, key);
          PutByStays(dec, s, events[0], u, key);
        } else {
          NewKeyPut(dec, s, events[0], key);
        }
      }
      t := RunPut(dec, s', events[1..], key);
    }
  }

  predicate SpawnedAt(events: seq<Event>, n: nat, t: nat, request: Request) {
    n < |events| && events[n] == Spawn(t, request)
  }

  /** A running thread was started by a request of the run. */
  lemma {:induction false} ThreadSpawned(dec: Decoder, init: State, events: seq<Event>, t: nat) returns (n: nat)
    requires t !in init.threads && t in Run(dec, init, events).threads
    ensures SpawnedAt(events, n, t, Run(dec, init, events).threads[t].request)
    decreases |events|
  {
    if events == [] {
      assert false;
    } else {
      var k := |events| - 1;
      var so, e := events[..k], events[k];
      assert events == so + [e];
      RunSnoc(dec, init, so, e);
      var s := Run(dec, init, so);
      hide Run;
      if t in s.threads {
        NextEvolves(dec, s, e);
        n := ThreadSpawned(dec, init, so, t);
      } else {
        NewThread(dec, s, e, t);
        n := k;
      }
    }
  }

  lemma NewThread(dec: Decoder, s: State, e: Event, t: nat)
    requires t !in s.threads && t in Next(dec, s, e).threads
    ensures e == Spawn(t, Next(dec, s, e).threads[t].request)
  {
    if Subject(e) != Some(t) {
      OthersKeep(dec, s, e, t);
    }
  }

  /**
   In every run, a record that was not there at start-up was asked for by a create request of the
   run, and is stored with exactly that request's operation, body, requester and creation time.
   */
  lemma StoredAsRequested(dec: Decoder, init: State, events: seq<Event>, key: string)
    returns (n: nat, t: nat, asked: Pending)
    requires Initial(init) && key !in init.pending && key in Run(dec, init, events).pending
    ensures SpawnedAt(events, n, t, Create(asked))
    ensures var row := Run(dec, init, events).pending[key];
            && asked.key == key && row.key == key && row.op == asked.op && row.body == asked.body
            && row.requester == asked.requester && row.requesterType == asked.requesterType
            && row.createdAt == asked.createdAt
  {
    t := RunPut(dec, init, events, key);
    n := ThreadSpawned(dec, init, events, t);
    asked := Run(dec, init, events).threads[t].request.record;
  }

  /** The registry after carrying out an operation, column by column. */
  predicate CarriedOut(dec: Decoder, before: Table, after: Table, op: Op, body: string, now: int) {
    match op
    case OpAdd =>
      dec.add(body).Some? &&
      var b := dec.add(body).value;
      b.id !in before && after == before[b.id := Project(b.fields, Active, now, None)]
    case OpArchive =>
      dec.archive(body).Some? && dec.archive(body).value in before &&
      var id := dec.archive(body).value;
      var first := if before[id].archivedAt.Some? then before[id].archivedAt else Some(now);
      after == before[id := Project(before[id].fields, Archived, before[id].createdAt, first)]
    case OpUnknown(_) => false
  }

  /** Why an operation cannot be carried out, the first reason that applies. */
  function ApplyRefusal(dec: Decoder, projects: Table, op: Op, body: string): Option<ApplyError> {
    match op
    case OpUnknown(_) => Some(UnknownOp)
    case OpAdd =>
      if dec.add(body).None? then Some(DecodeFailed)
      else if !ValidProjectId(dec.add(body).value.id) then Some(Refused(InvalidProjectId))
      else if dec.add(body).value.id in projects then Some(Refused(RegistryError.AlreadyExists))
      else None
    case OpArchive =>
      if dec.archive(body).None? then Some(DecodeFailed)
      else if dec.archive(body).value !in projects then Some(Refused(NotFound))
      else None
  }

  lemma ChangeIsCarriedOut(dec: Decoder, projects: Table, p: Pending, now: int)
    requires Decodes(dec, p) && ApplyOp(dec, projects, p, now).Ok?
    ensures CarriedOut(dec, projects, ApplyOp(dec, projects, p, now).value, p.op, p.body, now)
  {
  }

  /**
   Every change an acknowledge makes to the registry, for a record created in the run, carries out
   the operation and body of the request that created it, and the approver is a human other than
   that request's known requester.
   */
  lemma ChangeCarriesOutRequest(dec: Decoder, init: State, events: seq<Event>, e: Event)
    returns (n: nat, t: nat, asked: Pending)
    requires var s := Run(dec, init, events);
             && Initial(init) && e.Apply? && Next(dec, s, e).projects != s.projects
             && e.t in s.threads && s.threads[e.t].request.Ack? && s.threads[e.t].request.key !in init.pending
    ensures SpawnedAt(events, n, t, Create(asked))
    ensures var s := Run(dec, init, events);
            var ack := s.threads[e.t].request;
            && asked.key == ack.key
            && asked.requester != "" && ack.approver != asked.requester && ack.approverType == HumanOperator
            && CarriedOut(dec, s.projects, Next(dec, s, e).projects, asked.op, asked.body, e.now)
  {
    var s := Run(dec, init, events);
    assert Reachable(dec, s);
    EveryChangeAuthorised(dec, s, e);
    hide Next, ApplyOp, Decodes, CarriedOut, Run, Initial;
    var row := s.pending[s.threads[e.t].request.key];
    n, t, asked := StoredAsRequested(dec, init, events, s.threads[e.t].request.key);
    ChangeIsCarriedOut(dec, s.projects, row, e.now);
  }

  // ---------------------------------------------------------------- status changes

  /** A deny past its checks is a human's. */
  ghost predicate DeniesHuman(s: State) {
    forall t | t in s.threads && s.threads[t].request.Deny? && s.threads[t].stage.Fetched? ::
      s.threads[t].request.approverType == HumanOperator
  }

  lemma NextDeniesHuman(dec: Decoder, s: State, e: Event)
    requires DeniesHuman(s)
    ensures DeniesHuman(Next(dec, s, e))
  {
    var s' := Next(dec, s, e);
    forall t | t in s'.threads && s'.threads[t].request.Deny? && s'.threads[t].stage.Fetched?
      ensures s'.threads[t].request.approverType == HumanOperator
    {
      if Subject(e) == Some(t) {
        OwnDeniesHuman(dec, s, e, t);
      } else {
        OthersKeep(dec, s, e, t);
      }
    }
  }

  lemma OwnDeniesHuman(dec: Decoder, s: State, e: Event, t: nat)
    requires DeniesHuman(s) && Subject(e) == Some(t) && t in Next(dec, s, e).threads
    requires Next(dec, s, e).threads[t].request.Deny? && Next(dec, s, e).threads[t].stage.Fetched?
    ensures Next(dec, s, e).threads[t].request.approverType == HumanOperator
  {
    hide ApplyOp, Decodes, TransitionRow, CreateRow, Validate4Eyes, Terminal;
  }

  lemma {:induction false} RunDeniesHuman(dec: Decoder, s: State, events: seq<Event>)
    requires DeniesHuman(s)
    ensures DeniesHuman(Run(dec, s, events))
    decreases |events|
  {
    if events != [] {
      hide Next, DeniesHuman;
      NextDeniesHuman(dec, s, events[0]);
      RunDeniesHuman(dec, Next(dec, s, events[0]), events[1..]);
    }
  }

  /**
   A stored record's status changes only from pending, and only by its own handler's last step: an
   acknowledge makes it approved at that step's time, a human's deny makes it denied, a timeout
   makes it timed out; nothing else about the record changes.
   */
  lemma StatusChangeMeans(dec: Decoder, init: State, events: seq<Event>, e: Event, key: string)
    requires Initial(init) && key in Run(dec, init, events).pending
    requires var s := Run(dec, init, events); Next(dec, s, e).pending[key] != s.pending[key]
    ensures var s := Run(dec, init, events);
            var row, row' := s.pending[key], Next(dec, s, e).pending[key];
            && row.status == PendingApproval && e.Transit? && e.t in s.threads
            && match s.threads[e.t].request
               case Ack(k, _, _) =>
                 k == key && row' == row.(status := ApprovedApplied, appliedAt := Some(e.now))
               case Deny(k, _, who) =>
                 k == key && who == HumanOperator && row' == row.(status := Denied)
               case Expire(k) => k == key && row' == row.(status := TimedOut)
               case Create(_) => false
  {
    var s := Run(dec, init, events);
    RunRowsOk(dec, init, events);
    hide Run, Next, RowsOk, DeniesHuman, Initial, Inv;
    NextEvolves(dec, s, e);
    ChangeByTransit(dec, s, e, key);
  }

  lemma RunRowsOk(dec: Decoder, init: State, events: seq<Event>)
    requires Initial(init)
    ensures RowsOk(Run(dec, init, events)) && DeniesHuman(Run(dec, init, events))
  {
    hide Run;
    assert Reachable(dec, Run(dec, init, events));
    ReachableInv(dec, Run(dec, init, events));
    RunDeniesHuman(dec, init, events);
  }

  lemma ChangeByTransit(dec: Decoder, s: State, e: Event, key: string)
    requires DeniesHuman(s) && RowsOk(s)
    requires key in s.pending && key in Next(dec, s, e).pending && Next(dec, s, e).pending[key] != s.pending[key]
    ensures var row, row' := s.pending[key], Next(dec, s, e).pending[key];
            && row.status == PendingApproval && e.Transit? && e.t in s.threads
            && match s.threads[e.t].request
               case Ack(k, _, _) =>
                 k == key && row' == row.(status := ApprovedApplied, appliedAt := Some(e.now))
               case Deny(k, _, who) =>
                 k == key && who == HumanOperator && row' == row.(status := Denied)
               case Expire(k) => k == key && row' == row.(status := TimedOut)
               case Create(_) => false
  {
    hide FetchStep, ApplyStep, AddRow, ArchiveRow;
    if e.Fetch? && e.t in s.threads { FetchLeaves(s, e.t, e.fault); }
    if e.Apply? && e.t in s.threads { ApplyLeaves(dec, s, e.t, e.fault, e.now); }
  }

  /** When the store refuses a status change, and with which error; otherwise only that record changes. */
  lemma ChangeRefused(rows: Rows, key: string, to: Status, appliedAt: Option<int>)
    ensures match TransitionRow(rows, key, to, appliedAt)
            case Ok(rows') =>
              && (to == ApprovedApplied <==> appliedAt.Some?) && key in rows && rows[key].status == PendingApproval
              && (forall k | k in rows && k != key :: k in rows' && rows'[k] == rows[k])
              && rows'.Keys == rows.Keys && rows'[key].status == to
              && rows'[key].appliedAt == if to == ApprovedApplied then appliedAt else rows[key].appliedAt
            case Err(e) =>
              || (e == AppliedAtRequired && to == ApprovedApplied && appliedAt == None)
              || (e == AppliedAtForbidden && to != ApprovedApplied && appliedAt.Some?)
              || (e == RowNotFound && key !in rows)
              || (e == TerminalTransition && key in rows && rows[key].status in {ApprovedApplied, Denied, TimedOut})
  {
  }

  // ---------------------------------------------------------------- one handler, nothing failing

  /** The answer of a handler that meets no fault, the first reason that applies. */
  function Refusal(rows: Rows, key: string, human: bool, own: bool, needsRequester: bool): Option<HandlerError> {
    if key !in rows then Some(Missing)
    else if rows[key].status in {ApprovedApplied, Denied, TimedOut} then Some(AlreadyTerminal)
    else if needsRequester && rows[key].requester == "" then Some(UnresolvedRequester)
    else if !human then Some(ApproverNotHuman)
    else if own then Some(SelfApproval)
    else None
  }

  lemma Started(dec: Decoder, s: State, t: nat, r: Request)
    requires t !in s.threads && !r.Create? && RowsOk(s)
    ensures var s0 := Next(dec, s, Spawn(t, r));
            && s0.pending == s.pending && s0.projects == s.projects && RowsOk(s0)
            && t in s0.threads && s0.threads[t] == Thread(r, Start)
  {
  }

  /**
   One undisturbed acknowledge: refused for the first reason that applies, and then nothing
   changes; or the operation cannot be carried out, for a reason likewise, and again nothing changes;
   or it is carried out, and the record is approved at that time.
   */
  lemma AckDoes(dec: Decoder, s: State, t: nat, key: string, approver: string, who: CallerType, now: int)
    requires RowsOk(s) && t !in s.threads
    ensures var s' := Run(dec, s, Handle(t, Ack(key, approver, who), NO_FAULTS, now));
            var own := key in s.pending && s.pending[key].requester == approver;
            var refusal := Refusal(s.pending, key, who == HumanOperator, own, true);
            && t in s'.threads && s'.threads[t].stage.Done?
            && var error := s'.threads[t].stage.error;
               if refusal.Some? then error == refusal && s'.pending == s.pending && s'.projects == s.projects
               else
                 var row := s.pending[key];
                 match ApplyRefusal(dec, s.projects, row.op, row.body)
                 case Some(cause) =>
                   error == Some(ApplyFailed(cause)) && s'.pending == s.pending && s'.projects == s.projects
                 case None =>
                   && error == None
                   && CarriedOut(dec, s.projects, s'.projects, row.op, row.body, now)
                   && s'.pending == s.pending[key := row.(status := ApprovedApplied, appliedAt := Some(now))]
  {
    var r := Ack(key, approver, who);
    hide Run, Next, Handle, ApplyRefusal, CarriedOut, Refusal, AfterAck, RowsOk;
    HandleSteps(dec, s, t, r, NO_FAULTS, now);
    Started(dec, s, t, r);
    var s0 := Next(dec, s, Spawn(t, r));
    AckStepsDo(dec, s0, t, key, approver, who, now);
  }

  lemma AckStepsDo(dec: Decoder, s: State, t: nat, key: string, approver: string, who: CallerType, now: int)
    requires RowsOk(s) && t in s.threads && s.threads[t] == Thread(Ack(key, approver, who), Start)
    ensures var s' := AfterAck(dec, s, t, NO_FAULTS, now);
            var own := key in s.pending && s.pending[key].requester == approver;
            var refusal := Refusal(s.pending, key, who == HumanOperator, own, true);
            && t in s'.threads && s'.threads[t].stage.Done?
            && var error := s'.threads[t].stage.error;
               if refusal.Some? then error == refusal && s'.pending == s.pending && s'.projects == s.projects
               else
                 var row := s.pending[key];
                 match ApplyRefusal(dec, s.projects, row.op, row.body)
                 case Some(cause) =>
                   error == Some(ApplyFailed(cause)) && s'.pending == s.pending && s'.projects == s.projects
                 case None =>
                   && error == None
                   && CarriedOut(dec, s.projects, s'.projects, row.op, row.body, now)
                   && s'.pending == s.pending[key := row.(status := ApprovedApplied, appliedAt := Some(now))]
  {
    var own := key in s.pending && s.pending[key].requester == approver;
    var refusal := Refusal(s.pending, key, who == HumanOperator, own, true);
    var s1 := FetchStep(s, t, NoFault);
    if refusal.Some? {
      assert s1 == Fail(s, t, refusal.value);
    } else {
      var row := s.pending[key];
      assert s1 == SetStage(s, t, Fetched(row));
      hide FetchStep, Validate4Eyes, ValidProjectId;
      FetchedDoes(dec, s1, t, row, now);
    }
  }

  lemma FetchedDoes(dec: Decoder, s: State, t: nat, row: Pending, now: int)
    requires t in s.threads && s.threads[t].request.Ack? && s.threads[t].stage == Fetched(row)
    requires s.threads[t].request.key in s.pending && s.pending[s.threads[t].request.key] == row
    requires row.status == PendingApproval
    ensures var s2 := ApplyStep(dec, s, t, NoFault, now);
            && t in s2.threads
            && var s' := TransitStep(s2, t, NoFault, now);
               && t in s'.threads && s'.threads[t].stage.Done?
               && var error, key := s'.threads[t].stage.error, s.threads[t].request.key;
                  match ApplyRefusal(dec, s.projects, row.op, row.body)
                  case Some(cause) =>
                    error == Some(ApplyFailed(cause)) && s'.pending == s.pending && s'.projects == s.projects
                  case None =>
                    && error == None
                    && CarriedOut(dec, s.projects, s'.projects, row.op, row.body, now)
                    && s'.pending == s.pending[key := row.(status := ApprovedApplied, appliedAt := Some(now))]
  {
    hide ValidProjectId;
  }

  /** One undisturbed deny or timeout: refused for the first reason that applies, or the record is closed. */
  lemma CloseDoes(dec: Decoder, s: State, t: nat, request: Request, now: int)
    requires RowsOk(s) && t !in s.threads && (request.Deny? || request.Expire?)
    ensures var s' := Run(dec, s, Handle(t, request, NO_FAULTS, now));
            var human := request.Expire? || request.approverType == HumanOperator;
            var refusal := Refusal(s.pending, request.key, human, false, false);
            && t in s'.threads && s'.threads[t].stage == Done(refusal) && s'.projects == s.projects
            && s'.pending == if refusal.Some? then s.pending
                             else s.pending[request.key := s.pending[request.key].(
                                    status := if request.Deny? then Denied else TimedOut)]
  {
    hide Run, Next, Handle, Refusal, AfterAck, RowsOk;
    HandleSteps(dec, s, t, request, NO_FAULTS, now);
    Started(dec, s, t, request);
    var s0 := Next(dec, s, Spawn(t, request));
    CloseStepsDo(dec, s0, t, now);
  }

  lemma CloseStepsDo(dec: Decoder, s: State, t: nat, now: int)
    requires RowsOk(s) && t in s.threads && s.threads[t].stage == Start
    requires s.threads[t].request.Deny? || s.threads[t].request.Expire?
    ensures var s', request := AfterAck(dec, s, t, NO_FAULTS, now), s.threads[t].request;
            var human := request.Expire? || request.approverType == HumanOperator;
            var refusal := Refusal(s.pending, request.key, human, false, false);
            && t in s'.threads && s'.threads[t].stage == Done(refusal) && s'.projects == s.projects
            && s'.pending == if refusal.Some? then s.pending
                             else s.pending[request.key := s.pending[request.key].(
                                    status := if request.Deny? then Denied else TimedOut)]
  {
    var request := s.threads[t].request;
    var human := request.Expire? || request.approverType == HumanOperator;
    var refusal := Refusal(s.pending, request.key, human, false, false);
    var s1 := FetchStep(s, t, NoFault);
    if refusal.Some? {
      assert s1 == Fail(s, t, refusal.value);
    } else {
      assert s1 == SetStage(s, t, Fetched(s.pending[request.key]));
    }
    hide FetchStep;
    assert ApplyStep(dec, s1, t, NoFault, now) == s1;
  }
}
