/**
 The guarantees of the approval protocol, over every run from start-up, and what running a
 handler in one piece adds.
 */
module ApprovalResults {
  import opened Wrappers
  import opened Projects
  import opened Approval
  import opened ApprovalSafety

  /** A state some interleaving reaches from start-up. */
  ghost predicate Reachable(dec: Decoder, s: State) {
    exists init: State, events: seq<Event> :: Initial(init) && Run(dec, init, events) == s
  }

  lemma ReachableInv(dec: Decoder, s: State)
    requires Reachable(dec, s)
    ensures Inv(dec, s)
  {
    hide Inv, Initial;
    var init: State, events: seq<Event> :| Initial(init) && Run(dec, init, events) == s;
    InitialInv(dec, init);
    RunInv(dec, init, events);
  }

  /**
   The registry changes only by the operator's own command line, or by an acknowledge thread
   that carries out exactly the stored operation and body, for a human approver other than the
   record's known requester.
   */
  lemma EveryChangeAuthorised(dec: Decoder, s: State, e: Event)
    requires Reachable(dec, s) && Next(dec, s, e).projects != s.projects
    ensures e.DirectAdd? || e.DirectArchive? || e.Apply?
    ensures e.Apply? ==>
      && e.t in s.threads && s.threads[e.t].request.Ack? && s.threads[e.t].request.key in s.pending
      && var r := s.threads[e.t].request;
         var stored := s.pending[r.key];
         && FourEyes(stored, r.approver, r.approverType)
         && Decodes(dec, stored)
         && ApplyOp(dec, s.projects, stored, e.now) == Ok(Next(dec, s, e).projects)
  {
    ReachableInv(dec, s);
    hide FetchStep, Effective;
    if e.Fetch? && e.t in s.threads { FetchLeaves(s, e.t, e.fault); }
    if e.Apply? {
      assert ThreadOk(dec, s, s.threads[e.t]);
    }
  }

  /** What a record asks for never changes after its creation, and a terminal record not at all. */
  lemma RecordsSettle(dec: Decoder, s: State, events: seq<Event>, key: string)
    requires key in s.pending
    ensures var s' := Run(dec, s, events);
            && key in s'.pending && SameRequest(s.pending[key], s'.pending[key])
            && (Terminal(s.pending[key].status) ==> s'.pending[key] == s.pending[key])
  {
    RunEvolves(dec, s, events);
  }

  /** An approved record has an application time, and its effect is in the registry from then on. */
  lemma ApprovedForGood(dec: Decoder, s: State, events: seq<Event>, key: string)
    requires Reachable(dec, s) && key in s.pending
    ensures s.pending[key].appliedAt.Some? <==> s.pending[key].status == ApprovedApplied
    ensures s.pending[key].status == ApprovedApplied ==> Effective(dec, Run(dec, s, events).projects, s.pending[key])
  {
    ReachableInv(dec, s);
    RunEvolves(dec, s, events);
    if s.pending[key].status == ApprovedApplied {
      EffectiveStays(dec, s.projects, Run(dec, s, events).projects, s.pending[key]);
    }
  }

  /** Of all acks, denies and timeouts of one key at most one ever reports success. */
  lemma OneWinnerPerKey(dec: Decoder, s: State, t: nat, u: nat, key: string)
    requires Reachable(dec, s) && Won(s, t, key) && Won(s, u, key)
    ensures t == u && key in s.pending && Terminal(s.pending[key].status)
  {
    ReachableInv(dec, s);
  }

  /** However often a record is acknowledged, its project is added at most once. */
  lemma AddTakesEffectOnce(dec: Decoder, s: State, i: nat, j: nat)
    requires Reachable(dec, s) && i < |s.calls| && j < |s.calls|
    requires s.calls[i].changed && s.calls[j].changed && s.calls[i].p.op == OpAdd && s.calls[j].p.op == OpAdd
    requires s.calls[i].p.key == s.calls[j].p.key
    ensures i == j
  {
    ReachableInv(dec, s);
    assert CallOk(dec, s, s.calls[i]) && CallOk(dec, s, s.calls[j]);
    assert AddCall(dec, s.calls[i]) && AddCall(dec, s.calls[j]);
  }

  /** Creating a key any number of times posts it at most once, and only once it is stored. */
  lemma OnePostPerKey(dec: Decoder, s: State, i: nat, j: nat)
    requires Reachable(dec, s) && i < |s.posts| && j < |s.posts| && s.posts[i] == s.posts[j]
    ensures i == j && s.posts[i] in s.pending
  {
    ReachableInv(dec, s);
  }

  /** A create whose insert was reported as failed, made or not. */
  predicate InsertUnknown(s: State, t: nat, key: string) {
    && t in s.threads && s.threads[t].request.Create? && s.threads[t].request.record.key == key
    && s.threads[t].stage == Done(Some(CreateFailed(Unavailable)))
  }

  ghost predicate Accounted(s: State, key: string) {
    key in s.posts || (exists t :: Posting(s, t, key)) || (exists t :: InsertUnknown(s, t, key))
  }

  lemma PostingStep(dec: Decoder, s: State, e: Event, t: nat, key: string)
    requires Posting(s, t, key)
    ensures Posting(Next(dec, s, e), t, key) || key in Next(dec, s, e).posts
  {
    hide FetchStep, TransitionRow, CreateRow, ApplyOp, Decodes, AddRow, ArchiveRow;
    if Subject(e) == Some(t) {
      if e.Fetch? { FetchLeaves(s, t, e.fault); }
    } else {
      NextEvolves(dec, s, e);
      OthersKeep(dec, s, e, t);
    }
  }

  lemma UnknownStays(dec: Decoder, s: State, e: Event, t: nat, key: string)
    requires InsertUnknown(s, t, key)
    ensures InsertUnknown(Next(dec, s, e), t, key)
  {
    NextEvolves(dec, s, e);
    hide Next;
  }

  /** A new key comes from an insert, which goes on to post it or is told of a failure. */
  lemma NewKey(dec: Decoder, s: State, e: Event, key: string)
    requires key in Next(dec, s, e).pending && key !in s.pending
    ensures e.Insert? && (Posting(Next(dec, s, e), e.t, key) || InsertUnknown(Next(dec, s, e), e.t, key))
  {
    hide FetchStep, ApplyStep, AddRow, ArchiveRow;
    if e.Fetch? && e.t in s.threads { FetchLeaves(s, e.t, e.fault); }
    if e.Apply? && e.t in s.threads { ApplyLeaves(dec, s, e.t, e.fault, e.now); }
  }

  lemma AccountedStep(dec: Decoder, s: State, e: Event, key: string)
    requires key in Next(dec, s, e).pending && (key in s.pending ==> Accounted(s, key))
    ensures Accounted(Next(dec, s, e), key)
  {
    NextEvolves(dec, s, e);
    hide Next, Posting, InsertUnknown;
    if key !in s.pending {
      NewKey(dec, s, e, key);
    } else if t: nat :| Posting(s, t, key) {
      PostingStep(dec, s, e, t, key);
    } else if t: nat :| InsertUnknown(s, t, key) {
      UnknownStays(dec, s, e, t, key);
    }
  }

  lemma {:induction false} AccountedRun(dec: Decoder, s: State, events: seq<Event>, key: string)
    requires key in Run(dec, s, events).pending && (key in s.pending ==> Accounted(s, key))
    ensures Accounted(Run(dec, s, events), key)
    decreases |events|
  {
    if events != [] {
      hide Next, Accounted;
      if key in Next(dec, s, events[0]).pending {
        AccountedStep(dec, s, events[0], key);
      }
      AccountedRun(dec, Next(dec, s, events[0]), events[1..], key);
    }
  }

  /** Every key created in a run is posted, or about to be, or its insert was reported as failed. */
  lemma CreatedIsPosted(dec: Decoder, init: State, events: seq<Event>, key: string)
    requires key !in init.pending && key in Run(dec, init, events).pending
    ensures var s := Run(dec, init, events);
            key in s.posts || (exists t :: Posting(s, t, key)) || (exists t :: InsertUnknown(s, t, key))
  {
    AccountedRun(dec, init, events, key);
  }

  // ---------------------------------------------------------------- handlers run in one piece

  datatype Faults = Faults(fetch: Fault, apply: Fault, transit: Fault, insert: Fault)

  const NO_FAULTS := Faults(NoFault, NoFault, NoFault, NoFault)

  /** All steps of one request, back to back; those of other request kinds are not enabled. */
  function Handle(t: nat, request: Request, faults: Faults, now: int): seq<Event> {
    [Spawn(t, request), Fetch(t, faults.fetch), Apply(t, faults.apply, now), Transit(t, faults.transit, now),
     Insert(t, faults.insert), Post(t)]
  }

  function AfterAck(dec: Decoder, s: State, t: nat, faults: Faults, now: int): State
    requires t in s.threads
  {
    var s1 := FetchStep(s, t, faults.fetch);
    var s2 := if t in s1.threads then ApplyStep(dec, s1, t, faults.apply, now) else s1;
    if t in s2.threads then TransitStep(s2, t, faults.transit, now) else s2
  }

  lemma HandleSteps(dec: Decoder, s: State, t: nat, request: Request, faults: Faults, now: int)
    requires t !in s.threads && WellFormedRequest(request) && !request.Create?
    ensures t in Next(dec, s, Spawn(t, request)).threads
    ensures Run(dec, s, Handle(t, request, faults, now)) ==
        AfterAck(dec, Next(dec, s, Spawn(t, request)), t, faults, now)
    ensures var s' := Run(dec, s, Handle(t, request, faults, now)); t in s'.threads && s'.threads[t].stage.Done?
  {
    var e := Handle(t, request, faults, now);
    var s0 := Next(dec, s, e[0]);
    var s1 := Next(dec, s0, e[1]);
    var s2 := Next(dec, s1, e[2]);
    var s3 := Next(dec, s2, e[3]);
    RunSix(dec, s, e);
    FetchLeaves(s0, t, faults.fetch);
    StagesPass(dec, s0, t, faults, now);
    assert s1 == FetchStep(s0, t, faults.fetch);
    assert Next(dec, s3, e[4]) == s3;
    assert Next(dec, s3, e[5]) == s3;
  }

  lemma RunSix(dec: Decoder, s: State, e: seq<Event>)
    requires |e| == 6
    ensures Run(dec, s, e)
         == Next(dec, Next(dec, Next(dec, Next(dec, Next(dec, Next(dec, s, e[0]), e[1]), e[2]), e[3]), e[4]), e[5])
  {
    hide Next;
    RunSnoc(dec, s, e[..5], e[5]);
    RunSnoc(dec, s, e[..4], e[4]);
    RunSnoc(dec, s, e[..3], e[3]);
    RunSnoc(dec, s, e[..2], e[2]);
    RunSnoc(dec, s, e[..1], e[1]);
    RunSnoc(dec, s, e[..0], e[0]);
    assert e == e[..5] + [e[5]] && e[..5] == e[..4] + [e[4]] && e[..4] == e[..3] + [e[3]];
    assert e[..3] == e[..2] + [e[2]] && e[..2] == e[..1] + [e[1]] && e[..1] == e[..0] + [e[0]];
  }

  lemma RunSnoc(dec: Decoder, s: State, events: seq<Event>, e: Event)
    ensures Run(dec, s, events + [e]) == Next(dec, Run(dec, s, events), e)
  {
    hide Next;
    RunAppend(dec, s, events, [e]);
    var s' := Run(dec, s, events);
    assert [e][1..] == [];
    assert Run(dec, s', [e]) == Run(dec, Next(dec, s', e), []);
  }

  /** Where a handler's thread stands after each of its steps. */
  lemma StagesPass(dec: Decoder, s: State, t: nat, faults: Faults, now: int)
    requires t in s.threads && s.threads[t].stage == Start && !s.threads[t].request.Create?
    ensures t in FetchStep(s, t, faults.fetch).threads
    ensures var s1 := FetchStep(s, t, faults.fetch);
            s1.threads[t].request == s.threads[t].request && (s1.threads[t].stage.Done? || s1.threads[t].stage.Fetched?)
    ensures var s' := AfterAck(dec, s, t, faults, now);
            t in s'.threads && s'.threads[t].stage.Done? && s'.threads[t].request == s.threads[t].request
  {
    FetchPasses(s, t, faults.fetch);
    hide FetchStep, ApplyStep, TransitStep;
    var s1 := FetchStep(s, t, faults.fetch);
    ApplyPasses(dec, s1, t, faults.apply, now);
    TransitPasses(ApplyStep(dec, s1, t, faults.apply, now), t, faults.transit, now);
  }

  lemma FetchPasses(s: State, t: nat, fault: Fault)
    requires t in s.threads && s.threads[t].stage == Start && !s.threads[t].request.Create?
    ensures var s' := FetchStep(s, t, fault);
            && t in s'.threads && s'.threads[t].request == s.threads[t].request
            && (s'.threads[t].stage.Done? || s'.threads[t].stage.Fetched?)
  {
    hide Validate4Eyes, Terminal;
  }

  lemma ApplyPasses(dec: Decoder, s: State, t: nat, fault: Fault, now: int)
    requires t in s.threads && !s.threads[t].request.Create?
        && (s.threads[t].stage.Done? || s.threads[t].stage.Fetched?)
    ensures var s' := ApplyStep(dec, s, t, fault, now);
            && t in s'.threads && s'.threads[t].request == s.threads[t].request
            && (s'.threads[t].stage.Done? || (if s.threads[t].request.Ack? then s'.threads[t].stage.Applied?
                                              else s'.threads[t].stage.Fetched?))
  {
    hide ApplyOp, Decodes;
  }

  lemma TransitPasses(s: State, t: nat, fault: Fault, now: int)
    requires t in s.threads && !s.threads[t].request.Create?
    requires s.threads[t].stage.Done?
          || (if s.threads[t].request.Ack? then s.threads[t].stage.Applied? else s.threads[t].stage.Fetched?)
    ensures var s' := TransitStep(s, t, fault, now);
            t in s'.threads && s'.threads[t].request == s.threads[t].request && s'.threads[t].stage.Done?
  {
    hide TransitionRow;
  }

  /** Requests handled one after the other, each in one piece and with every backend working. */
  function HandleAll(dec: Decoder, s: State, t: nat, work: seq<(Request, int)>): State
    decreases |work|
  {
    if work == [] then s
    else HandleAll(dec, Run(dec, s, Handle(t, work[0].0, NO_FAULTS, work[0].1)), t + 1, work[1..])
  }

  /** Only approved records have reached the registry. */
  ghost predicate OnlyApprovedApplied(s: State) {
    forall c | c in s.calls && c.changed :: c.p.key in s.pending && s.pending[c.p.key].status == ApprovedApplied
  }

  ghost predicate Quiet(dec: Decoder, s: State, t: nat) {
    Inv(dec, s) && OnlyApprovedApplied(s) && forall u | u in s.threads :: u < t
  }

  lemma ThreadsOf(dec: Decoder, s: State, e: Event)
    ensures Next(dec, s, e).threads.Keys <= s.threads.Keys + (if Subject(e).Some? then {Subject(e).value} else {})
  {
    forall u | u in Next(dec, s, e).threads && Subject(e) != Some(u) ensures u in s.threads {
      OthersKeep(dec, s, e, u);
    }
  }

  lemma {:induction false} RunThreads(dec: Decoder, s: State, events: seq<Event>, t: nat)
    requires forall e | e in events :: Subject(e) == Some(t)
    ensures Run(dec, s, events).threads.Keys <= s.threads.Keys + {t}
    decreases |events|
  {
    hide Next;
    if events != [] {
      assert Subject(events[0]) == Some(t);
      ThreadsOf(dec, s, events[0]);
      RunThreads(dec, Next(dec, s, events[0]), events[1..], t);
    }
  }

  lemma SameCallsKeepApproved(dec: Decoder, s: State, events: seq<Event>)
    requires OnlyApprovedApplied(s) && Run(dec, s, events).calls == s.calls
    ensures OnlyApprovedApplied(Run(dec, s, events))
  {
    RunEvolves(dec, s, events);
  }

  /** An acknowledge handled in one piece without faults either reaches no registry row or ends approved. */
  lemma AckAllOrNothing(dec: Decoder, s: State, t: nat, now: int)
    requires RowsOk(s) && OnlyApprovedApplied(s)
    requires t in s.threads && s.threads[t].stage == Start && s.threads[t].request.Ack?
    ensures OnlyApprovedApplied(AfterAck(dec, s, t, NO_FAULTS, now))
  {
    hide ApplyOp, Decodes, Validate4Eyes;
    FetchLeaves(s, t, NoFault);
    var s1 := FetchStep(s, t, NoFault);
    if s1.threads[t].stage.Fetched? {
      var p := s1.threads[t].stage.p;
      assert p == s.pending[s.threads[t].request.key] && p.key == s.threads[t].request.key && !Terminal(p.status);
      var s2 := ApplyStep(dec, s1, t, NoFault, now);
      assert s2.pending == s.pending;
      assert s2.calls == s.calls || s2.calls == s.calls + [s2.calls[|s.calls|]];
    }
  }

  lemma OtherRequestsMakeNoCalls(dec: Decoder, s: State, t: nat, request: Request, faults: Faults, now: int)
    requires t !in s.threads && !request.Ack?
    ensures Run(dec, s, Handle(t, request, faults, now)).calls == s.calls
  {
    var e := Handle(t, request, faults, now);
    RunSix(dec, s, e);
    var s0 := Next(dec, s, e[0]);
    if t in s0.threads {
      hide FetchStep;
      FetchLeaves(s0, t, faults.fetch);
      var s1 := Next(dec, s0, e[1]);
      assert s1.threads[t].request == request && s1.calls == s.calls;
      var s2 := Next(dec, s1, e[2]);
      assert s2 == s1;
      CallsKept(dec, s2, e[3]);
      CallsKept(dec, Next(dec, s2, e[3]), e[4]);
      CallsKept(dec, Next(dec, Next(dec, s2, e[3]), e[4]), e[5]);
    } else {
      assert !WellFormedRequest(request) && s0 == s;
    }
  }

  lemma CallsKept(dec: Decoder, s: State, e: Event)
    requires e.Transit? || e.Insert? || e.Post?
    ensures Next(dec, s, e).calls == s.calls
  {
    hide TransitionRow, CreateRow;
  }

  lemma HandleQuiet(dec: Decoder, s: State, t: nat, request: Request, now: int)
    requires Quiet(dec, s, t)
    ensures Quiet(dec, Run(dec, s, Handle(t, request, NO_FAULTS, now)), t + 1)
  {
    var e := Handle(t, request, NO_FAULTS, now);
    assert t !in s.threads;
    RunInv(dec, s, e);
    RunThreads(dec, s, e, t);
    hide Next, Inv, Run, FetchStep, ApplyStep, TransitStep;
    if request.Ack? {
      HandleSteps(dec, s, t, request, NO_FAULTS, now);
      SpawnedAck(dec, s, t, request);
      AckAllOrNothing(dec, Next(dec, s, Spawn(t, request)), t, now);
    } else {
      OtherRequestsMakeNoCalls(dec, s, t, request, NO_FAULTS, now);
      SameCallsKeepApproved(dec, s, e);
    }
    var s' := Run(dec, s, e);
    forall u | u in s'.threads ensures u < t + 1 {
      assert u in s'.threads.Keys;
    }
  }

  lemma SpawnedAck(dec: Decoder, s: State, t: nat, request: Request)
    requires Inv(dec, s) && OnlyApprovedApplied(s) && t !in s.threads && request.Ack?
    ensures var s0 := Next(dec, s, Spawn(t, request));
            && RowsOk(s0) && OnlyApprovedApplied(s0)
            && t in s0.threads && s0.threads[t] == Thread(request, Start)
  {
  }

  lemma {:induction false} HandleAllQuiet(dec: Decoder, s: State, t: nat, work: seq<(Request, int)>)
    requires Quiet(dec, s, t)
    ensures Quiet(dec, HandleAll(dec, s, t, work), t + |work|)
    decreases |work|
  {
    if work != [] {
      hide Quiet, Run;
      HandleQuiet(dec, s, t, work[0].0, work[0].1);
      HandleAllQuiet(dec, Run(dec, s, Handle(t, work[0].0, NO_FAULTS, work[0].1)), t + 1, work[1..]);
    }
  }

  /**
   With handlers run in one piece and no backend failing, a denied or timed-out record never
   reached the registry.
   */
  lemma DeniedMeansNotApplied(dec: Decoder, init: State, work: seq<(Request, int)>, c: RegistryCall)
    requires Initial(init) && c in HandleAll(dec, init, 0, work).calls
    requires var s := HandleAll(dec, init, 0, work);
             c.p.key in s.pending && s.pending[c.p.key].status in {Denied, TimedOut}
    ensures !c.changed
  {
    InitialInv(dec, init);
    HandleAllQuiet(dec, init, 0, work);
  }
}
