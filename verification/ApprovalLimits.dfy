/**
 Where the approval protocol's guarantees stop, and exactly when: a denied record that reached
 the registry, a closed record that still may, and an approval whose status change failed.
 */
module ApprovalLimits {
  import opened Wrappers
  import opened Projects
  import opened Approval
  import opened ApprovalSafety
  import opened ApprovalResults

  /** An acknowledge thread that still holds a fetched copy of the record and can decode it. */
  predicate Armed(dec: Decoder, s: State, t: nat, key: string) {
    && t in s.threads && s.threads[t].request.Ack? && s.threads[t].request.key == key
    && s.threads[t].stage.Fetched? && Decodes(dec, s.threads[t].stage.p)
  }

  // ---------------------------------------------------------------- two runs that deny too late

  /** A record asking to add a project, its decoder, and two people. */
  const DEMO := Pending("k", OpAdd, "body", "alice", "human-operator", 0, PendingApproval, None)
  const DEMO_FIELDS := Fields("org", "repo", "/w", "", 7)
  const DEMO_DECODER := Decoder(_ => Some(AddBody("p1", DEMO_FIELDS)), _ => None)
  const DEMO_START := State(map["k" := DEMO], map[], map[], [], [])

  const DEMO_ACK := Ack("k", "bob", HumanOperator)
  const DEMO_DENY := Deny("k", "bob", HumanOperator)

  lemma DemoFetch()
    ensures Initial(DEMO_START)
    ensures Run(DEMO_DECODER, DEMO_START, [Spawn(0, DEMO_ACK), Fetch(0, NoFault)])
         == DEMO_START.(threads := map[0 := Thread(DEMO_ACK, Fetched(DEMO))])
  {
    RunTwo(DEMO_DECODER, DEMO_START, Spawn(0, DEMO_ACK), Fetch(0, NoFault));
  }

  lemma DemoLate(s: State)
    requires 0 in s.threads && s.threads[0] == Thread(DEMO_ACK, Fetched(DEMO)) && "p1" !in s.projects
    requires "k" in s.pending && s.pending["k"].status == Denied
    ensures var s' := Run(DEMO_DECODER, s, [Apply(0, NoFault, 2), Transit(0, NoFault, 2)]);
            && s'.pending == s.pending && s'.projects == s.projects["p1" := Project(DEMO_FIELDS, Active, 2, None)]
            && s'.threads == s.threads[0 := Thread(DEMO_ACK, Done(Some(TransitionFailed(TerminalTransition))))]
  {
    assert ValidProjectId("p1");
    RunTwo(DEMO_DECODER, s, Apply(0, NoFault, 2), Transit(0, NoFault, 2));
    var s1 := ApplyStep(DEMO_DECODER, s, 0, NoFault, 2);
    assert s1.threads == s.threads[0 := Thread(DEMO_ACK, Applied(DEMO))];
  }

  /** A deny that lands between an acknowledge's fetch and its apply wins, yet the project is added. */
  lemma DeniedYetApplied()
    ensures Initial(DEMO_START)
    ensures var s := Run(DEMO_DECODER, DEMO_START,
                         [Spawn(0, DEMO_ACK), Fetch(0, NoFault)] + Handle(1, DEMO_DENY, NO_FAULTS, 1)
                         + [Apply(0, NoFault, 2), Transit(0, NoFault, 2)]);
            && "k" in s.pending && s.pending["k"].status == Denied && Won(s, 1, "k") && !Won(s, 0, "k")
            && "p1" in s.projects && s.projects["p1"].fields == DEMO_FIELDS
  {
    hide Run, Next, Handle;
    var e1, e2, e3 := [Spawn(0, DEMO_ACK), Fetch(0, NoFault)], Handle(1, DEMO_DENY, NO_FAULTS, 1),
                      [Apply(0, NoFault, 2), Transit(0, NoFault, 2)];
    DemoFetch();
    var s2 := Run(DEMO_DECODER, DEMO_START, e1);
    DemoDeny(s2, 1);
    RunAppend(DEMO_DECODER, DEMO_START, e1, e2);
    DemoLate(Run(DEMO_DECODER, s2, e2));
    RunAppend(DEMO_DECODER, DEMO_START, e1 + e2, e3);
  }

  lemma DemoDeny(s: State, now: int)
    requires "k" in s.pending && s.pending["k"] == DEMO && 1 !in s.threads && 0 in s.threads
    ensures var s' := Run(DEMO_DECODER, s, Handle(1, DEMO_DENY, NO_FAULTS, now));
            && s' == s.(pending := s.pending["k" := DEMO.(status := Denied)],
                        threads := s.threads[1 := Thread(DEMO_DENY, Done(None))])
  {
    HandleSteps(DEMO_DECODER, s, 1, DEMO_DENY, NO_FAULTS, now);
    var s0 := Next(DEMO_DECODER, s, Spawn(1, DEMO_DENY));
    var s1 := FetchStep(s0, 1, NoFault);
    assert s1.threads[1].stage == Fetched(DEMO);
    assert ApplyStep(DEMO_DECODER, s1, 1, NoFault, now) == s1;
    var s2 := TransitStep(s1, 1, NoFault, now);
    assert s2.threads == s.threads[1 := Thread(DEMO_DENY, Done(None))];
  }

  lemma RunTwo(dec: Decoder, s: State, a: Event, b: Event)
    ensures Run(dec, s, [a, b]) == Next(dec, Next(dec, s, a), b)
  {
    hide Next;
    RunSnoc(dec, s, [a], b);
    RunSnoc(dec, s, [], a);
    assert [a, b] == [a] + [b] && [a] == [] + [a];
  }

  /** The status change of an acknowledge is lost after its addition went through. */
  const LOST_TRANSIT := Faults(NoFault, NoFault, Lost, NoFault)

  const DEMO_CALL := RegistryCall(DEMO, "bob", HumanOperator, true)

  const DEMO_STRANDED := State(map["k" := DEMO], map["p1" := Project(DEMO_FIELDS, Active, 1, None)],
    map[0 := Thread(DEMO_ACK, Done(Some(TransitionFailed(Unavailable))))], [DEMO_CALL], [])

  lemma LostTransit()
    ensures Run(DEMO_DECODER, DEMO_START, Handle(0, DEMO_ACK, LOST_TRANSIT, 1)) == DEMO_STRANDED
  {
    HandleSteps(DEMO_DECODER, DEMO_START, 0, DEMO_ACK, LOST_TRANSIT, 1);
    var s0 := Next(DEMO_DECODER, DEMO_START, Spawn(0, DEMO_ACK));
    assert s0 == DEMO_START.(threads := map[0 := Thread(DEMO_ACK, Start)]);
    var s1 := FetchStep(s0, 0, NoFault);
    assert s1 == DEMO_START.(threads := map[0 := Thread(DEMO_ACK, Fetched(DEMO))]);
    assert ValidProjectId("p1");
    var s2 := ApplyStep(DEMO_DECODER, s1, 0, NoFault, 1);
    assert s2 == DEMO_STRANDED.(threads := map[0 := Thread(DEMO_ACK, Applied(DEMO))]);
    assert TransitStep(s2, 0, Lost, 1) == DEMO_STRANDED;
  }

  /**
   Handlers run in one piece are not enough when a status change is lost: the record can then be
   denied although its project was added, and no acknowledge is in progress.
   */
  lemma LostThenDenied()
    ensures Initial(DEMO_START)
    ensures var s := Run(DEMO_DECODER, DEMO_START,
                         Handle(0, DEMO_ACK, LOST_TRANSIT, 1) + Handle(1, DEMO_DENY, NO_FAULTS, 2));
            && "k" in s.pending && s.pending["k"].status == Denied && Won(s, 1, "k")
            && "p1" in s.projects && s.calls == [DEMO_CALL]
            && forall t :: !Armed(DEMO_DECODER, s, t, "k")
  {
    hide Run, Next, Handle, Armed;
    LostTransit();
    DemoDeny(DEMO_STRANDED, 2);
    RunAppend(DEMO_DECODER, DEMO_START, Handle(0, DEMO_ACK, LOST_TRANSIT, 1), Handle(1, DEMO_DENY, NO_FAULTS, 2));
    NobodyArmed(Run(DEMO_DECODER, DEMO_STRANDED, Handle(1, DEMO_DENY, NO_FAULTS, 2)), "k");
  }

  /** The acknowledge's registry call goes through and is reported as failed. */
  const UNSEEN_APPLY := Faults(NoFault, Unseen, NoFault, NoFault)

  const DEMO_UNSEEN := DEMO_STRANDED.(threads := map[0 := Thread(DEMO_ACK,
      Done(Some(ApplyFailed(RegistryUnavailable))))])

  lemma UnseenApply()
    ensures Run(DEMO_DECODER, DEMO_START, Handle(0, DEMO_ACK, UNSEEN_APPLY, 1)) == DEMO_UNSEEN
  {
    HandleSteps(DEMO_DECODER, DEMO_START, 0, DEMO_ACK, UNSEEN_APPLY, 1);
    var s0 := Next(DEMO_DECODER, DEMO_START, Spawn(0, DEMO_ACK));
    assert s0 == DEMO_START.(threads := map[0 := Thread(DEMO_ACK, Start)]);
    var s1 := FetchStep(s0, 0, NoFault);
    assert s1 == DEMO_START.(threads := map[0 := Thread(DEMO_ACK, Fetched(DEMO))]);
    assert ValidProjectId("p1");
    assert ApplyStep(DEMO_DECODER, s1, 0, Unseen, 1) == DEMO_UNSEEN;
  }

  /** Nor when an applied change is reported as failed: nothing then shows that it was made. */
  lemma UnseenThenDenied()
    ensures Initial(DEMO_START)
    ensures var s := Run(DEMO_DECODER, DEMO_START,
                         Handle(0, DEMO_ACK, UNSEEN_APPLY, 1) + Handle(1, DEMO_DENY, NO_FAULTS, 2));
            && "k" in s.pending && s.pending["k"].status == Denied && Won(s, 1, "k")
            && "p1" in s.projects && s.calls == [DEMO_CALL]
            && forall t :: !Armed(DEMO_DECODER, s, t, "k") && !Late(s, t, "k")
  {
    hide Run, Next, Handle, Armed, Late;
    UnseenApply();
    DemoDeny(DEMO_UNSEEN, 2);
    RunAppend(DEMO_DECODER, DEMO_START, Handle(0, DEMO_ACK, UNSEEN_APPLY, 1), Handle(1, DEMO_DENY, NO_FAULTS, 2));
    var s := Run(DEMO_DECODER, DEMO_UNSEEN, Handle(1, DEMO_DENY, NO_FAULTS, 2));
    NobodyArmed(s, "k");
    NobodyLate(s, "k");
  }

  lemma NobodyLate(s: State, key: string)
    requires forall t | t in s.threads ::
               s.threads[t].stage in {Done(None), Done(Some(ApplyFailed(RegistryUnavailable)))}
    ensures forall t :: !Late(s, t, key)
  {
  }

  lemma NobodyArmed(s: State, key: string)
    requires forall t | t in s.threads :: s.threads[t].stage.Done?
    ensures forall t :: !Armed(DEMO_DECODER, s, t, key)
  {
  }

  // ---------------------------------------------------------------- when a closed record was applied

  predicate CallTook(c: RegistryCall, key: string) {
    c.p.key == key && c.changed
  }

  /** A registry call for the record went through. */
  ghost predicate Effected(s: State, key: string) {
    exists i :: 0 <= i < |s.calls| && CallTook(s.calls[i], key)
  }

  /** An acknowledge between its registry call and its status change. */
  predicate InFlight(s: State, t: nat, key: string) {
    t in s.threads && s.threads[t].request.Ack? && s.threads[t].request.key == key && s.threads[t].stage.Applied?
  }

  /** An acknowledge that applied its record and then failed to close it. */
  predicate FailedToClose(s: State, t: nat, key: string) {
    && t in s.threads && s.threads[t].request.Ack? && s.threads[t].request.key == key
    && s.threads[t].stage.Done? && s.threads[t].stage.error.Some? && s.threads[t].stage.error.value.TransitionFailed?
  }

  /** An acknowledge that applied the record and did not get to close it. */
  predicate Late(s: State, t: nat, key: string) {
    InFlight(s, t, key) || FailedToClose(s, t, key)
  }

  predicate AckWon(s: State, t: nat, key: string) {
    Won(s, t, key) && s.threads[t].request.Ack?
  }

  predicate PastApply(s: State, t: nat, key: string) {
    Late(s, t, key) || AckWon(s, t, key)
  }

  /** This step is thread t's registry call for the record, and it goes through. */
  predicate Lands(dec: Decoder, s: State, e: Event, t: nat, key: string) {
    && e.Apply? && e.t == t && e.fault == NoFault && Armed(dec, s, t, key)
    && ApplyOp(dec, s.projects, s.threads[t].stage.p, e.now).Ok?
  }

  /** This step is a registry call for the record that goes through and is reported as failed. */
  predicate Hides(dec: Decoder, s: State, e: Event, key: string) {
    && e.Apply? && e.fault == Unseen && Armed(dec, s, e.t, key)
    && ApplyOp(dec, s.projects, s.threads[e.t].stage.p, e.now).Ok?
  }

  predicate HiddenAt(dec: Decoder, init: State, events: seq<Event>, n: nat, key: string) {
    n < |events| && Hides(dec, Run(dec, init, events[..n]), events[n], key)
  }

  /** Some step of the run did that. */
  ghost predicate Hidden(dec: Decoder, init: State, events: seq<Event>, key: string) {
    exists n: nat :: HiddenAt(dec, init, events, n, key)
  }

  /** An acknowledge that was told the registry is unavailable. */
  predicate Unreached(s: State, t: nat, key: string) {
    && t in s.threads && s.threads[t].request.Ack? && s.threads[t].request.key == key
    && s.threads[t].stage == Done(Some(ApplyFailed(RegistryUnavailable)))
  }

  lemma FetchKeepsPast(s: State, t: nat, fault: Fault, key: string)
    requires t in s.threads
    ensures PastApply(FetchStep(s, t, fault), t, key) == PastApply(s, t, key)
    ensures Late(FetchStep(s, t, fault), t, key) == Late(s, t, key)
  {
    hide Terminal;
  }

  lemma ApplyKeepsPast(dec: Decoder, s: State, t: nat, fault: Fault, now: int, key: string)
    requires t in s.threads
    ensures var s', lands := ApplyStep(dec, s, t, fault, now), Lands(dec, s, Event.Apply(t, fault, now), t, key);
            && Late(s', t, key) == (Late(s, t, key) || lands)
            && AckWon(s', t, key) == AckWon(s, t, key)
            && PastApply(s', t, key) == (PastApply(s, t, key) || lands)
  {
    hide ApplyOp;
  }

  lemma TransitKeepsPast(s: State, t: nat, fault: Fault, now: int, key: string)
    requires t in s.threads
    ensures PastApply(TransitStep(s, t, fault, now), t, key) == PastApply(s, t, key)
    ensures Late(TransitStep(s, t, fault, now), t, key) ==> Late(s, t, key)
  {
    hide TransitionRow;
  }

  lemma CreateKeepsPast(s: State, t: nat, fault: Fault, key: string)
    requires t in s.threads && WellFormedRequest(s.threads[t].request)
    ensures PastApply(InsertStep(s, t, fault), t, key) == PastApply(s, t, key)
    ensures Late(InsertStep(s, t, fault), t, key) == Late(s, t, key)
    ensures s.threads[t].request.Create? ==> PastApply(PostStep(s, t), t, key) == PastApply(s, t, key)
    ensures s.threads[t].request.Create? ==> Late(PostStep(s, t), t, key) == Late(s, t, key)
  {
    hide CreateRow;
  }

  /** A thread gets past the registry call only by a call that goes through, and stays there. */
  lemma PastOrigin(dec: Decoder, s: State, e: Event, t: nat, key: string)
    requires ThreadsOk(dec, s)
    ensures var s', lands := Next(dec, s, e), Lands(dec, s, e, t, key);
            && PastApply(s', t, key) == (PastApply(s, t, key) || lands)
            && (Late(s', t, key) ==> Late(s, t, key) || lands)
  {
    if Subject(e) != Some(t) {
      NextEvolves(dec, s, e);
      hide Next;
      if t in Next(dec, s, e).threads { OthersKeep(dec, s, e, t); }
      OthersStay(dec, s, e, t);
    } else if t in s.threads {
      assert ThreadOk(dec, s, s.threads[t]);
      assert s.threads[t].stage.ToPost? ==> s.threads[t].request.Create?;
      hide FetchStep, ApplyStep, TransitStep, InsertStep, PostStep, ThreadsOk, PastApply, Late, Lands, Effective,
          FourEyes;
      if !e.Apply? { NeverLands(dec, s, e, t, key); }
      match e {
        case Fetch(_, fault) => FetchKeepsPast(s, t, fault, key);
        case Apply(_, fault, now) => ApplyKeepsPast(dec, s, t, fault, now, key);
        case Transit(_, fault, now) => TransitKeepsPast(s, t, fault, now, key);
        case Insert(_, fault) => CreateKeepsPast(s, t, fault, key);
        case Post(_) => CreateKeepsPast(s, t, NoFault, key); if !s.threads[t].request.Create? { PostIdle(s, t); }
        case _ =>
      }
    } else {
      assert t in Next(dec, s, e).threads ==> Next(dec, s, e).threads[t].stage == Start;
    }
  }

  lemma PostIdle(s: State, t: nat)
    requires t in s.threads && s.threads[t].stage != ToPost
    ensures PostStep(s, t) == s
  {
  }

  lemma NeverLands(dec: Decoder, s: State, e: Event, t: nat, key: string)
    requires !e.Apply?
    ensures !Lands(dec, s, e, t, key)
  {
  }

  lemma OthersStay(dec: Decoder, s: State, e: Event, t: nat)
    requires Subject(e) != Some(t)
    ensures t in s.threads ==> t in Next(dec, s, e).threads && Next(dec, s, e).threads[t] == s.threads[t]
  {
    NextEvolves(dec, s, e);
    if t in s.threads { OthersKeep(dec, s, e, t); }
  }

  /** A call goes through for a record only when a thread of it lands, or is not seen to. */
  lemma EffectOrigin(dec: Decoder, s: State, e: Event, key: string)
    requires ThreadsOk(dec, s)
    ensures Effected(Next(dec, s, e), key)
       <==> Effected(s, key) || (exists t :: Lands(dec, s, e, t, key)) || Hides(dec, s, e, key)
  {
    var s' := Next(dec, s, e);
    hide Next;
    CallLog(dec, s, e);
    if Effected(s, key) {
      var i :| 0 <= i < |s.calls| && CallTook(s.calls[i], key);
      assert s'.calls[i] == s.calls[i];
      assert CallTook(s'.calls[i], key);
    }
    if |s'.calls| > |s.calls| && CallTook(s'.calls[|s.calls|], key) {
      assert Lands(dec, s, e, e.t, key) || Hides(dec, s, e, key);
    }
    if t :| Lands(dec, s, e, t, key) {
      assert CallTook(s'.calls[|s.calls|], key);
    }
    if Hides(dec, s, e, key) {
      assert CallTook(s'.calls[|s.calls|], key);
    }
  }

  /** What one step adds to the log of registry calls. */
  lemma CallLog(dec: Decoder, s: State, e: Event)
    requires ThreadsOk(dec, s)
    ensures var s' := Next(dec, s, e);
            && s.calls <= s'.calls && |s'.calls| <= |s.calls| + 1
            && (|s'.calls| > |s.calls| ==>
                  && e.Apply? && e.t in s.threads && Armed(dec, s, e.t, s.threads[e.t].request.key)
                  && var c, p := s'.calls[|s.calls|], s.threads[e.t].stage.p;
                     && c.p == p && p.key == s.threads[e.t].request.key
                     && c.changed == (ApplyOp(dec, s.projects, p, e.now).Ok? && e.fault != Lost))
            && ((e.Apply? && e.t in s.threads && s.threads[e.t].request.Ack?
                 && Armed(dec, s, e.t, s.threads[e.t].request.key)) ==>
                  |s'.calls| == |s.calls| + 1)
  {
    hide FetchStep, TransitStep, InsertStep, PostStep, ApplyOp, Effective, AddRow, ArchiveRow;
    match e {
      case Fetch(t, fault) => if t in s.threads { FetchLeaves(s, t, fault); }
      case Apply(t, fault, now) => if t in s.threads { assert ThreadOk(dec, s, s.threads[t]); }
      case Transit(t, fault, now) => if t in s.threads { TransitCalls(s, t, fault, now); }
      case Insert(t, fault) => if t in s.threads { InsertCalls(s, t, fault); }
      case Post(t) => if t in s.threads { PostCalls(s, t); }
      case _ =>
    }
  }

  lemma TransitCalls(s: State, t: nat, fault: Fault, now: int)
    requires t in s.threads
    ensures TransitStep(s, t, fault, now).calls == s.calls
  {
    hide TransitionRow;
  }

  lemma InsertCalls(s: State, t: nat, fault: Fault)
    requires t in s.threads
    ensures InsertStep(s, t, fault).calls == s.calls
  {
    hide CreateRow;
  }

  lemma PostCalls(s: State, t: nat)
    requires t in s.threads
    ensures PostStep(s, t).calls == s.calls
  {
  }

  /** A successful acknowledge has approved its record. */
  lemma NewAckWon(dec: Decoder, s: State, e: Event, t: nat, key: string)
    requires ThreadsOk(dec, s) && AckWon(Next(dec, s, e), t, key)
    ensures AckWon(s, t, key)
        || (key in Next(dec, s, e).pending && Next(dec, s, e).pending[key].status == ApprovedApplied)
  {
    if Subject(e) != Some(t) {
      OthersKeep(dec, s, e, t);
    } else if t in s.threads {
      hide FetchStep, ApplyStep, InsertStep;
      assert ThreadOk(dec, s, s.threads[t]);
      hide ThreadsOk, ThreadOk;
      match e {
        case Fetch(_, fault) => NoWinFetching(s, t, fault);
        case Apply(_, fault, now) => NoWinApplying(dec, s, t, fault, now);
        case Insert(_, fault) => NoWinInserting(s, t, fault, key); InsertKeepsRequest(s, t, fault);
        case _ =>
      }
    }
  }

  lemma InsertKeepsRequest(s: State, t: nat, fault: Fault)
    requires t in s.threads
    ensures t in InsertStep(s, t, fault).threads && InsertStep(s, t, fault).threads[t].request == s.threads[t].request
  {
    hide CreateRow;
  }

  lemma NextEffected(dec: Decoder, s: State, e: Event, key: string, hidden: bool)
    requires ThreadsOk(dec, s) && (Effected(s, key) <==> (exists t :: PastApply(s, t, key)) || hidden)
    ensures Effected(Next(dec, s, e), key)
       <==> (exists t :: PastApply(Next(dec, s, e), t, key)) || hidden || Hides(dec, s, e, key)
  {
    hide Next, PastApply, Effected, Lands, Hides, ThreadsOk;
    var s' := Next(dec, s, e);
    EffectOrigin(dec, s, e, key);
    forall t: nat ensures PastApply(s', t, key) == (PastApply(s, t, key) || Lands(dec, s, e, t, key)) {
      PastOrigin(dec, s, e, t, key);
    }
    if t: nat :| PastApply(s, t, key) {
      assert PastApply(s', t, key);
    }
    if t: nat :| Lands(dec, s, e, t, key) {
      assert PastApply(s', t, key);
    }
  }

  lemma HiddenSnoc(dec: Decoder, init: State, so: seq<Event>, e: Event, key: string)
    ensures Hidden(dec, init, so + [e], key)
       <==> Hidden(dec, init, so, key) || Hides(dec, Run(dec, init, so), e, key)
  {
    hide Run, Hides;
    var events := so + [e];
    assert forall n: nat | n <= |so| :: events[..n] == so[..n];
    assert events[..|so|] == so && so[..|so|] == so;
    if n: nat :| HiddenAt(dec, init, so, n, key) {
      assert HiddenAt(dec, init, events, n, key);
    }
    if Hides(dec, Run(dec, init, so), e, key) {
      assert HiddenAt(dec, init, events, |so|, key);
    }
    if n: nat :| HiddenAt(dec, init, events, n, key) {
      if n < |so| {
        assert HiddenAt(dec, init, so, n, key);
      }
    }
  }

  /** An unseen call leaves its thread told that the registry is unavailable. */
  lemma HidesTells(dec: Decoder, s: State, e: Event, key: string)
    requires Hides(dec, s, e, key)
    ensures Unreached(Next(dec, s, e), e.t, key)
  {
    hide ApplyOp;
  }

  lemma UnreachedStays(dec: Decoder, s: State, e: Event, t: nat, key: string)
    requires Unreached(s, t, key)
    ensures Unreached(Next(dec, s, e), t, key)
  {
    NextEvolves(dec, s, e);
    hide Next;
  }

  /**
   In every run, whatever fails: a record's operation went through exactly when some acknowledge
   of it is past its registry call, or a call of the run went through and was reported as failed.
   */
  lemma {:induction false} AppliedExactly(dec: Decoder, init: State, events: seq<Event>, key: string)
    requires Initial(init)
    ensures var s := Run(dec, init, events);
            && (Effected(s, key) <==> (exists t :: PastApply(s, t, key)) || Hidden(dec, init, events, key))
            && (Hidden(dec, init, events, key) ==> exists t :: Unreached(s, t, key))
            && (forall t | AckWon(s, t, key) :: key in s.pending && s.pending[key].status == ApprovedApplied)
    decreases |events|
  {
    InitialInv(dec, init);
    if events == [] {
      NothingApplied(dec, init, key);
    } else {
      var n := |events| - 1;
      var so, e := events[..n], events[n];
      assert events == so + [e];
      AppliedExactly(dec, init, so, key);
      RunInv(dec, init, so);
      RunSnoc(dec, init, so, e);
      HiddenSnoc(dec, init, so, e, key);
      AppliedNext(dec, Run(dec, init, so), e, key, Hidden(dec, init, so, key));
    }
  }

  lemma NothingApplied(dec: Decoder, init: State, key: string)
    requires Initial(init)
    ensures !Effected(init, key) && !Hidden(dec, init, [], key) && forall t :: !PastApply(init, t, key)
  {
  }

  lemma AppliedNext(dec: Decoder, s: State, e: Event, key: string, hidden: bool)
    requires Inv(dec, s)
    requires Effected(s, key) <==> (exists t :: PastApply(s, t, key)) || hidden
    requires hidden ==> exists t :: Unreached(s, t, key)
    requires forall t | AckWon(s, t, key) :: key in s.pending && s.pending[key].status == ApprovedApplied
    ensures var s' := Next(dec, s, e);
            && (Effected(s', key) <==> (exists t :: PastApply(s', t, key)) || hidden || Hides(dec, s, e, key))
            && (hidden || Hides(dec, s, e, key) ==> exists t :: Unreached(s', t, key))
            && (forall t | AckWon(s', t, key) :: key in s'.pending && s'.pending[key].status == ApprovedApplied)
  {
    assert ThreadsOk(dec, s);
    NextEvolves(dec, s, e);
    hide Next, Inv, PastApply, AckWon, Effected, Hides, Unreached, ThreadsOk, Grows;
    var s' := Next(dec, s, e);
    NextEffected(dec, s, e, key, hidden);
    if hidden {
      var t: nat :| Unreached(s, t, key);
      UnreachedStays(dec, s, e, t, key);
    }
    if Hides(dec, s, e, key) {
      HidesTells(dec, s, e, key);
    }
    forall t: nat | AckWon(s', t, key) ensures key in s'.pending && s'.pending[key].status == ApprovedApplied {
      NewAckWon(dec, s, e, t, key);
    }
  }

  /**
   In every run, a denied or timed-out record has reached the registry exactly when some
   acknowledge applied it and has not closed it yet or failed to, or a registry call for it went
   through and was reported as failed. The operator can see either: the second leaves an
   acknowledge that was told the registry is unavailable.
   */
  lemma ClosedYetAppliedExactly(dec: Decoder, init: State, events: seq<Event>, key: string)
    requires Initial(init)
    requires var s := Run(dec, init, events); key in s.pending && s.pending[key].status in {Denied, TimedOut}
    ensures var s := Run(dec, init, events);
            && (Effected(s, key) <==> (exists t :: Late(s, t, key)) || Hidden(dec, init, events, key))
            && (Effected(s, key) ==> exists t :: Late(s, t, key) || Unreached(s, t, key))
  {
    AppliedExactly(dec, init, events, key);
    hide Run, Late, AckWon, Effected, Hidden, Unreached;
    var s := Run(dec, init, events);
    if t: nat :| Late(s, t, key) {
      assert PastApply(s, t, key);
    }
    if t: nat :| PastApply(s, t, key) {
      assert Late(s, t, key);
    }
    if t: nat :| Unreached(s, t, key) {
      assert Late(s, t, key) || Unreached(s, t, key);
    }
  }

  // ---------------------------------------------------------------- when a closed record is final

  /** The record's operation can still succeed, now or after some project is added. */
  predicate Takes(dec: Decoder, projects: Table, p: Pending) {
    Decodes(dec, p) &&
    match p.op
    case OpAdd => var id := dec.add(p.body).value.id; ValidProjectId(id) && id !in projects
    case OpArchive => var id := dec.archive(p.body).value; id in projects || ValidProjectId(id)
  }

  /** An acknowledge stands between its fetch and its apply, and the operation can still succeed. */
  ghost predicate Open(dec: Decoder, s: State, key: string) {
    key in s.pending && Takes(dec, s.projects, s.pending[key]) && exists t :: Armed(dec, s, t, key)
  }

  /** How many registry calls for a record went through; archiving an archived project again does. */
  function Effects(calls: seq<RegistryCall>, key: string): nat {
    if calls == [] then 0
    else Effects(calls[..|calls| - 1], key) + if CallTook(calls[|calls| - 1], key) then 1 else 0
  }

  /** No continuation applies this record again. */
  ghost predicate NeverAppliedAgain(dec: Decoder, s: State, key: string) {
    forall events: seq<Event> :: Effects(Run(dec, s, events).calls, key) == Effects(s.calls, key)
  }

  /** New projects have valid ids. */
  lemma NewIdsValid(dec: Decoder, s: State, e: Event, id: string)
    requires id in Next(dec, s, e).projects && id !in s.projects
    ensures ValidProjectId(id)
  {
    hide FetchStep, ValidProjectId;
    if e.Fetch? && e.t in s.threads { FetchLeaves(s, e.t, e.fault); }
  }

  lemma TakesEarlier(dec: Decoder, s: State, e: Event, key: string)
    requires key in s.pending && key in Next(dec, s, e).pending
    requires Takes(dec, Next(dec, s, e).projects, Next(dec, s, e).pending[key])
    ensures Takes(dec, s.projects, s.pending[key])
  {
    NextEvolves(dec, s, e);
    var s', p := Next(dec, s, e), s.pending[key];
    if p.op == OpArchive {
      var id := dec.archive(p.body).value;
      if id in s'.projects && id !in s.projects {
        NewIdsValid(dec, s, e, id);
      }
    }
    hide Next, ValidProjectId;
  }

  /** A thread cannot fetch a terminal record. */
  lemma ArmedEarlier(dec: Decoder, s: State, e: Event, t: nat, key: string)
    requires key in s.pending && Terminal(s.pending[key].status)
    requires Subject(e) == Some(t) && Armed(dec, Next(dec, s, e), t, key)
    ensures Armed(dec, s, t, key)
  {
    hide Decodes, ApplyOp, TransitionRow, CreateRow, Validate4Eyes;
  }

  lemma ApplyTakes(dec: Decoder, projects: Table, p: Pending, now: int)
    requires Decodes(dec, p) && ApplyOp(dec, projects, p, now).Ok?
    ensures Takes(dec, projects, p)
  {
  }

  lemma TakesSame(dec: Decoder, projects: Table, p: Pending, q: Pending)
    requires SameRequest(p, q)
    ensures Takes(dec, projects, p) == Takes(dec, projects, q)
  {
  }

  /** What is open after a step on a terminal record was open before. */
  lemma OpenEarlier(dec: Decoder, s: State, e: Event, key: string)
    requires key in s.pending && Terminal(s.pending[key].status) && Open(dec, Next(dec, s, e), key)
    ensures Open(dec, s, key)
  {
    hide Next, Takes, Armed;
    var t: nat :| Armed(dec, Next(dec, s, e), t, key);
    TakesEarlier(dec, s, e, key);
    if Subject(e) == Some(t) { ArmedEarlier(dec, s, e, t, key); } else { ArmedElsewhere(dec, s, e, t, key); }
  }

  /** A call that goes through finds its record open. */
  lemma TookOpen(dec: Decoder, s: State, e: Event, key: string)
    requires ThreadsOk(dec, s) && |Next(dec, s, e).calls| > |s.calls| && CallTook(Next(dec, s, e).calls[|s.calls|], key)
    ensures Open(dec, s, key)
  {
    CallLog(dec, s, e);
    hide Next, Takes, Armed, ThreadsOk, ApplyOp;
    ArmedHolds(dec, s, e.t, key);
    ApplyTakes(dec, s.projects, s.threads[e.t].stage.p, e.now);
    TakesSame(dec, s.projects, s.threads[e.t].stage.p, s.pending[key]);
  }

  lemma ClosedStep(dec: Decoder, s: State, e: Event, key: string)
    requires ThreadsOk(dec, s) && key in s.pending && Terminal(s.pending[key].status) && !Open(dec, s, key)
    ensures !Open(dec, Next(dec, s, e), key) && Effects(Next(dec, s, e).calls, key) == Effects(s.calls, key)
  {
    CallLog(dec, s, e);
    hide Next, ThreadsOk, Open, Armed;
    var s' := Next(dec, s, e);
    if Open(dec, s', key) {
      OpenEarlier(dec, s, e, key);
    }
    if |s'.calls| > |s.calls| {
      assert s'.calls[..|s.calls|] == s.calls;
      if CallTook(s'.calls[|s.calls|], key) {
        TookOpen(dec, s, e, key);
      }
    } else {
      assert s'.calls == s.calls;
    }
  }

  lemma ArmedElsewhere(dec: Decoder, s: State, e: Event, t: nat, key: string)
    requires Subject(e) != Some(t) && Armed(dec, Next(dec, s, e), t, key)
    ensures Armed(dec, s, t, key)
  {
    OthersKeep(dec, s, e, t);
  }

  lemma ArmedHolds(dec: Decoder, s: State, t: nat, key: string)
    requires ThreadsOk(dec, s) && Armed(dec, s, t, key)
    ensures key in s.pending && Decodes(dec, s.threads[t].stage.p) && SameRequest(s.threads[t].stage.p, s.pending[key])
  {
    hide Effective, FourEyes, SameRequest, Decodes;
    assert ThreadOk(dec, s, s.threads[t]);
  }

  lemma {:induction false} ClosedRun(dec: Decoder, s: State, events: seq<Event>, key: string)
    requires Inv(dec, s) && key in s.pending && Terminal(s.pending[key].status) && !Open(dec, s, key)
    ensures Effects(Run(dec, s, events).calls, key) == Effects(s.calls, key)
    decreases |events|
  {
    if events != [] {
      assert ThreadsOk(dec, s);
      hide Next, Inv, Open, ThreadsOk;
      NextInv(dec, s, events[0]);
      NextEvolves(dec, s, events[0]);
      ClosedStep(dec, s, events[0], key);
      ClosedRun(dec, Next(dec, s, events[0]), events[1..], key);
    }
  }

  lemma ArmedTakesEffect(dec: Decoder, s: State, t: nat, key: string)
    requires ThreadsOk(dec, s) && Armed(dec, s, t, key) && ApplyOp(dec, s.projects, s.threads[t].stage.p, 0).Ok?
    ensures Effects(Next(dec, s, Event.Apply(t, NoFault, 0)).calls, key) == Effects(s.calls, key) + 1
  {
    var e := Event.Apply(t, NoFault, 0);
    var s' := Next(dec, s, e);
    CallLog(dec, s, e);
    hide Next, ApplyOp, ThreadsOk;
    assert s'.calls[..|s.calls|] == s.calls;
  }

  lemma OpenTakesEffect(dec: Decoder, s: State, key: string)
    requires ThreadsOk(dec, s) && Open(dec, s, key)
    ensures !NeverAppliedAgain(dec, s, key)
  {
    var t :| Armed(dec, s, t, key);
    ArmedHolds(dec, s, t, key);
    var p := s.threads[t].stage.p;
    TakesSame(dec, s.projects, p, s.pending[key]);
    var e := Event.Apply(t, NoFault, 0);
    if ApplyOp(dec, s.projects, p, 0).Ok? {
      ArmedTakesEffect(dec, s, t, key);
      OneEvent(dec, s, e);
      assert Effects(Run(dec, s, [e]).calls, key) == Effects(s.calls, key) + 1;
    } else {
      var id := dec.archive(p.body).value;
      var add := DirectAdd(id, Fields("", "", "", "", 0), 0);
      var s1 := Next(dec, s, add);
      AddedThenArmed(dec, s, t, key, id);
      ArmedTakesEffect(dec, s1, t, key);
      RunTwo(dec, s, add, e);
      assert Effects(Run(dec, s, [add, e]).calls, key) == Effects(s.calls, key) + 1;
    }
  }

  lemma OneEvent(dec: Decoder, s: State, e: Event)
    ensures Run(dec, s, [e]) == Next(dec, s, e)
  {
    RunSnoc(dec, s, [], e);
    assert [] + [e] == [e];
  }

  lemma AddedThenArmed(dec: Decoder, s: State, t: nat, key: string, id: string)
    requires ThreadsOk(dec, s) && Armed(dec, s, t, key) && ValidProjectId(id) && id !in s.projects
    ensures var s1 := Next(dec, s, DirectAdd(id, Fields("", "", "", "", 0), 0));
            && ThreadsOk(dec, s1) && Armed(dec, s1, t, key) && id in s1.projects && s1.calls == s.calls
                && s1.threads == s.threads
  {
    var e := DirectAdd(id, Fields("", "", "", "", 0), 0);
    var s1 := Next(dec, s, e);
    NextEvolves(dec, s, e);
    hide ThreadOk;
    forall u | u in s1.threads ensures ThreadOk(dec, s1, s1.threads[u]) {
      ThreadOkStays(dec, s, s1, s.threads[u]);
    }
  }

  /**
   Once a record is denied, timed out or approved, no continuation applies it again exactly when
   no acknowledge with an operation that can still succeed is left between its fetch and its apply.
   */
  lemma FinalExactly(dec: Decoder, s: State, key: string)
    requires Reachable(dec, s) && key in s.pending && Terminal(s.pending[key].status)
    ensures NeverAppliedAgain(dec, s, key) <==> !Open(dec, s, key)
  {
    ReachableInv(dec, s);
    if Open(dec, s, key) {
      OpenTakesEffect(dec, s, key);
    } else {
      hide Open, Run, Inv;
      forall events: seq<Event> ensures Effects(Run(dec, s, events).calls, key) == Effects(s.calls, key) {
        ClosedRun(dec, s, events, key);
      }
    }
  }

  // ---------------------------------------------------------------- after a failed status change

  /** An addition that reached the registry but not its record: no thread is left to approve it. */
  ghost predicate Stranded(dec: Decoder, s: State, key: string) {
    && key in s.pending && s.pending[key].status != ApprovedApplied && s.pending[key].op == OpAdd
    && dec.add(s.pending[key].body).Some? && dec.add(s.pending[key].body).value.id in s.projects
    && forall t :: !InFlight(s, t, key)
  }

  lemma StrandedStep(dec: Decoder, s: State, e: Event, key: string)
    requires Inv(dec, s) && Stranded(dec, s, key)
    ensures Stranded(dec, Next(dec, s, e), key)
  {
    var s' := Next(dec, s, e);
    NextEvolves(dec, s, e);
    forall t: nat | InFlight(s', t, key) ensures InFlight(s, t, key) {
      if Subject(e) == Some(t) {
        NotApplied(dec, s, e, t, key);
      } else {
        OthersKeep(dec, s, e, t);
      }
    }
    if s'.pending[key].status == ApprovedApplied {
      ApproverWasInFlight(dec, s, e, key);
    }
  }

  lemma NotApplied(dec: Decoder, s: State, e: Event, t: nat, key: string)
    requires ThreadsOk(dec, s) && Stranded(dec, s, key) && Subject(e) == Some(t)
    ensures InFlight(Next(dec, s, e), t, key) ==> InFlight(s, t, key)
  {
    hide TransitionRow, CreateRow, Validate4Eyes, Effective;
    if t in s.threads {
      assert ThreadOk(dec, s, s.threads[t]);
    }
  }

  lemma ApproverWasInFlight(dec: Decoder, s: State, e: Event, key: string)
    requires RowsOk(s) && ThreadsOk(dec, s) && key in s.pending && s.pending[key].status != ApprovedApplied
    requires key in Next(dec, s, e).pending && Next(dec, s, e).pending[key].status == ApprovedApplied
    ensures e.Transit? && InFlight(s, e.t, key)
  {
    hide FetchStep, ApplyStep, Effective, FourEyes, Decodes;
    if e.Fetch? && e.t in s.threads { FetchLeaves(s, e.t, e.fault); }
    if e.Apply? && e.t in s.threads { ApplyLeaves(dec, s, e.t, e.fault, e.now); }
  }

  /**
   After an addition whose status change was lost, the record never becomes approved: every
   retry is refused by the registry, because the project is already there.
   */
  lemma {:induction false} StrandedForever(dec: Decoder, s: State, events: seq<Event>, key: string)
    requires Inv(dec, s) && Stranded(dec, s, key)
    ensures Stranded(dec, Run(dec, s, events), key)
    decreases |events|
  {
    if events != [] {
      hide Next, Inv, Stranded;
      NextInv(dec, s, events[0]);
      StrandedStep(dec, s, events[0], key);
      StrandedForever(dec, Next(dec, s, events[0]), events[1..], key);
    }
  }

  /** The record's effect is in the registry, under a valid id if it added one. */
  predicate Enacted(dec: Decoder, projects: Table, p: Pending) {
    Effective(dec, projects, p) && (p.op == OpAdd ==> ValidProjectId(dec.add(p.body).value.id))
  }

  /** A late acknowledge has put its record into effect, and no other one did for an addition. */
  ghost predicate LateInv(dec: Decoder, s: State) {
    && (forall t, key | Late(s, t, key) :: key in s.pending && Enacted(dec, s.projects, s.pending[key]))
    && (forall t, u, key | Late(s, t, key) && Late(s, u, key) && key in s.pending && s.pending[key].op == OpAdd ::
          t == u)
  }

  lemma EnactedStays(dec: Decoder, before: Table, after: Table, p: Pending, q: Pending)
    requires Grows(before, after) && SameRequest(p, q) && Enacted(dec, before, p)
    ensures Enacted(dec, after, q)
  {
  }

  lemma ApplyEnacts(dec: Decoder, projects: Table, p: Pending, now: int)
    requires Decodes(dec, p) && ApplyOp(dec, projects, p, now).Ok?
    ensures Enacted(dec, ApplyOp(dec, projects, p, now).value, p)
    ensures p.op == OpAdd ==> dec.add(p.body).value.id !in projects
  {
  }

  lemma LandsEnacts(dec: Decoder, s: State, e: Event, t: nat, key: string)
    requires ThreadsOk(dec, s) && Lands(dec, s, e, t, key)
    ensures key in s.pending && Enacted(dec, Next(dec, s, e).projects, s.pending[key])
    ensures s.pending[key].op == OpAdd ==> dec.add(s.pending[key].body).value.id !in s.projects
  {
    ArmedHolds(dec, s, t, key);
    var p := s.threads[t].stage.p;
    assert Next(dec, s, e).projects == ApplyOp(dec, s.projects, p, e.now).value;
    ApplyEnacts(dec, s.projects, p, e.now);
    hide ApplyOp, Next, ThreadsOk, Lands;
    SelfGrows(Next(dec, s, e).projects);
    EnactedStays(dec, Next(dec, s, e).projects, Next(dec, s, e).projects, p, s.pending[key]);
  }

  lemma SelfGrows(projects: Table)
    ensures Grows(projects, projects)
  {
  }

  lemma NextLate(dec: Decoder, s: State, e: Event)
    requires ThreadsOk(dec, s) && LateInv(dec, s)
    ensures LateInv(dec, Next(dec, s, e))
  {
    var s' := Next(dec, s, e);
    NextEvolves(dec, s, e);
    hide Next, ThreadsOk, Late, Lands, Enacted;
    forall t: nat, key | Late(s', t, key) ensures key in s'.pending && Enacted(dec, s'.projects, s'.pending[key]) {
      LateOnce(dec, s, e, t, key);
    }
    forall t: nat, u: nat, key | Late(s', t, key) && Late(s', u, key) && key in s'.pending
        && s'.pending[key].op == OpAdd
      ensures t == u
    {
      LateAlone(dec, s, e, t, u, key);
    }
  }

  lemma LateOnce(dec: Decoder, s: State, e: Event, t: nat, key: string)
    requires ThreadsOk(dec, s) && LateInv(dec, s) && Late(Next(dec, s, e), t, key)
    ensures var s' := Next(dec, s, e);
            key in s.pending && key in s'.pending && Enacted(dec, s'.projects, s'.pending[key])
  {
    NextEvolves(dec, s, e);
    PastOrigin(dec, s, e, t, key);
    hide Next, ThreadsOk, Late, Lands, Enacted;
    var s' := Next(dec, s, e);
    if Late(s, t, key) {
      EnactedStays(dec, s.projects, s'.projects, s.pending[key], s'.pending[key]);
    } else {
      LandsEnacts(dec, s, e, t, key);
      SelfGrows(s'.projects);
      EnactedStays(dec, s'.projects, s'.projects, s.pending[key], s'.pending[key]);
    }
  }

  lemma LateAlone(dec: Decoder, s: State, e: Event, t: nat, u: nat, key: string)
    requires ThreadsOk(dec, s) && LateInv(dec, s) && Late(Next(dec, s, e), t, key) && Late(Next(dec, s, e), u, key)
    requires key in Next(dec, s, e).pending && Next(dec, s, e).pending[key].op == OpAdd
    ensures t == u
  {
    NextEvolves(dec, s, e);
    PastOrigin(dec, s, e, t, key);
    PastOrigin(dec, s, e, u, key);
    LateOnce(dec, s, e, t, key);
    OneLands(dec, s, e, t, u, key);
    hide Next, ThreadsOk, Late, Lands;
    if Lands(dec, s, e, t, key) { LandsEnacts(dec, s, e, t, key); }
    if Lands(dec, s, e, u, key) { LandsEnacts(dec, s, e, u, key); }
  }

  lemma OneLands(dec: Decoder, s: State, e: Event, t: nat, u: nat, key: string)
    ensures Lands(dec, s, e, t, key) && Lands(dec, s, e, u, key) ==> t == u
  {
  }

  lemma {:induction false} RunLate(dec: Decoder, s: State, events: seq<Event>)
    requires Inv(dec, s) && LateInv(dec, s)
    ensures LateInv(dec, Run(dec, s, events))
    decreases |events|
  {
    if events != [] {
      NextLate(dec, s, events[0]);
      hide Next, Inv, LateInv;
      NextInv(dec, s, events[0]);
      RunLate(dec, Next(dec, s, events[0]), events[1..]);
    }
  }

  lemma ReachableLate(dec: Decoder, s: State)
    requires Reachable(dec, s)
    ensures LateInv(dec, s)
  {
    var init: State, events: seq<Event> :| Initial(init) && Run(dec, init, events) == s;
    InitialInv(dec, init);
    assert forall t: nat, key :: !Late(init, t, key);
    hide Run;
    RunLate(dec, init, events);
  }

  /** What a failed status change leaves: a terminal record only if it was one, or the change was made after all. */
  lemma FailedChange(dec: Decoder, s: State, t: nat, key: string, fault: Fault, now: int)
    requires Inv(dec, s) && InFlight(s, t, key) && FailedToClose(Next(dec, s, Transit(t, fault, now)), t, key)
    ensures var s' := Next(dec, s, Transit(t, fault, now));
            && key in s.pending && key in s'.pending
            && (Terminal(s'.pending[key].status) <==> Terminal(s.pending[key].status) || fault == Unseen)
  {
    hide Effective, FourEyes;
    assert ThreadOk(dec, s, s.threads[t]);
  }

  /** The run that loses a status change, and the state it strands the record in. */
  lemma LostTransitStrands()
    ensures Initial(DEMO_START)
    ensures var s := Run(DEMO_DECODER, DEMO_START, Handle(0, DEMO_ACK, LOST_TRANSIT, 1));
            && FailedToClose(s, 0, "k") && Stranded(DEMO_DECODER, s, "k")
            && s.pending["k"].status == PendingApproval
  {
    LostTransit();
    hide Run, Handle;
  }

  /** An addition that an acknowledge failed to close is stranded, unless the change was made after all. */
  lemma FailedAddStrands(dec: Decoder, s: State, t: nat, key: string)
    requires Reachable(dec, s) && FailedToClose(s, t, key)
    ensures key in s.pending
    ensures s.pending[key].op == OpAdd && s.pending[key].status != ApprovedApplied ==> Stranded(dec, s, key)
  {
    ReachableLate(dec, s);
    hide Reachable;
    assert Late(s, t, key);
    forall u: nat ensures InFlight(s, u, key) ==> Late(s, u, key) {
    }
  }

  /**
   After a failed status change, an acknowledge of the same record that meets no further fault
   sees already-terminal exactly when the record is terminal by then; of a pending record, one by
   an entitled approver succeeds exactly for an archive, and an addition is refused as existing.
   */
  lemma RetryExactly(dec: Decoder, s: State, u: nat, t: nat, key: string, approver: string, approverType: CallerType,
                     now: int)
    requires Reachable(dec, s) && FailedToClose(s, u, key) && t !in s.threads
    ensures key in s.pending && t in Run(dec, s, Handle(t, Ack(key, approver, approverType), NO_FAULTS, now)).threads
    ensures var s', p := Run(dec, s, Handle(t, Ack(key, approver, approverType), NO_FAULTS, now)), s.pending[key];
            var entitled := !Terminal(p.status) && FourEyes(p, approver, approverType);
            && s'.threads[t].stage.Done?
            && var error := s'.threads[t].stage.error;
               && (error == Some(AlreadyTerminal) <==> Terminal(p.status))
               && (error == None <==> entitled && p.op == OpArchive)
               && (error == Some(ApplyFailed(Refused(RegistryError.AlreadyExists))) <==> entitled && p.op == OpAdd)
               && (error == None ==> key in s'.pending && s'.pending[key].status == ApprovedApplied)
               && (error != None ==> s'.pending == s.pending && s'.projects == s.projects)
  {
    var r := Ack(key, approver, approverType);
    ReachableInv(dec, s);
    ReachableLate(dec, s);
    assert Late(s, u, key);
    var p := s.pending[key];
    assert p.key == key && Enacted(dec, s.projects, p);
    HandleSteps(dec, s, t, r, NO_FAULTS, now);
    var s0 := Next(dec, s, Spawn(t, r));
    assert s0.pending == s.pending && s0.projects == s.projects && s0.threads[t] == Thread(r, Start);
    hide Inv, LateInv, Reachable, Run, Next, Handle;
    RetrySteps(dec, s0, t, key, approver, approverType, now);
  }

  lemma RetrySteps(dec: Decoder, s: State, t: nat, key: string, approver: string, approverType: CallerType, now: int)
    requires t in s.threads && s.threads[t] == Thread(Ack(key, approver, approverType), Start)
    requires key in s.pending && Enacted(dec, s.projects, s.pending[key])
    ensures t in AfterAck(dec, s, t, NO_FAULTS, now).threads
    ensures var s', p := AfterAck(dec, s, t, NO_FAULTS, now), s.pending[key];
            var entitled := !Terminal(p.status) && FourEyes(p, approver, approverType);
            && s'.threads[t].stage.Done?
            && var error := s'.threads[t].stage.error;
               && (error == Some(AlreadyTerminal) <==> Terminal(p.status))
               && (error == None <==> entitled && p.op == OpArchive)
               && (error == Some(ApplyFailed(Refused(RegistryError.AlreadyExists))) <==> entitled && p.op == OpAdd)
               && (error == None ==> key in s'.pending && s'.pending[key].status == ApprovedApplied)
               && (error != None ==> s'.pending == s.pending && s'.projects == s.projects)
  {
    var p := s.pending[key];
    var s1 := FetchStep(s, t, NoFault);
    if Terminal(p.status) || !FourEyes(p, approver, approverType) {
      assert s1.threads[t].stage.Done?;
    } else {
      assert s1 == SetStage(s, t, Fetched(p));
      ApplyAgain(dec, s.projects, p, now);
      hide ApplyOp, Effective, Decodes;
      var s2 := ApplyStep(dec, s1, t, NoFault, now);
      assert s2.pending == s.pending;
    }
  }

  /** A second application of a record that is in effect. */
  lemma ApplyAgain(dec: Decoder, projects: Table, p: Pending, now: int)
    requires Enacted(dec, projects, p)
    ensures Decodes(dec, p) && !p.op.OpUnknown?
    ensures p.op == OpAdd ==> ApplyOp(dec, projects, p, now) == Err(RegistryError.AlreadyExists)
    ensures p.op == OpArchive ==> ApplyOp(dec, projects, p, now).Ok?
  {
  }
}
