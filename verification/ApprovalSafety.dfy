/**
 What the approval protocol keeps in every interleaving, with any backend calls failing:
 records change only once, the registry changes only as recorded and permitted, an approved
 record's effect is there for good, and one request per key wins.
 */
module ApprovalSafety {
  import opened Wrappers
  import opened Projects
  import opened Approval

  // ---------------------------------------------------------------- two-state facts

  predicate SameRequest(a: Pending, b: Pending) {
    && a.key == b.key && a.op == b.op && a.body == b.body
    && a.requester == b.requester && a.requesterType == b.requesterType && a.createdAt == b.createdAt
  }

  /** Records stay, keep what they ask for, and never leave a terminal status. */
  ghost predicate RowsStable(before: Rows, after: Rows) {
    forall k | k in before ::
      k in after && SameRequest(before[k], after[k]) && (Terminal(before[k].status) ==> after[k] == before[k])
  }

  ghost predicate Evolves(s: State, s': State) {
    && RowsStable(s.pending, s'.pending)
    && Grows(s.projects, s'.projects)
    && s.calls <= s'.calls && s.posts <= s'.posts
    && (forall t | t in s.threads :: t in s'.threads && s'.threads[t].request == s.threads[t].request
                                     && (s.threads[t].stage.Done? ==> s'.threads[t] == s.threads[t]))
  }

  lemma RowsEvolve(rows: Rows, key: string, to: Status, appliedAt: Option<int>, p: Pending)
    ensures TransitionRow(rows, key, to, appliedAt).Ok? ==>
        RowsStable(rows, TransitionRow(rows, key, to, appliedAt).value)
    ensures CreateRow(rows, p).Ok? ==> RowsStable(rows, CreateRow(rows, p).value)
  {
  }

  /** A fetch touches only the stage of its own, unfinished thread. */
  lemma FetchLeaves(s: State, t: nat, fault: Fault)
    requires t in s.threads
    ensures var s', th := FetchStep(s, t, fault), s.threads[t];
            && t in s'.threads
            && s' == s.(threads := s.threads[t := th.(stage := s'.threads[t].stage)])
            && (th.stage != Start ==> s' == s)
  {
    hide Validate4Eyes, Terminal;
  }

  lemma FetchEvolves(s: State, t: nat, fault: Fault)
    requires t in s.threads
    ensures Evolves(s, FetchStep(s, t, fault))
  {
    hide FetchStep;
    FetchLeaves(s, t, fault);
  }

  lemma ApplyEvolves(dec: Decoder, s: State, t: nat, fault: Fault, now: int)
    requires t in s.threads
    ensures Evolves(s, ApplyStep(dec, s, t, fault, now))
  {
    var stage := s.threads[t].stage;
    if stage.Fetched? && Decodes(dec, stage.p) && ApplyOp(dec, s.projects, stage.p, now).Ok? {
      ApplyOpEffective(dec, s.projects, stage.p, now);
    }
    hide ApplyOp, Decodes;
  }

  lemma TransitEvolves(s: State, t: nat, fault: Fault, now: int)
    requires t in s.threads
    ensures Evolves(s, TransitStep(s, t, fault, now))
  {
    hide TransitionRow;
    var key, any := KeyOf(s.threads[t].request), Pending("", OpAdd, "", "", "", 0, PendingApproval, None);
    RowsEvolve(s.pending, key, ApprovedApplied, Some(now), any);
    RowsEvolve(s.pending, key, Denied, None, any);
    RowsEvolve(s.pending, key, TimedOut, None, any);
  }

  lemma InsertEvolves(s: State, t: nat, fault: Fault)
    requires t in s.threads
    ensures Evolves(s, InsertStep(s, t, fault))
  {
  }

  lemma NextEvolves(dec: Decoder, s: State, e: Event)
    ensures Evolves(s, Next(dec, s, e))
  {
    hide FetchStep, ApplyStep, TransitStep, InsertStep, AddRow, ArchiveRow;
    match e {
      case Fetch(t, fault) => if t in s.threads { FetchEvolves(s, t, fault); }
      case Apply(t, fault, now) => if t in s.threads { ApplyEvolves(dec, s, t, fault, now); }
      case Transit(t, fault, now) => if t in s.threads { TransitEvolves(s, t, fault, now); }
      case Insert(t, fault) => if t in s.threads { InsertEvolves(s, t, fault); }
      case DirectAdd(id, fields, now) => RowsGrow(s.projects, id, fields, now);
      case DirectArchive(id, now) => RowsGrow(s.projects, id, Fields("", "", "", "", 0), now);
      case _ =>
    }
  }

  lemma EvolvesTransitive(a: State, b: State, c: State)
    requires Evolves(a, b) && Evolves(b, c)
    ensures Evolves(a, c)
  {
  }

  /** Over any run: records only move forward, projects only grow, logs only extend. */
  lemma {:induction false} RunEvolves(dec: Decoder, s: State, events: seq<Event>)
    ensures Evolves(s, Run(dec, s, events))
    decreases |events|
  {
    if events != [] {
      hide Next, Evolves;
      NextEvolves(dec, s, events[0]);
      RunEvolves(dec, Next(dec, s, events[0]), events[1..]);
      EvolvesTransitive(s, Next(dec, s, events[0]), Run(dec, s, events));
    } else {
      assert Grows(s.projects, s.projects);
    }
  }

  // ---------------------------------------------------------------- the invariant

  /** Each record sits under its key, and has an application time exactly when approved. */
  ghost predicate RowsOk(s: State) {
    forall k | k in s.pending ::
      s.pending[k].key == k && (s.pending[k].appliedAt.Some? <==> s.pending[k].status == ApprovedApplied)
  }

  /** The registry shows the effect of every approved record. */
  ghost predicate ApprovedEffective(dec: Decoder, s: State) {
    forall k | k in s.pending && s.pending[k].status == ApprovedApplied :: Effective(dec, s.projects, s.pending[k])
  }

  /** A record a thread holds is the stored one up to its status. */
  ghost predicate Holds(s: State, p: Pending) {
    p.key in s.pending && SameRequest(p, s.pending[p.key])
  }

  ghost predicate ThreadOk(dec: Decoder, s: State, th: Thread) {
    && WellFormedRequest(th.request)
    && (th.stage.Fetched? || th.stage.Applied? ==>
          && !th.request.Create? && th.stage.p.key == th.request.key && Holds(s, th.stage.p)
          && (th.request.Ack? ==> FourEyes(th.stage.p, th.request.approver, th.request.approverType)))
    && (th.stage.Applied? ==> th.request.Ack? && Effective(dec, s.projects, th.stage.p))
    && (th.stage.ToPost? ==> th.request.Create? && th.request.record.key in s.pending)
  }

  ghost predicate ThreadsOk(dec: Decoder, s: State) {
    forall t | t in s.threads :: ThreadOk(dec, s, s.threads[t])
  }

  /** A registry call carries a stored request that its approver was entitled to approve. */
  ghost predicate CallOk(dec: Decoder, s: State, c: RegistryCall) {
    && Holds(s, c.p) && Decodes(dec, c.p) && FourEyes(c.p, c.approver, c.approverType)
    && (c.changed ==> Effective(dec, s.projects, c.p))
  }

  ghost predicate CallsOk(dec: Decoder, s: State) {
    forall c | c in s.calls :: CallOk(dec, s, c)
  }

  predicate AddCall(dec: Decoder, c: RegistryCall) {
    c.changed && c.p.op == OpAdd && dec.add(c.p.body).Some?
  }

  /** No two additions that took effect were of the same project. */
  ghost predicate AddsOnce(dec: Decoder, s: State) {
    forall i, j | 0 <= i < j < |s.calls| && AddCall(dec, s.calls[i]) && AddCall(dec, s.calls[j]) ::
      dec.add(s.calls[i].p.body).value.id != dec.add(s.calls[j].p.body).value.id
  }

  predicate Won(s: State, t: nat, key: string) {
    t in s.threads && !s.threads[t].request.Create? && s.threads[t].request.key == key
        && s.threads[t].stage == Done(None)
  }

  /** A successful ack, deny or timeout has made its record terminal, and is the only one. */
  ghost predicate OneWinner(s: State) {
    && (forall t, key | Won(s, t, key) :: key in s.pending && Terminal(s.pending[key].status))
    && (forall t, u, key | Won(s, t, key) && Won(s, u, key) :: t == u)
  }

  predicate Posting(s: State, t: nat, key: string) {
    t in s.threads && s.threads[t].stage.ToPost? && KeyOf(s.threads[t].request) == key
  }

  /** Each key is posted, or about to be, at most once. */
  ghost predicate PostsOnce(s: State) {
    && (forall i, j | 0 <= i < j < |s.posts| :: s.posts[i] != s.posts[j])
    && (forall key | key in s.posts :: key in s.pending)
    && (forall t, key | Posting(s, t, key) :: key !in s.posts && key in s.pending)
    && (forall t, u, key | Posting(s, t, key) && Posting(s, u, key) :: t == u)
  }

  ghost predicate Inv(dec: Decoder, s: State) {
    RowsOk(s) && ApprovedEffective(dec, s) && ThreadsOk(dec, s) && CallsOk(dec, s) && AddsOnce(dec, s)
    && OneWinner(s) && PostsOnce(s)
  }

  lemma InitialInv(dec: Decoder, s: State)
    requires Initial(s)
    ensures Inv(dec, s)
  {
  }

  lemma TransitionKeeps(rows: Rows, key: string, to: Status, appliedAt: Option<int>)
    requires forall k | k in rows ::
        rows[k].key == k && (rows[k].appliedAt.Some? <==> rows[k].status == ApprovedApplied)
    requires to != PendingApproval
    ensures var r := TransitionRow(rows, key, to, appliedAt);
            r.Ok? ==> forall k | k in r.value ::
              r.value[k].key == k && (r.value[k].appliedAt.Some? <==> r.value[k].status == ApprovedApplied)
  {
  }

  lemma TransitRowsOk(s: State, t: nat, fault: Fault, now: int)
    requires RowsOk(s) && t in s.threads
    ensures RowsOk(TransitStep(s, t, fault, now))
  {
    hide TransitionRow;
    var key := KeyOf(s.threads[t].request);
    TransitionKeeps(s.pending, key, ApprovedApplied, Some(now));
    TransitionKeeps(s.pending, key, Denied, None);
    TransitionKeeps(s.pending, key, TimedOut, None);
  }

  lemma InsertRowsOk(dec: Decoder, s: State, t: nat, fault: Fault)
    requires RowsOk(s) && t in s.threads && ThreadOk(dec, s, s.threads[t])
    ensures RowsOk(InsertStep(s, t, fault))
  {
    hide Effective, FourEyes, SameRequest;
  }

  lemma NextRowsOk(dec: Decoder, s: State, e: Event)
    requires RowsOk(s) && ThreadsOk(dec, s)
    ensures RowsOk(Next(dec, s, e))
  {
    hide FetchStep, ApplyStep, TransitStep, InsertStep, AddRow, ArchiveRow, ThreadOk, RowsOk;
    SameRows(s, Next(dec, s, e));
    match e {
      case Fetch(t, fault) => if t in s.threads { FetchLeaves(s, t, fault); }
      case Apply(t, fault, now) => if t in s.threads { ApplyLeaves(dec, s, t, fault, now); }
      case Transit(t, fault, now) => if t in s.threads { TransitRowsOk(s, t, fault, now); }
      case Insert(t, fault) => if t in s.threads { InsertRowsOk(dec, s, t, fault); }
      case _ =>
    }
  }

  lemma SameRows(s: State, s': State)
    ensures s'.pending == s.pending ==> RowsOk(s') == RowsOk(s)
  {
  }

  lemma NextApprovedEffective(dec: Decoder, s: State, e: Event)
    requires RowsOk(s) && ThreadsOk(dec, s) && ApprovedEffective(dec, s)
    ensures ApprovedEffective(dec, Next(dec, s, e))
  {
    var s' := Next(dec, s, e);
    hide Next, Effective, ThreadOk;
    NextEvolves(dec, s, e);
    forall k | k in s'.pending && s'.pending[k].status == ApprovedApplied
      ensures Effective(dec, s'.projects, s'.pending[k])
    {
      if k in s.pending && s.pending[k].status == ApprovedApplied {
        EffectiveStays(dec, s.projects, s'.projects, s.pending[k]);
      } else {
        var p := NewlyApproved(dec, s, e, k);
        EffectiveSame(dec, s'.projects, p, s'.pending[k]);
      }
    }
  }

  lemma EffectiveSame(dec: Decoder, projects: Table, p: Pending, q: Pending)
    requires SameRequest(p, q) && Effective(dec, projects, p)
    ensures Effective(dec, projects, q)
  {
  }

  /** A record becomes approved only by a thread that has applied it. */
  lemma NewlyApproved(dec: Decoder, s: State, e: Event, k: string) returns (p: Pending)
    requires RowsOk(s) && ThreadsOk(dec, s)
    requires k in Next(dec, s, e).pending && Next(dec, s, e).pending[k].status == ApprovedApplied
    requires k in s.pending ==> s.pending[k].status != ApprovedApplied
    ensures SameRequest(p, Next(dec, s, e).pending[k]) && Effective(dec, Next(dec, s, e).projects, p)
  {
    hide FetchStep, ApplyStep, Effective, FourEyes, Decodes;
    if e.Fetch? && e.t in s.threads { FetchLeaves(s, e.t, e.fault); }
    if e.Apply? && e.t in s.threads { ApplyLeaves(dec, s, e.t, e.fault, e.now); }
    var th := s.threads[e.t];
    assert ThreadOk(dec, s, th);
    p := th.stage.p;
  }

  lemma ApplyLeaves(dec: Decoder, s: State, t: nat, fault: Fault, now: int)
    requires t in s.threads
    ensures var s' := ApplyStep(dec, s, t, fault, now);
            s' == s.(threads := s'.threads, calls := s'.calls, projects := s'.projects)
  {
    hide ApplyOp, Decodes;
  }

  lemma ThreadOkStays(dec: Decoder, s: State, s': State, th: Thread)
    requires Evolves(s, s') && ThreadOk(dec, s, th)
    ensures ThreadOk(dec, s', th)
  {
    if th.stage.Applied? {
      EffectiveStays(dec, s.projects, s'.projects, th.stage.p);
    }
  }

  /** The thread an event concerns. */
  function Subject(e: Event): Option<nat> {
    match e
    case DirectAdd(_, _, _) => None
    case DirectArchive(_, _) => None
    case _ => Some(e.t)
  }

  lemma OthersKeep(dec: Decoder, s: State, e: Event, t: nat)
    requires t in Next(dec, s, e).threads && Subject(e) != Some(t)
    ensures t in s.threads && Next(dec, s, e).threads[t] == s.threads[t]
  {
    hide Validate4Eyes, Terminal, TransitionRow, CreateRow, ApplyOp, Decodes, AddRow, ArchiveRow;
  }

  lemma FetchOk(dec: Decoder, s: State, t: nat, fault: Fault)
    requires RowsOk(s) && t in s.threads && ThreadOk(dec, s, s.threads[t])
    ensures var s' := FetchStep(s, t, fault); ThreadOk(dec, s', s'.threads[t])
  {
    hide Effective;
  }

  lemma ApplyOk(dec: Decoder, s: State, t: nat, fault: Fault, now: int)
    requires t in s.threads && ThreadOk(dec, s, s.threads[t])
    ensures var s' := ApplyStep(dec, s, t, fault, now); ThreadOk(dec, s', s'.threads[t])
  {
    var stage := s.threads[t].stage;
    if stage.Fetched? && Decodes(dec, stage.p) && ApplyOp(dec, s.projects, stage.p, now).Ok? {
      ApplyOpEffective(dec, s.projects, stage.p, now);
    }
    hide Effective, ApplyOp, Decodes;
  }

  lemma InsertOk(dec: Decoder, s: State, t: nat, fault: Fault)
    requires t in s.threads && ThreadOk(dec, s, s.threads[t])
    ensures var s' := InsertStep(s, t, fault); ThreadOk(dec, s', s'.threads[t])
  {
    hide Effective;
    InsertEvolves(s, t, fault);
  }

  lemma SubjectOk(dec: Decoder, s: State, e: Event)
    requires RowsOk(s) && ThreadsOk(dec, s)
    requires Subject(e).Some? && Subject(e).value in Next(dec, s, e).threads
    ensures var s' := Next(dec, s, e); ThreadOk(dec, s', s'.threads[Subject(e).value])
  {
    var s', t := Next(dec, s, e), e.t;
    hide FetchStep, ApplyStep, InsertStep, Effective, FourEyes, TransitionRow;
    NextEvolves(dec, s, e);
    if t in s.threads {
      assert ThreadOk(dec, s, s.threads[t]);
      ThreadOkStays(dec, s, s', s.threads[t]);
      if e.Fetch? { FetchOk(dec, s, t, e.fault); }
      if e.Apply? { ApplyOk(dec, s, t, e.fault, e.now); }
      if e.Insert? { InsertOk(dec, s, t, e.fault); }
    }
  }

  lemma NextThreadsOk(dec: Decoder, s: State, e: Event)
    requires RowsOk(s) && ThreadsOk(dec, s)
    ensures ThreadsOk(dec, Next(dec, s, e))
  {
    var s' := Next(dec, s, e);
    hide Next, ThreadOk;
    NextEvolves(dec, s, e);
    forall t | t in s'.threads ensures ThreadOk(dec, s', s'.threads[t]) {
      if Subject(e) == Some(t) {
        SubjectOk(dec, s, e);
      } else {
        OthersKeep(dec, s, e, t);
        ThreadOkStays(dec, s, s', s.threads[t]);
      }
    }
  }

  /** The one way the call log grows. */
  lemma NewCall(dec: Decoder, s: State, e: Event)
    requires RowsOk(s) && ThreadsOk(dec, s)
    ensures var s' := Next(dec, s, e);
            s'.calls == s.calls || (s'.calls == s.calls + [s'.calls[|s.calls|]] && CallOk(dec, s', s'.calls[|s.calls|]))
    ensures var s' := Next(dec, s, e);
            s'.calls != s.calls && AddCall(dec, s'.calls[|s.calls|]) ==>
              dec.add(s'.calls[|s.calls|].p.body).value.id !in s.projects
  {
    var s' := Next(dec, s, e);
    if s'.calls != s.calls {
      var th := s.threads[e.t];
      assert ThreadOk(dec, s, th);
      if ApplyOp(dec, s.projects, th.stage.p, e.now).Ok? {
        ApplyOpEffective(dec, s.projects, th.stage.p, e.now);
      }
    }
  }

  lemma CallOkStays(dec: Decoder, s: State, s': State, c: RegistryCall)
    requires Evolves(s, s') && CallOk(dec, s, c)
    ensures CallOk(dec, s', c)
  {
    if c.changed {
      EffectiveStays(dec, s.projects, s'.projects, c.p);
    }
  }

  lemma NextCalls(dec: Decoder, s: State, e: Event)
    requires RowsOk(s) && ThreadsOk(dec, s) && CallsOk(dec, s) && AddsOnce(dec, s)
    ensures CallsOk(dec, Next(dec, s, e)) && AddsOnce(dec, Next(dec, s, e))
  {
    var s' := Next(dec, s, e);
    hide Next, CallOk;
    NextEvolves(dec, s, e);
    NewCall(dec, s, e);
    forall c | c in s'.calls ensures CallOk(dec, s', c) {
      if c in s.calls {
        CallOkStays(dec, s, s', c);
      }
    }
    forall i, j | 0 <= i < j < |s'.calls| && AddCall(dec, s'.calls[i]) && AddCall(dec, s'.calls[j])
      ensures dec.add(s'.calls[i].p.body).value.id != dec.add(s'.calls[j].p.body).value.id
    {
      assert s.calls[i] in s.calls && s'.calls[i] == s.calls[i];
      AddedIsThere(dec, s, s.calls[i]);
    }
  }

  lemma AddedIsThere(dec: Decoder, s: State, c: RegistryCall)
    requires CallOk(dec, s, c) && AddCall(dec, c)
    ensures dec.add(c.p.body).value.id in s.projects
  {
  }

  lemma NextOneWinner(dec: Decoder, s: State, e: Event)
    requires RowsOk(s) && ThreadsOk(dec, s) && OneWinner(s)
    ensures OneWinner(Next(dec, s, e))
  {
    var s' := Next(dec, s, e);
    NextEvolves(dec, s, e);
    forall t, key | Won(s', t, key) ensures key in s'.pending && Terminal(s'.pending[key].status) {
      NewWinner(dec, s, e, t, key);
    }
    forall t, u, key | Won(s', t, key) && Won(s', u, key) ensures t == u {
      NewWinner(dec, s, e, t, key);
      NewWinner(dec, s, e, u, key);
    }
  }

  /** A thread that wins by an event does so by making its still pending record terminal. */
  lemma NewWinner(dec: Decoder, s: State, e: Event, t: nat, key: string)
    requires RowsOk(s) && ThreadsOk(dec, s) && Won(Next(dec, s, e), t, key)
    ensures var s' := Next(dec, s, e);
            Won(s, t, key) || (Subject(e) == Some(t) && key in s.pending && !Terminal(s.pending[key].status)
                               && key in s'.pending && Terminal(s'.pending[key].status))
  {
    if Subject(e) != Some(t) {
      OthersKeep(dec, s, e, t);
    } else if t in s.threads {
      assert ThreadOk(dec, s, s.threads[t]);
      hide FetchStep, ApplyStep, TransitStep, InsertStep, PostStep, RowsOk, ThreadsOk, ThreadOk;
      match e {
        case Fetch(_, fault) => NoWinFetching(s, t, fault);
        case Apply(_, fault, now) => NoWinApplying(dec, s, t, fault, now);
        case Transit(_, fault, now) => WinTransiting(s, t, fault, now, key);
        case Insert(_, fault) => NoWinInserting(s, t, fault, key);
        case Post(_) => NoWinPosting(dec, s, t, key);
        case _ =>
      }
    }
  }

  lemma NoWinFetching(s: State, t: nat, fault: Fault)
    requires t in s.threads
    ensures var s' := FetchStep(s, t, fault);
            && t in s'.threads && s'.threads[t].request == s.threads[t].request
            && (s'.threads[t].stage == Done(None) ==> s.threads[t].stage == Done(None))
  {
    hide Validate4Eyes, Terminal;
  }

  lemma NoWinApplying(dec: Decoder, s: State, t: nat, fault: Fault, now: int)
    requires t in s.threads
    ensures var s' := ApplyStep(dec, s, t, fault, now);
            && t in s'.threads && s'.threads[t].request == s.threads[t].request
            && (s'.threads[t].stage == Done(None) ==> s.threads[t].stage == Done(None))
  {
    hide ApplyOp, Decodes;
  }

  lemma WinTransiting(s: State, t: nat, fault: Fault, now: int, key: string)
    requires t in s.threads && Won(TransitStep(s, t, fault, now), t, key)
    ensures var s' := TransitStep(s, t, fault, now);
            Won(s, t, key) || (key in s.pending && !Terminal(s.pending[key].status)
                               && key in s'.pending && Terminal(s'.pending[key].status))
  {
  }

  lemma NoWinInserting(s: State, t: nat, fault: Fault, key: string)
    requires t in s.threads
    ensures Won(InsertStep(s, t, fault), t, key) ==> Won(s, t, key)
  {
    hide CreateRow;
  }

  lemma NoWinPosting(dec: Decoder, s: State, t: nat, key: string)
    requires t in s.threads && ThreadOk(dec, s, s.threads[t])
    ensures Won(PostStep(s, t), t, key) ==> Won(s, t, key)
  {
    hide Effective, FourEyes, SameRequest;
  }

  lemma NextPostsOnce(dec: Decoder, s: State, e: Event)
    requires RowsOk(s) && ThreadsOk(dec, s) && PostsOnce(s)
    ensures PostsOnce(Next(dec, s, e))
  {
    var s' := Next(dec, s, e);
    NextEvolves(dec, s, e);
    forall t: nat, key | Posting(s', t, key)
      ensures Posting(s, t, key)
          || (Subject(e) == Some(t) && key !in s.pending && s'.posts == s.posts && key in s'.pending)
    {
      NewPosting(dec, s, e, t, key);
    }
    if s'.posts != s.posts {
      PostEvent(dec, s, e);
    }
  }

  lemma NewPosting(dec: Decoder, s: State, e: Event, t: nat, key: string)
    requires Posting(Next(dec, s, e), t, key)
    ensures var s' := Next(dec, s, e);
            Posting(s, t, key)
                || (Subject(e) == Some(t) && key !in s.pending && s'.posts == s.posts && key in s'.pending)
  {
    if Subject(e) != Some(t) {
      OthersKeep(dec, s, e, t);
    }
  }

  lemma PostEvent(dec: Decoder, s: State, e: Event)
    requires Next(dec, s, e).posts != s.posts
    ensures e.Post? && Posting(s, e.t, KeyOf(s.threads[e.t].request))
    ensures var s', key := Next(dec, s, e), KeyOf(s.threads[e.t].request);
            s'.posts == s.posts + [key] && !Posting(s', e.t, key) && s'.pending == s.pending
  {
  }

  lemma NextInv(dec: Decoder, s: State, e: Event)
    requires Inv(dec, s)
    ensures Inv(dec, Next(dec, s, e))
  {
    hide Next, RowsOk, ApprovedEffective, ThreadsOk, CallsOk, AddsOnce, OneWinner, PostsOnce;
    NextRowsOk(dec, s, e);
    NextApprovedEffective(dec, s, e);
    NextThreadsOk(dec, s, e);
    NextCalls(dec, s, e);
    NextOneWinner(dec, s, e);
    NextPostsOnce(dec, s, e);
  }

  /** The invariant holds after any interleaving of any requests, whatever fails. */
  lemma {:induction false} RunInv(dec: Decoder, s: State, events: seq<Event>)
    requires Inv(dec, s)
    ensures Inv(dec, Run(dec, s, events))
    decreases |events|
  {
    if events != [] {
      hide Next, Inv;
      NextInv(dec, s, events[0]);
      RunInv(dec, Next(dec, s, events[0]), events[1..]);
    }
  }
}
