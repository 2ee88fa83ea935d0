/**
 The all-or-nothing canary rollout (internal/usecase/runops.go): a forward shift of every named
 resource in order and, after the first failure, a compensating shift of the ones already done.

 Cloud Run is a map from resource paths to traffic splits. Whether the n-th call since start-up
 fails is an arbitrary function of n; a failed call leaves the resource as it was.
 */
module Rollout {
  import opened Wrappers
  import opened Canary
  import opened Traffic
  import opened TrafficTrips
  import Text

  datatype Kind = Service | WorkerPool

  datatype Path = Path(kind: Kind, project: string, location: string, name: string)

  datatype Call = Call(path: Path, target: string, percent: int)

  type Cloud = map<Path, Resource>

  // ---------------------------------------------------------------- what a list of calls does

  predicate Succeeds(fails: nat -> bool, n: nat, call: Call, cloud: Cloud) {
    !fails(n) && call.path in cloud
  }

  function After(cloud: Cloud, call: Call, ok: bool): (cloud': Cloud)
    requires ok ==> call.path in cloud
    ensures cloud'.Keys == cloud.Keys
  {
    if ok then cloud[call.path := Allocate(cloud[call.path], call.target, call.percent)] else cloud
  }

  /** The state after `calls`, the first of which was call number n. */
  function Replay(cloud: Cloud, fails: nat -> bool, n: nat, calls: seq<Call>): (cloud': Cloud)
    ensures cloud'.Keys == cloud.Keys
    decreases |calls|
  {
    if calls == [] then cloud
    else
      var k := |calls| - 1;
      After(Replay(cloud, fails, n, calls[..k]), calls[k], Succeeds(fails, n + k, calls[k], cloud))
  }

  class CloudRun {
    var resources: Cloud
    ghost var calls: seq<Call>
    const fails: nat -> bool
    var count: nat

    ghost predicate Valid()
      reads this
    {
      count == |calls|
    }

    constructor (resources: Cloud, fails: nat -> bool)
      ensures Valid() && this.resources == resources && this.fails == fails && calls == []
    {
      this.resources := resources;
      this.fails := fails;
      this.calls := [];
      this.count := 0;
    }

    /** ShiftTraffic for services, UpdateWorkerPool for worker pools: one rule for both. */
    method Shift(call: Call) returns (ok: bool)
      requires Valid()
      modifies this
      ensures Valid()
      ensures calls == old(calls) + [call]
      ensures ok == Succeeds(fails, |old(calls)|, call, old(resources))
      ensures resources == After(old(resources), call, ok)
    {
      var failed := fails(count);
      count := count + 1;
      calls := calls + [call];
      if failed || call.path !in resources {
        return false;
      }
      var r := ShiftEntries(resources[call.path], call.target, call.percent);
      resources := resources[call.path := r];
      return true;
    }
  }

  // ---------------------------------------------------------------- requests

  datatype Request = Request(
    kind: Kind,
    project: string,
    location: string,
    resourceNames: string,
    targets: string,
    action: string)

  /** The non-blank parts of a comma-separated list, trimmed. */
  function CleanParts(parts: seq<string>): seq<string> {
    if parts == [] then []
    else
      var t := Text.TrimSpace(parts[|parts| - 1]);
      CleanParts(parts[..|parts| - 1]) + if t != "" then [t] else []
  }

  function CsvValues(s: string): seq<string> {
    CleanParts(Text.Split(s, ','))
  }

  method SplitCSV(s: string) returns (result: seq<string>)
    ensures result == CsvValues(s)
  {
    hide Text.TrimSpace, Text.Split;
    var parts := Text.Split(s, ',');
    result := [];
    for i := 0 to |parts|
      invariant result == CleanParts(parts[..i])
    {
      assert parts[..i + 1][..i] == parts[..i];
      var t := Text.TrimSpace(parts[i]);
      if t != "" {
        result := result + [t];
      }
    }
    assert parts[..|parts|] == parts;
  }

  lemma {:induction false} CleanPartsKeeps(names: seq<string>)
    requires forall n | n in names :: Text.Trimmed(n) && n != ""
    ensures CleanParts(names) == names
    decreases |names|
  {
    hide Text.TrimSpace, Text.Trimmed, Text.TrimLeft, Text.TrimRight;
    if names != [] {
      var k := |names| - 1;
      assert names[k] in names;
      Text.TrimSpaceNoop(names[k]);
      CleanPartsKeeps(names[..k]);
      assert names == names[..k] + [names[k]];
    }
  }

  /** Any list of trimmed, non-blank, comma-free names survives being joined and split again. */
  lemma CsvRoundTrip(names: seq<string>)
    requires forall n | n in names :: Text.Trimmed(n) && n != "" && ',' !in n
    ensures CsvValues(Text.Join(names, ',')) == names
  {
    if names == [] {
      assert Text.Split("", ',') == [""];
      Text.TrimSpaceNoop("");
      assert [""][..0] == [];
    } else {
      Text.SplitJoin(names, ',');
      CleanPartsKeeps(names);
    }
  }

  function CsvAt(values: seq<string>, i: nat): string {
    if i < |values| then values[i] else ""
  }

  datatype Job = Job(path: Path, target: string)

  /** The resources a request names, each with the revision listed at its position. */
  function Jobs(req: Request): seq<Job> {
    var names, targets := CsvValues(req.resourceNames), CsvValues(req.targets);
    seq(|names|, i requires 0 <= i < |names| =>
      Job(Path(req.kind, req.project, req.location, names[i]), CsvAt(targets, i)))
  }

  function Calls(jobs: seq<Job>, percent: int): seq<Call> {
    seq(|jobs|, i requires 0 <= i < |jobs| => Call(jobs[i].path, jobs[i].target, percent))
  }

  // ---------------------------------------------------------------- the use case

  /** What the operator is told about compensation. */
  datatype Compensation = NothingToRollBack | RolledBack | PartlyRolledBack(failed: seq<string>)

  datatype Outcome =
    | Rejected(error: ActionError)
    | Completed(percent: int, next: Option<string>, stop: Option<string>)
    | Failed(at: nat, compensation: Compensation, retry: string)

  /** The names of the compensations that failed, in order. */
  function FailedNames(fails: nat -> bool, n: nat, jobs: seq<Job>, cloud: Cloud): seq<string>
    decreases |jobs|
  {
    if jobs == [] then []
    else
      var k := |jobs| - 1;
      FailedNames(fails, n, jobs[..k], cloud)
      + if Succeeds(fails, n + k, Calls(jobs, 0)[k], cloud) then [] else [jobs[k].path.name]
  }

  function Report(jobs: seq<Job>, failed: seq<string>): Compensation {
    if jobs == [] then NothingToRollBack
    else if failed != [] then PartlyRolledBack(failed)
    else RolledBack
  }

  /** The first `upTo` forward calls, numbered from n, all succeeded. */
  predicate AllSucceeded(fails: nat -> bool, n: nat, calls: seq<Call>, cloud: Cloud) {
    forall i | 0 <= i < |calls| :: Succeeds(fails, n + i, calls[i], cloud)
  }

  /** The exact calls a rollout may make, and what it then reports. */
  ghost predicate Trace(req: Request, cloud: Cloud, fails: nat -> bool, n: nat, calls: seq<Call>, out: Outcome) {
    match ParseAction(req.action)
    case Err(e) => out == Rejected(e) && calls == []
    case Ok(act) =>
      var jobs, p := Jobs(req), EffectivePercent(act);
      match out
      case Rejected(_) => false
      case Completed(percent, next, stop) =>
        && calls == Calls(jobs, p) && AllSucceeded(fails, n, calls, cloud)
        && percent == p && next == NextAction(act)
        && stop == if next.Some? then Some("rollback") else None
      case Failed(k, compensation, retry) =>
        && k < |jobs|
        && calls == Calls(jobs[..k + 1], p) + Calls(jobs[..k], 0)
        && AllSucceeded(fails, n, Calls(jobs[..k], p), cloud)
        && !Succeeds(fails, n + k, calls[k], cloud)
        && compensation == Report(jobs[..k], FailedNames(fails, n + k + 1, jobs[..k], cloud))
        && retry == req.action
  }

  /** The buttons offered after a rollout are the rungs of the canary ladder. */
  lemma ButtonsFollowLadder(req: Request, cloud: Cloud, fails: nat -> bool, n: nat, calls: seq<Call>, out: Outcome)
    requires Trace(req, cloud, fails, n, calls, out)
    ensures out.Completed? ==> out.next == AfterClick(req.action, true)
    ensures out.Failed? ==> AfterClick(req.action, false) == Some(out.retry)
    ensures out.Rejected? <==> ParseAction(req.action).Err?
  {
    hide ParseAction, NextAction, EffectivePercent, Jobs, Calls, AllSucceeded;
  }

  lemma JobCount(req: Request)
    ensures |Jobs(req)| == |CsvValues(req.resourceNames)|
  {
  }

  lemma JobAt(req: Request, i: nat)
    requires i < |CsvValues(req.resourceNames)| == |Jobs(req)|
    ensures var name := CsvValues(req.resourceNames)[i];
            Jobs(req)[i] == Job(Path(req.kind, req.project, req.location, name), CsvAt(CsvValues(req.targets), i))
  {
  }

  lemma CallsSnoc(jobs: seq<Job>, k: nat, percent: int)
    requires k < |jobs|
    ensures |Calls(jobs[..k], percent)| == k && Calls(jobs[..0], percent) == []
    ensures Calls(jobs[..k + 1], percent) == Calls(jobs[..k], percent) + [Call(jobs[k].path, jobs[k].target, percent)]
  {
  }

  lemma NoCalls(jobs: seq<Job>)
    requires jobs == []
    ensures Calls(jobs, 0) == []
  {
  }

  lemma SucceedsAnywhere(fails: nat -> bool, n: nat, call: Call, a: Cloud, b: Cloud)
    requires a.Keys == b.Keys
    ensures Succeeds(fails, n, call, a) == Succeeds(fails, n, call, b)
  {
    assert call.path in a <==> call.path in a.Keys;
  }

  lemma FailedNamesSnoc(fails: nat -> bool, n: nat, jobs: seq<Job>, k: nat, cloud: Cloud)
    requires k < |jobs|
    ensures FailedNames(fails, n, jobs[..0], cloud) == []
    ensures FailedNames(fails, n, jobs[..k + 1], cloud)
         == FailedNames(fails, n, jobs[..k], cloud)
            + if Succeeds(fails, n + k, Call(jobs[k].path, jobs[k].target, 0), cloud) then [] else [jobs[k].path.name]
  {
    assert jobs[..k + 1][..k] == jobs[..k];
  }

  lemma ReplaySnoc(cloud: Cloud, fails: nat -> bool, n: nat, calls: seq<Call>, call: Call)
    ensures Replay(cloud, fails, n, calls + [call])
         == After(Replay(cloud, fails, n, calls), call, Succeeds(fails, n + |calls|, call, cloud))
  {
    assert (calls + [call])[..|calls|] == calls;
  }

  class RunOpsService {
    const gcp: CloudRun

    constructor (gcp: CloudRun)
      ensures this.gcp == gcp
    {
      this.gcp := gcp;
    }

    /** Every done job back to 0, in order; a failing one is noted and the rest still tried. */
    method CompensateRollback(done: seq<Job>, ghost cloud: Cloud, ghost n: nat, ghost before: seq<Call>)
      returns (report: Compensation)
      requires gcp.Valid() && |gcp.calls| == n + |before|
      requires gcp.resources == Replay(cloud, gcp.fails, n, before)
      modifies gcp
      ensures gcp.Valid() && gcp.calls == old(gcp.calls) + Calls(done, 0)
      ensures gcp.resources == Replay(cloud, gcp.fails, n, before + Calls(done, 0))
      ensures report == Report(done, FailedNames(gcp.fails, n + |before|, done, cloud))
    {
      hide Replay, After, Calls, Succeeds, FailedNames;
      if |done| == 0 {
        assert before + Calls(done, 0) == before && gcp.calls + Calls(done, 0) == gcp.calls by { NoCalls(done); }
        return NothingToRollBack;
      }
      var failed := [];
      CallsSnoc(done, 0, 0);
      FailedNamesSnoc(gcp.fails, n + |before|, done, 0, cloud);
      assert before + [] == before && gcp.calls + [] == gcp.calls;
      for i := 0 to |done|
        invariant gcp.Valid() && gcp.calls == old(gcp.calls) + Calls(done[..i], 0)
        invariant gcp.resources == Replay(cloud, gcp.fails, n, before + Calls(done[..i], 0))
        invariant gcp.resources.Keys == cloud.Keys
        invariant failed == FailedNames(gcp.fails, n + |before|, done[..i], cloud)
      {
        ghost var so := Calls(done[..i], 0);
        var call := Call(done[i].path, done[i].target, 0);
        CallsSnoc(done, i, 0);
        FailedNamesSnoc(gcp.fails, n + |before|, done, i, cloud);
        SucceedsAnywhere(gcp.fails, |gcp.calls|, call, gcp.resources, cloud);
        var ok := gcp.Shift(call);
        ReplaySnoc(cloud, gcp.fails, n, before + so, call);
        assert before + (so + [call]) == before + so + [call];
        assert old(gcp.calls) + (so + [call]) == old(gcp.calls) + so + [call];
        if !ok {
          failed := failed + [done[i].path.name];
        }
      }
      assert done[..|done|] == done;
      report := Report(done, failed);
    }

    /** The shared flow for services and worker pools. */
    method ApproveShift(req: Request) returns (out: Outcome)
      requires gcp.Valid()
      modifies gcp
      ensures gcp.Valid() && old(gcp.calls) <= gcp.calls
      ensures var made := gcp.calls[|old(gcp.calls)|..];
              && Trace(req, old(gcp.resources), gcp.fails, |old(gcp.calls)|, made, out)
              && gcp.resources == Replay(old(gcp.resources), gcp.fails, |old(gcp.calls)|, made)
    {
      var parsed := ParseAction(req.action);
      if parsed.Err? {
        return Rejected(parsed.error);
      }
      var act := parsed.value;
      var percent := act.percent;
      if act.name == "rollback" {
        percent := 0;
      } else if percent == 0 {
        percent := 10;
      }
      out := ShiftAll(req, act, percent);
    }

    /** The forward loop: one call per job in order, up to and including the first that fails. */
    method Forward(req: Request, percent: int) returns (done: seq<Job>, failed: bool)
      requires gcp.Valid()
      modifies gcp
      ensures gcp.Valid() && |done| <= |Jobs(req)| && done == Jobs(req)[..|done|]
      ensures !failed ==>
                && |done| == |Jobs(req)|
                && Reached(old(gcp.resources), gcp.fails, old(gcp.calls), Jobs(req), percent, |done|, gcp.calls,
                    gcp.resources)
      ensures failed ==>
                && |done| < |Jobs(req)|
                && Stopped(old(gcp.resources), gcp.fails, old(gcp.calls), Jobs(req), percent, |done|, gcp.calls,
                    gcp.resources)
    {
      hide Jobs, CsvValues, CsvAt, Reached, Stopped, After, Succeeds;
      var names := SplitCSV(req.resourceNames);
      var targets := SplitCSV(req.targets);
      ghost var jobs := Jobs(req);
      JobCount(req);
      ReachedNone(gcp.resources, gcp.fails, gcp.calls, jobs, percent);
      done := [];
      for i := 0 to |names|
        invariant gcp.Valid() && done == jobs[..i]
        invariant Reached(old(gcp.resources), gcp.fails, old(gcp.calls), jobs, percent, i, gcp.calls, gcp.resources)
      {
        var job := Job(Path(req.kind, req.project, req.location, names[i]), CsvAt(targets, i));
        JobAt(req, i);
        ghost var calls, resources := gcp.calls, gcp.resources;
        var ok := gcp.Shift(Call(job.path, job.target, percent));
        ReachedNext(old(gcp.resources), gcp.fails, old(gcp.calls), jobs, percent, i, calls, resources, ok);
        if !ok {
          return done, true;
        }
        done := done + [job];
        assert jobs[..i + 1] == jobs[..i] + [job];
      }
      failed := false;
    }

    /** The forward loop, its compensation, and the buttons offered afterwards. */
    method ShiftAll(req: Request, act: Action, percent: int) returns (out: Outcome)
      requires gcp.Valid() && ParseAction(req.action) == Ok(act) && percent == EffectivePercent(act)
      modifies gcp
      ensures gcp.Valid() && old(gcp.calls) <= gcp.calls
      ensures var made := gcp.calls[|old(gcp.calls)|..];
              && Trace(req, old(gcp.resources), gcp.fails, |old(gcp.calls)|, made, out)
              && gcp.resources == Replay(old(gcp.resources), gcp.fails, |old(gcp.calls)|, made)
    {
      hide Trace, Jobs, ParseAction, EffectivePercent, NextAction, Replay, After, Succeeds, FailedNames, Calls,
          Report, AllSucceeded;
      ghost var jobs := Jobs(req);
      ghost var cloud, n := gcp.resources, |gcp.calls|;
      var done, failed := Forward(req, percent);
      if failed {
        ghost var k := |done|;
        ghost var made := Calls(jobs[..k + 1], percent);
        CallsSnoc(jobs, k, percent);
        var report := CompensateRollback(done, cloud, n, made);
        FailureTrace(req, act, cloud, gcp.fails, n, k);
        assert gcp.calls[n..] == made + Calls(jobs[..k], 0);
        return Failed(|done|, report, req.action);
      }
      assert jobs[..|jobs|] == jobs;
      assert gcp.calls[n..] == Calls(jobs, percent);
      var next := NextAction(act);
      out := Completed(percent, next, if next.Some? then Some("rollback") else None);
      SuccessTrace(req, act, cloud, gcp.fails, n, out);
    }
  }

  /** The state after k successful forward calls. */
  ghost predicate Reached(cloud: Cloud, fails: nat -> bool, before: seq<Call>, jobs: seq<Job>, percent: int, k: nat,
                          calls: seq<Call>, resources: Cloud)
    requires k <= |jobs|
  {
    var made := Calls(jobs[..k], percent);
    && calls == before + made
    && resources == Replay(cloud, fails, |before|, made)
    && AllSucceeded(fails, |before|, made, cloud)
  }

  /** The state after k successful forward calls and one that failed. */
  ghost predicate Stopped(cloud: Cloud, fails: nat -> bool, before: seq<Call>, jobs: seq<Job>, percent: int, k: nat,
                          calls: seq<Call>, resources: Cloud)
    requires k < |jobs|
  {
    var made := Calls(jobs[..k + 1], percent);
    && calls == before + made
    && resources == Replay(cloud, fails, |before|, made)
    && AllSucceeded(fails, |before|, Calls(jobs[..k], percent), cloud)
    && !Succeeds(fails, |before| + k, Call(jobs[k].path, jobs[k].target, percent), cloud)
  }

  lemma ReachedNone(cloud: Cloud, fails: nat -> bool, before: seq<Call>, jobs: seq<Job>, percent: int)
    ensures Reached(cloud, fails, before, jobs, percent, 0, before, cloud)
  {
    assert Calls(jobs[..0], percent) == [];
    assert before + [] == before;
  }

  lemma ReachedNext(cloud: Cloud, fails: nat -> bool, before: seq<Call>, jobs: seq<Job>, percent: int, k: nat,
                    calls: seq<Call>, resources: Cloud, ok: bool)
    requires k < |jobs| && Reached(cloud, fails, before, jobs, percent, k, calls, resources)
    requires var call := Call(jobs[k].path, jobs[k].target, percent);
             ok == Succeeds(fails, |calls|, call, resources)
    ensures resources.Keys == cloud.Keys
    ensures var call := Call(jobs[k].path, jobs[k].target, percent);
            if ok
            then Reached(cloud, fails, before, jobs, percent, k + 1, calls + [call], After(resources, call, ok))
            else Stopped(cloud, fails, before, jobs, percent, k, calls + [call], After(resources, call, ok))
  {
    hide Calls, Replay, After, Succeeds, AllSucceeded;
    var call := Call(jobs[k].path, jobs[k].target, percent);
    var so := Calls(jobs[..k], percent);
    CallsSnoc(jobs, k, percent);
    SucceedsAnywhere(fails, |calls|, call, resources, cloud);
    SucceedsHere(fails, |calls|, call, resources);
    ReplaySnoc(cloud, fails, |before|, so, call);
    AllSucceededSnoc(fails, |before|, so, call, cloud);
    assert before + (so + [call]) == before + so + [call];
  }

  lemma SucceedsHere(fails: nat -> bool, n: nat, call: Call, cloud: Cloud)
    ensures Succeeds(fails, n, call, cloud) ==> call.path in cloud
  {
  }

  lemma AllSucceededSnoc(fails: nat -> bool, n: nat, calls: seq<Call>, call: Call, cloud: Cloud)
    ensures AllSucceeded(fails, n, calls, cloud) && Succeeds(fails, n + |calls|, call, cloud)
        ==> AllSucceeded(fails, n, calls + [call], cloud)
  {
    hide Succeeds;
  }

  lemma SuccessTrace(req: Request, act: Action, cloud: Cloud, fails: nat -> bool, n: nat, out: Outcome)
    requires ParseAction(req.action) == Ok(act)
    requires AllSucceeded(fails, n, Calls(Jobs(req), EffectivePercent(act)), cloud)
    requires out == Completed(EffectivePercent(act), NextAction(act), if NextAction(act).Some? then Some("rollback")
        else None)
    ensures Trace(req, cloud, fails, n, Calls(Jobs(req), EffectivePercent(act)), out)
  {
    hide ParseAction, Jobs, NextAction, AllSucceeded;
  }

  lemma FailureTrace(req: Request, act: Action, cloud: Cloud, fails: nat -> bool, n: nat, k: nat)
    requires ParseAction(req.action) == Ok(act) && k < |Jobs(req)|
    requires var jobs, p := Jobs(req), EffectivePercent(act);
             && AllSucceeded(fails, n, Calls(jobs[..k], p), cloud)
             && !Succeeds(fails, n + k, Call(jobs[k].path, jobs[k].target, p), cloud)
    ensures var jobs, p := Jobs(req), EffectivePercent(act);
            Trace(req, cloud, fails, n, Calls(jobs[..k + 1], p) + Calls(jobs[..k], 0),
                  Failed(k, Report(jobs[..k], FailedNames(fails, n + k + 1, jobs[..k], cloud)), req.action))
  {
    hide ParseAction, Jobs, AllSucceeded, Report, FailedNames, Succeeds;
    assert Calls(Jobs(req)[..k + 1], EffectivePercent(act))[k] ==
        Call(Jobs(req)[k].path, Jobs(req)[k].target, EffectivePercent(act));
  }

  // ---------------------------------------------------------------- what the calls do to one resource

  predicate AllPresent(jobs: seq<Job>, cloud: Cloud) {
    forall i | 0 <= i < |jobs| :: jobs[i].path in cloud
  }

  predicate Named(jobs: seq<Job>, q: Path) {
    exists i | 0 <= i < |jobs| :: jobs[i].path == q
  }

  predicate CallFails(fails: nat -> bool, n: nat, i: nat) {
    fails(n + i)
  }

  predicate NoneFails(fails: nat -> bool, n: nat, k: nat) {
    forall i: nat | i < k :: !CallFails(fails, n, i)
  }

  /** The resource at q after shifting every job to a percent, the first call being number n. */
  function Through(r: Resource, q: Path, fails: nat -> bool, n: nat, jobs: seq<Job>, percent: int): Resource
    decreases |jobs|
  {
    if jobs == [] then r
    else
      var k := |jobs| - 1;
      var before := Through(r, q, fails, n, jobs[..k], percent);
      if jobs[k].path == q && !CallFails(fails, n, k) then Allocate(before, jobs[k].target, percent) else before
  }

  /** Calls to one resource are not disturbed by those to others. */
  lemma {:induction false} CallsAt(cloud: Cloud, fails: nat -> bool, n: nat, base: seq<Call>, jobs: seq<Job>,
                                   percent: int, q: Path)
    requires q in cloud
    ensures q in Replay(cloud, fails, n, base) && q in Replay(cloud, fails, n, base + Calls(jobs, percent))
    ensures Replay(cloud, fails, n, base + Calls(jobs, percent))[q]
         == Through(Replay(cloud, fails, n, base)[q], q, fails, n + |base|, jobs, percent)
    decreases |jobs|
  {
    hide Allocate, Replay, Calls;
    var start := Replay(cloud, fails, n, base);
    assert q in start.Keys && q in Replay(cloud, fails, n, base + Calls(jobs, percent)).Keys;
    if jobs == [] {
      NoCalls(jobs);
      NoJobCalls(jobs, percent);
      assert base + [] == base;
    } else {
      var k := |jobs| - 1;
      var call := Call(jobs[k].path, jobs[k].target, percent);
      var so := base + Calls(jobs[..k], percent);
      CallsAt(cloud, fails, n, base, jobs[..k], percent, q);
      CallsSnoc(jobs, k, percent);
      assert jobs[..k + 1] == jobs;
      assert base + (Calls(jobs[..k], percent) + [call]) == so + [call];
      ReplaySnoc(cloud, fails, n, so, call);
      assert |so| == |base| + k;
      assert q in Replay(cloud, fails, n, so).Keys;
    }
  }

  lemma NoJobCalls(jobs: seq<Job>, percent: int)
    requires jobs == []
    ensures Calls(jobs, percent) == []
  {
  }

  lemma {:induction false} ThroughUnnamed(r: Resource, q: Path, fails: nat -> bool, n: nat, jobs: seq<Job>,
                                          percent: int)
    requires !Named(jobs, q)
    ensures Through(r, q, fails, n, jobs, percent) == r
    decreases |jobs|
  {
    if jobs != [] {
      var k := |jobs| - 1;
      assert jobs[k].path != q;
      assert forall i | 0 <= i < k :: jobs[..k][i] == jobs[i];
      ThroughUnnamed(r, q, fails, n, jobs[..k], percent);
    }
  }

  /** The last successful shift of a resource decides what its target shows. */
  lemma {:induction false} ThroughLast(r: Resource, fails: nat -> bool, n: nat, jobs: seq<Job>, percent: int, l: nat)
    requires l < |jobs| && !CallFails(fails, n, l) && forall j | l < j < |jobs| :: jobs[j].path != jobs[l].path
    ensures Matching(Through(r, jobs[l].path, fails, n, jobs, percent).traffic, jobs[l].target, percent)
    decreases |jobs|
  {
    hide Allocate, Matching;
    var k := |jobs| - 1;
    if l == k {
      AllocateIdempotent(Through(r, jobs[l].path, fails, n, jobs[..k], percent), jobs[l].target, percent);
    } else {
      assert jobs[..k][l] == jobs[l];
      ThroughLast(r, fails, n, jobs[..k], percent, l);
    }
  }

  /** No other job has the path of job i. */
  predicate Sole(jobs: seq<Job>, i: nat)
    requires i < |jobs|
  {
    forall j | 0 <= j < |jobs| && j != i :: jobs[j].path != jobs[i].path
  }

  lemma {:induction false} ThroughSole(r: Resource, fails: nat -> bool, n: nat, jobs: seq<Job>, percent: int, i: nat)
    requires i < |jobs| && Sole(jobs, i)
    ensures Through(r, jobs[i].path, fails, n, jobs, percent)
         == if CallFails(fails, n, i) then r else Allocate(r, jobs[i].target, percent)
    decreases |jobs|
  {
    hide Allocate;
    var k := |jobs| - 1;
    assert forall j | 0 <= j < k :: jobs[..k][j] == jobs[j];
    if i == k {
      ThroughUnnamed(r, jobs[i].path, fails, n, jobs[..k], percent);
    } else {
      ThroughSole(r, fails, n, jobs[..k], percent, i);
    }
  }

  /** The targets listed for a resource, in order. */
  function TargetsOf(q: Path, jobs: seq<Job>): seq<string> {
    if jobs == [] then []
    else
      var k := |jobs| - 1;
      TargetsOf(q, jobs[..k]) + if jobs[k].path == q then [jobs[k].target] else []
  }

  lemma {:induction false} TargetsListed(q: Path, jobs: seq<Job>)
    ensures TargetsOf(q, jobs) != [] <==> Named(jobs, q)
    ensures forall i | 0 <= i < |jobs| && jobs[i].path == q :: jobs[i].target in TargetsOf(q, jobs)
  {
    if jobs != [] {
      var k := |jobs| - 1;
      TargetsListed(q, jobs[..k]);
      assert forall i | 0 <= i < k :: jobs[..k][i] == jobs[i];
    }
  }

  /** Calls for a resource that all succeed shift it over its targets. */
  lemma {:induction false} ThroughTargets(r: Resource, q: Path, fails: nat -> bool, n: nat, jobs: seq<Job>,
                                          percent: int)
    requires forall i | 0 <= i < |jobs| && jobs[i].path == q :: !CallFails(fails, n, i)
    ensures Through(r, q, fails, n, jobs, percent) == ShiftOver(r, TargetsOf(q, jobs), percent)
    decreases |jobs|
  {
    hide Allocate, CallFails;
    if jobs != [] {
      var k := |jobs| - 1;
      assert forall i | 0 <= i < k :: jobs[..k][i] == jobs[i];
      ThroughTargets(r, q, fails, n, jobs[..k], percent);
      if jobs[k].path == q {
        var ts := TargetsOf(q, jobs[..k]);
        assert (ts + [jobs[k].target])[..|ts|] == ts;
      } else {
        assert TargetsOf(q, jobs) == TargetsOf(q, jobs[..k]);
      }
    }
  }

  // ---------------------------------------------------------------- all or nothing

  /**
   A completed rollout leaves each named resource at the percent for the target listed last for
   it, exactly as one shift would if it is named once, and every other one untouched.
   */
  lemma CompletedRollout(req: Request, cloud: Cloud, fails: nat -> bool, n: nat, calls: seq<Call>, out: Outcome)
    requires Trace(req, cloud, fails, n, calls, out) && out.Completed?
    ensures AllPresent(Jobs(req), cloud)
    ensures var jobs, end := Jobs(req), Replay(cloud, fails, n, calls);
            && (forall i | 0 <= i < |jobs| && (forall j | i < j < |jobs| :: jobs[j].path != jobs[i].path) ::
                  Matching(end[jobs[i].path].traffic, jobs[i].target, out.percent))
            && (forall i | 0 <= i < |jobs| && Sole(jobs, i) ::
                  end[jobs[i].path] == Allocate(cloud[jobs[i].path], jobs[i].target, out.percent))
            && (forall q | q in cloud && !Named(jobs, q) :: end[q] == cloud[q])
  {
    var jobs := Jobs(req);
    hide Jobs, Allocate, Replay, Matching, ParseAction, EffectivePercent, NextAction, Named, AllSucceeded;
    assert jobs[..|jobs|] == jobs;
    AllForward(cloud, fails, n, jobs, out.percent, |jobs|);
    ShiftedAll(cloud, fails, n, jobs, out.percent);
  }

  lemma ShiftedAll(cloud: Cloud, fails: nat -> bool, n: nat, jobs: seq<Job>, percent: int)
    requires AllPresent(jobs, cloud) && NoneFails(fails, n, |jobs|)
    ensures var end := Replay(cloud, fails, n, Calls(jobs, percent));
            && (forall i | 0 <= i < |jobs| && (forall j | i < j < |jobs| :: jobs[j].path != jobs[i].path) ::
                  Matching(end[jobs[i].path].traffic, jobs[i].target, percent))
            && (forall i | 0 <= i < |jobs| && Sole(jobs, i) ::
                  end[jobs[i].path] == Allocate(cloud[jobs[i].path], jobs[i].target, percent))
            && (forall q | q in cloud && !Named(jobs, q) :: end[q] == cloud[q])
  {
    hide Allocate, Replay, Matching, Through, Named, CallFails, Calls;
    ReplayNone(cloud, fails, n);
    assert [] + Calls(jobs, percent) == Calls(jobs, percent);
    forall q | q in cloud
      ensures Replay(cloud, fails, n, Calls(jobs, percent))[q] == Through(cloud[q], q, fails, n, jobs, percent)
    {
      CallsAt(cloud, fails, n, [], jobs, percent, q);
    }
    forall i | 0 <= i < |jobs| && (forall j | i < j < |jobs| :: jobs[j].path != jobs[i].path)
      ensures Matching(Through(cloud[jobs[i].path], jobs[i].path, fails, n, jobs, percent).traffic, jobs[i].target,
          percent)
    {
      ThroughLast(cloud[jobs[i].path], fails, n, jobs, percent, i);
    }
    forall i | 0 <= i < |jobs| && Sole(jobs, i)
      ensures Through(cloud[jobs[i].path], jobs[i].path, fails, n, jobs, percent) ==
          Allocate(cloud[jobs[i].path], jobs[i].target, percent)
    {
      ThroughSole(cloud[jobs[i].path], fails, n, jobs, percent, i);
    }
    forall q | q in cloud && !Named(jobs, q) ensures Through(cloud[q], q, fails, n, jobs, percent) == cloud[q] {
      ThroughUnnamed(cloud[q], q, fails, n, jobs, percent);
    }
  }

  /** Forward calls that all succeeded went to resources that are there. */
  lemma AllForward(cloud: Cloud, fails: nat -> bool, n: nat, jobs: seq<Job>, percent: int, k: nat)
    requires k <= |jobs| && AllSucceeded(fails, n, Calls(jobs[..k], percent), cloud)
    ensures AllPresent(jobs[..k], cloud) && NoneFails(fails, n, k)
  {
    var calls := Calls(jobs[..k], percent);
    forall i: nat | i < k ensures jobs[..k][i].path in cloud && !CallFails(fails, n, i) {
      assert Succeeds(fails, n + i, calls[i], cloud);
    }
  }

  lemma ReplayNone(cloud: Cloud, fails: nat -> bool, n: nat)
    ensures Replay(cloud, fails, n, []) == cloud
  {
  }

  /** The resource at q after k forward shifts, and the k compensations numbered from m. */
  function Backed(r: Resource, q: Path, fails: nat -> bool, n: nat, m: nat, jobs: seq<Job>, percent: int): Resource {
    Through(Through(r, q, fails, n, jobs, percent), q, fails, m, jobs, 0)
  }

  /**
   What a failed rollout leaves, however often a resource is named and whichever compensations
   fail: each resource has gone through the forward shifts before the failing one, in order, and
   then through their compensations.
   */
  lemma FailedRollout(req: Request, cloud: Cloud, fails: nat -> bool, n: nat, calls: seq<Call>, out: Outcome)
    requires Trace(req, cloud, fails, n, calls, out) && out.Failed?
    ensures ParseAction(req.action).Ok? && out.at < |Jobs(req)|
    ensures var p, k := EffectivePercent(ParseAction(req.action).value), out.at;
            var done := Jobs(req)[..k];
            && AllPresent(done, cloud) && NoneFails(fails, n, k)
            && Replay(cloud, fails, n, calls).Keys == cloud.Keys
            && (forall q | q in cloud ::
                  Replay(cloud, fails, n, calls)[q] == Backed(cloud[q], q, fails, n, n + k + 1, done, p))
            && out.compensation == Report(done, FailedNames(fails, n + k + 1, done, cloud))
  {
    hide Jobs, Replay, ParseAction, EffectivePercent, FailedNames, Report, Through, Allocate;
    var jobs, p, k := Jobs(req), EffectivePercent(ParseAction(req.action).value), out.at;
    AllForward(cloud, fails, n, jobs, p, k);
    CallsSnoc(jobs, k, p);
    assert calls[k] == Call(jobs[k].path, jobs[k].target, p);
    forall q | q in cloud
      ensures Replay(cloud, fails, n, calls)[q] == Backed(cloud[q], q, fails, n, n + k + 1, jobs[..k], p)
    {
      BackedAt(cloud, fails, n, jobs, p, k, q);
    }
  }

  lemma BackedAt(cloud: Cloud, fails: nat -> bool, n: nat, jobs: seq<Job>, percent: int, k: nat, q: Path)
    requires k < |jobs| && q in cloud
    requires !Succeeds(fails, n + k, Call(jobs[k].path, jobs[k].target, percent), cloud)
    ensures var calls := Calls(jobs[..k + 1], percent) + Calls(jobs[..k], 0);
            q in Replay(cloud, fails, n, calls)
            && Replay(cloud, fails, n, calls)[q] == Backed(cloud[q], q, fails, n, n + k + 1, jobs[..k], percent)
  {
    hide Replay, Allocate;
    var forward := Calls(jobs[..k + 1], percent);
    CallsSnoc(jobs, k, percent);
    ReplayNone(cloud, fails, n);
    assert [] + forward == forward;
    CallsAt(cloud, fails, n, [], jobs[..k + 1], percent, q);
    CallsAt(cloud, fails, n, forward, jobs[..k], 0, q);
    assert jobs[..k + 1][..k] == jobs[..k];
    hide Calls;
    assert jobs[k].path == q ==> CallFails(fails, n, k);
  }

  /** Every revision of every resource carries the weight it started with. */
  ghost predicate Restored(cloud: Cloud, end: Cloud)
    requires cloud.Keys <= end.Keys
  {
    forall q | q in cloud :: SameWeights(end[q].traffic, cloud[q].traffic)
  }

  lemma SameWeightsReflexive(traffic: seq<Entry>)
    ensures SameWeights(traffic, traffic)
  {
  }

  lemma EffectiveRange(a: Action)
    requires 0 <= a.percent <= 100
    ensures 0 <= EffectivePercent(a) <= 100
  {
  }

  predicate AllBalanced(jobs: seq<Job>, cloud: Cloud) {
    forall i | 0 <= i < |jobs| :: jobs[i].path in cloud ==> Balanced(cloud[jobs[i].path].traffic)
  }

  /** Forward and back without a failure is the round trip over the resource's targets. */
  lemma BackedTrip(r: Resource, q: Path, fails: nat -> bool, n: nat, m: nat, jobs: seq<Job>, percent: int)
    requires NoneFails(fails, n, |jobs|)
    requires forall i | 0 <= i < |jobs| && jobs[i].path == q :: !CallFails(fails, m, i)
    ensures Backed(r, q, fails, n, m, jobs, percent) == RoundTrip(r, TargetsOf(q, jobs), percent)
  {
    hide ShiftOver, Through, CallFails;
    ThroughTargets(r, q, fails, n, jobs, percent);
    ThroughTargets(ShiftOver(r, TargetsOf(q, jobs), percent), q, fails, m, jobs, 0);
  }

  /** The condition under which each resource already shifted comes back. */
  ghost predicate AllComeBack(jobs: seq<Job>, cloud: Cloud, percent: int)
    requires AllPresent(jobs, cloud)
  {
    forall i | 0 <= i < |jobs| :: ComesBack(cloud[jobs[i].path], TargetsOf(jobs[i].path, jobs), percent)
  }

  lemma BackedRestores(cloud: Cloud, end: Cloud, fails: nat -> bool, n: nat, m: nat, jobs: seq<Job>, percent: int)
    requires AllPresent(jobs, cloud) && AllBalanced(jobs, cloud) && 0 <= percent <= 100
    requires NoneFails(fails, n, |jobs|) && NoneFails(fails, m, |jobs|)
    requires end.Keys == cloud.Keys
    requires forall q | q in cloud :: q in end && end[q] == Backed(cloud[q], q, fails, n, m, jobs, percent)
    ensures Restored(cloud, end) <==> AllComeBack(jobs, cloud, percent)
  {
    hide ComesBack, SameWeights, Backed, RoundTrip, CallFails, Balanced, TargetsOf;
    forall i | 0 <= i < |jobs|
      ensures SameWeights(end[jobs[i].path].traffic, cloud[jobs[i].path].traffic)
         <==> ComesBack(cloud[jobs[i].path], TargetsOf(jobs[i].path, jobs), percent)
    {
      var q := jobs[i].path;
      TargetsListed(q, jobs);
      BackedTrip(cloud[q], q, fails, n, m, jobs, percent);
      RoundTripExactly(cloud[q], TargetsOf(q, jobs), percent);
    }
    forall q | q in cloud && !Named(jobs, q) ensures SameWeights(end[q].traffic, cloud[q].traffic) {
      BackedUnnamed(cloud[q], q, fails, n, m, jobs, percent);
      SameWeightsReflexive(cloud[q].traffic);
    }
  }

  lemma BackedUnnamed(r: Resource, q: Path, fails: nat -> bool, n: nat, m: nat, jobs: seq<Job>, percent: int)
    requires !Named(jobs, q)
    ensures Backed(r, q, fails, n, m, jobs, percent) == r
  {
    hide Through, Named;
    ThroughUnnamed(r, q, fails, n, jobs, percent);
    ThroughUnnamed(r, q, fails, m, jobs, 0);
  }

  /** No failed compensation, no failure among them. */
  lemma AllCompensated(jobs: seq<Job>, fails: nat -> bool, n: nat, cloud: Cloud)
    requires AllPresent(jobs, cloud) && !Report(jobs, FailedNames(fails, n, jobs, cloud)).PartlyRolledBack?
    ensures NoneFails(fails, n, |jobs|)
  {
    hide FailedNames, CallFails;
    FailedNamesAre(fails, n, jobs, cloud);
  }

  /**
   A rollout that fails at resource k and whose compensations all succeed has restored every
   revision's weight everywhere exactly when each of the first k resources comes back, whatever
   targets are listed for it.
   */
  lemma AllOrNothing(req: Request, cloud: Cloud, fails: nat -> bool, n: nat, calls: seq<Call>, out: Outcome)
    requires Trace(req, cloud, fails, n, calls, out) && out.Failed? && !out.compensation.PartlyRolledBack?
    requires out.at <= |Jobs(req)| && AllBalanced(Jobs(req)[..out.at], cloud)
    ensures ParseAction(req.action).Ok? && AllPresent(Jobs(req)[..out.at], cloud)
    ensures Restored(cloud, Replay(cloud, fails, n, calls))
       <==> AllComeBack(Jobs(req)[..out.at], cloud, EffectivePercent(ParseAction(req.action).value))
  {
    hide Trace, Jobs, Replay, EffectivePercent, Backed, AllComeBack, Restored, AllBalanced, NoneFails, FailedNames,
         Report, ParseAction, AllPresent;
    FailedRollout(req, cloud, fails, n, calls, out);
    PercentRange(req);
    var p, k := EffectivePercent(ParseAction(req.action).value), out.at;
    var done := Jobs(req)[..k];
    AllCompensated(done, fails, n + k + 1, cloud);
    BackedRestores(cloud, Replay(cloud, fails, n, calls), fails, n, n + k + 1, done, p);
  }

  /** Resource i has all its traffic on a named revision that is none of its targets. */
  ghost predicate Stable(jobs: seq<Job>, cloud: Cloud, i: nat, s: string)
    requires i < |jobs| && jobs[i].path in cloud
  {
    Holds(cloud[jobs[i].path].traffic, s) && s !in TargetsOf(jobs[i].path, jobs)
  }

  /**
   The usual start of a rollout, each resource with all its traffic on a revision other than its
   targets: everything is restored exactly when, for each, that revision is the latest one, or the
   percent is below 50, or it is below 100 and there is only one target.
   */
  lemma StableStartRestores(req: Request, cloud: Cloud, fails: nat -> bool, n: nat, calls: seq<Call>, out: Outcome,
                            stable: seq<string>)
    requires Trace(req, cloud, fails, n, calls, out) && out.Failed? && !out.compensation.PartlyRolledBack?
    requires ParseAction(req.action).Ok? && 0 < EffectivePercent(ParseAction(req.action).value)
    requires |stable| == out.at <= |Jobs(req)|
    requires forall i | 0 <= i < out.at ::
               Jobs(req)[i].path in cloud ==> Stable(Jobs(req)[..out.at], cloud, i, stable[i])
    ensures AllPresent(Jobs(req)[..out.at], cloud)
    ensures var done, p := Jobs(req)[..out.at], EffectivePercent(ParseAction(req.action).value);
            Restored(cloud, Replay(cloud, fails, n, calls)) <==>
            forall i | 0 <= i < |done| ::
              cloud[done[i].path].latest == stable[i] || Keeps(TargetsOf(done[i].path, done), p)
  {
    hide Trace, Jobs, ParseAction, EffectivePercent, Replay, Holds, ComesBack, Restored, Keeps, TargetsOf;
    var done, p := Jobs(req)[..out.at], EffectivePercent(ParseAction(req.action).value);
    forall i | 0 <= i < |done| && done[i].path in cloud ensures Balanced(cloud[done[i].path].traffic) {
      assert done[i] == Jobs(req)[i];
      HoldsBalanced(cloud[done[i].path].traffic, stable[i]);
    }
    AllOrNothing(req, cloud, fails, n, calls, out);
    PercentRange(req);
    forall i | 0 <= i < |done|
      ensures ComesBack(cloud[done[i].path], TargetsOf(done[i].path, done), p)
         <==> cloud[done[i].path].latest == stable[i] || Keeps(TargetsOf(done[i].path, done), p)
    {
      assert done[i] == Jobs(req)[i];
      TargetsListed(done[i].path, done);
      StableComesBack(cloud[done[i].path], stable[i], TargetsOf(done[i].path, done), p);
    }
  }

  lemma PercentRange(req: Request)
    requires ParseAction(req.action).Ok?
    ensures 0 <= EffectivePercent(ParseAction(req.action).value) <= 100
  {
    hide EffectivePercent;
    EffectiveRange(ParseAction(req.action).value);
  }

  /** One service named twice with two targets: half the traffic each, and the stable revision is forgotten. */
  const TWICE := Path(Service, "p", "l", "svc")
  const TWICE_JOBS := [Job(TWICE, "a"), Job(TWICE, "b")]
  const TWICE_START := Resource([Entry("stable", 100)], "b")
  const TWICE_MID := Resource([Entry("b", 50), Entry("a", 50)], "b")

  /**
   With two targets for one resource, successful compensation does not restore a stable start,
   although shifting to either target alone could be undone.
   */
  lemma TwoTargetsLost()
    ensures Balanced(TWICE_START.traffic)
    ensures forall j | j in TWICE_JOBS ::
              AllOn(TWICE_START.traffic, "stable", j.target) && Reversible(TWICE_START, j.target, 50)
    ensures var end := Backed(TWICE_START, TWICE, _ => false, 0, 3, TWICE_JOBS, 50);
            end.traffic == [Entry("b", 0)] && !SameWeights(end.traffic, TWICE_START.traffic)
  {
    OneEntry(Entry("stable", 100));
    OneEntry(Entry("b", 0));
    TwiceForward();
    TwiceBack();
    hide Allocate, Through;
    TwoShifts(TWICE_START, _ => false, 0, 50);
    TwoShifts(TWICE_MID, _ => false, 3, 0);
    assert Weight([Entry("b", 0)], "stable") != Weight(TWICE_START.traffic, "stable");
  }

  lemma TwiceForward()
    ensures Allocate(Allocate(TWICE_START, "a", 50), "b", 50) == TWICE_MID
  {
    hide Busiest, Matching;
    FirstShift(TWICE_START, "stable", "a", 50);
    MatchingShort("a", 50, "stable", 50, "b", 50);
    BusiestOfTwo("a", 50, "stable", 50, "b");
    assert Allocate(TWICE_START, "a", 50).traffic == [Entry("a", 50), Entry("stable", 50)];
  }

  lemma TwiceBack()
    ensures Allocate(Allocate(TWICE_MID, "a", 0), "b", 0) == Resource([Entry("b", 0)], "b")
  {
    hide Busiest, Matching;
    MatchingShort("b", 50, "a", 50, "a", 0);
    BusiestOfTwo("b", 50, "a", 50, "a");
    assert Allocate(TWICE_MID, "a", 0).traffic == [Entry("a", 0), Entry("b", 100)];
    MatchingShort("a", 0, "b", 100, "b", 0);
    BusiestOfTwo("a", 0, "b", 100, "b");
  }

  lemma TwoShifts(r: Resource, fails: nat -> bool, n: nat, percent: int)
    requires NoneFails(fails, n, 2)
    ensures Through(r, TWICE, fails, n, TWICE_JOBS, percent) == Allocate(Allocate(r, "a", percent), "b", percent)
  {
    hide Allocate;
    assert !CallFails(fails, n, 0) && !CallFails(fails, n, 1);
    var one := TWICE_JOBS[..1];
    assert one == [Job(TWICE, "a")] && one[..0] == [];
    assert Through(r, TWICE, fails, n, one[..0], percent) == r;
    assert Through(r, TWICE, fails, n, one, percent) == Allocate(r, "a", percent);
  }

  /** The reported names are exactly those of the compensations that failed. */
  lemma {:induction false} FailedNamesAre(fails: nat -> bool, n: nat, jobs: seq<Job>, cloud: Cloud)
    requires AllPresent(jobs, cloud)
    ensures forall name :: name in FailedNames(fails, n, jobs, cloud) <==>
              exists i: nat | i < |jobs| :: jobs[i].path.name == name && CallFails(fails, n, i)
    ensures FailedNames(fails, n, jobs, cloud) == [] <==> NoneFails(fails, n, |jobs|)
    decreases |jobs|
  {
    if jobs != [] {
      var k := |jobs| - 1;
      var init, last := jobs[..k], jobs[k];
      AllPresentPrefix(jobs, k, cloud);
      FailedNamesAre(fails, n, init, cloud);
      assert forall i: nat | i < k :: init[i] == jobs[i];
      assert CallFails(fails, n, k) == !Succeeds(fails, n + k, Calls(jobs, 0)[k], cloud);
      hide CallFails, Succeeds;
      var names := FailedNames(fails, n, jobs, cloud);
      assert names == FailedNames(fails, n, init, cloud) + if CallFails(fails, n, k) then [last.path.name] else [];
      forall name
        ensures name in names <==> exists i: nat | i < |jobs| :: jobs[i].path.name == name && CallFails(fails, n, i)
      {
        if name in FailedNames(fails, n, init, cloud) {
          var i: nat :| i < |init| && init[i].path.name == name && CallFails(fails, n, i);
          assert jobs[i].path.name == name;
        }
        if i: nat :| i < |jobs| && jobs[i].path.name == name && CallFails(fails, n, i) {
          if i < k { assert init[i].path.name == name; }
        }
      }
      if names == [] {
        forall i: nat | i < |jobs| ensures !CallFails(fails, n, i) {
          assert jobs[i].path.name !in names;
        }
      }
    }
  }

  lemma AllPresentPrefix(jobs: seq<Job>, k: nat, cloud: Cloud)
    requires k <= |jobs| && AllPresent(jobs, cloud)
    ensures AllPresent(jobs[..k], cloud)
  {
  }

  predicate Reported(q: Path, failed: seq<string>) {
    q.name in failed
  }

  /**
   The resources reported as failed and named once stay at the percent; those not reported have
   made the whole round trip, and the ones never shifted are untouched.
   */
  ghost predicate PartlyUndone(cloud: Cloud, end: Cloud, done: seq<Job>, percent: int, failed: seq<string>)
    requires AllPresent(done, cloud)
  {
    && end.Keys == cloud.Keys
    && (forall i | 0 <= i < |done| && Sole(done, i) && Reported(done[i].path, failed) ::
          done[i].path in end && end[done[i].path] == Allocate(cloud[done[i].path], done[i].target, percent))
    && (forall q | q in cloud && Named(done, q) && !Reported(q, failed) ::
          end[q] == RoundTrip(cloud[q], TargetsOf(q, done), percent))
    && (forall q | q in cloud && !Named(done, q) :: end[q] == cloud[q])
    && (forall name | name in failed :: exists i | 0 <= i < |done| :: done[i].path.name == name)
  }

  lemma BackedPartly(cloud: Cloud, end: Cloud, fails: nat -> bool, n: nat, m: nat, done: seq<Job>, percent: int,
                     failed: seq<string>)
    requires AllPresent(done, cloud) && NoneFails(fails, n, |done|)
    requires end.Keys == cloud.Keys
    requires forall q | q in cloud :: q in end && end[q] == Backed(cloud[q], q, fails, n, m, done, percent)
    requires forall i: nat | i < |done| && CallFails(fails, m, i) :: Reported(done[i].path, failed)
    requires forall i: nat | i < |done| && Sole(done, i) && Reported(done[i].path, failed) :: CallFails(fails, m, i)
    requires forall name | name in failed :: exists i | 0 <= i < |done| :: done[i].path.name == name
    ensures PartlyUndone(cloud, end, done, percent, failed)
  {
    hide Allocate, Through, CallFails, Named, RoundTrip, TargetsOf, Reported, Sole;
    forall i: nat | i < |done| && Sole(done, i) && Reported(done[i].path, failed)
      ensures end[done[i].path] == Allocate(cloud[done[i].path], done[i].target, percent)
    {
      ThroughSole(cloud[done[i].path], fails, n, done, percent, i);
      ThroughSole(Allocate(cloud[done[i].path], done[i].target, percent), fails, m, done, 0, i);
    }
    forall q | q in cloud && Named(done, q) && !Reported(q, failed)
      ensures end[q] == RoundTrip(cloud[q], TargetsOf(q, done), percent)
    {
      BackedTrip(cloud[q], q, fails, n, m, done, percent);
    }
    forall q | q in cloud && !Named(done, q) ensures end[q] == cloud[q] {
      BackedUnnamed(cloud[q], q, fails, n, m, done, percent);
    }
  }

  /**
   When some compensations fail, a resource named once is left at the percent exactly if it is
   reported, one that is not reported has gone back, and everything from the failing resource on
   is untouched.
   */
  lemma PartialCompensation(req: Request, cloud: Cloud, fails: nat -> bool, n: nat, calls: seq<Call>, out: Outcome)
    requires Trace(req, cloud, fails, n, calls, out) && out.Failed? && out.compensation.PartlyRolledBack?
    requires out.at <= |Jobs(req)|
    ensures ParseAction(req.action).Ok? && AllPresent(Jobs(req)[..out.at], cloud)
    ensures PartlyUndone(cloud, Replay(cloud, fails, n, calls), Jobs(req)[..out.at],
                         EffectivePercent(ParseAction(req.action).value), out.compensation.failed)
  {
    hide Trace, Replay, EffectivePercent, ParseAction, PartlyUndone, Jobs, FailedNames, Backed, CallFails, NoneFails;
    FailedRollout(req, cloud, fails, n, calls, out);
    var p, k := EffectivePercent(ParseAction(req.action).value), out.at;
    var done, failed := Jobs(req)[..k], FailedNames(fails, n + k + 1, Jobs(req)[..k], cloud);
    FailedNamesAre(fails, n + k + 1, done, cloud);
    assert out.compensation.failed == failed;
    forall i: nat | i < |done| && Sole(done, i) && Reported(done[i].path, failed)
      ensures CallFails(fails, n + k + 1, i)
    {
      var j: nat :| j < |done| && done[j].path.name == done[i].path.name && CallFails(fails, n + k + 1, j);
      SameName(req, i, j);
    }
    BackedPartly(cloud, Replay(cloud, fails, n, calls), fails, n, n + k + 1, done, p, failed);
  }

  /** The resources of one request differ only by name. */
  lemma SameName(req: Request, i: nat, j: nat)
    requires i < |Jobs(req)| && j < |Jobs(req)| && Jobs(req)[i].path.name == Jobs(req)[j].path.name
    ensures Jobs(req)[i].path == Jobs(req)[j].path
  {
    hide Jobs, CsvValues, CsvAt;
    JobCount(req);
    JobAt(req, i);
    JobAt(req, j);
  }
}
