/**
 A rollout in the operator's terms: which resource is shifted to which revision when the request's
 two lists are typed with any blanks, what is called back after a failure, and what is reported.
 */
module RolloutCalls {
  import opened Wrappers
  import opened Canary
  import opened Rollout
  import Text

  // ---------------------------------------------------------------- lists as typed

  /** One item of a typed list: a name, or nothing, between blanks. */
  datatype Item = Item(before: string, name: string, after: string)

  predicate Typed(items: seq<Item>) {
    forall x | x in items ::
      Text.Blank(x.before) && Text.Blank(x.after) && Text.Trimmed(x.name) && ',' !in x.name
  }

  function Typing(items: seq<Item>): seq<string> {
    seq(|items|, i requires 0 <= i < |items| => items[i].before + items[i].name + items[i].after)
  }

  /** The names of a typed list, in order; items without one do not count. */
  function NamesIn(items: seq<Item>): seq<string> {
    if items == [] then []
    else if items[0].name == "" then NamesIn(items[1..])
    else [items[0].name] + NamesIn(items[1..])
  }

  lemma {:induction false} NamesInSnoc(items: seq<Item>, x: Item)
    ensures NamesIn(items + [x]) == NamesIn(items) + if x.name == "" then [] else [x.name]
  {
    if items == [] {
      assert [] + [x] == [x] && [x][1..] == [];
    } else {
      assert (items + [x])[1..] == items[1..] + [x];
      NamesInSnoc(items[1..], x);
    }
  }

  lemma ItemTrims(x: Item)
    requires Typed([x])
    ensures Text.TrimSpace(x.before + x.name + x.after) == x.name && ',' !in x.before + x.name + x.after
  {
    hide Text.TrimSpace, Text.Trimmed;
    assert x in [x];
    if x.name == "" {
      assert x.before + x.name + x.after == x.before + x.after;
      Text.TrimAllBlank(x.before + x.after);
    } else {
      Text.TrimBlanks(x.before, x.name, x.after);
    }
  }

  lemma {:induction false} TypedReads(items: seq<Item>)
    requires Typed(items)
    ensures CleanParts(Typing(items)) == NamesIn(items)
    ensures forall p | p in Typing(items) :: ',' !in p
    decreases |items|
  {
    hide Text.TrimSpace, Text.Trimmed, Text.Blank;
    if items != [] {
      var k := |items| - 1;
      assert items == items[..k] + [items[k]];
      TypedReads(items[..k]);
      assert items[k] in items;
      ItemTrims(items[k]);
      NamesInSnoc(items[..k], items[k]);
      assert Typing(items)[..k] == Typing(items[..k]);
      assert Typing(items) == Typing(items[..k]) + [Typing(items)[k]];
    }
  }

  /** Splitting what was typed gives the names, whatever blanks and empty items lie between them. */
  lemma CsvReads(items: seq<Item>)
    requires Typed(items)
    ensures CsvValues(Text.Join(Typing(items), ',')) == NamesIn(items)
  {
    hide Text.TrimSpace;
    TypedReads(items);
    if items == [] {
      assert Text.Split("", ',') == [""] && [""][..0] == [];
      Text.TrimAllBlank("");
    } else {
      Text.SplitJoin(Typing(items), ',');
    }
  }

  // ---------------------------------------------------------------- the calls

  /** Call i is for the i-th name, at the i-th target or none, all at one percent. */
  predicate Shifts(calls: seq<Call>, req: Request, names: seq<string>, targets: seq<string>, percent: int) {
    && |calls| <= |names|
    && forall i | 0 <= i < |calls| ::
         calls[i] == Call(Path(req.kind, req.project, req.location, names[i]),
                          if i < |targets| then targets[i] else "", percent)
  }

  /** The numbers below `count` whose call fails, in order. */
  ghost predicate FailuresAre(which: seq<nat>, fails: nat -> bool, first: nat, count: nat) {
    && (forall j | 0 <= j < |which| :: which[j] < count && fails(first + which[j]))
    && (forall i, j | 0 <= i < j < |which| :: which[i] < which[j])
    && forall i: nat | i < count && fails(first + i) :: i in which
  }

  lemma JobsShift(req: Request, names: seq<string>, targets: seq<string>, k: nat, percent: int)
    requires names == CsvValues(req.resourceNames) && targets == CsvValues(req.targets) && k <= |names|
    ensures |Jobs(req)| == |names| && |Calls(Jobs(req)[..k], percent)| == k
    ensures Shifts(Calls(Jobs(req)[..k], percent), req, names, targets, percent)
  {
    hide CsvValues;
  }

  /** Call number n reaches Cloud Run and finds its resource there. */
  predicate Works(fails: nat -> bool, n: nat, call: Call, cloud: Cloud) {
    call.path in cloud && !fails(n)
  }

  /**
   The calls of a completed rollout, one successful one per name, or of one that failed at a name:
   those up to it, all before it successful, and then one at 0 for each before it, in order. Stopping
   is offered exactly together with going on, a retry is the same action.
   */
  predicate Made(req: Request, names: seq<string>, targets: seq<string>, percent: int, cloud: Cloud,
                 fails: nat -> bool, n: nat, calls: seq<Call>, out: Outcome)
  {
    match out
    case Rejected(_) => false
    case Completed(shown, next, stop) =>
      && |calls| == |names| && Shifts(calls, req, names, targets, percent) && shown == percent
      && stop == (if next.Some? then Some("rollback") else None)
      && forall i | 0 <= i < |calls| :: Works(fails, n + i, calls[i], cloud)
    case Failed(k, _, retry) =>
      && k < |names| && |calls| == 2 * k + 1
      && Shifts(calls[..k + 1], req, names, targets, percent) && Shifts(calls[k + 1..], req, names, targets, 0)
      && (forall i | 0 <= i < k :: Works(fails, n + i, calls[i], cloud))
      && !Works(fails, n + k, calls[k], cloud) && retry == req.action
  }

  /**
   Every call a rollout makes, for lists typed with any blanks: the i-th name is shifted to the
   i-th target, or to no target if there are fewer; after a failure those already shifted get the
   same target at 0. A rollback applies 0, a missing percent 10.
   */
  lemma CallsPairUp(req: Request, typedNames: seq<Item>, typedTargets: seq<Item>, cloud: Cloud, fails: nat -> bool,
                    n: nat, calls: seq<Call>, out: Outcome)
    requires Typed(typedNames) && Typed(typedTargets)
    requires req.resourceNames == Text.Join(Typing(typedNames), ',')
    requires req.targets == Text.Join(Typing(typedTargets), ',')
    requires Trace(req, cloud, fails, n, calls, out)
    ensures out.Rejected? ==> calls == []
    ensures !out.Rejected? ==>
      && ParseAction(req.action).Ok?
      && var act := ParseAction(req.action).value;
         var percent := if act.name == "rollback" then 0 else if act.percent == 0 then 10 else act.percent;
         Made(req, NamesIn(typedNames), NamesIn(typedTargets), percent, cloud, fails, n, calls, out)
  {
    CsvReads(typedNames);
    CsvReads(typedTargets);
    hide ParseAction, NextAction, Jobs, Calls, CsvValues, FailedNames, Report, Typed, Typing, Made, AllSucceeded;
    if !out.Rejected? {
      TracePairs(req, NamesIn(typedNames), NamesIn(typedTargets), cloud, fails, n, calls, out);
    }
  }

  lemma TracePairs(req: Request, names: seq<string>, targets: seq<string>, cloud: Cloud, fails: nat -> bool,
                   n: nat, calls: seq<Call>, out: Outcome)
    requires names == CsvValues(req.resourceNames) && targets == CsvValues(req.targets)
    requires Trace(req, cloud, fails, n, calls, out) && !out.Rejected?
    ensures ParseAction(req.action).Ok?
    ensures Made(req, names, targets, EffectivePercent(ParseAction(req.action).value), cloud, fails, n, calls, out)
  {
    hide ParseAction, NextAction, Jobs, Calls, CsvValues, FailedNames, Report, EffectivePercent, Shifts, AllSucceeded;
    var percent, jobs := EffectivePercent(ParseAction(req.action).value), Jobs(req);
    JobsShift(req, names, targets, |names|, percent);
    if out.Completed? {
      assert jobs[..|names|] == jobs;
      AllWentThrough(fails, n, calls, cloud);
    } else {
      var k := out.at;
      JobsShift(req, names, targets, k + 1, percent);
      JobsShift(req, names, targets, k, percent);
      JobsShift(req, names, targets, k, 0);
      CallsSnoc(jobs, k, percent);
      assert calls[..k + 1] == Calls(jobs[..k + 1], percent) && calls[k + 1..] == Calls(jobs[..k], 0);
      assert forall i | 0 <= i < k :: calls[i] == Calls(jobs[..k], percent)[i];
      AllWentThrough(fails, n, Calls(jobs[..k], percent), cloud);
    }
  }

  lemma AllWentThrough(fails: nat -> bool, n: nat, calls: seq<Call>, cloud: Cloud)
    requires AllSucceeded(fails, n, calls, cloud)
    ensures forall i | 0 <= i < |calls| :: Works(fails, n + i, calls[i], cloud)
  {
    forall i | 0 <= i < |calls| ensures Works(fails, n + i, calls[i], cloud) {
      assert Succeeds(fails, n + i, calls[i], cloud);
    }
  }

  // ---------------------------------------------------------------- the report

  /** The names of the jobs at these positions. */
  function NamesAt(jobs: seq<Job>, which: seq<nat>): seq<string>
    requires forall j | 0 <= j < |which| :: which[j] < |jobs|
  {
    seq(|which|, j requires 0 <= j < |which| => jobs[which[j]].path.name)
  }

  lemma {:induction false} FailedInOrder(fails: nat -> bool, first: nat, jobs: seq<Job>, cloud: Cloud)
    returns (which: seq<nat>)
    requires AllPresent(jobs, cloud)
    ensures FailuresAre(which, fails, first, |jobs|) && FailedNames(fails, first, jobs, cloud) == NamesAt(jobs, which)
    decreases |jobs|
  {
    if jobs == [] {
      which := [];
    } else {
      var k := |jobs| - 1;
      AllPresentPrefix(jobs, k, cloud);
      which := FailedInOrder(fails, first, jobs[..k], cloud);
      assert jobs[..k + 1] == jobs;
      FailedNamesSnoc(fails, first, jobs, k, cloud);
      assert Succeeds(fails, first + k, Call(jobs[k].path, jobs[k].target, 0), cloud) <==> !fails(first + k);
      hide FailedNames, Succeeds, AllPresent;
      if fails(first + k) {
        NamesAtSnoc(jobs, which, k);
        OneMoreFailure(which, fails, first, k);
        which := which + [k];
      } else {
        NamesAtPrefix(jobs, which, k);
        NoMoreFailure(which, fails, first, k);
      }
    }
  }

  lemma NamesAtPrefix(jobs: seq<Job>, which: seq<nat>, k: nat)
    requires k <= |jobs| && forall j | 0 <= j < |which| :: which[j] < k
    ensures NamesAt(jobs, which) == NamesAt(jobs[..k], which)
  {
  }

  lemma NamesAtSnoc(jobs: seq<Job>, which: seq<nat>, k: nat)
    requires k < |jobs| && forall j | 0 <= j < |which| :: which[j] < k
    ensures forall j | 0 <= j < |which + [k]| :: (which + [k])[j] < |jobs|
    ensures NamesAt(jobs, which + [k]) == NamesAt(jobs[..k], which) + [jobs[k].path.name]
  {
  }

  lemma OneMoreFailure(which: seq<nat>, fails: nat -> bool, first: nat, k: nat)
    requires FailuresAre(which, fails, first, k) && fails(first + k)
    ensures FailuresAre(which + [k], fails, first, k + 1)
  {
    forall i: nat | i < k + 1 && fails(first + i) ensures i in which + [k] {
      if i == k {
        assert (which + [k])[|which|] == k;
      }
    }
  }

  lemma NoMoreFailure(which: seq<nat>, fails: nat -> bool, first: nat, k: nat)
    requires FailuresAre(which, fails, first, k) && !fails(first + k)
    ensures FailuresAre(which, fails, first, k + 1)
  {
  }

  /**
   What a failed rollout reports: nothing to roll back if the first call failed; otherwise either
   that everything was rolled back, when no compensation failed, or the names of exactly those
   whose compensation failed, in the order of the calls.
   */
  lemma ReportMeans(req: Request, cloud: Cloud, fails: nat -> bool, n: nat, calls: seq<Call>, out: Outcome)
    returns (which: seq<nat>)
    requires Trace(req, cloud, fails, n, calls, out) && out.Failed?
    ensures FailuresAre(which, fails, n + out.at + 1, out.at) && out.at + 1 + |which| <= |calls|
    ensures forall j | 0 <= j < |which| :: out.at + 1 + which[j] < |calls|
    ensures match out.compensation
            case NothingToRollBack => out.at == 0
            case RolledBack => out.at > 0 && which == []
            case PartlyRolledBack(failed) =>
              && out.at > 0 && which != [] && |failed| == |which|
              && forall j | 0 <= j < |which| :: failed[j] == calls[out.at + 1 + which[j]].path.name
  {
    hide ParseAction, EffectivePercent, Jobs, Calls, FailedNames, Replay, Backed, AllPresent;
    FailedRollout(req, cloud, fails, n, calls, out);
    var jobs, k, percent := Jobs(req), out.at, EffectivePercent(ParseAction(req.action).value);
    which := FailedInOrder(fails, n + k + 1, jobs[..k], cloud);
    CallsSnoc(jobs, k, percent);
    CallsSnoc(jobs, k, 0);
    forall j: nat | j < k ensures calls[k + 1 + j].path == jobs[j].path {
      CallsPath(jobs[..k], j, 0);
    }
    FewEnough(which, fails, n + k + 1, k);
  }

  lemma CallsPath(jobs: seq<Job>, j: nat, percent: int)
    requires j < |jobs|
    ensures |Calls(jobs, percent)| == |jobs| && Calls(jobs, percent)[j].path == jobs[j].path
  {
  }

  lemma {:induction false} FewEnough(which: seq<nat>, fails: nat -> bool, first: nat, count: nat)
    requires forall j | 0 <= j < |which| :: which[j] < count
    requires forall i, j | 0 <= i < j < |which| :: which[i] < which[j]
    ensures |which| <= count
    decreases |which|
  {
    if which != [] {
      var k := |which| - 1;
      FewEnough(which[..k], fails, first, which[k]);
    }
  }
}
