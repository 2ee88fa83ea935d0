/**
 What a list of shifts of one resource and their compensations leave: exactly when going forward
 over any list of targets, and then back to 0 over the same list, restores every revision's weight.
 */
module TrafficTrips {
  import opened Traffic

  /** The resource after shifting each target in turn to a percent. */
  function ShiftOver(r: Resource, ts: seq<string>, percent: int): (r': Resource)
    ensures r'.latest == r.latest
  {
    if ts == [] then r
    else
      var n := |ts| - 1;
      Allocate(ShiftOver(r, ts[..n], percent), ts[n], percent)
  }

  /** Forward over the targets, then each of them back to 0 in the same order. */
  function RoundTrip(r: Resource, ts: seq<string>, percent: int): Resource {
    ShiftOver(ShiftOver(r, ts, percent), ts, 0)
  }

  lemma {:induction false} ShiftOverAppend(r: Resource, a: seq<string>, b: seq<string>, percent: int)
    ensures ShiftOver(r, a + b, percent) == ShiftOver(ShiftOver(r, a, percent), b, percent)
    decreases |b|
  {
    hide Allocate;
    if b == [] {
      assert a + b == a;
    } else {
      var n := |b| - 1;
      assert (a + b)[..|a + b| - 1] == a + b[..n];
      ShiftOverAppend(r, a, b[..n], percent);
    }
  }

  // ---------------------------------------------------------------- one shift

  lemma AllocateCases(r: Resource, t: string, percent: int)
    ensures var r' := Allocate(r, t, percent);
            if Matching(r.traffic, t, percent) then r' == r
                else r' == Resource(Shares(t, percent, Active(r, t)), r.latest)
  {
  }

  /** The rest goes to the latest revision or to another named one that had traffic. */
  lemma ActiveCases(r: Resource, t: string)
    requires WellFormed(r.traffic)
    ensures Active(r, t) == r.latest || (Active(r, t) != "" && Active(r, t) != t && Weight(r.traffic, Active(r, t)) > 0)
  {
    BusiestIsArgmax(r.traffic, t);
    var (best, max) := Busiest(r.traffic, t);
    if best != "" {
      WeightBounds(r.traffic, best);
      assert Entry(best, max) in r.traffic;
    }
  }

  /** Traffic as a shift writes it. */
  ghost predicate Neat(traffic: seq<Entry>) {
    exists t, p, x :: Written(traffic, t, p, x)
  }

  predicate Written(traffic: seq<Entry>, t: string, p: int, x: string) {
    0 <= p <= 100 && traffic == Shares(t, p, x)
  }

  lemma NeatFacts(traffic: seq<Entry>)
    requires Neat(traffic)
    ensures WellFormed(traffic)
    ensures forall a :: Matching(traffic, a, 0) <==> Weight(traffic, a) == 0
  {
    var t, p, x :| Written(traffic, t, p, x);
    SharesMeasures(t, p, x);
    forall a ensures Matching(traffic, a, 0) <==> Weight(traffic, a) == 0 {
      ShareMatching(t, p, x, a);
    }
  }

  lemma ShareMatching(t: string, p: int, x: string, a: string)
    requires 0 <= p <= 100
    ensures Matching(Shares(t, p, x), a, 0) <==> Weight(Shares(t, p, x), a) == 0
  {
    SharesMeasures(t, p, x);
    MatchingShort(t, p, x, 100 - p, a, 0);
  }

  lemma MatchingShort(x: string, p: int, y: string, o: int, a: string, q: int)
    ensures Matching([Entry(x, p)], a, q) <==> q == if a == x then p else 0
    ensures Matching([Entry(x, p), Entry(y, o)], a, q) <==> q == if a == x then p else if a == y then o else 0
  {
    assert [Entry(x, p)][1..] == [];
    assert [Entry(x, p), Entry(y, o)][1..] == [Entry(y, o)] && [Entry(y, o)][1..] == [];
  }

  /** A weightless revision has no entry that shows anything. */
  lemma WeightlessMatches(traffic: seq<Entry>, a: string)
    requires WellFormed(traffic) && Weight(traffic, a) == 0
    ensures Matching(traffic, a, 0)
    ensures forall p | p != 0 :: !Matching(traffic, a, p)
  {
    WeightBounds(traffic, a);
    MatchingEntry(traffic, a, 0);
    forall p | p != 0 ensures !Matching(traffic, a, p) {
      MatchingEntry(traffic, a, p);
    }
  }

  lemma StepNeat(r: Resource, t: string, percent: int)
    requires 0 <= percent <= 100
    ensures Neat(r.traffic) ==> Neat(Allocate(r, t, percent).traffic)
    ensures Matching(r.traffic, t, percent) || Neat(Allocate(r, t, percent).traffic)
  {
    AllocateCases(r, t, percent);
    if !Matching(r.traffic, t, percent) {
      assert Written(Allocate(r, t, percent).traffic, t, percent, Active(r, t));
    }
  }

  lemma StepWellFormed(r: Resource, t: string, percent: int)
    requires WellFormed(r.traffic) && 0 <= percent <= 100
    ensures WellFormed(Allocate(r, t, percent).traffic)
  {
    StepNeat(r, t, percent);
    hide Allocate, WellFormed, Neat, Matching;
    AllocateCases(r, t, percent);
    if Neat(Allocate(r, t, percent).traffic) {
      NeatFacts(Allocate(r, t, percent).traffic);
    }
  }

  /** Only the target and the latest revision can gain traffic they did not have. */
  lemma StepZero(r: Resource, t: string, percent: int, a: string)
    requires WellFormed(r.traffic) && Weight(r.traffic, a) == 0 && a != t && a != r.latest
    ensures Weight(Allocate(r, t, percent).traffic, a) == 0
  {
    hide Allocate, Matching, Shares, Weight, WellFormed, Active;
    AllocateCases(r, t, percent);
    ActiveCases(r, t);
    SharesMeasures(t, percent, Active(r, t));
  }

  lemma {:induction false} OverWellFormed(r: Resource, ts: seq<string>, percent: int)
    requires WellFormed(r.traffic) && 0 <= percent <= 100
    ensures WellFormed(ShiftOver(r, ts, percent).traffic)
  {
    hide Allocate, WellFormed;
    if ts != [] {
      OverWellFormed(r, ts[..|ts| - 1], percent);
      StepWellFormed(ShiftOver(r, ts[..|ts| - 1], percent), ts[|ts| - 1], percent);
    }
  }

  lemma {:induction false} OverNeat(r: Resource, ts: seq<string>, percent: int)
    requires Neat(r.traffic) && 0 <= percent <= 100
    ensures Neat(ShiftOver(r, ts, percent).traffic)
  {
    hide Allocate, Neat;
    if ts != [] {
      OverNeat(r, ts[..|ts| - 1], percent);
      StepNeat(ShiftOver(r, ts[..|ts| - 1], percent), ts[|ts| - 1], percent);
    }
  }

  lemma {:induction false} OverZero(r: Resource, ts: seq<string>, percent: int, a: string)
    requires WellFormed(r.traffic) && Weight(r.traffic, a) == 0 && a !in ts && a != r.latest && 0 <= percent <= 100
    ensures Weight(ShiftOver(r, ts, percent).traffic, a) == 0
  {
    hide Allocate, WellFormed, Weight;
    if ts != [] {
      var init := ts[..|ts| - 1];
      assert ts[|ts| - 1] in ts && forall i | 0 <= i < |init| :: init[i] in ts;
      OverZero(r, init, percent, a);
      OverWellFormed(r, init, percent);
      StepZero(ShiftOver(r, init, percent), ts[|ts| - 1], percent, a);
    }
  }

  // ---------------------------------------------------------------- the form a list of shifts leaves

  predicate AllMatch(traffic: seq<Entry>, ts: seq<string>, percent: int) {
    forall t | t in ts :: Matching(traffic, t, percent)
  }

  /** The last shift that changed anything wrote this. */
  ghost predicate Moved(r: Resource, ts: seq<string>, percent: int) {
    exists t, x :: t in ts && ShiftOver(r, ts, percent).traffic == Shares(t, percent, x)
  }

  lemma {:induction false} OverForm(r: Resource, ts: seq<string>, percent: int)
    ensures (ShiftOver(r, ts, percent) == r && AllMatch(r.traffic, ts, percent)) || Moved(r, ts, percent)
  {
    hide Allocate, Matching, Shares;
    if ts != [] {
      var n := |ts| - 1;
      var init, t := ts[..n], ts[n];
      var so := ShiftOver(r, init, percent);
      OverForm(r, init, percent);
      AllocateCases(so, t, percent);
      assert ts == init + [t];
      if !Matching(so.traffic, t, percent) {
        assert t in ts && ShiftOver(r, ts, percent).traffic == Shares(t, percent, Active(so, t));
      } else if Moved(r, init, percent) {
        var u, x :| u in init && so.traffic == Shares(u, percent, x);
        assert u in ts;
      }
    }
  }

  lemma {:induction false} OverUnmoved(r: Resource, ts: seq<string>, percent: int)
    requires AllMatch(r.traffic, ts, percent)
    ensures ShiftOver(r, ts, percent) == r
  {
    hide Matching;
    if ts != [] {
      var n := |ts| - 1;
      assert ts[n] in ts && forall i | 0 <= i < n :: ts[..n][i] in ts;
      OverUnmoved(r, ts[..n], percent);
    }
  }

  lemma LastShows(r: Resource, ts: seq<string>, percent: int)
    requires ts != []
    ensures Matching(ShiftOver(r, ts, percent).traffic, ts[|ts| - 1], percent)
  {
    hide Allocate, Matching;
    AllocateIdempotent(ShiftOver(r, ts[..|ts| - 1], percent), ts[|ts| - 1], percent);
  }

  /** Going back from a shift above 0 changes something, and ends with at most one revision serving. */
  lemma BackMoves(r: Resource, ts: seq<string>, percent: int) returns (t: string, x: string)
    requires ts != [] && percent != 0
    ensures t in ts && RoundTrip(r, ts, percent).traffic == Shares(t, 0, x)
  {
    hide ShiftOver, Shares, Matching;
    var f := ShiftOver(r, ts, percent);
    LastShows(r, ts, percent);
    MatchingEntry(f.traffic, ts[|ts| - 1], percent);
    assert ts[|ts| - 1] in ts;
    OverForm(f, ts, 0);
    t, x :| t in ts && ShiftOver(f, ts, 0).traffic == Shares(t, 0, x);
  }

  /** A round trip above 0 restores the weights exactly when one named revision had it all and has some. */
  lemma RestoredExactly(r: Resource, ts: seq<string>, percent: int)
    requires Balanced(r.traffic) && ts != [] && percent != 0
    ensures SameWeights(RoundTrip(r, ts, percent).traffic, r.traffic)
       <==> exists s :: s != "" && Weight(r.traffic, s) == 100 && Weight(RoundTrip(r, ts, percent).traffic, s) > 0
  {
    hide RoundTrip, Shares, Weight, SameWeights, Balanced;
    var t, x := BackMoves(r, ts, percent);
    BackToOne(r.traffic, t, x);
    SharesMeasures(t, 0, x);
    if x != "" && x != t && Weight(r.traffic, x) == 100 {
      assert Weight(RoundTrip(r, ts, percent).traffic, x) > 0;
    }
  }

  // ---------------------------------------------------------------- going back

  /** What a shift to 0 needs to leave nothing behind: no hidden second entry. */
  ghost predicate Zeroable(traffic: seq<Entry>, a: string) {
    Neat(traffic) || !Matching(traffic, a, 0)
  }

  lemma StepZeroable(r: Resource, t: string, a: string)
    requires Zeroable(r.traffic, a)
    ensures Zeroable(Allocate(r, t, 0).traffic, a)
    ensures t == a ==> Neat(Allocate(r, t, 0).traffic) && Weight(Allocate(r, t, 0).traffic, a) == 0
  {
    hide Allocate, Neat, Matching, Weight, Shares;
    AllocateCases(r, t, 0);
    StepNeat(r, t, 0);
    SharesMeasures(t, 0, Active(r, t));
    if t == a && Matching(r.traffic, t, 0) {
      NeatFacts(r.traffic);
    }
  }

  lemma {:induction false} OverZeroable(r: Resource, ts: seq<string>, a: string)
    requires Zeroable(r.traffic, a)
    ensures Zeroable(ShiftOver(r, ts, 0).traffic, a)
  {
    hide Allocate, Zeroable;
    if ts != [] {
      OverZeroable(r, ts[..|ts| - 1], a);
      StepZeroable(ShiftOver(r, ts[..|ts| - 1], 0), ts[|ts| - 1], a);
    }
  }

  /** A compensated target has no traffic afterwards, unless it is the latest revision. */
  lemma {:induction false} OverZeroes(r: Resource, ts: seq<string>, a: string)
    requires Zeroable(r.traffic, a) && WellFormed(r.traffic) && a in ts && a != r.latest
    ensures Weight(ShiftOver(r, ts, 0).traffic, a) == 0
  {
    hide Allocate, Zeroable, Weight, WellFormed, Neat;
    var n := |ts| - 1;
    var init, t := ts[..n], ts[n];
    var so := ShiftOver(r, init, 0);
    OverZeroable(r, init, a);
    OverWellFormed(r, init, 0);
    StepZeroable(so, t, a);
    if t != a {
      assert ts == init + [t] && a in init;
      OverZeroes(r, init, a);
      StepZero(so, t, 0, a);
    }
  }

  /** When nothing serves any more, nothing does later. */
  lemma {:induction false} NothingStays(r: Resource, ts: seq<string>)
    requires Neat(r.traffic) && forall a :: Weight(r.traffic, a) == 0
    ensures ShiftOver(r, ts, 0) == r
  {
    hide Neat, Weight, Matching, ShiftOver;
    NeatFacts(r.traffic);
    OverUnmoved(r, ts, 0);
  }

  // ---------------------------------------------------------------- where the traffic can be

  ghost predicate Within(traffic: seq<Entry>, names: set<string>) {
    forall a | Weight(traffic, a) > 0 :: a in names
  }

  lemma StepWithin(r: Resource, t: string, percent: int, names: set<string>)
    requires WellFormed(r.traffic) && Within(r.traffic, names) && t in names && r.latest in names && 0 <= percent <= 100
    ensures Within(Allocate(r, t, percent).traffic, names)
  {
    hide Allocate, Matching, Shares, Weight, WellFormed, Active;
    AllocateCases(r, t, percent);
    ActiveCases(r, t);
    SharesMeasures(t, percent, Active(r, t));
  }

  lemma {:induction false} OverWithin(r: Resource, ts: seq<string>, percent: int, names: set<string>)
    requires WellFormed(r.traffic) && Within(r.traffic, names) && r.latest in names && 0 <= percent <= 100
    requires forall t | t in ts :: t in names
    ensures Within(ShiftOver(r, ts, percent).traffic, names)
  {
    hide Allocate, Within, WellFormed;
    if ts != [] {
      var init := ts[..|ts| - 1];
      assert ts[|ts| - 1] in ts && forall i | 0 <= i < |init| :: init[i] in ts;
      OverWithin(r, init, percent, names);
      OverWellFormed(r, init, percent);
      StepWithin(ShiftOver(r, init, percent), ts[|ts| - 1], percent, names);
    }
  }

  /** With a named latest revision outside the list, the last change leaves a revision serving. */
  lemma {:induction false} SomeoneServes(r: Resource, ts: seq<string>)
    requires WellFormed(r.traffic) && r.latest != "" && r.latest !in ts && !AllMatch(r.traffic, ts, 0)
    ensures exists x :: Weight(ShiftOver(r, ts, 0).traffic, x) > 0
  {
    hide Allocate, Matching, Shares, Weight, WellFormed, Active;
    var n := |ts| - 1;
    var init, t := ts[..n], ts[n];
    var so := ShiftOver(r, init, 0);
    assert ts == init + [t] && t in ts;
    OverWellFormed(r, init, 0);
    AllocateCases(so, t, 0);
    if Matching(so.traffic, t, 0) {
      if AllMatch(r.traffic, init, 0) {
        OverUnmoved(r, init, 0);
      }
      SomeoneServes(r, init);
      var x :| Weight(so.traffic, x) > 0;
      assert Weight(ShiftOver(r, ts, 0).traffic, x) > 0;
    } else {
      ActiveCases(so, t);
      SharesMeasures(t, 0, Active(so, t));
      assert Weight(ShiftOver(r, ts, 0).traffic, Active(so, t)) > 0;
    }
  }

  /** Then everything ends on the latest revision. */
  lemma EndsOnLatest(r: Resource, ts: seq<string>, names: set<string>)
    requires Neat(r.traffic) && r.latest != "" && r.latest !in ts && !AllMatch(r.traffic, ts, 0)
    requires Within(r.traffic, names) && forall t | t in ts :: t in names
    requires forall a | a in names && a != r.latest && a !in ts :: Weight(r.traffic, a) == 0
    ensures Weight(ShiftOver(r, ts, 0).traffic, r.latest) > 0
  {
    hide ShiftOver, Neat, Weight, AllMatch, WellFormed;
    NeatFacts(r.traffic);
    SomeoneServes(r, ts);
    var end := ShiftOver(r, ts, 0);
    var x :| Weight(end.traffic, x) > 0;
    OverWithin(r, ts, 0, names + {r.latest});
    if x != r.latest {
      if x in ts {
        assert Zeroable(r.traffic, x);
        OverZeroes(r, ts, x);
      } else {
        OverZero(r, ts, 0, x);
      }
    }
  }

  // ---------------------------------------------------------------- a stable revision outside the list

  /** One named revision has all the traffic. */
  ghost predicate Holds(traffic: seq<Entry>, s: string) {
    Balanced(traffic) && s != "" && Weight(traffic, s) == 100
  }

  predicate AllEqual(ts: seq<string>) {
    forall t, u | t in ts && u in ts :: t == u
  }

  lemma HolderAlone(traffic: seq<Entry>, s: string)
    requires Holds(traffic, s)
    ensures forall a | a != s :: Weight(traffic, a) == 0
    ensures Within(traffic, {s})
  {
    hide Weight;
    forall a | a != s ensures Weight(traffic, a) == 0 {
      AllOnExcludes(traffic, s, a);
    }
  }

  /** From the stable revision's traffic, a first shift keeps the rest on it. */
  lemma FirstShift(r: Resource, s: string, t: string, percent: int)
    requires Holds(r.traffic, s) && t != s && 0 < percent <= 100
    ensures Allocate(r, t, percent).traffic == Shares(t, percent, s)
  {
    HolderAlone(r.traffic, s);
    WeightlessMatches(r.traffic, t);
    AllOnIsBusiest(r.traffic, s, t);
    hide Weight, Busiest, Matching;
    AllocateCases(r, t, percent);
  }

  /** From a shared split: the same target changes nothing, another one keeps the larger share. */
  lemma NextShift(r: Resource, s: string, u: string, t: string, percent: int)
    requires r.traffic == Shares(u, percent, s) && s != "" && u != s && t != s && 0 < percent < 100
    ensures var r' := Allocate(r, t, percent);
            if t == u then r' == r
            else if percent < 50 then r'.traffic == Shares(t, percent, s)
            else r.latest != s ==> Weight(r'.traffic, s) == 0
  {
    AllocateCases(r, t, percent);
    assert r.traffic == [Entry(u, percent), Entry(s, 100 - percent)];
    MatchingShort(u, percent, s, 100 - percent, t, percent);
    if t != u {
      BusiestOfTwo(u, percent, s, 100 - percent, t);
      SharesMeasures(t, percent, Active(r, t));
    }
  }

  lemma BusiestOfTwo(x: string, p: int, y: string, o: int, target: string)
    ensures Busiest([Entry(x, p), Entry(y, o)], target)
         == var (best, max) := Busiest([Entry(x, p)], target); if y != target && o > max then (y, o) else (best, max)
    ensures Busiest([Entry(x, p)], target) == if x != target && p > 0 then (x, p) else ("", 0)
  {
    assert [Entry(x, p), Entry(y, o)][..1] == [Entry(x, p)] && [Entry(x, p)][..0] == [];
  }

  /** Below 50 percent, or for one target below 100, the stable revision keeps the larger or only other share. */
  predicate Keeps(ts: seq<string>, percent: int) {
    percent < 50 || (percent < 100 && AllEqual(ts))
  }

  lemma {:induction false} ForwardKeeps(r: Resource, s: string, ts: seq<string>, percent: int)
    requires Holds(r.traffic, s) && s !in ts && ts != [] && 0 < percent && Keeps(ts, percent)
    ensures ShiftOver(r, ts, percent).traffic == Shares(ts[|ts| - 1], percent, s)
  {
    hide Allocate, Shares, Holds;
    var n := |ts| - 1;
    var init, t := ts[..n], ts[n];
    assert ts == init + [t];
    if init == [] {
      FirstShift(r, s, t, percent);
    } else {
      assert forall i | 0 <= i < n :: init[i] in ts;
      ForwardKeeps(r, s, init, percent);
      assert init[n - 1] in ts && t in ts;
      HolderNamed(r, s);
      NextShift(ShiftOver(r, init, percent), s, init[n - 1], t, percent);
    }
  }

  lemma HolderNamed(r: Resource, s: string)
    requires Holds(r.traffic, s)
    ensures s != ""
  {
  }

  lemma ForwardLoses(r: Resource, s: string, ts: seq<string>, percent: int)
    requires Holds(r.traffic, s) && s !in ts && ts != [] && 0 < percent <= 100 && !Keeps(ts, percent) && r.latest != s
    ensures Weight(ShiftOver(r, ts, percent).traffic, s) == 0
  {
    if percent == 100 {
      LosesAtOnce(r, s, ts);
    } else {
      LosesAtSecond(r, s, ts, percent);
    }
  }

  lemma LosesAtOnce(r: Resource, s: string, ts: seq<string>)
    requires Holds(r.traffic, s) && s !in ts && ts != [] && r.latest != s
    ensures Weight(ShiftOver(r, ts, 100).traffic, s) == 0
  {
    var first, rest := ts[..1], ts[1..];
    assert ts == first + rest && ts[0] in ts && first[..0] == [];
    ShiftOverAppend(r, first, rest, 100);
    FirstShift(r, s, ts[0], 100);
    var so := ShiftOver(r, first, 100);
    assert so == Allocate(r, ts[0], 100);
    SharesMeasures(ts[0], 100, s);
    hide Allocate, Weight, ShiftOver, Shares, WellFormed;
    WrittenIsWellFormed(so.traffic, ts[0], 100, s);
    OverZero(so, rest, 100, s);
  }

  lemma WrittenIsWellFormed(traffic: seq<Entry>, t: string, p: int, x: string)
    requires Written(traffic, t, p, x)
    ensures WellFormed(traffic) && Neat(traffic)
  {
  }

  lemma {:induction false} LosesAtSecond(r: Resource, s: string, ts: seq<string>, percent: int)
    requires Holds(r.traffic, s) && s !in ts && 50 <= percent < 100 && !AllEqual(ts) && r.latest != s
    ensures Weight(ShiftOver(r, ts, percent).traffic, s) == 0
  {
    hide Allocate, Shares, Weight, Holds, WellFormed;
    var n := |ts| - 1;
    var init, t := ts[..n], ts[n];
    assert ts == init + [t] && t in ts;
    assert forall i | 0 <= i < n :: init[i] in ts;
    HolderNamed(r, s);
    if AllEqual(init) {
      EqualNext(init, t);
      ForwardKeeps(r, s, init, percent);
      NextShift(ShiftOver(r, init, percent), s, init[n - 1], t, percent);
    } else {
      LosesAtSecond(r, s, init, percent);
      HolderWellFormed(r, s);
      OverWellFormed(r, init, percent);
      StepZero(ShiftOver(r, init, percent), t, percent, s);
    }
  }

  lemma EqualNext(init: seq<string>, t: string)
    requires AllEqual(init) && !AllEqual(init + [t])
    ensures init != [] && init[|init| - 1] != t
  {
    if init != [] && init[|init| - 1] == t {
      assert init[|init| - 1] in init;
      forall x, y | x in init + [t] && y in init + [t] ensures x == y {
        assert x in init && y in init;
      }
    }
  }

  lemma HolderWellFormed(r: Resource, s: string)
    requires Holds(r.traffic, s)
    ensures WellFormed(r.traffic)
  {
  }

  /** Compensating a shared split once gives the stable revision everything, and that stays. */
  lemma {:induction false} BackKeeps(r: Resource, s: string, u: string, ts: seq<string>, percent: int)
    requires r.traffic == Shares(u, percent, s) && s != "" && u != s && s !in ts && 0 < percent < 100
    ensures ShiftOver(r, ts, 0).traffic == if u in ts then Shares(u, 0, s) else Shares(u, percent, s)
  {
    hide Allocate, Shares;
    if ts != [] {
      var n := |ts| - 1;
      var init, t := ts[..n], ts[n];
      assert ts == init + [t] && t in ts;
      assert forall i | 0 <= i < n :: init[i] in ts;
      BackKeeps(r, s, u, init, percent);
      BackStep(ShiftOver(r, init, 0), s, u, if u in init then 0 else percent, t);
    }
  }

  lemma BackStep(r: Resource, s: string, u: string, p: int, t: string)
    requires r.traffic == Shares(u, p, s) && s != "" && u != s && t != s && 0 <= p < 100
    ensures Allocate(r, t, 0).traffic == if t == u then Shares(u, 0, s) else Shares(u, p, s)
  {
    AllocateCases(r, t, 0);
    assert r.traffic == [Entry(u, p), Entry(s, 100 - p)];
    MatchingShort(u, p, s, 100 - p, t, 0);
    if t == u {
      BusiestOfTwo(u, p, s, 100 - p, t);
    }
  }

  /** For a stable revision that is not a target: when it gets its traffic back. */
  lemma OutsideComesBack(r: Resource, s: string, ts: seq<string>, percent: int)
    requires Holds(r.traffic, s) && s !in ts && ts != [] && 0 < percent <= 100
    ensures Weight(RoundTrip(r, ts, percent).traffic, s) > 0 <==> r.latest == s || Keeps(ts, percent)
  {
    var f := ShiftOver(r, ts, percent);
    var last := ts[|ts| - 1];
    assert last in ts;
    hide ShiftOver, Shares, Weight, Holds, Keeps;
    HolderNamed(r, s);
    if Keeps(ts, percent) {
      ForwardKeeps(r, s, ts, percent);
      KeepsBelow(ts, percent);
      BackKeeps(f, s, last, ts, percent);
      SharesMeasures(last, 0, s);
    } else if r.latest == s {
      OutsideLatest(r, s, ts, percent);
    } else {
      ForwardLoses(r, s, ts, percent);
      HolderWellFormed(r, s);
      OverWellFormed(r, ts, percent);
      OverZero(f, ts, 0, s);
    }
  }

  lemma KeepsBelow(ts: seq<string>, percent: int)
    requires Keeps(ts, percent)
    ensures percent < 100
  {
  }

  /** After a shift above 0 the traffic is as shifts write it, or the list only repeats the holder. */
  lemma ForwardNeat(r: Resource, s: string, ts: seq<string>, percent: int)
    requires Holds(r.traffic, s) && 0 < percent <= 100
    ensures Neat(ShiftOver(r, ts, percent).traffic) || (forall t | t in ts :: t == s)
    ensures s in ts ==> Zeroable(ShiftOver(r, ts, percent).traffic, s)
  {
    hide ShiftOver, Shares, Weight, Matching;
    OverForm(r, ts, percent);
    HolderAlone(r.traffic, s);
    if Moved(r, ts, percent) {
      var t, x :| t in ts && ShiftOver(r, ts, percent).traffic == Shares(t, percent, x);
      assert Written(ShiftOver(r, ts, percent).traffic, t, percent, x);
    } else {
      forall t | t in ts ensures t == s {
        if t != s { WeightlessMatches(r.traffic, t); }
      }
      if s in ts { MatchingEntry(r.traffic, s, percent); }
    }
  }

  lemma Support(ts: seq<string>) returns (names: set<string>)
    ensures forall t :: t in names <==> t in ts
  {
    names := set t | t in ts;
  }

  lemma OutsideLatest(r: Resource, s: string, ts: seq<string>, percent: int)
    requires Holds(r.traffic, s) && s !in ts && ts != [] && 0 < percent <= 100 && r.latest == s
    ensures Weight(RoundTrip(r, ts, percent).traffic, s) > 0
  {
    hide ShiftOver, Shares, Weight, Matching, Neat;
    var f, last := ShiftOver(r, ts, percent), ts[|ts| - 1];
    assert last in ts;
    var names := Support(ts);
    ForwardNeat(r, s, ts, percent);
    LastShows(r, ts, percent);
    MatchingEntry(f.traffic, last, percent);
    HolderAlone(r.traffic, s);
    OverWithin(r, ts, percent, names + {s});
    assert !AllMatch(f.traffic, ts, 0);
    EndsOnLatest(f, ts, names + {s});
  }

  // ---------------------------------------------------------------- a stable revision that is also a target

  /** Position of the last mention of s. */
  function LastMention(ts: seq<string>, s: string): (i: nat)
    requires s in ts
    ensures i < |ts| && ts[i] == s && s !in ts[i + 1..]
  {
    var n := |ts| - 1;
    if ts[n] == s then n
    else
      assert ts == ts[..n] + [ts[n]];
      var i := LastMention(ts[..n], s);
      assert ts[i + 1..] == ts[..n][i + 1..] + [ts[n]];
      i
  }

  /** A target first mentioned after the last mention of s that still has traffic, and can pass it on. */
  predicate Carries(f: seq<Entry>, s: string, ts: seq<string>, v: string)
    requires s in ts
  {
    && v in ts && v !in ts[..LastMention(ts, s) + 1]
    && Weight(f, v) > 0 && (v != "" || Weight(f, v) == Sum(f))
  }

  ghost predicate SomeCarries(f: seq<Entry>, s: string, ts: seq<string>)
    requires s in ts
  {
    exists v :: Carries(f, s, ts, v)
  }

  /** The traffic of a compensated target goes to the other carrier, if that has a name. */
  lemma StepCarries(r: Resource, t: string, v: string)
    requires Neat(r.traffic) && t != v && Weight(r.traffic, v) > 0
    requires v != "" || Weight(r.traffic, v) == Sum(r.traffic)
    ensures Weight(Allocate(r, t, 0).traffic, v) > 0
    ensures v == "" ==> Weight(Allocate(r, t, 0).traffic, v) == Sum(Allocate(r, t, 0).traffic)
  {
    var u, p, x :| Written(r.traffic, u, p, x);
    SharesMeasures(u, p, x);
    NeatFacts(r.traffic);
    AllocateCases(r, t, 0);
    if Weight(r.traffic, t) > 0 {
      WeightBounds(r.traffic, v);
      WeightBounds(r.traffic, t);
      assert |r.traffic| == 2 && v != "";
      assert r.traffic == [Entry(u, p), Entry(x, 100 - p)];
      BusiestOfTwo(u, p, x, 100 - p, t);
      SharesMeasures(t, 0, v);
    }
  }

  lemma {:induction false} OverCarries(r: Resource, ts: seq<string>, v: string)
    requires Neat(r.traffic) && v !in ts && Weight(r.traffic, v) > 0
    requires v != "" || Weight(r.traffic, v) == Sum(r.traffic)
    ensures Weight(ShiftOver(r, ts, 0).traffic, v) > 0
    ensures v == "" ==> Weight(ShiftOver(r, ts, 0).traffic, v) == Sum(ShiftOver(r, ts, 0).traffic)
  {
    hide Allocate, Weight, Sum, Neat;
    if ts != [] {
      var init := ts[..|ts| - 1];
      assert ts[|ts| - 1] in ts && forall i | 0 <= i < |init| :: init[i] in ts;
      OverCarries(r, init, v);
      OverNeat(r, init, 0);
      StepCarries(ShiftOver(r, init, 0), ts[|ts| - 1], v);
    }
  }

  /** An unnamed carrier loses its traffic to the first other change. */
  lemma {:induction false} UnnamedLoses(r: Resource, ts: seq<string>)
    requires Neat(r.traffic) && "" !in ts
    ensures (ShiftOver(r, ts, 0) == r && forall t | t in ts :: Weight(r.traffic, t) == 0)
         || Weight(ShiftOver(r, ts, 0).traffic, "") == 0
  {
    hide Allocate, Weight, Neat, Matching, Shares;
    if ts != [] {
      var n := |ts| - 1;
      var init, t := ts[..n], ts[n];
      assert ts == init + [t] && t in ts;
      assert forall i | 0 <= i < n :: init[i] in ts;
      UnnamedLoses(r, init);
      var so := ShiftOver(r, init, 0);
      OverNeat(r, init, 0);
      NeatFacts(so.traffic);
      AllocateCases(so, t, 0);
      SharesMeasures(t, 0, Active(so, t));
    }
  }

  /** For a stable revision that is a target: when it gets its traffic back. */
  lemma InsideComesBack(r: Resource, s: string, ts: seq<string>, percent: int)
    requires Holds(r.traffic, s) && s in ts && 0 < percent <= 100
    ensures Weight(RoundTrip(r, ts, percent).traffic, s) > 0
       <==> r.latest == s && SomeCarries(ShiftOver(r, ts, percent).traffic, s, ts)
  {
    hide ShiftOver, Shares, Weight, Matching, Neat, Holds, Carries, Sum, Zeroable;
    var f := ShiftOver(r, ts, percent);
    ForwardNeat(r, s, ts, percent);
    HolderWellFormed(r, s);
    OverWellFormed(r, ts, percent);
    if r.latest != s {
      OverZeroes(f, ts, s);
    } else if Neat(f.traffic) {
      InsideLatest(r, s, ts, percent);
    } else {
      OnlyHolder(f, s, ts);
    }
  }

  /** A list that only repeats the holder leaves it nothing. */
  lemma OnlyHolder(f: Resource, s: string, ts: seq<string>)
    requires s in ts && (forall t | t in ts :: t == s) && Zeroable(f.traffic, s)
    ensures Weight(ShiftOver(f, ts, 0).traffic, s) == 0
    ensures !SomeCarries(f.traffic, s, ts)
  {
    var n := |ts| - 1;
    assert ts[n] in ts;
    hide Zeroable, Weight, Allocate;
    OverZeroable(f, ts[..n], s);
    StepZeroable(ShiftOver(f, ts[..n], 0), ts[n], s);
    assert LastMention(ts, s) == n && ts[..n + 1] == ts;
  }

  lemma InsideLatest(r: Resource, s: string, ts: seq<string>, percent: int)
    requires Holds(r.traffic, s) && s in ts && 0 < percent <= 100 && r.latest == s
    requires Neat(ShiftOver(r, ts, percent).traffic)
    ensures Weight(RoundTrip(r, ts, percent).traffic, s) > 0
       <==> SomeCarries(ShiftOver(r, ts, percent).traffic, s, ts)
  {
    hide ShiftOver, RoundTrip, Weight, Neat, Holds, Carries;
    if v :| Carries(ShiftOver(r, ts, percent).traffic, s, ts, v) {
      CarrierPassesOn(r, s, ts, percent, v);
    }
    if Weight(RoundTrip(r, ts, percent).traffic, s) > 0 {
      SomeoneCarries(r, s, ts, percent);
    }
  }

  /** What is left when the last mention of the stable revision has been compensated. */
  lemma Halfway(r: Resource, s: string, ts: seq<string>, percent: int)
    requires Holds(r.traffic, s) && s in ts && 0 < percent <= 100 && r.latest == s
    requires Neat(ShiftOver(r, ts, percent).traffic)
    ensures var i, f := LastMention(ts, s), ShiftOver(r, ts, percent);
            var g := ShiftOver(f, ts[..i + 1], 0);
            && Neat(g.traffic) && g.latest == s
            && (forall a | a in ts[..i + 1] :: Weight(g.traffic, a) == 0)
            && (forall a | Weight(f.traffic, a) > 0 :: a in ts)
            && (forall a | Weight(g.traffic, a) > 0 :: a in ts)
  {
    hide ShiftOver, Shares, Weight, Matching, Neat, Holds;
    var f := ShiftOver(r, ts, percent);
    var i := LastMention(ts, s);
    var before := ts[..i + 1];
    var g := ShiftOver(f, before, 0);
    var names := Support(ts);
    assert forall j | 0 <= j < |before| :: before[j] in ts;
    HolderAlone(r.traffic, s);
    HolderWellFormed(r, s);
    OverWithin(r, ts, percent, names);
    OverNeat(f, before, 0);
    NeatFacts(f.traffic);
    OverWithin(f, before, 0, names);
    forall a | a in before ensures Weight(g.traffic, a) == 0 {
      assert Zeroable(f.traffic, a);
      if a == s { LastZeroed(f, before, s); } else { OverZeroes(f, before, a); }
    }
  }

  lemma LastZeroed(f: Resource, ts: seq<string>, s: string)
    requires Zeroable(f.traffic, s) && ts != [] && ts[|ts| - 1] == s
    ensures Weight(ShiftOver(f, ts, 0).traffic, s) == 0
  {
    hide Zeroable, Weight, Allocate;
    OverZeroable(f, ts[..|ts| - 1], s);
    StepZeroable(ShiftOver(f, ts[..|ts| - 1], 0), s, s);
  }

  lemma CarrierPassesOn(r: Resource, s: string, ts: seq<string>, percent: int, v: string)
    requires Holds(r.traffic, s) && s in ts && 0 < percent <= 100 && r.latest == s
    requires Neat(ShiftOver(r, ts, percent).traffic) && Carries(ShiftOver(r, ts, percent).traffic, s, ts, v)
    ensures Weight(RoundTrip(r, ts, percent).traffic, s) > 0
  {
    hide ShiftOver, Shares, Weight, Matching, Neat, Holds, Sum;
    var f := ShiftOver(r, ts, percent);
    var i := LastMention(ts, s);
    var before, after := ts[..i + 1], ts[i + 1..];
    var g := ShiftOver(f, before, 0);
    assert ts == before + after;
    ShiftOverAppend(f, before, after, 0);
    HolderNamed(r, s);
    OverCarries(f, before, v);
    Halfway(r, s, ts, percent);
    NeatFacts(g.traffic);
    assert v in after && !Matching(g.traffic, v, 0);
    var names := Support(ts);
    assert forall j | 0 <= j < |after| :: after[j] in ts;
    EndsOnLatest(g, after, names);
  }

  /** If the stable revision regains traffic, someone still serves after its last compensation. */
  lemma SomeoneLeft(r: Resource, s: string, ts: seq<string>, percent: int) returns (v: string)
    requires Holds(r.traffic, s) && s in ts && 0 < percent <= 100 && r.latest == s
    requires Neat(ShiftOver(r, ts, percent).traffic) && Weight(RoundTrip(r, ts, percent).traffic, s) > 0
    ensures v in ts && v !in ts[..LastMention(ts, s) + 1]
    ensures Weight(ShiftOver(ShiftOver(r, ts, percent), ts[..LastMention(ts, s) + 1], 0).traffic, v) > 0
  {
    hide ShiftOver, Shares, Weight, Matching, Neat, Holds, Sum, WellFormed;
    var f := ShiftOver(r, ts, percent);
    var before, after := ts[..LastMention(ts, s) + 1], ts[LastMention(ts, s) + 1..];
    var g := ShiftOver(f, before, 0);
    assert ts == before + after;
    ShiftOverAppend(f, before, after, 0);
    Halfway(r, s, ts, percent);
    NeatFacts(g.traffic);
    if forall a :: Weight(g.traffic, a) <= 0 {
      NoneNegative(g.traffic);
      NothingStays(g, after);
    }
    v :| Weight(g.traffic, v) > 0;
  }

  lemma SomeoneCarries(r: Resource, s: string, ts: seq<string>, percent: int)
    requires Holds(r.traffic, s) && s in ts && 0 < percent <= 100 && r.latest == s
    requires Neat(ShiftOver(r, ts, percent).traffic) && Weight(RoundTrip(r, ts, percent).traffic, s) > 0
    ensures SomeCarries(ShiftOver(r, ts, percent).traffic, s, ts)
  {
    hide ShiftOver, RoundTrip, Shares, Weight, Matching, Neat, Holds, Sum, WellFormed;
    var f := ShiftOver(r, ts, percent);
    var before := ts[..LastMention(ts, s) + 1];
    var v := SomeoneLeft(r, s, ts, percent);
    Halfway(r, s, ts, percent);
    NeatFacts(f.traffic);
    if Weight(f.traffic, v) <= 0 {
      NoneNegative(f.traffic);
      OverZero(f, before, 0, v);
    }
    if v == "" && Weight(f.traffic, v) != Sum(f.traffic) {
      var y := OtherCarrier(f.traffic);
      UnnamedLoses(f, before);
      assert Carries(f.traffic, s, ts, y);
    } else {
      assert Carries(f.traffic, s, ts, v);
    }
  }

  lemma NoneNegative(traffic: seq<Entry>)
    requires WellFormed(traffic)
    ensures forall a :: Weight(traffic, a) >= 0
  {
    forall a ensures Weight(traffic, a) >= 0 {
      WeightBounds(traffic, a);
    }
  }

  lemma OtherCarrier(traffic: seq<Entry>) returns (y: string)
    requires WellFormed(traffic) && Weight(traffic, "") != Sum(traffic)
    ensures y != "" && Weight(traffic, y) > 0
  {
    WeightBounds(traffic, "");
    var e :| e in traffic && e.revision != "" && e.percent != 0;
    y := e.revision;
    WeightBounds(traffic, y);
  }

  // ---------------------------------------------------------------- forward to 0

  /** Zeroing the holder of everything never gives it anything back. */
  lemma {:induction false} ZeroedHolder(r: Resource, s: string, ts: seq<string>)
    requires Holds(r.traffic, s) && s in ts && !Matching(r.traffic, s, 0)
    ensures var r' := ShiftOver(r, ts, 0); Neat(r'.traffic) && Weight(r'.traffic, s) == 0
    ensures r.latest == s ==> forall a :: Weight(ShiftOver(r, ts, 0).traffic, a) == 0
  {
    hide Allocate, Weight, Matching, Neat, Holds, Shares;
    var n := |ts| - 1;
    var init, t := ts[..n], ts[n];
    assert ts == init + [t];
    var so := ShiftOver(r, init, 0);
    HolderWellFormed(r, s);
    if s in init {
      ZeroedHolder(r, s, init);
      NeatFacts(so.traffic);
      StepNeat(so, t, 0);
      AllocateCases(so, t, 0);
      if r.latest != s {
        if t == s { SharesMeasures(t, 0, Active(so, t)); } else { StepZero(so, t, 0, s); }
      }
    } else {
      HolderAlone(r.traffic, s);
      forall u | u in init ensures Matching(r.traffic, u, 0) {
        WeightlessMatches(r.traffic, u);
      }
      OverUnmoved(r, init, 0);
      StepNeat(r, s, 0);
      AllocateCases(r, s, 0);
      OnlyLatest(r, s);
      SharesMeasures(s, 0, r.latest);
    }
  }

  lemma OnlyLatest(r: Resource, s: string)
    requires Holds(r.traffic, s)
    ensures Active(r, s) == r.latest
  {
    HolderAlone(r.traffic, s);
    BusiestIsArgmax(r.traffic, s);
    var (best, max) := Busiest(r.traffic, s);
    if best != "" {
      WeightBounds(r.traffic, best);
    }
  }

  lemma ZeroTripExactly(r: Resource, ts: seq<string>)
    requires Balanced(r.traffic)
    ensures SameWeights(RoundTrip(r, ts, 0).traffic, r.traffic) <==> AllMatch(r.traffic, ts, 0)
  {
    hide ShiftOver, Shares, Weight, Matching, Neat, Balanced;
    if AllMatch(r.traffic, ts, 0) {
      OverUnmoved(r, ts, 0);
    } else if SameWeights(RoundTrip(r, ts, 0).traffic, r.traffic) {
      ZeroTripLoses(r, ts);
    }
  }

  lemma ZeroTripLoses(r: Resource, ts: seq<string>)
    requires Balanced(r.traffic) && !AllMatch(r.traffic, ts, 0)
    ensures !SameWeights(RoundTrip(r, ts, 0).traffic, r.traffic)
  {
    hide ShiftOver, Shares, Weight, Matching, Neat;
    var f := ShiftOver(r, ts, 0);
    var z :| z in ts && !Matching(r.traffic, z, 0);
    OverForm(r, ts, 0);
    var t0, x0 :| t0 in ts && f.traffic == Shares(t0, 0, x0);
    OverForm(f, ts, 0);
    var t, x := t0, x0;
    if ShiftOver(f, ts, 0) != f {
      t, x :| t in ts && ShiftOver(f, ts, 0).traffic == Shares(t, 0, x);
    }
    BackToOne(r.traffic, t, x);
    if x != "" && x != t && Weight(r.traffic, x) == 100 {
      HolderAlone(r.traffic, x);
      if z != x { WeightlessMatches(r.traffic, z); }
      ZeroedHolder(r, x, ts);
      SharesMeasures(t, 0, x);
      if r.latest == x {
        NothingStays(f, ts);
      } else {
        assert Zeroable(f.traffic, x);
        NeatFacts(f.traffic);
        OverZeroes(f, ts, x);
      }
      assert false;
    }
  }

  // ---------------------------------------------------------------- the exact condition

  /** When going forward over a list of targets and back restores every weight. */
  ghost predicate ComesBack(r: Resource, ts: seq<string>, percent: int) {
    if percent == 0 then AllMatch(r.traffic, ts, 0)
    else exists s :: Regains(r, s, ts, percent)
  }

  /** The named revision that held all the traffic gets it back. */
  ghost predicate Regains(r: Resource, s: string, ts: seq<string>, percent: int) {
    && s != "" && Weight(r.traffic, s) == 100
    && if s !in ts then r.latest == s || Keeps(ts, percent)
       else r.latest == s && SomeCarries(ShiftOver(r, ts, percent).traffic, s, ts)
  }

  lemma RegainsExactly(r: Resource, s: string, ts: seq<string>, percent: int)
    requires Holds(r.traffic, s) && ts != [] && 0 < percent <= 100
    ensures Weight(RoundTrip(r, ts, percent).traffic, s) > 0 <==> Regains(r, s, ts, percent)
  {
    hide RoundTrip, ShiftOver, SomeCarries, Keeps;
    if s in ts { InsideComesBack(r, s, ts, percent); } else { OutsideComesBack(r, s, ts, percent); }
  }

  /**
   For any balanced traffic and any list of targets: the round trip restores every revision's
   weight exactly when nothing moved, or one named revision held everything and regains it.
   */
  lemma RoundTripExactly(r: Resource, ts: seq<string>, percent: int)
    requires Balanced(r.traffic) && ts != [] && 0 <= percent <= 100
    ensures SameWeights(RoundTrip(r, ts, percent).traffic, r.traffic) <==> ComesBack(r, ts, percent)
  {
    hide RoundTrip, SameWeights, Weight;
    if percent == 0 {
      ZeroTripExactly(r, ts);
    } else {
      RestoredExactly(r, ts, percent);
      hide ShiftOver, Regains;
      if s :| s != "" && Weight(r.traffic, s) == 100 && Weight(RoundTrip(r, ts, percent).traffic, s) > 0 {
        RegainsExactly(r, s, ts, percent);
        assert Regains(r, s, ts, percent);
      }
      if s :| Regains(r, s, ts, percent) {
        RegainsHolds(r, s, ts, percent);
        RegainsExactly(r, s, ts, percent);
      }
    }
  }

  lemma RegainsHolds(r: Resource, s: string, ts: seq<string>, percent: int)
    requires Balanced(r.traffic) && Regains(r, s, ts, percent)
    ensures Holds(r.traffic, s)
  {
  }

  lemma HoldsBalanced(traffic: seq<Entry>, s: string)
    requires Holds(traffic, s)
    ensures Balanced(traffic)
  {
  }

  /**
   For a stable revision that holds everything and is not a target: it comes back exactly when it
   is the latest, or the percent is below 50, or below 100 with a single target.
   */
  lemma StableComesBack(r: Resource, s: string, ts: seq<string>, percent: int)
    requires Holds(r.traffic, s) && s !in ts && ts != [] && 0 < percent <= 100
    ensures ComesBack(r, ts, percent) <==> r.latest == s || Keeps(ts, percent)
  {
    HolderAlone(r.traffic, s);
    hide Keeps, Weight, ShiftOver, SomeCarries;
    if r.latest == s || Keeps(ts, percent) {
      assert Regains(r, s, ts, percent);
    }
  }
}
