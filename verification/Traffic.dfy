/**
 Traffic allocation of one Cloud Run service or worker pool (internal/adapter/output/gcp):
 the rule between reading the current split and writing the new one.
 */
module Traffic {

  datatype Entry = Entry(revision: string, percent: int)

  /** A service or worker pool: its split, and its latest ready (or created) revision. */
  datatype Resource = Resource(traffic: seq<Entry>, latest: string)

  function Sum(traffic: seq<Entry>): int {
    if traffic == [] then 0 else Sum(traffic[..|traffic| - 1]) + traffic[|traffic| - 1].percent
  }

  /** How much of the traffic a revision receives, over all its entries. */
  function Weight(traffic: seq<Entry>, revision: string): int {
    if traffic == [] then 0
    else Weight(traffic[..|traffic| - 1], revision)
         + if traffic[|traffic| - 1].revision == revision then traffic[|traffic| - 1].percent else 0
  }

  predicate WellFormed(traffic: seq<Entry>) {
    forall e | e in traffic :: 0 <= e.percent
  }

  predicate Balanced(traffic: seq<Entry>) {
    WellFormed(traffic) && Sum(traffic) == 100
  }

  /** No entry without a revision name; an entry that follows the latest revision has none. */
  predicate AllNamed(traffic: seq<Entry>) {
    forall e | e in traffic :: e.revision != ""
  }

  // ---------------------------------------------------------------- the active revision

  /** The scan for the busiest revision other than the target, with its percent. */
  function Busiest(traffic: seq<Entry>, target: string): (string, int) {
    if traffic == [] then ("", 0)
    else
      var (best, max) := Busiest(traffic[..|traffic| - 1], target);
      var t := traffic[|traffic| - 1];
      if t.revision != target && t.percent > max then (t.revision, t.percent) else (best, max)
  }

  method SelectActiveRevision(traffic: seq<Entry>, target: string) returns (best: string)
    ensures best == Busiest(traffic, target).0
  {
    best := "";
    var maxPercent := 0;
    for i := 0 to |traffic|
      invariant (best, maxPercent) == Busiest(traffic[..i], target)
    {
      var t := traffic[i];
      assert traffic[..i + 1][..i] == traffic[..i];
      if t.revision == target {
        continue;
      }
      if t.percent > maxPercent {
        best := t.revision;
        maxPercent := t.percent;
      }
    }
    assert traffic[..|traffic|] == traffic;
  }

  /** The selected revision carries the largest share among the others, the first such in the list. */
  lemma {:induction false} BusiestIsArgmax(traffic: seq<Entry>, target: string)
    ensures var (best, max) := Busiest(traffic, target);
            && 0 <= max
            && (forall e | e in traffic && e.revision != target :: e.percent <= max)
            && (if max == 0 then best == "" else
                exists i | 0 <= i < |traffic| ::
                  && traffic[i] == Entry(best, max) && best != target
                  && forall j | 0 <= j < i && traffic[j].revision != target :: traffic[j].percent < max)
    decreases |traffic|
  {
    if traffic != [] {
      var n := |traffic| - 1;
      var init := traffic[..n];
      BusiestIsArgmax(init, target);
      assert traffic == init + [traffic[n]];
      var (best, max) := Busiest(init, target);
      if traffic[n].revision != target && traffic[n].percent > max {
        assert traffic[n] == Entry(traffic[n].revision, traffic[n].percent);
      } else if max > 0 {
        var i :| 0 <= i < |init| && init[i] == Entry(best, max) && best != target
                 && forall j | 0 <= j < i && init[j].revision != target :: init[j].percent < max;
        assert traffic[i] == Entry(best, max);
      }
    }
  }

  // ---------------------------------------------------------------- the match test

  /** Whether the first entry of the target already has the wanted percent; absent counts as 0. */
  predicate Matching(traffic: seq<Entry>, target: string, percent: int) {
    if traffic == [] then percent == 0
    else if traffic[0].revision == target then traffic[0].percent == percent
    else Matching(traffic[1..], target, percent)
  }

  method IsTrafficAlreadyMatching(traffic: seq<Entry>, target: string, percent: int) returns (r: bool)
    ensures r == Matching(traffic, target, percent)
  {
    var i := 0;
    while i < |traffic|
      invariant 0 <= i <= |traffic|
      invariant Matching(traffic, target, percent) == Matching(traffic[i..], target, percent)
    {
      if traffic[i].revision == target {
        return traffic[i].percent == percent;
      }
      i := i + 1;
    }
    return percent == 0;
  }

  // ---------------------------------------------------------------- the allocation rule

  function Active(r: Resource, target: string): string {
    var busiest := Busiest(r.traffic, target).0;
    if busiest == "" then r.latest else busiest
  }

  function Shares(target: string, percent: int, active: string): seq<Entry> {
    [Entry(target, percent)]
    + if percent < 100 && active != "" && active != target then [Entry(active, 100 - percent)] else []
  }

  /** The resource after a shift of `target` to `percent`. */
  function Allocate(r: Resource, target: string, percent: int): Resource {
    if Matching(r.traffic, target, percent) then r
    else r.(traffic := Shares(target, percent, Active(r, target)))
  }

  method ShiftEntries(r: Resource, target: string, percent: int) returns (r': Resource)
    ensures r' == Allocate(r, target, percent)
  {
    var matching := IsTrafficAlreadyMatching(r.traffic, target, percent);
    if matching {
      return r;
    }
    var active := SelectActiveRevision(r.traffic, target);
    if active == "" {
      active := r.latest;
    }
    var traffic := [Entry(target, percent)];
    if percent < 100 && active != "" && active != target {
      traffic := traffic + [Entry(active, 100 - percent)];
    }
    assert Shares(target, percent, active) == traffic;
    r' := r.(traffic := traffic);
  }

  /** Nothing before position i is the target; the entry at i is, unless the list ends there. */
  predicate FirstOf(traffic: seq<Entry>, target: string, i: nat) {
    && i <= |traffic|
    && (forall j | 0 <= j < i :: traffic[j].revision != target)
    && (i < |traffic| ==> traffic[i].revision == target)
  }

  lemma {:induction false} MatchingMeans(traffic: seq<Entry>, target: string, percent: int, i: nat)
    requires FirstOf(traffic, target, i)
    ensures Matching(traffic, target, percent) <==> percent == if i < |traffic| then traffic[i].percent else 0
    decreases |traffic|
  {
    if i > 0 {
      MatchingMeans(traffic[1..], target, percent, i - 1);
    }
  }

  /** Entry i has the largest positive share among the others, and is the first to; none has if i is the end. */
  predicate BusiestAt(traffic: seq<Entry>, target: string, i: nat) {
    && i <= |traffic|
    && (i < |traffic| ==> traffic[i].revision != target && traffic[i].percent > 0)
    && forall j | 0 <= j < |traffic| && traffic[j].revision != target ::
         if i == |traffic| then traffic[j].percent <= 0
         else if j < i then traffic[j].percent < traffic[i].percent
         else traffic[j].percent <= traffic[i].percent
  }

  /**
   What a shift writes. If the target's first entry shows the percent already, or shows none and
   0 is wanted, nothing changes. Otherwise the target gets the percent, and the busiest other
   revision, or the latest one if there is none with a name, gets what is missing to 100.
   */
  lemma ShiftGives(r: Resource, target: string, percent: int) returns (first: nat, busiest: nat)
    ensures FirstOf(r.traffic, target, first) && BusiestAt(r.traffic, target, busiest)
    ensures var shown := if first < |r.traffic| then r.traffic[first].percent else 0;
            var taker := if busiest < |r.traffic| && r.traffic[busiest].revision != ""
                         then r.traffic[busiest].revision else r.latest;
            var r' := Allocate(r, target, percent);
            if shown == percent then r' == r
            else
              && r'.latest == r.latest
              && r'.traffic == if percent >= 100 || taker == "" || taker == target then [Entry(target, percent)]
                               else [Entry(target, percent), Entry(taker, 100 - percent)]
  {
    first := FirstEntry(r.traffic, target);
    MatchingMeans(r.traffic, target, percent, first);
    busiest := BusiestEntry(r.traffic, target);
    hide Matching, Busiest;
  }

  lemma {:induction false} FirstEntry(traffic: seq<Entry>, target: string) returns (i: nat)
    ensures FirstOf(traffic, target, i)
    decreases |traffic|
  {
    if traffic == [] || traffic[0].revision == target {
      i := 0;
    } else {
      var k := FirstEntry(traffic[1..], target);
      i := k + 1;
    }
  }

  lemma BusiestEntry(traffic: seq<Entry>, target: string) returns (i: nat)
    ensures BusiestAt(traffic, target, i)
    ensures Busiest(traffic, target).0 == if i < |traffic| then traffic[i].revision else ""
  {
    BusiestIsArgmax(traffic, target);
    hide Busiest;
    var (best, max) := Busiest(traffic, target);
    if max == 0 {
      i := |traffic|;
    } else {
      i :| 0 <= i < |traffic|
           && traffic[i] == Entry(best, max) && best != target
           && forall j | 0 <= j < i && traffic[j].revision != target :: traffic[j].percent < max;
    }
  }

  lemma SharesMeasures(target: string, percent: int, active: string)
    ensures var s := Shares(target, percent, active);
            && Matching(s, target, percent)
            && Weight(s, target) == percent
            && Sum(s) == (if percent < 100 && active != "" && active != target then 100 else percent)
            && forall rev | rev != target ::
                 Weight(s, rev) == if percent < 100 && active != "" && active != target
                     && rev == active then 100 - percent else 0
  {
    var s := Shares(target, percent, active);
    assert s[..1] == [Entry(target, percent)];
    OneEntry(s[0]);
    if |s| == 1 {
      assert s == s[..1];
    }
  }

  lemma OneEntry(e: Entry)
    ensures Sum([e]) == e.percent
    ensures forall rev :: Weight([e], rev) == if e.revision == rev then e.percent else 0
  {
    assert [e][..0] == [];
  }

  /** Shifting twice is shifting once, and the target's entry then shows the wanted percent. */
  lemma AllocateIdempotent(r: Resource, target: string, percent: int)
    ensures Allocate(Allocate(r, target, percent), target, percent) == Allocate(r, target, percent)
    ensures Matching(Allocate(r, target, percent).traffic, target, percent)
  {
    SharesMeasures(target, percent, Active(r, target));
  }

  lemma {:induction false} WeightBounds(traffic: seq<Entry>, revision: string)
    requires WellFormed(traffic)
    ensures 0 <= Weight(traffic, revision) <= Sum(traffic)
    ensures Weight(traffic, revision) == 0 <==> forall e | e in traffic && e.revision == revision :: e.percent == 0
    ensures Weight(traffic, revision) == Sum(traffic)
        <==> forall e | e in traffic && e.revision != revision :: e.percent == 0
    decreases |traffic|
  {
    if traffic != [] {
      var n := |traffic| - 1;
      WeightBounds(traffic[..n], revision);
      assert traffic == traffic[..n] + [traffic[n]];
      assert traffic[n] in traffic;
    }
  }

  /** No other revision serves anything exactly when the target has all the traffic. */
  lemma NoneBusy(traffic: seq<Entry>, target: string)
    requires WellFormed(traffic) && AllNamed(traffic)
    ensures Busiest(traffic, target).0 == "" <==> Weight(traffic, target) == Sum(traffic)
    ensures Busiest(traffic, target).0 != "" ==> Busiest(traffic, target).0 != target
  {
    BusiestIsArgmax(traffic, target);
    WeightBounds(traffic, target);
  }

  /**
   A shift keeps the sum at 100, except exactly when it gives the target less than everything
   and finds no other revision by name to take the rest.
   */
  lemma SumConserved(r: Resource, target: string, percent: int)
    requires Sum(r.traffic) == 100 && 0 <= percent <= 100
    ensures Sum(Allocate(r, target, percent).traffic) == 100 <==>
            !(percent < 100 && !Matching(r.traffic, target, percent) && Active(r, target) in {"", target})
  {
    SharesMeasures(target, percent, Active(r, target));
  }

  /**
   When every entry names its revision, that is when a revision with all the traffic is lowered
   and there is no other latest revision.
   */
  lemma SumConservedNamed(r: Resource, target: string, percent: int)
    requires Balanced(r.traffic) && AllNamed(r.traffic) && 0 <= percent <= 100
    ensures Sum(Allocate(r, target, percent).traffic) == 100 <==>
            !(&& percent < 100 && !Matching(r.traffic, target, percent)
              && Weight(r.traffic, target) == 100 && (r.latest == "" || r.latest == target))
  {
    NoneBusy(r.traffic, target);
    SumConserved(r, target, percent);
  }

  /** With an unnamed entry the rest can be lost although the target held nothing. */
  lemma UnnamedLosesTheRest()
    ensures var r := Resource([Entry("", 100)], "new");
            && Balanced(r.traffic) && Weight(r.traffic, "new") == 0
            && Allocate(r, "new", 10).traffic == [Entry("new", 10)] && Sum(Allocate(r, "new", 10).traffic) == 10
  {
    OneEntry(Entry("", 100));
    OneEntry(Entry("new", 10));
    assert Busiest([Entry("", 100)][..0], "new") == ("", 0);
  }

  // ---------------------------------------------------------------- forward, then back to 0

  ghost predicate SameWeights(a: seq<Entry>, b: seq<Entry>) {
    forall rev: string :: Weight(a, rev) == Weight(b, rev)
  }

  /** The named revision that holds all the traffic, other than the target. */
  ghost predicate AllOn(traffic: seq<Entry>, revision: string, target: string) {
    revision != "" && revision != target && Weight(traffic, revision) == 100
  }

  /** When shifting forward to `percent` and then back to 0 leaves the weights as they were. */
  ghost predicate Reversible(r: Resource, target: string, percent: int) {
    || (percent == 0 && Matching(r.traffic, target, 0))
    || (0 < percent && exists a :: AllOn(r.traffic, a, target) && (percent < 100 || r.latest == a))
  }

  lemma {:induction false} MatchingEntry(traffic: seq<Entry>, target: string, percent: int)
    ensures percent != 0 && Matching(traffic, target, percent) ==> Entry(target, percent) in traffic
    ensures !Matching(traffic, target, 0) ==> exists e :: e in traffic && e.revision == target && e.percent != 0
    ensures percent != 0 && Matching(traffic, target, percent) ==> !Matching(traffic, target, 0)
    decreases |traffic|
  {
    if traffic != [] {
      assert traffic[0] in traffic;
      MatchingEntry(traffic[1..], target, percent);
    }
  }

  /** One revision with all the traffic leaves nothing for any other. */
  lemma AllOnExcludes(traffic: seq<Entry>, a: string, other: string)
    requires Balanced(traffic) && Weight(traffic, a) == 100 && other != a
    ensures Weight(traffic, other) == 0
  {
    WeightBounds(traffic, a);
    WeightBounds(traffic, other);
  }

  /** What the second shift of a round trip sees: the first one's two entries. */
  lemma BusiestOfShares(target: string, percent: int, active: string)
    requires 0 < percent <= 100
    ensures Busiest(Shares(target, percent, active), target).0
         == if percent < 100 && active != "" && active != target then active else ""
  {
    var s := Shares(target, percent, active);
    assert s[..1] == [Entry(target, percent)];
    assert s[..1][..0] == [];
    assert Busiest(s[..1], target) == ("", 0);
    if |s| == 2 {
      assert s[|s| - 1] == Entry(active, 100 - percent);
    } else {
      assert s == s[..1];
    }
  }

  lemma AllOnIsBusiest(traffic: seq<Entry>, a: string, target: string)
    requires Balanced(traffic) && AllOn(traffic, a, target)
    ensures Busiest(traffic, target).0 == a
  {
    BusiestIsArgmax(traffic, target);
    WeightBounds(traffic, a);
    var best := Busiest(traffic, target).0;
    if best != a {
      AllOnExcludes(traffic, a, best);
      WeightBounds(traffic, best);
    }
  }

  /** Weights of the split that puts everything on `active`, compared with balanced traffic. */
  lemma BackToOne(traffic: seq<Entry>, target: string, active: string)
    requires Balanced(traffic)
    ensures SameWeights(Shares(target, 0, active), traffic)
       <==> active != "" && active != target && Weight(traffic, active) == 100
  {
    SharesMeasures(target, 0, active);
    var s := Shares(target, 0, active);
    if active != "" && active != target {
      if Weight(traffic, active) == 100 {
        forall rev: string ensures Weight(s, rev) == Weight(traffic, rev) {
          if rev != active { AllOnExcludes(traffic, active, rev); }
        }
      } else {
        assert Weight(s, active) != Weight(traffic, active);
      }
    } else {
      var rev := SomeBusy(traffic);
      assert Weight(s, rev) != Weight(traffic, rev);
    }
  }

  lemma SomeBusy(traffic: seq<Entry>) returns (rev: string)
    requires Balanced(traffic)
    ensures Weight(traffic, rev) > 0
  {
    WeightBounds(traffic, "");
    if Weight(traffic, "") > 0 {
      return "";
    }
    var e :| e in traffic && e.revision != "" && e.percent != 0;
    rev := e.revision;
    WeightBounds(traffic, rev);
  }

  /**
   Shifting a balanced resource to `percent` and then back to 0 restores every revision's weight
   exactly when the shift was to 0 and changed nothing, or one other revision held all the
   traffic and either kept a share of it or is the latest revision.
   */
  lemma ReverseExactly(r: Resource, target: string, percent: int)
    requires Balanced(r.traffic) && 0 <= percent <= 100
    ensures SameWeights(Allocate(Allocate(r, target, percent), target, 0).traffic, r.traffic)
       <==> Reversible(r, target, percent)
  {
    MatchingEntry(r.traffic, target, percent);
    WeightBounds(r.traffic, target);
    if percent == 0 || Matching(r.traffic, target, percent) {
      UnmovedTarget(r, target, percent);
    } else {
      MovedTarget(r, target, percent);
    }
  }

  /** The revision that takes the rest when the second shift of a round trip goes back to 0. */
  function Returning(r: Resource, target: string, percent: int): string {
    var active := Active(r, target);
    if percent < 100 && active != "" && active != target then active else r.latest
  }

  lemma MovedBack(r: Resource, target: string, percent: int)
    requires 0 < percent <= 100 && !Matching(r.traffic, target, percent)
    ensures Allocate(Allocate(r, target, percent), target, 0).traffic ==
        Shares(target, 0, Returning(r, target, percent))
  {
    var active := Active(r, target);
    hide Busiest;
    SharesMeasures(target, percent, active);
    MatchingEntry(Shares(target, percent, active), target, percent);
    BusiestOfShares(target, percent, active);
  }

  lemma MovedTarget(r: Resource, target: string, percent: int)
    requires Balanced(r.traffic) && 0 < percent <= 100 && !Matching(r.traffic, target, percent)
    ensures SameWeights(Allocate(Allocate(r, target, percent), target, 0).traffic, r.traffic)
       <==> Reversible(r, target, percent)
  {
    hide Allocate, Shares, Weight, Sum, Busiest, SameWeights, Matching;
    var back := Returning(r, target, percent);
    MovedBack(r, target, percent);
    BackToOne(r.traffic, target, back);
    forall a | AllOn(r.traffic, a, target) ensures Active(r, target) == a && a != "" {
      AllOnIsBusiest(r.traffic, a, target);
    }
    if back != "" && back != target && Weight(r.traffic, back) == 100 {
      assert AllOn(r.traffic, back, target);
    }
  }

  lemma UnmovedTarget(r: Resource, target: string, percent: int)
    requires Balanced(r.traffic) && 0 <= percent <= 100
    requires percent == 0 || Matching(r.traffic, target, percent)
    ensures SameWeights(Allocate(Allocate(r, target, percent), target, 0).traffic, r.traffic)
       <==> Reversible(r, target, percent)
  {
    MatchingEntry(r.traffic, target, percent);
    WeightBounds(r.traffic, target);
    AllocateIdempotent(r, target, 0);
    SharesMeasures(target, 0, Active(r, target));
    if !Matching(r.traffic, target, 0) {
      assert Weight(Shares(target, 0, Active(r, target)), target) != Weight(r.traffic, target);
      forall a | AllOn(r.traffic, a, target) ensures false {
        AllOnExcludes(r.traffic, a, target);
      }
    } else {
      assert forall rev: string :: Weight(r.traffic, rev) == Weight(r.traffic, rev);
    }
  }

  /**
   Going to 100 and back does not restore a stable revision when the target is the latest one:
   nothing remembers where the traffic was, and no revision is left with a share.
   */
  lemma FullShiftStrands(r: Resource, stable: string, target: string)
    requires Balanced(r.traffic) && AllOn(r.traffic, stable, target) && r.latest in {"", target}
    ensures Allocate(Allocate(r, target, 100), target, 0).traffic == [Entry(target, 0)]
    ensures !SameWeights(Allocate(Allocate(r, target, 100), target, 0).traffic, r.traffic)
  {
    AllOnExcludes(r.traffic, stable, target);
    MatchingEntry(r.traffic, target, 100);
    WeightBounds(r.traffic, target);
    MovedBack(r, target, 100);
    OneEntry(Entry(target, 0));
    assert Weight([Entry(target, 0)], stable) != Weight(r.traffic, stable);
  }
}
