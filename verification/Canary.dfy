/**
 Action strings and the canary ladder (internal/core/domain/domain.go): decimal percents are
 printed into button actions such as `canary_30` and parsed back from them.
 */
module Canary {
  import opened Wrappers
  import opened Text

  // ---------------------------------------------------------------- decimal numbers

  predicate IsDigit(c: char) {
    '0' <= c <= '9'
  }

  predicate AllDigits(s: string) {
    forall c | c in s :: IsDigit(c)
  }

  function DigitsValue(s: string): int
    requires AllDigits(s)
  {
    if s == "" then 0
    else
      assert IsDigit(s[|s| - 1]);
      DigitsValue(s[..|s| - 1]) * 10 + (s[|s| - 1] - '0') as int
  }

  /** strconv.ParseInt(s, 10, 32); None stands for either of its errors. */
  function ParseInt32(s: string): (r: Option<int>)
    ensures r.Some? ==> -0x8000_0000 <= r.value < 0x8000_0000
  {
    if s == "" then None
    else
      var t := if s[0] == '+' || s[0] == '-' then s[1..] else s;
      if t == "" || !AllDigits(t) then None
      else
        var n: int := if s[0] == '-' then -DigitsValue(t) else DigitsValue(t);
        if -0x8000_0000 <= n < 0x8000_0000 then Some(n) else None
  }

  function PrintNat(n: nat): (s: string)
    ensures s != "" && AllDigits(s)
  {
    var digit := ['0' + (n % 10) as char];
    if n < 10 then digit else PrintNat(n / 10) + digit
  }

  /** The %d verb. */
  function PrintInt(n: int): string {
    if n < 0 then "-" + PrintNat(-n) else PrintNat(n)
  }

  lemma {:induction false} DigitsValueOfPrint(n: nat)
    ensures DigitsValue(PrintNat(n)) == n
  {
    var s := PrintNat(n);
    assert s[..|s| - 1] == if n < 10 then "" else PrintNat(n / 10);
    if n >= 10 {
      DigitsValueOfPrint(n / 10);
    }
  }

  lemma ParseInt32OfPrint(n: int)
    ensures ParseInt32(PrintInt(n)) == if -0x8000_0000 <= n < 0x8000_0000 then Some(n) else None
  {
    hide PrintNat, DigitsValue;
    if n < 0 {
      DigitsValueOfPrint(-n);
      assert PrintInt(n)[1..] == PrintNat(-n);
    } else {
      DigitsValueOfPrint(n);
      assert IsDigit(PrintNat(n)[0]);
    }
  }

  // ---------------------------------------------------------------- actions

  datatype Action = Action(name: string, percent: int)

  datatype ActionError = EmptyAction | PercentOutOfRange(percent: int)

  function ParseAction(s: string): (r: Result<Action, ActionError>)
    ensures r.Ok? ==> 0 <= r.value.percent <= 100
    ensures r.Ok? && r.value.percent != 0 ==> r.value.name + "_" <= s
  {
    if s == "" then Err(EmptyAction)
    else
      var i := IndexChar(s, '_');
      if i < 0 then Ok(Action(s, 0))
      else
        match ParseInt32(s[i + 1..])
        case None => Ok(Action(s, 0))
        case Some(n) =>
          assert s[..i] + "_" <= s;
          if n < 0 || n > 100 then Err(PercentOutOfRange(n)) else Ok(Action(s[..i], n))
  }

  /** Parsing what was printed: every percent comes back, and only percents are accepted. */
  lemma ParseActionOfPrint(name: string, n: int)
    requires '_' !in name
    ensures ParseAction(name + "_" + PrintInt(n))
         == if 0 <= n <= 100 then Ok(Action(name, n))
            else if -0x8000_0000 <= n < 0x8000_0000 then Err(PercentOutOfRange(n))
            else Ok(Action(name + "_" + PrintInt(n), 0))
  {
    var s := name + "_" + PrintInt(n);
    IndexCharIs(name, '_', PrintInt(n));
    assert s[..|name|] == name && s[|name| + 1..] == PrintInt(n);
    ParseInt32OfPrint(n);
  }

  lemma IntegerReads(sign: string, digits: string)
    requires sign in {"", "+", "-"} && digits != "" && AllDigits(digits)
    ensures var n: int := if sign == "-" then -DigitsValue(digits) else DigitsValue(digits);
            ParseInt32(sign + digits) == if -0x8000_0000 <= n < 0x8000_0000 then Some(n) else None
  {
    hide DigitsValue;
    assert IsDigit(digits[0]);
    if sign == "" {
      assert sign + digits == digits;
    } else {
      assert (sign + digits)[1..] == digits && (sign + digits)[0] == sign[0];
    }
  }

  predicate NoInteger(s: string) {
    s in {"", "+", "-"} || (!IsDigit(s[0]) && s[0] !in "+-") || exists i :: 0 < i < |s| && !IsDigit(s[i])
  }

  lemma NoIntegerReads(s: string)
    requires NoInteger(s)
    ensures ParseInt32(s) == None
  {
    if s !in {"", "+", "-"} && (IsDigit(s[0]) || s[0] in "+-") {
      var i :| 0 < i < |s| && !IsDigit(s[i]);
      assert s[1..][i - 1] == s[i];
      assert s[i] in s && s[i] in s[1..];
    } else {
      assert s != "" ==> s[0] in s;
    }
  }

  /** What follows the first underscore is no whole number: the action keeps its whole name. */
  lemma NameKept(name: string, rest: string)
    requires '_' !in name && NoInteger(rest)
    ensures ParseAction(name + "_" + rest) == Ok(Action(name + "_" + rest, 0))
  {
    hide ParseInt32, NoInteger;
    var s := name + "_" + rest;
    IndexCharIs(name, '_', rest);
    assert s[..|name|] == name && s[|name| + 1..] == rest;
    NoIntegerReads(rest);
  }

  // ---------------------------------------------------------------- the ladder

  const CANARY_STEPS: seq<int> := [10, 30, 50, 80, 100]

  function NextFrom(current: int, i: nat): int
    requires i <= |CANARY_STEPS|
    decreases |CANARY_STEPS| - i
  {
    if i == |CANARY_STEPS| then 0
    else if CANARY_STEPS[i] == current && i + 1 < |CANARY_STEPS| then CANARY_STEPS[i + 1]
    else NextFrom(current, i + 1)
  }

  function NextCanaryPercent(current: int): int {
    NextFrom(current, 0)
  }

  /** The next step is the least one above; there is none at the top and none off the ladder. */
  lemma NextIsLeastAbove(current: int)
    ensures var next := NextCanaryPercent(current);
            if current in CANARY_STEPS && current < 100
            then next in CANARY_STEPS && current < next
                 && forall p | p in CANARY_STEPS && current < p :: next <= p
            else next == 0
  {
    assert CANARY_STEPS == [10, 30, 50, 80, 100];
    assert NextFrom(current, 5) == 0;
    assert NextFrom(current, 4) == 0;
    assert NextFrom(current, 3) == if current == 80 then 100 else 0;
    assert NextFrom(current, 2) == if current == 50 then 80 else NextFrom(current, 3);
    assert NextFrom(current, 1) == if current == 30 then 50 else NextFrom(current, 2);
  }

  /** The percent approveShift applies: rollback means 0, a missing percent means 10. */
  function EffectivePercent(a: Action): int {
    if a.name == "rollback" then 0 else if a.percent == 0 then 10 else a.percent
  }

  /** The advance button after a completed shift, if one is offered. */
  function NextAction(a: Action): Option<string> {
    if a.name == "rollback" || NextCanaryPercent(EffectivePercent(a)) <= 0 then None
    else Some("canary_" + PrintInt(NextCanaryPercent(EffectivePercent(a))))
  }

  /** The button a click leads to: the next step after a success, the same action after a failure. */
  function AfterClick(action: string, succeeded: bool): Option<string> {
    match ParseAction(action)
    case Err(_) => None
    case Ok(a) => if succeeded then NextAction(a) else Some(action)
  }

  /** A run of clicks on advance and retry buttons, each click on the button the one before led to. */
  predicate LadderRun(clicks: seq<(string, bool)>) {
    && (forall i | 0 <= i < |clicks| :: ParseAction(clicks[i].0).Ok?)
    && (forall i | 0 < i < |clicks| :: AfterClick(clicks[i - 1].0, clicks[i - 1].1) == Some(clicks[i].0))
  }

  function PercentOf(action: string): int
    requires ParseAction(action).Ok?
  {
    EffectivePercent(ParseAction(action).value)
  }

  /**
   How an action is read: it is cut at the first underscore if a whole number follows, and is a name
   of its own otherwise. A rollback applies 0 percent, an action without a percent, or with 0, 10.
   */
  lemma ActionReads(name: string, sign: string, digits: string)
    requires '_' !in name && sign in {"", "+", "-"} && digits != "" && AllDigits(digits)
    ensures ParseAction(name) == if name == "" then Err(EmptyAction) else Ok(Action(name, 0))
    ensures name != "" ==> PercentOf(name) == if name == "rollback" then 0 else 10
    ensures var n: int := if sign == "-" then -DigitsValue(digits) else DigitsValue(digits);
            var read := ParseAction(name + "_" + (sign + digits));
            if 0 <= n <= 100
            then read == Ok(Action(name, n)) &&
                 PercentOf(name + "_" + (sign + digits)) == if name == "rollback" then 0 else if n == 0 then 10 else n
            else if -0x8000_0000 <= n < 0x8000_0000 then read == Err(PercentOutOfRange(n))
            else read == Ok(Action(name + "_" + (sign + digits), 0))
  {
    hide DigitsValue, ParseInt32;
    var s := name + "_" + (sign + digits);
    IndexCharIs(name, '_', sign + digits);
    assert s[..|name|] == name && s[|name| + 1..] == sign + digits;
    IntegerReads(sign, digits);
  }

  lemma NextActionClimbs(a: Action)
    requires NextAction(a).Some?
    ensures var n := NextAction(a).value;
            && ParseAction(n).Ok? && EffectivePercent(a) in CANARY_STEPS && PercentOf(n) in CANARY_STEPS
            && EffectivePercent(a) < PercentOf(n) == NextCanaryPercent(EffectivePercent(a)) <= 100
  {
    var next := NextCanaryPercent(EffectivePercent(a));
    NextIsLeastAbove(EffectivePercent(a));
    ParseActionOfPrint("canary", next);
    assert "canary_" == "canary" + "_";
  }

  lemma OneClick(action: string, succeeded: bool, next: string)
    requires ParseAction(action).Ok? && AfterClick(action, succeeded) == Some(next)
    ensures ParseAction(next).Ok?
    ensures if succeeded then PercentOf(action) < PercentOf(next) <= 100 else PercentOf(action) == PercentOf(next)
    ensures succeeded ==> PercentOf(action) in CANARY_STEPS && PercentOf(next) in CANARY_STEPS
  {
    if succeeded {
      NextActionClimbs(ParseAction(action).value);
    }
  }

  /** Along any run the percents never fall, and they strictly rise past every success. */
  lemma {:induction false} LadderClimbs(clicks: seq<(string, bool)>, i: nat, j: nat)
    requires LadderRun(clicks) && i < j < |clicks|
    ensures PercentOf(clicks[i].0) <= PercentOf(clicks[j].0)
    ensures clicks[i].1 ==> PercentOf(clicks[i].0) < PercentOf(clicks[j].0) <= 100
    decreases j
  {
    hide ParseAction, EffectivePercent;
    OneClick(clicks[j - 1].0, clicks[j - 1].1, clicks[j].0);
    if i < j - 1 {
      LadderClimbs(clicks, i, j - 1);
    }
  }

  function Successes(clicks: seq<(string, bool)>): nat {
    if clicks == [] then 0 else (if clicks[0].1 then 1 else 0) + Successes(clicks[1..])
  }

  function StepsAbove(p: int): nat {
    |set s | s in CANARY_STEPS && p < s|
  }

  lemma StepsAboveValues(p: int)
    requires p in CANARY_STEPS
    ensures StepsAbove(p) <= 4
    ensures p < 100 ==> StepsAbove(NextCanaryPercent(p)) < StepsAbove(p)
  {
    var above := set s | s in CANARY_STEPS && p < s;
    assert above <= {30, 50, 80, 100};
    SubsetSize(above, {30, 50, 80, 100});
    NextIsLeastAbove(p);
    if p < 100 {
      var next := NextCanaryPercent(p);
      var above' := set s | s in CANARY_STEPS && next < s;
      SubsetSize(above', above - {next});
    }
  }

  lemma SubsetSize(a: set<int>, b: set<int>)
    requires a <= b
    ensures |a| <= |b|
  {
    assert b == a + (b - a);
  }

  lemma {:induction false} RunMeasure(clicks: seq<(string, bool)>)
    requires clicks != [] && LadderRun(clicks)
    ensures var p := PercentOf(clicks[0].0);
            Successes(clicks) <= 1 + if p in CANARY_STEPS then StepsAbove(p) else 0
    decreases |clicks|
  {
    var p := PercentOf(clicks[0].0);
    if |clicks| == 1 {
      assert Successes(clicks[1..]) == 0;
    } else {
      var rest := clicks[1..];
      assert LadderRun(rest) by {
        forall i | 0 < i < |rest| ensures AfterClick(rest[i - 1].0, rest[i - 1].1) == Some(rest[i].0) {
          assert rest[i - 1] == clicks[i] && rest[i] == clicks[i + 1];
        }
      }
      RunMeasure(rest);
      assert AfterClick(clicks[0].0, clicks[0].1) == Some(clicks[1].0);
      OneClick(clicks[0].0, clicks[0].1, clicks[1].0);
      if clicks[0].1 {
        NextActionClimbs(ParseAction(clicks[0].0).value);
        StepsAboveValues(p);
      }
    }
  }

  /** However failures and retries are interleaved, at most five clicks of a run succeed. */
  lemma RolloutEnds(clicks: seq<(string, bool)>)
    requires LadderRun(clicks)
    ensures Successes(clicks) <= 5
  {
    if clicks != [] {
      RunMeasure(clicks);
      var p := PercentOf(clicks[0].0);
      if p in CANARY_STEPS {
        StepsAboveValues(p);
      }
    }
  }

  /** After the last step nothing more is offered, and every step below it offers the next one. */
  lemma TopOfLadder(a: Action)
    requires 0 <= a.percent <= 100
    ensures NextAction(a).Some?
        <==> a.name != "rollback" && EffectivePercent(a) in CANARY_STEPS && EffectivePercent(a) < 100
    ensures NextAction(a).Some? ==>
      NextAction(a).value == match EffectivePercent(a)
                             case 10 => "canary_30"
                             case 30 => "canary_50"
                             case 50 => "canary_80"
                             case _ => "canary_100"
  {
    NextIsLeastAbove(EffectivePercent(a));
    assert PrintNat(30) == PrintNat(3) + "0" && PrintNat(50) == PrintNat(5) + "0" && PrintNat(80) == PrintNat(8) + "0";
    assert PrintNat(100) == PrintNat(10) + "0" && PrintNat(10) == PrintNat(1) + "0";
    assert "canary_" + "100" == "canary_100";
  }
}
