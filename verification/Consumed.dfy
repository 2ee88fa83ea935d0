/**
 The one-time token store (internal/adapter/output/state/consumed.go): a map from tokens to
 expiry times from which expired entries are deleted once every 64 calls. Its answers are those
 of a store that deletes nothing, except exactly where an entry was collected at a reading that
 a later call's reading falls behind.
 */
module Consumed {

  const GC_EVERY := 64

  datatype Request = Request(token: string, now: int)

  // ---------------------------------------------------------------- the store, call by call

  predicate Accepts(tokens: map<string, int>, r: Request) {
    !(r.token in tokens && r.now < tokens[r.token])
  }

  /** The entries a collection keeps. */
  function Live(tokens: map<string, int>, now: int): map<string, int> {
    map k | k in tokens && now < tokens[k] :: tokens[k]
  }

  /** Whether call number i, counted from 0, collects. */
  predicate Collects(i: nat) {
    (i + 1) % GC_EVERY == 0
  }

  /** Every 64th call does. */
  lemma CollectsExactly(i: nat)
    ensures Collects(i) <==> i % 64 == 63
  {
  }

  function Swept(tokens: map<string, int>, i: nat, now: int): map<string, int> {
    if Collects(i) then Live(tokens, now) else tokens
  }

  /** The map after these calls, whatever their readings. */
  function Held(ttl: int, rs: seq<Request>): map<string, int> {
    if rs == [] then map[]
    else
      var n := |rs| - 1;
      var tokens := Swept(Held(ttl, rs[..n]), n, rs[n].now);
      if Accepts(tokens, rs[n]) then tokens[rs[n].token := rs[n].now + ttl] else tokens
  }

  /** The answer to call i. */
  predicate Answer(ttl: int, rs: seq<Request>, i: nat)
    requires i < |rs|
  {
    Accepts(Swept(Held(ttl, rs[..i]), i, rs[i].now), rs[i])
  }

  class MemoryConsumedStore {
    var tokens: map<string, int>
    const ttl: int
    var gcCounter: nat
    ghost var requests: seq<Request>

    ghost predicate Valid()
      reads this
    {
      tokens == Held(ttl, requests) && gcCounter == |requests| % GC_EVERY
    }

    constructor (ttl: int)
      ensures Valid() && this.ttl == ttl && requests == []
    {
      this.tokens, this.ttl, this.gcCounter := map[], ttl, 0;
      this.requests := [];
    }

    /** Deletes every expired entry. */
    method CollectGarbage(now: int)
      modifies this`tokens
      ensures tokens == Live(old(tokens), now)
    {
      var pending := tokens.Keys;
      ghost var before := tokens;
      while pending != {}
        invariant pending <= before.Keys
        invariant tokens == map k | k in before && (k in pending || now < before[k]) :: before[k]
        decreases |pending|
      {
        var k :| k in pending;
        if tokens[k] <= now {
          tokens := tokens - {k};
        }
        pending := pending - {k};
      }
    }

    /** Whether the token is fresh, which is then recorded; any reading of the clock will do. */
    method MarkConsumed(token: string, now: int) returns (accepted: bool)
      requires Valid()
      modifies this
      ensures Valid() && requests == old(requests) + [Request(token, now)]
      ensures accepted == Answer(ttl, requests, |old(requests)|)
    {
      hide Held, Live;
      ghost var n := |requests|;
      CounterStep(n);
      HeldNext(ttl, requests, Request(token, now));
      gcCounter := gcCounter + 1;
      if gcCounter >= GC_EVERY {
        gcCounter := 0;
        CollectGarbage(now);
      }
      requests := requests + [Request(token, now)];
      if token in tokens && now < tokens[token] {
        return false;
      }
      tokens := tokens[token := now + ttl];
      return true;
    }
  }

  lemma CounterStep(n: nat)
    ensures var c := n % GC_EVERY + 1;
            && (Collects(n) <==> c >= GC_EVERY)
            && (n + 1) % GC_EVERY == if c >= GC_EVERY then 0 else c
  {
  }

  lemma HeldNext(ttl: int, rs: seq<Request>, r: Request)
    ensures var all, tokens := rs + [r], Swept(Held(ttl, rs), |rs|, r.now);
            && Answer(ttl, all, |rs|) == Accepts(tokens, r)
            && Held(ttl, all) == if Accepts(tokens, r) then tokens[r.token := r.now + ttl] else tokens
  {
    assert (rs + [r])[..|rs|] == rs;
  }

  // ---------------------------------------------------------------- a store that deletes nothing

  /** An entry, and the number of the call that made it. */
  datatype Entry = Entry(expiry: int, born: nat)

  predicate Admits(kept: map<string, Entry>, r: Request) {
    !(r.token in kept && r.now < kept[r.token].expiry)
  }

  function Kept(ttl: int, rs: seq<Request>): map<string, Entry> {
    if rs == [] then map[]
    else
      var n := |rs| - 1;
      var kept := Kept(ttl, rs[..n]);
      if Admits(kept, rs[n]) then kept[rs[n].token := Entry(rs[n].now + ttl, n)] else kept
  }

  predicate PlainAnswer(ttl: int, rs: seq<Request>, i: nat)
    requires i < |rs|
  {
    Admits(Kept(ttl, rs[..i]), rs[i])
  }

  lemma KeptNext(ttl: int, rs: seq<Request>, n: nat)
    requires n < |rs|
    ensures var kept, r := Kept(ttl, rs[..n]), rs[n];
            Kept(ttl, rs[..n + 1]) == if PlainAnswer(ttl, rs, n) then kept[r.token := Entry(r.now + ttl, n)] else kept
  {
    assert rs[..n + 1][..n] == rs[..n];
  }

  /** The entry of a token as an earlier, admitted call left it. */
  predicate MadeBy(ttl: int, rs: seq<Request>, n: nat, k: string, e: Entry)
    requires n <= |rs|
  {
    && e.born < n && rs[e.born].token == k && PlainAnswer(ttl, rs, e.born)
    && e.expiry == rs[e.born].now + ttl
  }

  /** Every entry stems from an admitted call, and no later call of its token was admitted. */
  predicate FromLast(ttl: int, rs: seq<Request>, n: nat, kept: map<string, Entry>)
    requires n <= |rs|
  {
    && (forall k | k in kept :: MadeBy(ttl, rs, n, k, kept[k]))
    && (forall j | 0 <= j < n && PlainAnswer(ttl, rs, j) :: rs[j].token in kept && j <= kept[rs[j].token].born)
  }

  lemma FromLastNext(ttl: int, rs: seq<Request>, n: nat, kept: map<string, Entry>)
    requires n < |rs| && FromLast(ttl, rs, n, kept)
    ensures FromLast(ttl, rs, n + 1,
              if PlainAnswer(ttl, rs, n) then kept[rs[n].token := Entry(rs[n].now + ttl, n)] else kept)
  {
    hide PlainAnswer;
  }

  lemma {:induction false} KeptIsLast(ttl: int, rs: seq<Request>, n: nat)
    requires n <= |rs|
    ensures FromLast(ttl, rs, n, Kept(ttl, rs[..n]))
    decreases n
  {
    hide Kept, FromLast, PlainAnswer;
    if n > 0 {
      KeptIsLast(ttl, rs, n - 1);
      FromLastNext(ttl, rs, n - 1, Kept(ttl, rs[..n - 1]));
      KeptNext(ttl, rs, n - 1);
    } else {
      KeptNone(ttl, rs);
    }
  }

  lemma KeptNone(ttl: int, rs: seq<Request>)
    ensures FromLast(ttl, rs, 0, Kept(ttl, rs[..0]))
  {
    hide PlainAnswer;
    assert rs[..0] == [];
  }

  // ---------------------------------------------------------------- when the two agree

  /** Collected since it was made, by a call before number n whose reading had reached its expiry. */
  predicate Dropped(e: Entry, rs: seq<Request>, n: nat)
    requires n <= |rs|
  {
    exists j :: e.born < j < n && Collects(j) && e.expiry <= rs[j].now
  }

  /** Call i reads a time before the expiry of an entry that was already collected. */
  predicate Forgotten(ttl: int, rs: seq<Request>, i: nat)
    requires i < |rs|
  {
    var kept := Kept(ttl, rs[..i]);
    rs[i].token in kept && rs[i].now < kept[rs[i].token].expiry && Dropped(kept[rs[i].token], rs, i + 1)
  }

  /** The store holds what the other one keeps, less what was collected before call n. */
  ghost predicate Matches(tokens: map<string, int>, kept: map<string, Entry>, rs: seq<Request>, n: nat)
    requires n <= |rs|
  {
    && (forall k :: k in tokens <==> k in kept && !Dropped(kept[k], rs, n))
    && (forall k | k in tokens :: tokens[k] == kept[k].expiry)
  }

  lemma DroppedNext(e: Entry, rs: seq<Request>, n: nat)
    requires n < |rs|
    ensures Dropped(e, rs, n + 1) <==> Dropped(e, rs, n) || (e.born < n && Collects(n) && e.expiry <= rs[n].now)
  {
    hide Collects;
    if Dropped(e, rs, n) {
      var j :| e.born < j < n && Collects(j) && e.expiry <= rs[j].now;
      assert Dropped(e, rs, n + 1);
    }
  }

  lemma MatchesSwept(tokens: map<string, int>, kept: map<string, Entry>, rs: seq<Request>, n: nat)
    requires n < |rs| && Matches(tokens, kept, rs, n) && forall k | k in kept :: kept[k].born < n
    ensures Matches(Swept(tokens, n, rs[n].now), kept, rs, n + 1)
  {
    hide Dropped, Collects;
    forall k | k in kept
      ensures Dropped(kept[k], rs, n + 1) <==> Dropped(kept[k], rs, n) || (Collects(n) && kept[k].expiry <= rs[n].now)
    {
      DroppedNext(kept[k], rs, n);
    }
  }

  /** As long as nothing was forgotten, the next answers differ exactly when something is. */
  lemma MatchesNext(ttl: int, rs: seq<Request>, n: nat)
    requires n < |rs| && Matches(Held(ttl, rs[..n]), Kept(ttl, rs[..n]), rs, n)
    ensures Answer(ttl, rs, n) != PlainAnswer(ttl, rs, n) <==> Forgotten(ttl, rs, n)
    ensures !Forgotten(ttl, rs, n) ==> Matches(Held(ttl, rs[..n + 1]), Kept(ttl, rs[..n + 1]), rs, n + 1)
  {
    hide Held, Kept, Dropped, Swept;
    var r := rs[n];
    var tokens, kept := Held(ttl, rs[..n]), Kept(ttl, rs[..n]);
    KeptIsLast(ttl, rs, n);
    KeptNext(ttl, rs, n);
    assert rs[..n + 1] == rs[..n] + [r] && (rs[..n] + [r])[..n] == rs[..n];
    HeldNext(ttl, rs[..n], r);
    MatchesSwept(tokens, kept, rs, n);
    NewbornStays(Entry(r.now + ttl, n), rs, n + 1);
  }

  lemma NewbornStays(e: Entry, rs: seq<Request>, n: nat)
    requires n <= |rs| && n <= e.born + 1
    ensures !Dropped(e, rs, n)
  {
  }

  lemma {:induction false} MatchesUpTo(ttl: int, rs: seq<Request>, n: nat)
    requires n <= |rs| && forall i | 0 <= i < n :: !Forgotten(ttl, rs, i)
    ensures Matches(Held(ttl, rs[..n]), Kept(ttl, rs[..n]), rs, n)
    ensures forall i | 0 <= i < n :: Answer(ttl, rs, i) == PlainAnswer(ttl, rs, i)
    decreases n
  {
    if n > 0 {
      MatchesUpTo(ttl, rs, n - 1);
      MatchesNext(ttl, rs, n - 1);
    }
  }

  /**
   For any readings, all answers are those of the store that deletes nothing exactly when no call
   reads a time before the expiry of an entry of its token that was already collected; and the
   first such call is the first to get a different answer.
   */
  lemma AgreesExactly(ttl: int, rs: seq<Request>)
    ensures (forall i | 0 <= i < |rs| :: Answer(ttl, rs, i) == PlainAnswer(ttl, rs, i))
       <==> (forall i | 0 <= i < |rs| :: !Forgotten(ttl, rs, i))
    ensures forall i | 0 <= i < |rs| && (forall j | 0 <= j < i :: !Forgotten(ttl, rs, j)) ::
              Answer(ttl, rs, i) != PlainAnswer(ttl, rs, i) <==> Forgotten(ttl, rs, i)
  {
    hide Answer, PlainAnswer, Forgotten;
    forall i | 0 <= i < |rs| && (forall j | 0 <= j < i :: !Forgotten(ttl, rs, j))
      ensures Answer(ttl, rs, i) != PlainAnswer(ttl, rs, i) <==> Forgotten(ttl, rs, i)
    {
      MatchesUpTo(ttl, rs, i);
      MatchesNext(ttl, rs, i);
    }
    if i :| 0 <= i < |rs| && Forgotten(ttl, rs, i) {
      var first := FirstForgotten(ttl, rs, i);
    }
  }

  lemma {:induction false} FirstForgotten(ttl: int, rs: seq<Request>, i: nat) returns (first: nat)
    requires i < |rs| && Forgotten(ttl, rs, i)
    ensures first < |rs| && Forgotten(ttl, rs, first) && forall j | 0 <= j < first :: !Forgotten(ttl, rs, j)
    decreases i
  {
    hide Forgotten;
    if j: nat :| j < i && Forgotten(ttl, rs, j) {
      first := FirstForgotten(ttl, rs, j);
    } else {
      first := i;
    }
  }

  // ---------------------------------------------------------------- clocks that do not run backwards

  predicate Forward(rs: seq<Request>) {
    forall i, j | 0 <= i < j < |rs| :: rs[i].now <= rs[j].now
  }

  lemma ForwardForgetsNothing(ttl: int, rs: seq<Request>)
    requires Forward(rs)
    ensures forall i | 0 <= i < |rs| :: Answer(ttl, rs, i) == PlainAnswer(ttl, rs, i)
  {
    hide Answer, PlainAnswer, Forgotten, Forward;
    forall i | 0 <= i < |rs| ensures !Forgotten(ttl, rs, i) {
      NoneForgotten(ttl, rs, i);
    }
    AgreesExactly(ttl, rs);
  }

  lemma NoneForgotten(ttl: int, rs: seq<Request>, i: nat)
    requires Forward(rs) && i < |rs|
    ensures !Forgotten(ttl, rs, i)
  {
    hide Kept, Collects;
  }

  lemma PlainByHistory(ttl: int, rs: seq<Request>, i: nat)
    requires Forward(rs) && i < |rs|
    ensures PlainAnswer(ttl, rs, i) <==>
            forall j | 0 <= j < i && rs[j].token == rs[i].token && PlainAnswer(ttl, rs, j) ::
                rs[j].now + ttl <= rs[i].now
  {
    var kept, k := Kept(ttl, rs[..i]), rs[i].token;
    assert PlainAnswer(ttl, rs, i) == Admits(kept, rs[i]);
    hide Kept, PlainAnswer;
    KeptIsLast(ttl, rs, i);
    if k in kept {
      LastAdmitted(ttl, rs, i, k);
      assert PlainAnswer(ttl, rs, kept[k].born);
    }
  }

  /** A mark is accepted exactly when no mark of its token was accepted less than ttl before it. */
  lemma AnsweredByHistory(ttl: int, rs: seq<Request>, i: nat)
    requires Forward(rs) && i < |rs|
    ensures Answer(ttl, rs, i) <==>
            forall j | 0 <= j < i && rs[j].token == rs[i].token && Answer(ttl, rs, j) :: rs[j].now + ttl <= rs[i].now
  {
    hide Answer, PlainAnswer;
    ForwardForgetsNothing(ttl, rs);
    PlainByHistory(ttl, rs, i);
    forall j | 0 <= j < i && PlainAnswer(ttl, rs, j) ensures Answer(ttl, rs, j) {
    }
  }

  lemma LastAdmitted(ttl: int, rs: seq<Request>, n: nat, k: string)
    requires n <= |rs| && k in Kept(ttl, rs[..n])
    ensures MadeBy(ttl, rs, n, k, Kept(ttl, rs[..n])[k])
  {
    hide MadeBy, Kept;
    KeptIsLast(ttl, rs, n);
  }

  /** Two accepted marks of one token are at least ttl apart. */
  lemma AcceptedApart(ttl: int, rs: seq<Request>, i: nat, j: nat)
    requires Forward(rs) && i < j < |rs| && rs[i].token == rs[j].token
    requires Answer(ttl, rs, i) && Answer(ttl, rs, j)
    ensures rs[i].now + ttl <= rs[j].now
  {
    hide Answer;
    AnsweredByHistory(ttl, rs, j);
  }

  /** A refused mark follows an accepted one of its token that is less than ttl old. */
  lemma RefusedIsReplay(ttl: int, rs: seq<Request>, i: nat)
    requires Forward(rs) && i < |rs| && !Answer(ttl, rs, i)
    ensures exists j :: 0 <= j < i && rs[j].token == rs[i].token && Answer(ttl, rs, j) && rs[i].now < rs[j].now + ttl
  {
    hide Answer;
    AnsweredByHistory(ttl, rs, i);
  }

  // ---------------------------------------------------------------- a clock that does

  /** A token marked at 0, a collection at 10, and the token again at 5. */
  const BACKWARD := [Request("t", 0)] + seq(62, i => Request("x", 0)) + [Request("x", 10), Request("t", 5)]

  lemma {:induction false} KeptStays(ttl: int, rs: seq<Request>, k: string, a: nat, b: nat)
    requires a <= b <= |rs| && k in Kept(ttl, rs[..a]) && forall i | a <= i < b :: rs[i].token != k
    ensures k in Kept(ttl, rs[..b]) && Kept(ttl, rs[..b])[k] == Kept(ttl, rs[..a])[k]
    decreases b
  {
    if a < b {
      KeptStays(ttl, rs, k, a, b - 1);
      assert rs[..b][..b - 1] == rs[..b - 1];
    }
  }

  /** Five units after it was marked for ten, a token is accepted a second time. */
  lemma BackwardClockForgets()
    ensures |BACKWARD| == 65 && Forgotten(10, BACKWARD, 64)
    ensures Answer(10, BACKWARD, 0) && Answer(10, BACKWARD, 64) && !PlainAnswer(10, BACKWARD, 64)
  {
    var rs := BACKWARD;
    assert rs[..1][..0] == [] && rs[0] == Request("t", 0) && rs[63] == Request("x", 10) && rs[64] == Request("t", 5);
    assert forall i | 1 <= i < 63 :: rs[i] == Request("x", 0);
    assert rs[..1] == [rs[0]] && Kept(10, rs[..1]) == map["t" := Entry(10, 0)];
    KeptStays(10, rs, "t", 1, 64);
    assert Collects(63);
    assert Dropped(Entry(10, 0), rs, 65);
    forall i | 0 <= i < 64 ensures !Forgotten(10, rs, i) {
      KeptIsLast(10, rs, i);
    }
    hide Kept, Held;
    AgreesExactly(10, rs);
  }
}
