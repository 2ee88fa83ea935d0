/**
 The archive emitter (internal/adapter/input/phonewave/emitter.go): concurrent PublishFile calls
 share one set of seen paths, which a call claims before it reads its file and clears when
 anything after that fails. Reading, routing, publishing and clearing are separate steps.
 */
module Emitter {
  import opened Wrappers
  import DMail
  import Text

  // ---------------------------------------------------------------- which paths are looked at

  function StripSlashes(path: string): string {
    if path != "" && path[|path| - 1] == '/' then StripSlashes(path[..|path| - 1]) else path
  }

  /** filepath.Base on a system whose separator is a slash. */
  function Base(path: string): string {
    if path == "" then "."
    else
      var s := StripSlashes(path);
      if s == "" then "/" else AfterSlash(s)
  }

  function AfterSlash(s: string): (r: string)
    ensures '/' !in r && Text.HasSuffix(s, r)
  {
    if '/' !in s then s else AfterSlash(s[Text.IndexChar(s, '/') + 1..])
  }

  /** A name that ends in ".md" in upper or lower case, and is not hidden. */
  predicate Watched(path: string) {
    var base := Base(path);
    var n := |base|;
    && n >= 3 && base[n - 3] == '.' && base[n - 2] in "mM" && base[n - 1] in "dD"
    && base[0] != '.'
  }

  predicate Slashes(s: string) {
    forall c | c in s :: c == '/'
  }

  lemma {:induction false} AfterLastSlash(prefix: string, name: string)
    requires '/' !in name && (prefix == "" || Text.HasSuffix(prefix, "/"))
    ensures AfterSlash(prefix + name) == name
    decreases |prefix|
  {
    hide Text.IndexChar;
    if prefix == "" {
      assert prefix + name == name;
    } else {
      assert prefix[|prefix| - 1..][0] == '/' && prefix[|prefix| - 1] == '/';
      var i := Text.IndexChar(prefix, '/');
      var s := prefix + name;
      assert prefix == prefix[..i] + ['/'] + prefix[i + 1..];
      assert s == prefix[..i] + ['/'] + (prefix[i + 1..] + name);
      Text.IndexCharIs(prefix[..i], '/', prefix[i + 1..] + name);
      assert s[i + 1..] == prefix[i + 1..] + name;
      assert prefix[i + 1..] != "" ==> prefix[i + 1..][|prefix| - i - 2..] == "/";
      AfterLastSlash(prefix[i + 1..], name);
    }
  }

  lemma {:induction false} SlashesGo(s: string, slashes: string)
    requires Slashes(slashes)
    ensures StripSlashes(s + slashes) == StripSlashes(s)
    decreases |slashes|
  {
    if slashes == "" {
      assert s + slashes == s;
    } else {
      var n := |slashes| - 1;
      assert slashes[n] in slashes && (s + slashes)[..|s| + n] == s + slashes[..n];
      assert forall i | 0 <= i < n :: slashes[..n][i] in slashes;
      SlashesGo(s, slashes[..n]);
    }
  }

  /**
   Which files are looked at: the last name of the path, whatever is before it and however many
   slashes follow, is a visible stem with the extension in any case; a path of slashes is not one.
   */
  lemma WatchedExactly(prefix: string, name: string, slashes: string)
    requires Slashes(slashes) && '/' !in name && (prefix == "" || Text.HasSuffix(prefix, "/"))
    ensures name != "" ==>
      (Watched(prefix + name + slashes) <==>
       exists ext :: ext in {".md", ".mD", ".Md", ".MD"} && Text.HasSuffix(name, ext) && name != ext && name[0] != '.')
    ensures !Watched(slashes)
  {
    NoNameInSlashes(slashes);
    if name != "" {
      BaseIs(prefix, name, slashes);
      hide Base;
      NameWatched(prefix + name + slashes, name);
    }
  }

  lemma BaseIs(prefix: string, name: string, slashes: string)
    requires Slashes(slashes) && '/' !in name && name != "" && (prefix == "" || Text.HasSuffix(prefix, "/"))
    ensures Base(prefix + name + slashes) == name
  {
    hide AfterSlash;
    SlashesGo(prefix + name, slashes);
    assert (prefix + name)[|prefix| + |name| - 1] == name[|name| - 1] && name[|name| - 1] in name;
    AfterLastSlash(prefix, name);
  }

  lemma NameWatched(path: string, name: string)
    requires Base(path) == name && name != ""
    ensures Watched(path) <==>
      exists ext :: ext in {".md", ".mD", ".Md", ".MD"} && Text.HasSuffix(name, ext) && name != ext && name[0] != '.'
  {
    hide Base;
    var n := |name|;
    if Watched(path) {
      var ext := name[n - 3..];
      assert ext == ['.', name[n - 2], name[n - 1]];
      assert ext in {".md", ".mD", ".Md", ".MD"} && Text.HasSuffix(name, ext) && name != ext;
    }
    if ext :| ext in {".md", ".mD", ".Md", ".MD"} && Text.HasSuffix(name, ext) && name != ext && name[0] != '.' {
      assert name[n - 3] == ext[0] && name[n - 2] == ext[1] && name[n - 1] == ext[2];
    }
  }

  lemma {:induction false} NoNameInSlashes(slashes: string)
    requires Slashes(slashes)
    ensures !Watched(slashes)
  {
    SlashesGo("", slashes);
    assert "" + slashes == slashes;
  }

  // ---------------------------------------------------------------- what is published

  datatype RouteError = NotMapped | RouterFailed

  /** Any archive router: the project of an event path, empty in single mode. */
  type Router = string -> Result<string, RouteError>

  const PROJECT_ID := "project_id"

  /** A routed project id wins over the one in the document. */
  function Stamp(mail: DMail.Mail, routed: string): DMail.Mail {
    if routed == "" then mail else mail.(metadata := mail.metadata[PROJECT_ID := routed])
  }

  datatype EmitError = StatFailed | ReadFailed | ParseFailed(error: DMail.ParseError) | RouteFailed | PublishFailed

  datatype Stage =
    | Reading
    | Routing(data: string)                      // parsed
    | Publishing(data: string, mail: DMail.Mail)
    | Clearing(error: Option<EmitError>)         // failed or unmapped, path not cleared yet
    | Done(error: Option<EmitError>)

  /** A call that got past the file name and file kind checks. */
  datatype Call = Call(path: string, abs: string)

  datatype Thread = Thread(call: Call, stage: Stage)

  datatype Message = Message(call: Call, data: string, mail: DMail.Mail)

  datatype State = State(seen: set<string>, threads: map<nat, Thread>, published: seq<Message>)

  const START := State({}, map[], [])

  datatype Event =
    | Claim(t: nat, call: Call)
    | Read(t: nat, data: Option<string>)
    | Resolve(t: nat)
    | Publish(t: nat, ok: bool)
    | Clear(t: nat)

  function SetStage(s: State, t: nat, stage: Stage): State
    requires t in s.threads
  {
    s.(threads := s.threads[t := s.threads[t].(stage := stage)])
  }

  function AfterRead(data: Option<string>): Stage {
    if data.None? then Clearing(Some(ReadFailed))
    else
      var parsed := DMail.Parse(data.value);
      if parsed.Err? then Clearing(Some(ParseFailed(parsed.error))) else Routing(data.value)
  }

  /** The mail for a readable document at a path the router maps. */
  function Outgoing(router: Router, path: string, data: string): Option<DMail.Mail> {
    var parsed, routed := DMail.Parse(data), router(path);
    if parsed.Ok? && routed.Ok? then Some(Stamp(parsed.value, routed.value)) else None
  }

  function AfterResolve(router: Router, path: string, data: string): Stage {
    var routed := router(path);
    if routed == Err(NotMapped) then Clearing(None)
    else if routed.Err? then Clearing(Some(RouteFailed))
    else
      var mail := Outgoing(router, path, data);
      if mail.Some? then Publishing(data, mail.value) else Clearing(Some(RouteFailed))
  }

  /** One atomic step; an event that is not enabled changes nothing. */
  function Next(router: Router, s: State, e: Event): State {
    match e
    case Claim(t, call) =>
      if t in s.threads then s
      else if call.abs in s.seen then s.(threads := s.threads[t := Thread(call, Done(None))])
      else s.(seen := s.seen + {call.abs}, threads := s.threads[t := Thread(call, Reading)])
    case Read(t, data) =>
      if t !in s.threads || s.threads[t].stage != Reading then s
      else SetStage(s, t, AfterRead(data))
    case Resolve(t) =>
      if t !in s.threads || !s.threads[t].stage.Routing? then s
      else SetStage(s, t, AfterResolve(router, s.threads[t].call.path, s.threads[t].stage.data))
    case Publish(t, ok) =>
      if t !in s.threads || !s.threads[t].stage.Publishing? then s
      else if !ok then SetStage(s, t, Clearing(Some(PublishFailed)))
      else
        var th := s.threads[t];
        SetStage(s, t, Done(None)).(published := s.published + [Message(th.call, th.stage.data, th.stage.mail)])
    case Clear(t) =>
      if t !in s.threads || !s.threads[t].stage.Clearing? then s
      else SetStage(s, t, Done(s.threads[t].stage.error)).(seen := s.seen - {s.threads[t].call.abs})
  }

  function Run(router: Router, s: State, events: seq<Event>): State
    decreases |events|
  {
    if events == [] then s else Run(router, Next(router, s, events[0]), events[1..])
  }

  // ---------------------------------------------------------------- what every interleaving keeps

  /** A call between its claim and its end. */
  predicate InFlight(s: State, t: nat, abs: string) {
    t in s.threads && s.threads[t].call.abs == abs && !s.threads[t].stage.Done?
  }

  predicate Published(s: State, abs: string) {
    exists i :: 0 <= i < |s.published| && s.published[i].call.abs == abs
  }

  ghost predicate Busy(s: State, abs: string) {
    exists t :: InFlight(s, t, abs)
  }

  /** Seen are exactly the paths in flight and the paths published. */
  ghost predicate SeenExact(s: State) {
    forall abs :: abs in s.seen <==> Busy(s, abs) || Published(s, abs)
  }

  ghost predicate Disjoint(s: State) {
    && (forall abs | Published(s, abs) :: !Busy(s, abs))
    && (forall t, u, abs | InFlight(s, t, abs) && InFlight(s, u, abs) :: t == u)
    && (forall i, j | 0 <= i < j < |s.published| :: s.published[i].call.abs != s.published[j].call.abs)
  }

  /** A message is its file's content as parsed, with the routed project. */
  predicate Faithful(router: Router, m: Message) {
    Outgoing(router, m.call.path, m.data) == Some(m.mail)
  }

  /**
   What is sent for a file: every field and the body as parsed from its content; its metadata too,
   except that a routed project id, when there is one, stands under its key whatever the document says.
   */
  predicate Carries(router: Router, m: Message) {
    && router(m.call.path).Ok? && DMail.Parse(m.data).Ok?
    && var id, doc := router(m.call.path).value, DMail.Parse(m.data).value;
       && m.mail.id == doc.id && m.mail.kind == doc.kind && m.mail.target == doc.target
       && m.mail.source == doc.source && m.mail.idempotencyKey == doc.idempotencyKey && m.mail.body == doc.body
       && if id == "" then m.mail.metadata == doc.metadata
          else
            && m.mail.metadata.Keys == doc.metadata.Keys + {"project_id"}
            && m.mail.metadata["project_id"] == id
            && forall k | k in doc.metadata && k != "project_id" :: m.mail.metadata[k] == doc.metadata[k]
  }

  lemma FaithfulCarries(router: Router, m: Message)
    requires Faithful(router, m)
    ensures Carries(router, m)
  {
    hide DMail.Parse;
  }

  predicate StageOk(router: Router, th: Thread) {
    && (th.stage.Routing? ==> DMail.Parse(th.stage.data).Ok?)
    && (th.stage.Publishing? ==> Faithful(router, Message(th.call, th.stage.data, th.stage.mail)))
  }

  ghost predicate AllFaithful(router: Router, s: State) {
    && (forall m | m in s.published :: Faithful(router, m))
    && (forall t | t in s.threads :: StageOk(router, s.threads[t]))
  }

  ghost predicate Inv(router: Router, s: State) {
    SeenExact(s) && Disjoint(s) && AllFaithful(router, s)
  }

  /** How one event changes what is in flight, published and seen. */
  datatype Effect = Nothing | Claimed(abs: string) | Sent(abs: string) | Cleared(abs: string)

  function EffectOf(s: State, e: Event): Effect {
    match e
    case Claim(t, call) => if t in s.threads || call.abs in s.seen then Nothing else Claimed(call.abs)
    case Publish(t, ok) => if t in s.threads && s.threads[t].stage.Publishing? && ok then Sent(s.threads[t].call.abs)
        else Nothing
    case Clear(t) => if t in s.threads && s.threads[t].stage.Clearing? then Cleared(s.threads[t].call.abs) else Nothing
    case _ => Nothing
  }

  lemma EffectSeen(router: Router, s: State, e: Event)
    ensures Next(router, s, e).seen == match EffectOf(s, e)
      case Claimed(abs) => s.seen + {abs}
      case Cleared(abs) => s.seen - {abs}
      case _ => s.seen
  {
    hide AfterRead, AfterResolve;
  }

  lemma EffectPublished(router: Router, s: State, e: Event)
    ensures EffectOf(s, e).Sent? ==>
      && var th := s.threads[e.t];
         Next(router, s, e).published == s.published + [Message(th.call, th.stage.data, th.stage.mail)]
    ensures !EffectOf(s, e).Sent? ==> Next(router, s, e).published == s.published
  {
    hide AfterRead, AfterResolve;
  }

  /** Only a claim puts a call in flight, only publishing and clearing take one out. */
  lemma EffectInFlight(router: Router, s: State, e: Event, t: nat, abs: string)
    ensures InFlight(Next(router, s, e), t, abs) <==>
            if EffectOf(s, e).Claimed? && t == e.t then abs == EffectOf(s, e).abs
            else if (EffectOf(s, e).Sent? || EffectOf(s, e).Cleared?) && t == e.t then false
            else InFlight(s, t, abs)
  {
    hide DMail.Parse, Outgoing;
  }

  lemma EffectOnOwn(s: State, e: Event)
    requires EffectOf(s, e).Sent? || EffectOf(s, e).Cleared?
    ensures InFlight(s, e.t, EffectOf(s, e).abs)
  {
  }

  /** The changes of one event, by the thread `own`. */
  ghost predicate Moves(s: State, s': State, f: Effect, own: nat) {
    && s'.seen == (match f case Claimed(abs) => s.seen + {abs} case Cleared(abs) => s.seen - {abs} case _ => s.seen)
    && (forall t: nat, abs :: InFlight(s', t, abs) <==>
          if f.Claimed? && t == own then abs == f.abs
          else if (f.Sent? || f.Cleared?) && t == own then false
          else InFlight(s, t, abs))
    && (f.Sent? || f.Cleared? ==> InFlight(s, own, f.abs))
    && (f.Claimed? ==> f.abs !in s.seen && forall abs :: !InFlight(s, own, abs))
    && (forall abs :: Published(s', abs) <==> Published(s, abs) || (f.Sent? && abs == f.abs))
  }

  lemma NextMoves(router: Router, s: State, e: Event)
    ensures Moves(s, Next(router, s, e), EffectOf(s, e), e.t)
  {
    var s', f := Next(router, s, e), EffectOf(s, e);
    hide Next, EffectOf, InFlight, Published;
    EffectSeen(router, s, e);
    forall t: nat, abs
      ensures InFlight(s', t, abs) <==>
              if f.Claimed? && t == e.t then abs == f.abs
              else if (f.Sent? || f.Cleared?) && t == e.t then false
              else InFlight(s, t, abs)
    {
      EffectInFlight(router, s, e, t, abs);
    }
    if f.Sent? || f.Cleared? { EffectOnOwn(s, e); }
    if f.Claimed? { ClaimedWasFree(s, e); }
    forall abs ensures Published(s', abs) <==> Published(s, abs) || (f.Sent? && abs == f.abs) {
      PublishedAfter(router, s, e, abs);
    }
  }

  lemma NextDisjoint(router: Router, s: State, e: Event)
    requires SeenExact(s) && Disjoint(s)
    ensures SeenExact(Next(router, s, e)) && Disjoint(Next(router, s, e))
  {
    var s', f := Next(router, s, e), EffectOf(s, e);
    NextMoves(router, s, e);
    hide Next, EffectOf, InFlight, Published;
    forall abs ensures abs in s'.seen <==> Busy(s', abs) || Published(s', abs) {
      SeenAfter(s, s', f, e.t, abs);
    }
    forall abs | Published(s', abs) ensures !Busy(s', abs) {
      SeenAfter(s, s', f, e.t, abs);
    }
    forall t: nat, u: nat, abs | InFlight(s', t, abs) && InFlight(s', u, abs) ensures t == u {
      SoleAfter(s, s', f, e.t, t, u, abs);
    }
    EffectPublished(router, s, e);
    SentIs(s, e);
    if f.Sent? { SentOnce(s, s', f.abs); }
  }

  lemma ClaimedWasFree(s: State, e: Event)
    requires EffectOf(s, e).Claimed?
    ensures EffectOf(s, e).abs !in s.seen
    ensures forall abs :: !InFlight(s, e.t, abs)
  {
  }

  lemma PublishedAfter(router: Router, s: State, e: Event, abs: string)
    ensures Published(Next(router, s, e), abs)
        <==> Published(s, abs) || (EffectOf(s, e).Sent? && abs == EffectOf(s, e).abs)
  {
    var s' := Next(router, s, e);
    EffectPublished(router, s, e);
    SentIs(s, e);
    hide Next, EffectOf;
    if Published(s, abs) {
      var i :| 0 <= i < |s.published| && s.published[i].call.abs == abs;
      assert s'.published[i].call.abs == abs;
    }
    if EffectOf(s, e).Sent? {
      assert s'.published[|s.published|].call.abs == EffectOf(s, e).abs;
    }
  }

  lemma SentIs(s: State, e: Event)
    ensures EffectOf(s, e).Sent? ==> e.Publish? && e.t in s.threads && s.threads[e.t].stage.Publishing?
                                     && EffectOf(s, e).abs == s.threads[e.t].call.abs
  {
  }

  lemma OnePath(s: State, t: nat, a: string, b: string)
    ensures InFlight(s, t, a) && InFlight(s, t, b) ==> a == b
  {
  }

  lemma SeenAfter(s: State, s': State, f: Effect, own: nat, abs: string)
    requires SeenExact(s) && Disjoint(s) && Moves(s, s', f, own)
    ensures abs in s'.seen <==> Busy(s', abs) || Published(s', abs)
    ensures !(Busy(s', abs) && Published(s', abs))
  {
    hide InFlight, Published;
    if f.Claimed? && abs == f.abs {
      assert InFlight(s', own, abs);
    } else if (f.Sent? || f.Cleared?) && abs == f.abs {
      assert InFlight(s, own, abs) && Busy(s, abs);
      assert !Busy(s', abs);
    } else {
      assert abs in s'.seen <==> abs in s.seen;
      if Busy(s, abs) {
        var t :| InFlight(s, t, abs);
        if f.Sent? || f.Cleared? { OnePath(s, own, f.abs, abs); }
        assert InFlight(s', t, abs);
      }
      if Busy(s', abs) {
        var t :| InFlight(s', t, abs);
        assert InFlight(s, t, abs);
      }
    }
  }

  lemma SoleAfter(s: State, s': State, f: Effect, own: nat, t: nat, u: nat, abs: string)
    requires SeenExact(s) && Disjoint(s) && Moves(s, s', f, own)
    requires InFlight(s', t, abs) && InFlight(s', u, abs)
    ensures t == u
  {
    hide InFlight, Published;
    assert InFlight(s, t, abs) || (f.Claimed? && t == own && abs == f.abs);
    assert InFlight(s, u, abs) || (f.Claimed? && u == own && abs == f.abs);
  }

  lemma SentOnce(s: State, s': State, abs: string)
    requires Disjoint(s) && Busy(s, abs)
    requires |s'.published| == |s.published| + 1 && s'.published[..|s.published|] == s.published
    requires s'.published[|s.published|].call.abs == abs
    ensures forall i, j | 0 <= i < j < |s'.published| :: s'.published[i].call.abs != s'.published[j].call.abs
  {
    hide InFlight;
    forall i, j | 0 <= i < j < |s'.published| ensures s'.published[i].call.abs != s'.published[j].call.abs {
      assert s'.published[i] == s.published[i];
      assert s.published[i].call.abs == abs ==> Published(s, abs);
    }
  }

  lemma NextFaithful(router: Router, s: State, e: Event)
    requires AllFaithful(router, s)
    ensures AllFaithful(router, Next(router, s, e))
  {
    hide DMail.Parse, Stamp;
  }

  lemma NextInv(router: Router, s: State, e: Event)
    requires Inv(router, s)
    ensures Inv(router, Next(router, s, e))
  {
    NextDisjoint(router, s, e);
    NextFaithful(router, s, e);
  }

  lemma {:induction false} RunInv(router: Router, s: State, events: seq<Event>)
    requires Inv(router, s)
    ensures Inv(router, Run(router, s, events))
    decreases |events|
  {
    if events != [] {
      hide Next, Inv;
      NextInv(router, s, events[0]);
      RunInv(router, Next(router, s, events[0]), events[1..]);
    }
  }

  /**
   In every interleaving the seen paths are exactly those in flight and those published, no path
   is both, at most one call per path is in flight and each path is published at most once; what is
   published is the document as parsed, under the routed project.
   */
  lemma SeenIsInFlightOrPublished(router: Router, events: seq<Event>)
    ensures var s := Run(router, START, events);
            && SeenExact(s) && Disjoint(s)
            && forall m | m in s.published :: Carries(router, m)
  {
    assert Inv(router, START) by {
      assert forall t, abs :: !InFlight(START, t, abs);
    }
    RunInv(router, START, events);
    hide Run, Faithful, Carries, SeenExact, Disjoint, StageOk;
    var s := Run(router, START, events);
    forall m | m in s.published ensures Carries(router, m) {
      FaithfulCarries(router, m);
    }
  }

  /** A call is let through exactly when its path was never published and no other call is at it. */
  lemma RetryExactly(router: Router, events: seq<Event>, t: nat, call: Call)
    requires t !in Run(router, START, events).threads
    ensures var s := Run(router, START, events);
            var s' := Next(router, s, Claim(t, call));
            && t in s'.threads
            && (s'.threads[t].stage == Reading <==> !Published(s, call.abs) && !Busy(s, call.abs))
            && (s'.threads[t].stage != Reading ==> s'.threads[t].stage == Done(None) && s'.seen == s.seen)
  {
    SeenIsInFlightOrPublished(router, events);
  }

  // ---------------------------------------------------------------- PublishFile in one piece

  /** What the file system and the publisher answer during one call. */
  datatype World = World(stat: Option<bool>, abs: Option<string>, data: Option<string>, accepts: bool)

  function AbsOf(path: string, w: World): string {
    if w.abs.Some? then w.abs.value else path
  }

  /** All steps of one call, back to back. */
  function Attempt(t: nat, path: string, w: World): seq<Event> {
    [Claim(t, Call(path, AbsOf(path, w))), Read(t, w.data), Resolve(t), Publish(t, w.accepts), Clear(t)]
  }

  lemma RunAttempt(router: Router, s: State, e: seq<Event>)
    requires |e| == 5
    ensures Run(router, s, e)
         == Next(router, Next(router, Next(router, Next(router, Next(router, s, e[0]), e[1]), e[2]), e[3]), e[4])
  {
    hide Next;
    var s1 := Next(router, s, e[0]);
    var s2 := Next(router, s1, e[1]);
    var s3 := Next(router, s2, e[2]);
    var s4 := Next(router, s3, e[3]);
    assert Run(router, s, e) == Run(router, s1, e[1..]);
    assert Run(router, s1, e[1..]) == Run(router, s2, e[1..][1..]) && e[1..][1..] == e[2..];
    assert Run(router, s2, e[2..]) == Run(router, s3, e[2..][1..]) && e[2..][1..] == e[3..];
    assert Run(router, s3, e[3..]) == Run(router, s4, e[3..][1..]) && e[3..][1..] == e[4..];
    assert Run(router, s4, e[4..]) == Run(router, Next(router, s4, e[4]), e[4..][1..]) && e[4..][1..] == [];
  }

  /** What a call on a path that is not in use leaves behind. */
  function Outcome(router: Router, path: string, w: World): Stage {
    var read := AfterRead(w.data);
    var resolved := if read.Routing? then AfterResolve(router, path, read.data) else read;
    if resolved.Publishing? && !w.accepts then Clearing(Some(PublishFailed)) else resolved
  }

  /** A state in which only the call of thread t has started. */
  function Standing(s: State, t: nat, call: Call, stage: Stage): (s': State)
    ensures t in s'.threads
  {
    s.(seen := s.seen + {call.abs}, threads := s.threads[t := Thread(call, stage)])
  }

  lemma StandingRead(router: Router, s: State, t: nat, call: Call, data: Option<string>)
    ensures Next(router, Standing(s, t, call, Reading), Read(t, data)) == Standing(s, t, call, AfterRead(data))
  {
    hide AfterRead;
  }

  lemma StandingResolve(router: Router, s: State, t: nat, call: Call, stage: Stage)
    ensures Next(router, Standing(s, t, call, stage), Resolve(t))
         == Standing(s, t, call, if stage.Routing? then AfterResolve(router, call.path, stage.data) else stage)
  {
    hide AfterResolve;
  }

  lemma StandingPublish(router: Router, s: State, t: nat, call: Call, stage: Stage, ok: bool)
    ensures var s' := Next(router, Standing(s, t, call, stage), Publish(t, ok));
            if !stage.Publishing? then s' == Standing(s, t, call, stage)
            else if ok then s' == Standing(s, t, call,
                Done(None)).(published := s.published + [Message(call, stage.data, stage.mail)])
            else s' == Standing(s, t, call, Clearing(Some(PublishFailed)))
  {
  }

  lemma StandingClear(router: Router, s: State, t: nat, call: Call, stage: Stage)
    requires call.abs !in s.seen && stage.Clearing?
    ensures Next(router, Standing(s, t, call, stage), Clear(t)) ==
        s.(threads := s.threads[t := Thread(call, Done(stage.error))])
  {
    assert s.seen + {call.abs} - {call.abs} == s.seen;
  }

  lemma SkippedAttempt(router: Router, s: State, t: nat, path: string, w: World)
    requires t !in s.threads && AbsOf(path, w) in s.seen
    ensures Run(router, s, Attempt(t, path, w)) ==
        s.(threads := s.threads[t := Thread(Call(path, AbsOf(path, w)), Done(None))])
  {
    RunAttempt(router, s, Attempt(t, path, w));
    hide Run, AfterRead, AfterResolve;
  }

  lemma OutcomeStage(router: Router, path: string, w: World)
    ensures var o := Outcome(router, path, w);
            (o.Clearing? || o.Publishing?) && (o.Publishing? ==> w.accepts)
  {
    hide DMail.Parse, Stamp;
  }

  lemma AttemptOutcome(router: Router, s: State, t: nat, path: string, w: World)
    requires t !in s.threads && AbsOf(path, w) !in s.seen
    ensures var s', call := Run(router, s, Attempt(t, path, w)), Call(path, AbsOf(path, w));
            var o := Outcome(router, path, w);
            if o.Clearing? then s' == s.(threads := s.threads[t := Thread(call, Done(o.error))])
            else o.Publishing? &&
                 s' == Standing(s, t, call, Done(None)).(published := s.published + [Message(call, o.data, o.mail)])
  {
    hide AfterRead, AfterResolve, Next, Run;
    RunAttempt(router, s, Attempt(t, path, w));
    OutcomeStage(router, path, w);
    var call := Call(path, AbsOf(path, w));
    StandingClaim(router, s, t, call);
    StandingRead(router, s, t, call, w.data);
    var read := AfterRead(w.data);
    StandingResolve(router, s, t, call, read);
    var resolved := if read.Routing? then AfterResolve(router, path, read.data) else read;
    StandingPublish(router, s, t, call, resolved, w.accepts);
    var o := Outcome(router, path, w);
    if o.Clearing? {
      StandingClear(router, s, t, call, o);
    } else {
      DoneStays(router, Standing(s, t, call, Done(None)).(published := s.published + [Message(call, o.data, o.mail)]),
          t);
    }
  }

  lemma StandingClaim(router: Router, s: State, t: nat, call: Call)
    requires t !in s.threads && call.abs !in s.seen
    ensures Next(router, s, Claim(t, call)) == Standing(s, t, call, Reading)
  {
  }

  lemma DoneStays(router: Router, s: State, t: nat)
    requires t in s.threads && s.threads[t].stage.Done?
    ensures Next(router, s, Clear(t)) == s
  {
  }

  lemma OutcomeCases(router: Router, path: string, w: World)
    ensures var o := Outcome(router, path, w);
            if w.data.None? then o == Clearing(Some(ReadFailed))
            else if DMail.Parse(w.data.value).Err? then o ==
                Clearing(Some(ParseFailed(DMail.Parse(w.data.value).error)))
            else if router(path) == Err(NotMapped) then o == Clearing(None)
            else if router(path).Err? then o == Clearing(Some(RouteFailed))
            else if !w.accepts then o == Clearing(Some(PublishFailed))
            else o == Publishing(w.data.value, Stamp(DMail.Parse(w.data.value).value, router(path).value))
  {
    hide DMail.Parse, Stamp;
  }

  /**
   After any number of failed attempts a good file is still published, once: its content, as parsed,
   under the routed project, and nothing else.
   */
  lemma RetryPublishes(router: Router, events: seq<Event>, t: nat, path: string, w: World) returns (m: Message)
    requires var s := Run(router, START, events);
             t !in s.threads && !Busy(s, AbsOf(path, w)) && !Published(s, AbsOf(path, w))
    requires w.data.Some? && DMail.Parse(w.data.value).Ok? && router(path).Ok? && w.accepts
    ensures var s := Run(router, START, events);
            Run(router, s, Attempt(t, path, w)).published == s.published + [m]
    ensures m.call == Call(path, if w.abs.Some? then w.abs.value else path)
    ensures m.data == w.data.value && Carries(router, m)
  {
    hide DMail.Parse, Stamp, Attempt, Outcome, Carries;
    var s := Run(router, START, events);
    SeenIsInFlightOrPublished(router, events);
    AttemptOutcome(router, s, t, path, w);
    OutcomeCases(router, path, w);
    var mail := Stamp(DMail.Parse(w.data.value).value, router(path).value);
    m := Message(Call(path, AbsOf(path, w)), w.data.value, mail);
    FaithfulCarries(router, m);
  }

  class FileEmitter {
    const router: Router
    var seen: set<string>
    var published: seq<Message>

    constructor (router: Router)
      ensures this.router == router && seen == {} && published == []
    {
      this.router, this.seen, this.published := router, {}, [];
    }

    /**
     One call that no other call interleaves with. It returns without effect for a file that is
     not watched, for a directory and for a path already seen; otherwise it does what its steps do
     in any state with the same seen paths and publications.
     */
    method PublishFile(path: string, w: World, ghost s: State, ghost t: nat) returns (error: Option<EmitError>)
      requires s.seen == seen && s.published == published && t !in s.threads
      modifies this
      ensures !Watched(path) ==> error == None && seen == old(seen) && published == old(published)
      ensures Watched(path) && w.stat.None? ==>
          error == Some(StatFailed) && seen == old(seen) && published == old(published)
      ensures Watched(path) && w.stat == Some(true) ==>
          error == None && seen == old(seen) && published == old(published)
      ensures Watched(path) && w.stat == Some(false) && (if w.abs.Some? then w.abs.value else path) in old(seen) ==>
          error == None && seen == old(seen) && published == old(published)
      ensures Watched(path) && w.stat == Some(false) ==>
                var s' := Run(router, s, Attempt(t, path, w));
                seen == s'.seen && published == s'.published && t in s'.threads && s'.threads[t].stage == Done(error)
      ensures published != old(published) ==>
                && |published| == |old(published)| + 1
                && var m := published[|old(published)|];
                   m.call.path == path && Some(m.data) == w.data && Carries(router, m)
    {
      if !Watched(path) {
        return None;
      }
      if w.stat.None? {
        return Some(StatFailed);
      }
      if w.stat.value {
        return None;
      }
      var abs := if w.abs.Some? then w.abs.value else path;
      if abs in seen {
        SkippedAttempt(router, s, t, path, w);
        return None;
      }
      AttemptOutcome(router, s, t, path, w);
      OutcomeCases(router, path, w);
      hide Run, Attempt, DMail.Parse, Outcome, Watched, Carries;
      ghost var before := seen;
      seen := seen + {abs};
      assert seen - {abs} == before;
      if w.data.None? {
        seen := seen - {abs};
        return Some(ReadFailed);
      }
      var mail := DMail.ParseDMail(w.data.value);
      if mail.Err? {
        seen := seen - {abs};
        return Some(ParseFailed(mail.error));
      }
      var routedId := router(path);
      if routedId == Err(NotMapped) {
        seen := seen - {abs};
        return None;
      }
      if routedId.Err? {
        seen := seen - {abs};
        return Some(RouteFailed);
      }
      var outgoing := mail.value;
      if routedId.value != "" {
        outgoing := outgoing.(metadata := outgoing.metadata[PROJECT_ID := routedId.value]);
      }
      if !w.accepts {
        seen := seen - {abs};
        return Some(PublishFailed);
      }
      var message := Message(Call(path, abs), w.data.value, outgoing);
      FaithfulCarries(router, message);
      published := published + [message];
      return None;
    }
  }
}
