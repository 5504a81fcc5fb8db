/** The two-application ASGI lifespan multiplexer as interleaved atomic steps: one step is the
    code a task runs between two awaits. The sub-applications are arbitrary: they may send any
    message at any time, return, raise, or swallow a cancellation. */
module Lifespan {

  datatype App = Django | Mcp

  /** What a sub-application may send; `Other` is any message type the callbacks ignore. */
  datatype AppMessage = StartupComplete | StartupFailed | ShutdownComplete | Other

  datatype ServerMessage = Startup | Shutdown

  /** The handler's own replies to the server. */
  datatype Reply = ReplyComplete | ReplyFailed | ReplyShutdown

  datatype Life = Created | Running | Ended

  /** A sub-app runner: its task, its two events, its queue and what it has taken from it. */
  datatype Sub = Sub(life: Life, began: bool, cancelling: bool, ok: bool, done: bool,
                     queue: seq<ServerMessage>, taken: seq<ServerMessage>)

  /** Where the handler awaits. `Gathering` is the finally block, `Returned` the end. */
  datatype Point = Receive1 | WaitOk(app: App) | Decide | Replying(next: Point) | Receive2
                 | WaitDone(app: App) | Finish | Gathering | Returned

  /** Everything observable, in order. `AppGone` is a runner's finally block. */
  datatype Event = AppSent(app: App, msg: AppMessage) | AppGone(app: App) | Replied(reply: Reply)

  datatype State = State(django: Sub, mcp: Sub, failed: bool, at: Point, inbox: seq<ServerMessage>, log: seq<Event>)

  function SubOf(s: State, a: App): Sub {
    match a
    case Django => s.django
    case Mcp => s.mcp
  }

  function Put(s: State, a: App, b: Sub): State {
    match a
    case Django => s.(django := b)
    case Mcp => s.(mcp := b)
  }

  function NewSub(): Sub {
    Sub(Created, false, false, false, false, [], [])
  }

  /** Both tasks created, nothing awaited yet. */
  function Start(): State {
    State(NewSub(), NewSub(), false, Receive1, [], [])
  }

  // ----- sub-app steps -----

  /** django_send / mcp_send. */
  function OnSend(s: State, a: App, m: AppMessage): State {
    var b := SubOf(s, a);
    var t := s.(log := s.log + [AppSent(a, m)]);
    match m
    case StartupComplete => Put(t, a, b.(ok := true))
    case StartupFailed => Put(t.(failed := true), a, b.(ok := true))
    case ShutdownComplete => Put(t, a, b.(done := true))
    case Other => t
  }

  /** run_subapp's finally: settle both events, and count a death before reporting as a failure. */
  function OnExit(s: State, a: App): State {
    var b := SubOf(s, a);
    Put(s.(failed := s.failed || !b.ok, log := s.log + [AppGone(a)]), a, b.(life := Ended, ok := true, done := true))
  }

  /** What a runner can do in one step. */
  datatype Act = Begin        // the task's first step
               | NeverBegin   // cancelled before it: the body, and so its finally block, never runs
               | Send(msg: AppMessage)
               | Take
               | Exit         // return, exception or cancellation
               | Swallow      // the application survives a cancellation

  predicate AppStep(s: State, t: State, a: App, act: Act) {
    var b := SubOf(s, a);
    match act
    case Begin => b.life == Created && !b.cancelling && t == Put(s, a, b.(life := Running, began := true))
    case NeverBegin => b.life == Created && b.cancelling && t == Put(s, a, b.(life := Ended))
    case Send(m) => b.life == Running && t == OnSend(s, a, m)
    case Take => b.life == Running && b.queue != [] && t == Put(s, a, b.(queue := b.queue[1..], taken := b.taken + [b.queue[0]]))
    case Exit => b.life == Running && t == OnExit(s, a)
    case Swallow => b.life == Running && b.cancelling && t == Put(s, a, b.(cancelling := false))
  }

  // ----- handler steps -----

  /** `receive()` returned; the message goes to both unbounded queues. */
  function Deliver(s: State, m: ServerMessage, next: Point): State {
    s.(django := s.django.(queue := s.django.queue + [m]), mcp := s.mcp.(queue := s.mcp.queue + [m]),
       inbox := s.inbox + [m], at := next)
  }

  function SendReply(s: State, r: Reply, next: Point): State {
    s.(log := s.log + [Replied(r)], at := Replying(next))
  }

  /** Entering the finally block cancels every task that has not ended. */
  function Cancelled(b: Sub): Sub {
    if b.life == Ended then b else b.(cancelling := true)
  }

  function CancelAll(s: State): State {
    s.(django := Cancelled(s.django), mcp := Cancelled(s.mcp), at := Gathering)
  }

  predicate HandlerStep(s: State, t: State) {
    match s.at
    case Receive1 => t == Deliver(s, Startup, WaitOk(Django))
    case WaitOk(Django) => s.django.ok && t == s.(at := WaitOk(Mcp))
    case WaitOk(Mcp) => s.mcp.ok && t == s.(at := Decide)
    case Decide => t == if s.failed then SendReply(s, ReplyFailed, Gathering) else SendReply(s, ReplyComplete, Receive2)
    case Replying(next) => t == if next == Gathering then CancelAll(s) else s.(at := next)
    case Receive2 => t == Deliver(s, Shutdown, WaitDone(Django))
    case WaitDone(Django) => s.django.done && t == s.(at := WaitDone(Mcp))
    case WaitDone(Mcp) => s.mcp.done && t == s.(at := Finish)
    case Finish => t == SendReply(s, ReplyShutdown, Gathering)
    case Gathering => s.django.life == Ended && s.mcp.life == Ended && t == s.(at := Returned)
    case Returned => false
  }

  /** An await of the handler raises: the server cancels it, or `receive` or `send` fails. */
  predicate HandlerRaises(s: State, t: State) {
    if s.at == Returned then false
    else if s.at == Gathering then t == s.(at := Returned)
    else t == CancelAll(s)
  }

  ghost predicate Step(s: State, t: State) {
    (exists a, act :: AppStep(s, t, a, act)) || HandlerStep(s, t) || HandlerRaises(s, t)
  }

  ghost predicate Run(ss: seq<State>) {
    ss != [] && ss[0] == Start() && forall i :: 0 <= i < |ss| - 1 ==> Step(ss[i], ss[i + 1])
  }

  // ----- what the log means, independently of the flags -----

  /** What a log says about one application: it sent startup.complete, sent startup.failed, is
      gone, was gone before reporting either, sent shutdown.complete. */
  datatype Facts = Facts(complete: bool, complained: bool, gone: bool, silent: bool, closed: bool)

  function Note(f: Facts, e: Event, a: App): Facts {
    if e == AppSent(a, StartupComplete) then f.(complete := true)
    else if e == AppSent(a, StartupFailed) then f.(complained := true)
    else if e == AppSent(a, ShutdownComplete) then f.(closed := true)
    else if e == AppGone(a) then f.(gone := true, silent := f.silent || !(f.complete || f.complained))
    else f
  }

  function FactsOf(log: seq<Event>, a: App): Facts {
    if log == [] then Facts(false, false, false, false, false)
    else Note(FactsOf(log[..|log| - 1], a), log[|log| - 1], a)
  }

  /** Read off the log event by event, without the recursion. */
  lemma {:induction false} FactsMean(log: seq<Event>, a: App)
    ensures FactsOf(log, a).complete <==> AppSent(a, StartupComplete) in log
    ensures FactsOf(log, a).complained <==> AppSent(a, StartupFailed) in log
    ensures FactsOf(log, a).closed <==> AppSent(a, ShutdownComplete) in log
    ensures FactsOf(log, a).gone <==> AppGone(a) in log
  {
    if log != [] {
      FactsMean(log[..|log| - 1], a);
      assert log == log[..|log| - 1] + [log[|log| - 1]];
    }
  }

  /** A silent death is an exit with no report anywhere before it. */
  predicate SilentAt(log: seq<Event>, a: App, i: nat)
    requires i < |log|
  {
    log[i] == AppGone(a) && AppSent(a, StartupComplete) !in log[..i] && AppSent(a, StartupFailed) !in log[..i]
  }

  lemma {:induction false} SilentMeans(log: seq<Event>, a: App)
    ensures FactsOf(log, a).silent <==> exists i :: 0 <= i < |log| && SilentAt(log, a, i)
  {
    if log != [] {
      var init := log[..|log| - 1];
      SilentMeans(init, a);
      FactsMean(init, a);
      forall i | 0 <= i < |init| ensures SilentAt(log, a, i) <==> SilentAt(init, a, i) {
        assert log[..i] == init[..i];
      }
      assert SilentAt(log, a, |log| - 1) <==> log[|log| - 1] == AppGone(a) && !FactsOf(init, a).complete && !FactsOf(init, a).complained;
    }
  }

  function Replies(log: seq<Event>): seq<Reply> {
    if log == [] then []
    else Replies(log[..|log| - 1]) + if log[|log| - 1].Replied? then [log[|log| - 1].reply] else []
  }

  /** The lifespan protocol's allowed replies: startup complete then shutdown complete, or a
      startup failure and nothing else. */
  predicate AllowedReplies(rs: seq<Reply>) {
    rs <= [ReplyComplete, ReplyShutdown] || rs <= [ReplyFailed]
  }

  predicate Failed(f: Facts) {
    f.complained || f.silent
  }

  /** May this event follow this log? startup.complete only when both applications reported a
      completed startup and neither failed; startup.failed only when one did; shutdown.complete
      only when both have closed or gone. */
  predicate Honest(log: seq<Event>, e: Event) {
    var d, m := FactsOf(log, Django), FactsOf(log, Mcp);
    && (e == Replied(ReplyComplete) ==> d.complete && m.complete && !Failed(d) && !Failed(m))
    && (e == Replied(ReplyFailed) ==> Failed(d) || Failed(m))
    && (e == Replied(ReplyShutdown) ==> (d.closed || d.gone) && (m.closed || m.gone))
  }

  predicate Truthful(log: seq<Event>) {
    log == [] || (Truthful(log[..|log| - 1]) && Honest(log[..|log| - 1], log[|log| - 1]))
  }

  // ----- the invariant -----

  predicate SubInv(b: Sub, f: Facts, at: Point, inbox: seq<ServerMessage>) {
    && (b.ok <==> f.complete || f.complained || f.gone)
    && (b.done <==> f.closed || f.gone)
    && (f.gone <==> b.life == Ended && b.began)
    && (f.silent ==> f.gone)
    && (f.gone && !f.complete && !f.complained ==> f.silent)
    && (b.life == Created ==> !b.began)
    && (b.life == Running ==> b.began)
    && (b.life == Created && (at == Gathering || at == Returned) ==> b.cancelling)
    && (b.cancelling ==> at == Gathering || at == Returned)
    && (b.life == Ended && !b.began ==> at == Gathering || at == Returned)
    && (!b.began ==> !b.ok && !b.done)
    && b.taken + b.queue == inbox
  }

  /** What has been replied by the time the handler is at each point. */
  predicate PointInv(s: State, rs: seq<Reply>) {
    match s.at
    case Receive1 => rs == [] && s.inbox == []
    case WaitOk(a) => rs == [] && s.inbox == [Startup] && (a == Mcp ==> s.django.ok)
    case Decide => rs == [] && s.inbox == [Startup] && s.django.ok && s.mcp.ok
    case Replying(next) =>
      || (next == Receive2 && rs == [ReplyComplete] && s.inbox == [Startup])
      || (next == Gathering && (rs == [ReplyFailed] || rs == [ReplyComplete, ReplyShutdown]) && s.inbox <= [Startup, Shutdown])
    case Receive2 => rs == [ReplyComplete] && s.inbox == [Startup]
    case WaitDone(a) => rs == [ReplyComplete] && s.inbox == [Startup, Shutdown] && (a == Mcp ==> s.django.done)
    case Finish => rs == [ReplyComplete] && s.inbox == [Startup, Shutdown] && s.django.done && s.mcp.done
    case Gathering => AllowedReplies(rs) && s.inbox <= [Startup, Shutdown]
    case Returned => AllowedReplies(rs) && s.inbox <= [Startup, Shutdown]
  }

  predicate Inv(s: State) {
    var d, m := FactsOf(s.log, Django), FactsOf(s.log, Mcp);
    && SubInv(s.django, d, s.at, s.inbox) && SubInv(s.mcp, m, s.at, s.inbox)
    && (s.failed <==> Failed(d) || Failed(m))
    && PointInv(s, Replies(s.log)) && Truthful(s.log)
  }

  lemma LogGrows(log: seq<Event>, e: Event)
    ensures Replies(log + [e]) == Replies(log) + if e.Replied? then [e.reply] else []
    ensures FactsOf(log + [e], Django) == Note(FactsOf(log, Django), e, Django)
    ensures FactsOf(log + [e], Mcp) == Note(FactsOf(log, Mcp), e, Mcp)
    ensures Truthful(log + [e]) <==> Truthful(log) && Honest(log, e)
  {
    assert (log + [e])[..|log|] == log;
  }

  // ----- every step keeps the invariant -----

  /** The runner after its application sent something. */
  function AfterSend(b: Sub, m: AppMessage): Sub {
    match m
    case StartupComplete => b.(ok := true)
    case StartupFailed => b.(ok := true)
    case ShutdownComplete => b.(done := true)
    case Other => b
  }

  lemma SendingKeepsSub(b: Sub, f: Facts, at: Point, inbox: seq<ServerMessage>, a: App, m: AppMessage)
    requires SubInv(b, f, at, inbox) && b.life == Running
    ensures SubInv(AfterSend(b, m), Note(f, AppSent(a, m), a), at, inbox)
    ensures Failed(Note(f, AppSent(a, m), a)) <==> Failed(f) || m == StartupFailed
  {
  }

  lemma ExitingKeepsSub(b: Sub, f: Facts, at: Point, inbox: seq<ServerMessage>, a: App)
    requires SubInv(b, f, at, inbox) && b.life == Running
    ensures SubInv(b.(life := Ended, ok := true, done := true), Note(f, AppGone(a), a), at, inbox)
    ensures Failed(Note(f, AppGone(a), a)) <==> Failed(f) || !b.ok
  {
  }

  lemma OtherAppUnnoted(f: Facts, e: Event, a: App, o: App)
    requires a != o && (e == AppGone(a) || (e.AppSent? && e.app == a))
    ensures Note(f, e, o) == f
  {
  }

  lemma PointStays(s: State, t: State, rs: seq<Reply>)
    requires PointInv(s, rs) && t.at == s.at && t.inbox == s.inbox
    requires (s.django.ok ==> t.django.ok) && (s.mcp.ok ==> t.mcp.ok) && (s.django.done ==> t.django.done) && (s.mcp.done ==> t.mcp.done)
    ensures PointInv(t, rs)
  {
  }

  function Another(a: App): App {
    if a == Django then Mcp else Django
  }

  lemma InvOfParts(s: State, a: App)
    requires SubInv(SubOf(s, a), FactsOf(s.log, a), s.at, s.inbox) && SubInv(SubOf(s, Another(a)), FactsOf(s.log, Another(a)), s.at, s.inbox)
    requires (s.failed <==> Failed(FactsOf(s.log, a)) || Failed(FactsOf(s.log, Another(a)))) && PointInv(s, Replies(s.log)) && Truthful(s.log)
    ensures Inv(s)
  {
  }

  lemma PartsOfInv(s: State, a: App)
    requires Inv(s)
    ensures SubInv(SubOf(s, a), FactsOf(s.log, a), s.at, s.inbox) && SubInv(SubOf(s, Another(a)), FactsOf(s.log, Another(a)), s.at, s.inbox)
    ensures (s.failed <==> Failed(FactsOf(s.log, a)) || Failed(FactsOf(s.log, Another(a)))) && PointInv(s, Replies(s.log)) && Truthful(s.log)
  {
  }

  lemma AppLogs(s: State, a: App, e: Event)
    requires e == AppGone(a) || (e.AppSent? && e.app == a)
    ensures var log := s.log + [e];
            && Replies(log) == Replies(s.log) && (Truthful(log) <==> Truthful(s.log))
            && FactsOf(log, a) == Note(FactsOf(s.log, a), e, a) && FactsOf(log, Another(a)) == FactsOf(s.log, Another(a))
  {
    LogGrows(s.log, e);
    OtherAppUnnoted(FactsOf(s.log, Another(a)), e, a, Another(a));
    assert Replies(s.log) + [] == Replies(s.log);
  }

  lemma SentState(s: State, a: App, m: AppMessage)
    ensures var t := OnSend(s, a, m);
            && SubOf(t, a) == AfterSend(SubOf(s, a), m) && SubOf(t, Another(a)) == SubOf(s, Another(a))
            && t.at == s.at && t.inbox == s.inbox && t.log == s.log + [AppSent(a, m)] && (t.failed <==> s.failed || m == StartupFailed)
  {
  }

  lemma SendKeeps(s: State, a: App, m: AppMessage)
    requires Inv(s) && SubOf(s, a).life == Running
    ensures Inv(OnSend(s, a, m))
  {
    var t := OnSend(s, a, m);
    PartsOfInv(s, a);
    SentState(s, a, m);
    AppLogs(s, a, AppSent(a, m));
    SendingKeepsSub(SubOf(s, a), FactsOf(s.log, a), s.at, s.inbox, a, m);
    PointStays(s, t, Replies(s.log));
    InvOfParts(t, a);
  }

  lemma ExitState(s: State, a: App)
    ensures var t, b := OnExit(s, a), SubOf(s, a);
            && SubOf(t, a) == b.(life := Ended, ok := true, done := true) && SubOf(t, Another(a)) == SubOf(s, Another(a))
            && t.at == s.at && t.inbox == s.inbox && t.log == s.log + [AppGone(a)] && (t.failed <==> s.failed || !b.ok)
  {
  }

  lemma ExitKeeps(s: State, a: App)
    requires Inv(s) && SubOf(s, a).life == Running
    ensures Inv(OnExit(s, a))
  {
    var t := OnExit(s, a);
    PartsOfInv(s, a);
    ExitState(s, a);
    AppLogs(s, a, AppGone(a));
    ExitingKeepsSub(SubOf(s, a), FactsOf(s.log, a), s.at, s.inbox, a);
    PointStays(s, t, Replies(s.log));
    InvOfParts(t, a);
  }

  lemma TakeKeeps(s: State, t: State, a: App)
    requires Inv(s) && AppStep(s, t, a, Take)
    ensures Inv(t)
  {
    var b := SubOf(s, a);
    assert b.taken + [b.queue[0]] + b.queue[1..] == b.taken + b.queue;
  }

  lemma QuietKeeps(s: State, t: State, a: App, act: Act)
    requires Inv(s) && AppStep(s, t, a, act) && (act == Begin || act == NeverBegin || act == Swallow)
    ensures Inv(t)
  {
  }

  lemma AppKeeps(s: State, t: State, a: App, act: Act)
    requires Inv(s) && AppStep(s, t, a, act)
    ensures Inv(t)
  {
    match act
    case Send(m) => SendKeeps(s, a, m);
    case Exit => ExitKeeps(s, a);
    case Take => TakeKeeps(s, t, a);
    case _ => QuietKeeps(s, t, a, act);
  }

  lemma DeliverKeeps(s: State, m: ServerMessage, next: Point)
    requires Inv(s)
    requires (s.at == Receive1 && m == Startup && next == WaitOk(Django)) || (s.at == Receive2 && m == Shutdown && next == WaitDone(Django))
    ensures Inv(Deliver(s, m, next))
  {
    assert s.django.taken + (s.django.queue + [m]) == s.django.taken + s.django.queue + [m];
    assert s.mcp.taken + (s.mcp.queue + [m]) == s.mcp.taken + s.mcp.queue + [m];
  }

  lemma ReplyKeeps(s: State, r: Reply, next: Point)
    requires Inv(s)
    requires || (s.at == Decide && s.failed && r == ReplyFailed && next == Gathering)
             || (s.at == Decide && !s.failed && r == ReplyComplete && next == Receive2)
             || (s.at == Finish && r == ReplyShutdown && next == Gathering)
    ensures Inv(SendReply(s, r, next))
  {
    LogGrows(s.log, Replied(r));
  }

  lemma CancelKeeps(s: State)
    requires Inv(s) && s.at != Returned && s.at != Gathering
    ensures Inv(CancelAll(s))
  {
  }

  lemma WaitKeeps(s: State, next: Point)
    requires Inv(s)
    requires || (s.at == WaitOk(Django) && s.django.ok && next == WaitOk(Mcp))
             || (s.at == WaitOk(Mcp) && s.mcp.ok && next == Decide)
             || (s.at == WaitDone(Django) && s.django.done && next == WaitDone(Mcp))
             || (s.at == WaitDone(Mcp) && s.mcp.done && next == Finish)
             || (s.at == Replying(next) && next == Receive2)
             || (s.at == Gathering && next == Returned)
    ensures Inv(s.(at := next))
  {
  }

  lemma AwaitKeeps(s: State, t: State)
    requires Inv(s) && HandlerStep(s, t) && (s.at.WaitOk? || s.at.WaitDone? || s.at == Gathering)
    ensures Inv(t)
  {
    WaitKeeps(s, t.at);
  }

  lemma TalkKeeps(s: State, t: State)
    requires Inv(s) && HandlerStep(s, t) && (s.at == Decide || s.at == Finish || s.at.Replying?)
    ensures Inv(t)
  {
    if s.at == Decide {
      ReplyKeeps(s, if s.failed then ReplyFailed else ReplyComplete, if s.failed then Gathering else Receive2);
    } else if s.at == Finish {
      ReplyKeeps(s, ReplyShutdown, Gathering);
    } else if s.at.next == Gathering {
      CancelKeeps(s);
    } else {
      WaitKeeps(s, s.at.next);
    }
  }

  lemma HandlerKeeps(s: State, t: State)
    requires Inv(s) && HandlerStep(s, t)
    ensures Inv(t)
  {
    if s.at == Receive1 {
      DeliverKeeps(s, Startup, WaitOk(Django));
    } else if s.at == Receive2 {
      DeliverKeeps(s, Shutdown, WaitDone(Django));
    } else if s.at == Decide || s.at == Finish || s.at.Replying? {
      TalkKeeps(s, t);
    } else {
      AwaitKeeps(s, t);
    }
  }

  lemma StepKeeps(s: State, t: State)
    requires Inv(s) && Step(s, t)
    ensures Inv(t)
  {
    if HandlerStep(s, t) {
      HandlerKeeps(s, t);
    } else if HandlerRaises(s, t) {
      if s.at == Gathering { WaitKeeps(s, Returned); } else { CancelKeeps(s); }
    } else {
      var a, act :| AppStep(s, t, a, act);
      AppKeeps(s, t, a, act);
    }
  }

  lemma {:induction false} RunKeeps(ss: seq<State>, i: nat)
    requires Run(ss) && i < |ss|
    ensures Inv(ss[i])
  {
    if i > 0 {
      RunKeeps(ss, i - 1);
      StepKeeps(ss[i - 1], ss[i]);
    }
  }

  // ----- the promises -----

  /** In every interleaving the replies are a prefix of startup.complete, shutdown.complete or of
      startup.failed, and both queues hand out the server's messages in order. */
  lemma RepliesFollowTheProtocol(ss: seq<State>, i: nat)
    requires Run(ss) && i < |ss|
    ensures AllowedReplies(Replies(ss[i].log))
    ensures ss[i].inbox <= [Startup, Shutdown]
    ensures ss[i].django.taken <= ss[i].inbox && ss[i].mcp.taken <= ss[i].inbox
  {
    RunKeeps(ss, i);
  }

  lemma {:induction false} HonestThroughout(log: seq<Event>, n: nat)
    requires Truthful(log) && n < |log|
    ensures Honest(log[..n], log[n])
  {
    var init := log[..|log| - 1];
    if n < |init| {
      HonestThroughout(init, n);
      assert init[..n] == log[..n];
    }
  }

  /** A startup.complete reply is never a lie: before it both applications had sent
      startup.complete, neither startup.failed, and neither had died without reporting. */
  lemma StartupCompleteIsTrue(ss: seq<State>, i: nat, n: nat, a: App)
    requires Run(ss) && i < |ss| && n < |ss[i].log| && ss[i].log[n] == Replied(ReplyComplete)
    ensures var before := ss[i].log[..n];
            && AppSent(a, StartupComplete) in before && AppSent(a, StartupFailed) !in before
            && forall m :: 0 <= m < n ==> !SilentAt(before, a, m)
  {
    RunKeeps(ss, i);
    HonestThroughout(ss[i].log, n);
    FactsMean(ss[i].log[..n], a);
    SilentMeans(ss[i].log[..n], a);
  }

  /** A startup.failed reply names a real failure. */
  lemma StartupFailedIsTrue(ss: seq<State>, i: nat, n: nat)
    requires Run(ss) && i < |ss| && n < |ss[i].log| && ss[i].log[n] == Replied(ReplyFailed)
    ensures var before := ss[i].log[..n];
            exists a :: AppSent(a, StartupFailed) in before || exists m :: 0 <= m < n && SilentAt(before, a, m)
  {
    RunKeeps(ss, i);
    HonestThroughout(ss[i].log, n);
    var before := ss[i].log[..n];
    var a := if Failed(FactsOf(before, Django)) then Django else Mcp;
    FactsMean(before, a);
    SilentMeans(before, a);
    assert AppSent(a, StartupFailed) in before || exists m :: 0 <= m < n && SilentAt(before, a, m);
  }

  /** A shutdown.complete reply comes after each application closed or was gone. */
  lemma ShutdownCompleteIsTrue(ss: seq<State>, i: nat, n: nat, a: App)
    requires Run(ss) && i < |ss| && n < |ss[i].log| && ss[i].log[n] == Replied(ReplyShutdown)
    ensures AppSent(a, ShutdownComplete) in ss[i].log[..n] || AppGone(a) in ss[i].log[..n]
  {
    RunKeeps(ss, i);
    HonestThroughout(ss[i].log, n);
    FactsMean(ss[i].log[..n], a);
  }

  /** A runner that has ended left both its events set exactly if its body ever ran. */
  lemma EndedRunnersSettled(ss: seq<State>, i: nat, a: App)
    requires Run(ss) && i < |ss| && SubOf(ss[i], a).life == Ended
    ensures SubOf(ss[i], a).ok && SubOf(ss[i], a).done <==> SubOf(ss[i], a).began
    ensures !SubOf(ss[i], a).began ==> ss[i].at == Gathering || ss[i].at == Returned
  {
    RunKeeps(ss, i);
  }

  /** The other case happens: `receive` fails at once, the tasks are cancelled before their first
      step, and a runner ends with neither event set. */
  lemma UnbegunRunnerSettlesNothing()
    ensures exists ss: seq<State> :: Run(ss) && |ss| == 3 && ss[2].django.life == Ended && !ss[2].django.ok && !ss[2].django.done
  {
    var s0 := Start();
    var s1 := CancelAll(s0);
    var s2 := Put(s1, Django, s1.django.(life := Ended));
    assert HandlerRaises(s0, s1) && AppStep(s1, s2, Django, NeverBegin);
    assert Run([s0, s1, s2]);
  }

  /** The handler never waits on an event that no live task can set: whenever it waits on an unset
      event, that application's own runner, alone, can still settle it and let the handler go on. */
  lemma WaitsCanEnd(ss: seq<State>, i: nat, a: App) returns (mid: State, t: State)
    requires Run(ss) && i < |ss|
    requires (ss[i].at == WaitOk(a) && !SubOf(ss[i], a).ok) || (ss[i].at == WaitDone(a) && !SubOf(ss[i], a).done)
    ensures mid == ss[i] || AppStep(ss[i], mid, a, Begin)
    ensures AppStep(mid, t, a, Exit)
    ensures t.at == ss[i].at && SubOf(t, a).ok && SubOf(t, a).done && exists u :: HandlerStep(t, u)
  {
    RunKeeps(ss, i);
    var s := ss[i];
    var b := SubOf(s, a);
    mid := if b.life == Created then Put(s, a, b.(life := Running, began := true)) else s;
    t := OnExit(mid, a);
    assert HandlerStep(t, t.(at := After(s.at)));
  }

  /** Some task can act without anything being cancelled from outside. */
  ghost predicate CanMove(s: State, t: State) {
    HandlerStep(s, t) || exists a, act :: AppStep(s, t, a, act)
  }

  /** The handler's next point once the event it waits on is set. */
  function After(p: Point): Point
    requires p.WaitOk? || p.WaitDone?
  {
    match p
    case WaitOk(Django) => WaitOk(Mcp)
    case WaitOk(Mcp) => Decide
    case WaitDone(Django) => WaitDone(Mcp)
    case WaitDone(Mcp) => Finish
  }

  /** A runner that has not ended can act. */
  lemma LiveRunnerMoves(s: State, a: App) returns (t: State)
    requires SubOf(s, a).life != Ended
    ensures CanMove(s, t)
  {
    var b := SubOf(s, a);
    if b.life == Running {
      t := OnExit(s, a);
      assert AppStep(s, t, a, Exit);
    } else if b.cancelling {
      t := Put(s, a, b.(life := Ended));
      assert AppStep(s, t, a, NeverBegin);
    } else {
      t := Put(s, a, b.(life := Running, began := true));
      assert AppStep(s, t, a, Begin);
    }
  }

  /** One that has ended lets a handler waiting for it pass. */
  lemma WaiterMoves(s: State, a: App) returns (t: State)
    requires Inv(s) && (s.at == WaitOk(a) || s.at == WaitDone(a))
    ensures CanMove(s, t)
  {
    if SubOf(s, a).life == Ended {
      t := s.(at := After(s.at));
    } else {
      t := LiveRunnerMoves(s, a);
    }
  }

  /** No reachable state is stuck: until the handler has returned, a task can act. */
  lemma NeverStuck(ss: seq<State>, i: nat) returns (t: State)
    requires Run(ss) && i < |ss| && ss[i].at != Returned
    ensures CanMove(ss[i], t)
  {
    RunKeeps(ss, i);
    var s := ss[i];
    match s.at
    case Receive1 => t := Deliver(s, Startup, WaitOk(Django));
    case Receive2 => t := Deliver(s, Shutdown, WaitDone(Django));
    case Decide => t := if s.failed then SendReply(s, ReplyFailed, Gathering) else SendReply(s, ReplyComplete, Receive2);
    case Finish => t := SendReply(s, ReplyShutdown, Gathering);
    case Replying(next) => t := if next == Gathering then CancelAll(s) else s.(at := next);
    case WaitOk(a) => t := WaiterMoves(s, a);
    case WaitDone(a) => t := WaiterMoves(s, a);
    case Gathering =>
      if s.django.life != Ended {
        t := LiveRunnerMoves(s, Django);
      } else if s.mcp.life != Ended {
        t := LiveRunnerMoves(s, Mcp);
      } else {
        t := s.(at := Returned);
      }
  }

  // ----- the handler gets to its end -----

  /** How many steps of its own the handler may still take. */
  function Rank(p: Point): nat {
    match p
    case Receive1 => 11
    case WaitOk(Django) => 10
    case WaitOk(Mcp) => 9
    case Decide => 8
    case Replying(next) => if next == Gathering then 2 else 7
    case Receive2 => 6
    case WaitDone(Django) => 5
    case WaitDone(Mcp) => 4
    case Finish => 3
    case Gathering => 1
    case Returned => 0
  }

  lemma HandlerGetsNearer(s: State, t: State)
    requires Inv(s) && (HandlerStep(s, t) || HandlerRaises(s, t))
    ensures Rank(t.at) < Rank(s.at)
  {
  }

  /** How many steps moved the handler. */
  function Moved(ss: seq<State>): nat {
    if |ss| < 2 then 0
    else Moved(ss[..|ss| - 1]) + if ss[|ss| - 2].at != ss[|ss| - 1].at then 1 else 0
  }

  /** In every run the handler takes at most eleven steps, whatever the applications do in between. */
  lemma {:induction false} HandlerStepsAreFew(ss: seq<State>)
    requires Run(ss)
    ensures Moved(ss) + Rank(ss[|ss| - 1].at) <= 11
  {
    if |ss| > 1 {
      var init := ss[..|ss| - 1];
      assert Run(init);
      HandlerStepsAreFew(init);
      RunKeeps(ss, |ss| - 2);
      var s, t := ss[|ss| - 2], ss[|ss| - 1];
      assert init[|init| - 1] == s && Step(s, t);
      if HandlerStep(s, t) || HandlerRaises(s, t) {
        HandlerGetsNearer(s, t);
      } else {
        var a, act :| AppStep(s, t, a, act);
        AppsLeaveTheHandler(s, t, a, act);
      }
    }
  }

  lemma AppsLeaveTheHandler(s: State, t: State, a: App, act: Act)
    requires AppStep(s, t, a, act)
    ensures t.at == s.at
  {
  }

  lemma NothingElseMoves(s: State, t: State)
    requires s.django.life == Ended && s.mcp.life == Ended && CanMove(s, t)
    ensures HandlerStep(s, t) && t.django.life == Ended && t.mcp.life == Ended
  {
    if a, act :| AppStep(s, t, a, act) {
      assert false;
    }
  }

  lemma HandlerMoves(s: State) returns (t: State)
    requires Inv(s) && s.django.life == Ended && s.mcp.life == Ended && s.at != Returned
    ensures CanMove(s, t)
  {
    match s.at
    case Receive1 => t := Deliver(s, Startup, WaitOk(Django));
    case Receive2 => t := Deliver(s, Shutdown, WaitDone(Django));
    case Decide => t := if s.failed then SendReply(s, ReplyFailed, Gathering) else SendReply(s, ReplyComplete, Receive2);
    case Finish => t := SendReply(s, ReplyShutdown, Gathering);
    case Replying(next) => t := if next == Gathering then CancelAll(s) else s.(at := next);
    case WaitOk(a) => t := WaiterMoves(s, a);
    case WaitDone(a) => t := WaiterMoves(s, a);
    case Gathering => t := s.(at := Returned);
  }

  /** The tasks run on without anything being cancelled from outside. */
  ghost predicate Undisturbed(ts: seq<State>) {
    ts != [] && forall i :: 0 <= i < |ts| - 1 ==> CanMove(ts[i], ts[i + 1])
  }

  /** Once both runners have ended, however they did, only the handler moves, and every undisturbed
      run from there that cannot continue has returned. */
  lemma {:induction false} EndedRunnersLetItReturn(ss: seq<State>, i: nat, ts: seq<State>)
    requires Run(ss) && i < |ss| && ss[i].django.life == Ended && ss[i].mcp.life == Ended
    requires Undisturbed(ts) && ts[0] == ss[i]
    ensures |ts| + Rank(ts[|ts| - 1].at) <= 12
    ensures var last := ts[|ts| - 1]; last.at == Returned || exists t :: CanMove(last, t)
  {
    RunKeeps(ss, i);
    OnlyTheHandler(ts);
    if ts[|ts| - 1].at != Returned {
      var t := HandlerMoves(ts[|ts| - 1]);
    }
  }

  lemma {:induction false} OnlyTheHandler(ts: seq<State>)
    requires Undisturbed(ts) && Inv(ts[0]) && ts[0].django.life == Ended && ts[0].mcp.life == Ended
    ensures var last := ts[|ts| - 1]; Inv(last) && last.django.life == Ended && last.mcp.life == Ended && |ts| + Rank(last.at) <= 12
  {
    if |ts| > 1 {
      var init := ts[..|ts| - 1];
      OnlyTheHandler(init);
      var s, t := ts[|ts| - 2], ts[|ts| - 1];
      assert init[|init| - 1] == s && CanMove(s, t);
      NothingElseMoves(s, t);
      HandlerKeeps(s, t);
      HandlerGetsNearer(s, t);
    }
  }

  // ----- cancelling -----

  lemma StepToGathering(s: State, t: State, a: App)
    requires Step(s, t) && s.at != Gathering && t.at == Gathering
    ensures SubOf(t, a).life == SubOf(s, a).life && (SubOf(t, a).life != Ended ==> SubOf(t, a).cancelling)
  {
    if b, act :| AppStep(s, t, b, act) {
      AppsLeaveTheHandler(s, t, b, act);
      assert false;
    }
  }

  /** On entering its finally block, after a reply or because an await raised, the handler cancels
      every runner that has not ended. */
  lemma FinallyCancelsAll(ss: seq<State>, i: nat, a: App)
    requires Run(ss) && i + 1 < |ss| && ss[i].at != Gathering && ss[i + 1].at == Gathering
    ensures SubOf(ss[i + 1], a).life != Ended ==> SubOf(ss[i + 1], a).cancelling
  {
    assert Step(ss[i], ss[i + 1]);
    StepToGathering(ss[i], ss[i + 1], a);
  }

  /** The application survives a cancellation in this step. */
  ghost predicate Survives(s: State, t: State, a: App) {
    SubOf(s, a).cancelling && AppStep(s, t, a, Swallow)
  }

  lemma StillCancelling(s: State, t: State, a: App)
    requires Step(s, t) && t.at == Gathering && s.at == Gathering
    requires Uncancelled(t, a)
    ensures Uncancelled(s, a) || Survives(s, t, a)
  {
    var b, act :| AppStep(s, t, b, act);
    StillCancellingAct(s, t, b, act, a);
  }

  lemma StillCancellingAct(s: State, t: State, b: App, act: Act, a: App)
    requires AppStep(s, t, b, act) && SubOf(t, a).life != Ended && !SubOf(t, a).cancelling
    ensures SubOf(s, a).life != Ended && (SubOf(s, a).cancelling ==> b == a && act == Swallow)
  {
    if b == a {
      match act
      case Send(m) => OnSendKeepsLife(s, a, m);
      case _ =>
    }
  }

  lemma OnSendKeepsLife(s: State, a: App, m: AppMessage)
    ensures SubOf(OnSend(s, a, m), a).life == SubOf(s, a).life && SubOf(OnSend(s, a, m), a).cancelling == SubOf(s, a).cancelling
  {
  }

  predicate Uncancelled(s: State, a: App) {
    SubOf(s, a).life != Ended && !SubOf(s, a).cancelling
  }

  /** Uncancelled at m means uncancelled just before or surviving in between. */
  ghost predicate Carried(ss: seq<State>, m: nat, a: App) {
    0 < m < |ss| && (Uncancelled(ss[m], a) ==> Uncancelled(ss[m - 1], a) || Survives(ss[m - 1], ss[m], a))
  }

  lemma StepCarries(ss: seq<State>, m: nat, a: App)
    requires Run(ss) && 0 < m < |ss| && ss[m - 1].at == Gathering && ss[m].at == Gathering
    ensures Carried(ss, m, a)
  {
    assert Step(ss[m - 1], ss[m]);
    if Uncancelled(ss[m], a) { StillCancelling(ss[m - 1], ss[m], a); }
  }

  lemma {:induction false} SurvivedBetween(ss: seq<State>, first: nat, k: nat, a: App) returns (j: nat)
    requires first <= k < |ss| && (forall m :: first < m <= k ==> Carried(ss, m, a))
    requires !Uncancelled(ss[first], a) && Uncancelled(ss[k], a)
    ensures first <= j < k && Survives(ss[j], ss[j + 1], a)
    decreases k
  {
    assert Carried(ss, k, a);
    if Survives(ss[k - 1], ss[k], a) {
      j := k - 1;
    } else {
      j := SurvivedBetween(ss, first, k - 1, a);
    }
  }

  /** While it gathers, a runner that is neither ended nor being cancelled has survived the
      cancellation since. */
  lemma UncancelledSurvived(ss: seq<State>, i: nat, k: nat, a: App) returns (j: nat)
    requires Run(ss) && i < k < |ss| && ss[i].at != Gathering && forall m :: i < m <= k ==> ss[m].at == Gathering
    requires SubOf(ss[k], a).life != Ended && !SubOf(ss[k], a).cancelling
    ensures i < j < k && Survives(ss[j], ss[j + 1], a)
  {
    FinallyCancelsAll(ss, i, a);
    GatheringCarries(ss, i + 1, k, a);
    j := SurvivedBetween(ss, i + 1, k, a);
  }

  lemma GatheringCarries(ss: seq<State>, first: nat, k: nat, a: App)
    requires Run(ss) && k < |ss| && forall m :: first <= m <= k ==> ss[m].at == Gathering
    ensures forall m :: first < m <= k ==> Carried(ss, m, a)
  {
    forall m | first < m <= k ensures Carried(ss, m, a) {
      assert ss[m - 1].at == Gathering && ss[m].at == Gathering;
      StepCarries(ss, m, a);
    }
  }

  /** And nothing else cancels a runner: before the finally block none is being cancelled. */
  lemma OnlyFinallyCancels(ss: seq<State>, i: nat, a: App)
    requires Run(ss) && i < |ss| && SubOf(ss[i], a).cancelling
    ensures ss[i].at == Gathering || ss[i].at == Returned
  {
    RunKeeps(ss, i);
  }
}
