/** The worker process: a reader thread, a task thread and a heartbeat thread around one
    mailbox slot and one pointer to a cancel token (adapters/colmap/colmap_worker_main.cpp).

    Each critical section is one atomic step, as the mutex makes it. One frame send is also
    one step: the program takes no lock around a send, so this is an assumption. */
module WorkerProtocol {
  import opened Wrappers

  type TaskId = string

  datatype Request = Request(id: TaskId, spec: string)

  // ------------------------------------------------------------------- the shared state

  /** SharedState: tokens are named by their number, in order of creation. */
  datatype Shared = Shared(incoming: Option<Request>, activeCancel: Option<nat>, activeTask: TaskId)

  function Stored(sh: Shared, req: Request): Shared {
    sh.(incoming := Some(req))
  }

  /** The token a cancel frame reaches, if any. */
  function CancelTarget(sh: Shared, id: TaskId): Option<nat> {
    if sh.activeCancel.Some? && sh.activeTask == id then sh.activeCancel else None
  }

  function Emptied(sh: Shared): Shared {
    sh.(incoming := None)
  }

  function Registered(sh: Shared, token: nat, id: TaskId): Shared {
    sh.(activeCancel := Some(token), activeTask := id)
  }

  function Unregistered(sh: Shared): Shared {
    sh.(activeCancel := None, activeTask := "")
  }

  class CancelToken {
    const number: nat
    var cancelled: bool

    constructor (n: nat)
      ensures number == n && !cancelled
    {
      number := n;
      cancelled := false;
    }

    method Cancel()
      modifies this
      ensures cancelled
    {
      cancelled := true;
    }
  }

  /** The object the threads share; each method is one critical section. */
  class SharedState {
    var incoming: Option<Request>
    var activeCancel: CancelToken?
    var activeTask: TaskId

    ghost function View(): Shared
      reads this
    {
      Shared(incoming, if activeCancel == null then None else Some(activeCancel.number), activeTask)
    }

    constructor ()
      ensures View() == Shared(None, None, "")
    {
      incoming, activeCancel, activeTask := None, null, "";
    }

    method StoreRequest(req: Request)
      modifies this
      ensures View() == Stored(old(View()), req)
    {
      incoming := Some(req);
    }

    method CancelTask(id: TaskId)
      modifies activeCancel
      ensures View() == old(View())
      ensures var hit := CancelTarget(View(), id);
              activeCancel != null ==> activeCancel.cancelled == (old(activeCancel.cancelled) || hit.Some?)
    {
      if activeCancel != null && activeTask == id {
        activeCancel.Cancel();
      }
    }

    method TakeRequest() returns (req: Option<Request>)
      modifies this
      ensures req == old(View()).incoming && View() == Emptied(old(View()))
    {
      req := incoming;
      incoming := None;
    }

    method Register(token: CancelToken, id: TaskId)
      modifies this
      ensures View() == Registered(old(View()), token.number, id)
    {
      activeCancel, activeTask := token, id;
    }

    method Unregister()
      modifies this
      ensures View() == Unregistered(old(View()))
    {
      activeCancel, activeTask := null, "";
    }
  }

  // -------------------------------------------------------------------- the interleaving

  datatype HostMsg = AskTask(req: Request) | CancelTask(id: TaskId) | Shutdown | Ignored

  /** What the worker sends. Finished stands for every terminal frame; its flag is the
      cancelled substage that precedes a cancelled completion. */
  datatype Frame = Hello | Heartbeat | Accepted(id: TaskId) | Event(id: TaskId) | Finished(id: TaskId, cancelled: bool)

  datatype Reader = Receiving | Handling(msg: HostMsg) | Stopped

  datatype Stage = Fresh | Open | Over

  /** The task thread: at the loop test, waiting for the slot, between taking a request and
      making its token, with a token not yet registered, inside the task, or gone. */
  datatype Task =
    | Looping | Waiting | Took(req: Request) | Ready(req: Request, token: nat)
    | Running(req: Request, token: nat, stage: Stage) | Exited

  /** The heartbeat thread: at its loop test, asleep before the next beat, or gone. */
  datatype Heart = Testing | Asleep | Silent

  datatype Token = Token(task: TaskId, cancelled: bool)

  datatype State = State(
    inbox: seq<HostMsg>, reader: Reader, shared: Shared, shutdown: bool, task: Task, heart: Heart, tokens: seq<Token>,
    outbox: seq<Frame>,
    // history
    sent: seq<HostMsg>, handled: seq<HostMsg>, taken: seq<Request>, lost: seq<Request>)

  const INITIAL := State([], Receiving, Shared(None, None, ""), false, Looping, Testing, [], [Hello], [], [], [], [])

  datatype Action =
    | HostSends(msg: HostMsg)
    | Receives | InputEnds | Handles
    | TestsLoop | LooksInSlot | MakesToken | Registers
    | SendsAccepted | SendsEvent | SendsFinished(cancelled: bool) | GivesUp
    | Unregisters
    | TestsHeart | Beats

  predicate Enabled(s: State, a: Action) {
    match a
    case HostSends(_) => true
    case Receives => s.reader.Receiving? && s.inbox != []
    case InputEnds => s.reader.Receiving?
    case Handles => s.reader.Handling?
    case TestsLoop => s.task.Looping?
    case LooksInSlot => s.task.Waiting?
    case MakesToken => s.task.Took?
    case Registers => s.task.Ready?
    case SendsAccepted => s.task.Running? && s.task.stage.Fresh?
    case SendsEvent => s.task.Running? && s.task.stage.Open?
    case SendsFinished(c) =>
      s.task.Running? && s.task.stage.Open? && s.task.token < |s.tokens| && (c ==> s.tokens[s.task.token].cancelled)
    case GivesUp => s.task.Running? && !s.task.stage.Over?
    case Unregisters => s.task.Running? && s.task.stage.Over?
    case TestsHeart => s.heart.Testing?
    case Beats => s.heart.Asleep?
  }

  /** The request waiting in the slot. */
  function Slot(s: State): seq<Request> {
    if s.shared.incoming.Some? then [s.shared.incoming.value] else []
  }

  function HandledRequest(s: State, m: HostMsg, req: Request): State {
    s.(handled := s.handled + [m], reader := Receiving, shared := Stored(s.shared, req), lost := s.lost + Slot(s))
  }

  function HandledCancel(s: State, m: HostMsg, id: TaskId): State {
    s.(handled := s.handled + [m], reader := Receiving, tokens := CancelledBy(s.shared, id, s.tokens))
  }

  /** The tokens after a cancel frame. */
  function CancelledBy(sh: Shared, id: TaskId, tokens: seq<Token>): seq<Token> {
    match CancelTarget(sh, id)
    case Some(k) => if k < |tokens| then tokens[k := tokens[k].(cancelled := true)] else tokens
    case None => tokens
  }

  function Handled(s: State): State
    requires s.reader.Handling?
  {
    var m := s.reader.msg;
    match m
    case AskTask(req) => HandledRequest(s, m, req)
    case CancelTask(id) => HandledCancel(s, m, id)
    case Shutdown => s.(handled := s.handled + [m], reader := Stopped, shutdown := true)
    case Ignored => s.(handled := s.handled + [m], reader := Receiving)
  }

  function Do(s: State, a: Action): State
    requires Enabled(s, a)
  {
    match a
    case HostSends(m) => s.(inbox := s.inbox + [m], sent := s.sent + [m])
    case Receives => s.(inbox := s.inbox[1..], reader := Handling(s.inbox[0]))
    case InputEnds => s.(reader := Stopped, shutdown := true)
    case Handles => Handled(s)
    case TestsLoop => s.(task := if s.shutdown then Exited else Waiting)
    case LooksInSlot =>
      if s.shared.incoming.Some? then
        var req := s.shared.incoming.value;
        s.(shared := Emptied(s.shared), task := Took(req), taken := s.taken + [req])
      else s.(task := Looping)
    case MakesToken => s.(task := Ready(s.task.req, |s.tokens|), tokens := s.tokens + [Token(s.task.req.id, false)])
    case Registers =>
      s.(shared := Registered(s.shared, s.task.token, s.task.req.id), task := Running(s.task.req, s.task.token, Fresh))
    case SendsAccepted => s.(task := s.task.(stage := Open), outbox := s.outbox + [Accepted(s.task.req.id)])
    case SendsEvent => s.(outbox := s.outbox + [Event(s.task.req.id)])
    case SendsFinished(c) => s.(task := s.task.(stage := Over), outbox := s.outbox + [Finished(s.task.req.id, c)])
    case GivesUp => s.(task := s.task.(stage := Over))
    case Unregisters => s.(shared := Unregistered(s.shared), task := Looping)
    case TestsHeart => s.(heart := if s.shutdown then Silent else Asleep)
    case Beats => s.(heart := Testing, outbox := s.outbox + [Heartbeat])
  }

  /** The frame an action sends, if any. */
  function Says(s: State, a: Action): Option<Frame>
    requires Enabled(s, a)
  {
    match a
    case SendsAccepted => Some(Accepted(s.task.req.id))
    case SendsEvent => Some(Event(s.task.req.id))
    case SendsFinished(c) => Some(Finished(s.task.req.id, c))
    case Beats => Some(Heartbeat)
    case _ => None
  }

  lemma OutboxGrows(s: State, a: Action)
    requires Enabled(s, a)
    ensures Do(s, a).outbox == s.outbox + if Says(s, a).Some? then [Says(s, a).value] else []
  {
  }

  /** A run: any actions of the threads and the host, in any order. */
  ghost predicate Run(acts: seq<Action>, s: State)
    decreases acts
  {
    if acts == [] then s == INITIAL
    else
      var n := |acts| - 1;
      exists prev :: Run(acts[..n], prev) && Enabled(prev, acts[n]) && s == Do(prev, acts[n])
  }

  // ------------------------------------------------------------------------- invariants

  function Pending(s: State): seq<HostMsg> {
    (if s.reader.Handling? then [s.reader.msg] else []) + s.inbox
  }

  function Requests(ms: seq<HostMsg>): seq<Request> {
    if ms == [] then []
    else (if ms[0].AskTask? then [ms[0].req] else []) + Requests(ms[1..])
  }

  predicate HasToken(t: Task) {
    t.Ready? || t.Running?
  }

  /** The pointer is set exactly while a task is registered, and then to that task's own,
      newest, token under that task's name: it never dangles. */
  ghost predicate PointerSafe(s: State) {
    && (s.shared.activeCancel.Some? <==> s.task.Running?)
    && (s.task.Running? ==> s.shared.activeCancel == Some(s.task.token) && s.shared.activeTask == s.task.req.id)
    && (!s.task.Running? ==> s.shared.activeTask == "")
    && (HasToken(s.task) ==> s.task.token + 1 == |s.tokens| && s.tokens[s.task.token].task == s.task.req.id)
  }

  /** A token is cancelled only by a cancel frame that names its task. */
  ghost predicate CancelsAskedFor(s: State) {
    forall k :: 0 <= k < |s.tokens| && s.tokens[k].cancelled ==> CancelTask(s.tokens[k].task) in s.handled
  }

  /** Frames from the host are handled in order, none invented. */
  ghost predicate InOrder(s: State) {
    s.sent == s.handled + Pending(s)
  }

  /** Every request handled was taken by the task thread, lies in the slot, or was overwritten. */
  ghost predicate Conserved(s: State) {
    multiset(Requests(s.handled)) == multiset(s.taken) + multiset(s.lost) + multiset(Slot(s))
  }

  /** A task reported cancelled had a cancel frame handled for it. */
  ghost predicate CancelledForReason(s: State) {
    forall f :: f in s.outbox && f.Finished? && f.cancelled ==> CancelTask(f.id) in s.handled
  }

  /** Stopping is final, and announced exactly once. */
  ghost predicate StopsTogether(s: State) {
    (s.reader.Stopped? <==> s.shutdown) && (s.task.Exited? ==> s.shutdown)
  }

  ghost predicate Safe(s: State) {
    && PointerSafe(s) && CancelsAskedFor(s) && InOrder(s) && Conserved(s) && CancelledForReason(s) && StopsTogether(s)
    && s.outbox != [] && s.outbox[0] == Hello
  }

  lemma {:induction false} RequestsConcat(a: seq<HostMsg>, b: seq<HostMsg>)
    ensures Requests(a + b) == Requests(a) + Requests(b)
  {
    if a == [] {
      assert a + b == b;
    } else {
      RequestsConcat(a[1..], b);
      assert (a + b)[1..] == a[1..] + b;
    }
  }

  lemma RequestsSnoc(a: seq<HostMsg>, m: HostMsg)
    ensures Requests(a + [m]) == Requests(a) + if m.AskTask? then [m.req] else []
  {
    RequestsConcat(a, [m]);
    assert [m][1..] == [];
  }

  lemma PointerStays(s: State, a: Action)
    requires PointerSafe(s) && Enabled(s, a)
    ensures PointerSafe(Do(s, a))
  {
  }

  lemma CancelsStay(s: State, a: Action)
    requires PointerSafe(s) && CancelsAskedFor(s) && Enabled(s, a)
    ensures CancelsAskedFor(Do(s, a))
  {
  }

  lemma OrderStays(s: State, a: Action)
    requires InOrder(s) && Enabled(s, a)
    ensures InOrder(Do(s, a))
  {
    var t := Do(s, a);
    match a
    case HostSends(m) =>
      assert s.handled + Pending(s) + [m] == s.handled + Pending(t);
    case Receives =>
      assert Pending(t) == Pending(s);
    case Handles =>
      assert s.handled + Pending(s) == (s.handled + [s.reader.msg]) + s.inbox;
    case _ =>
  }

  /** A request put into the slot moves whatever lay there to the lost ones. */
  lemma Overwrites<T>(handled: seq<T>, taken: seq<T>, lost: seq<T>, slot: seq<T>, x: T)
    requires multiset(handled) == multiset(taken) + multiset(lost) + multiset(slot)
    ensures multiset(handled + [x]) == multiset(taken) + multiset(lost + slot) + multiset([x])
  {
  }

  lemma RequestConserved(s: State, req: Request)
    requires Conserved(s)
    ensures Conserved(HandledRequest(s, AskTask(req), req))
  {
    RequestsSnoc(s.handled, AskTask(req));
    Overwrites(Requests(s.handled), s.taken, s.lost, Slot(s), req);
  }

  predicate OneMoreHandled(s: State, m: HostMsg, t: State) {
    t.handled == s.handled + [m] && t.taken == s.taken && t.lost == s.lost && t.shared.incoming == s.shared.incoming
  }

  lemma OtherHandled(s: State)
    requires s.reader.Handling? && !s.reader.msg.AskTask?
    ensures OneMoreHandled(s, s.reader.msg, Do(s, Handles))
  {
  }

  lemma OtherConserved(s: State, m: HostMsg, t: State)
    requires Conserved(s) && !m.AskTask? && OneMoreHandled(s, m, t)
    ensures Conserved(t)
  {
    RequestsSnoc(s.handled, m);
    assert Requests(s.handled) + [] == Requests(s.handled);
  }

  predicate SameBooks(s: State, t: State) {
    t.handled == s.handled && t.taken == s.taken && t.lost == s.lost && t.shared.incoming == s.shared.incoming
  }

  lemma KeepsBooks(s: State, a: Action)
    requires Enabled(s, a) && !a.Handles? && !a.LooksInSlot?
    ensures SameBooks(s, Do(s, a))
  {
  }

  lemma SameConserved(s: State, t: State)
    requires Conserved(s) && SameBooks(s, t)
    ensures Conserved(t)
  {
  }

  lemma TakingConserves(s: State)
    requires Conserved(s) && Enabled(s, LooksInSlot)
    ensures Conserved(Do(s, LooksInSlot))
  {
    if s.shared.incoming.Some? {
      assert multiset(s.taken + Slot(s)) == multiset(s.taken) + multiset(Slot(s));
    }
  }

  lemma HandlingConserves(s: State)
    requires Conserved(s) && Enabled(s, Handles)
    ensures Conserved(Do(s, Handles))
  {
    if s.reader.msg.AskTask? {
      RequestConserved(s, s.reader.msg.req);
    } else {
      OtherHandled(s);
      OtherConserved(s, s.reader.msg, Do(s, Handles));
    }
  }

  lemma ConservationStays(s: State, a: Action)
    requires Conserved(s) && Enabled(s, a)
    ensures Conserved(Do(s, a))
  {
    if a.LooksInSlot? {
      TakingConserves(s);
    } else if a.Handles? {
      HandlingConserves(s);
    } else {
      KeepsBooks(s, a);
      SameConserved(s, Do(s, a));
    }
  }

  lemma ReasonsStay(s: State, a: Action)
    requires PointerSafe(s) && CancelsAskedFor(s) && CancelledForReason(s) && Enabled(s, a)
    ensures CancelledForReason(Do(s, a))
  {
  }

  lemma StopsStay(s: State, a: Action)
    requires StopsTogether(s) && Enabled(s, a)
    ensures StopsTogether(Do(s, a))
  {
  }

  lemma HelloStays(s: State, a: Action)
    requires s.outbox != [] && s.outbox[0] == Hello && Enabled(s, a)
    ensures Do(s, a).outbox != [] && Do(s, a).outbox[0] == Hello
  {
  }

  lemma SafeStays(s: State, a: Action)
    requires Safe(s) && Enabled(s, a)
    ensures Safe(Do(s, a))
  {
    PointerStays(s, a);
    CancelsStay(s, a);
    OrderStays(s, a);
    ConservationStays(s, a);
    ReasonsStay(s, a);
    StopsStay(s, a);
    HelloStays(s, a);
  }

  /** Every interleaving is safe. */
  lemma {:induction false} EveryRunIsSafe(acts: seq<Action>, s: State)
    requires Run(acts, s)
    ensures Safe(s)
    decreases acts
  {
    if acts != [] {
      var n := |acts| - 1;
      var prev :| Run(acts[..n], prev) && Enabled(prev, acts[n]) && s == Do(prev, acts[n]);
      EveryRunIsSafe(acts[..n], prev);
      SafeStays(prev, acts[n]);
    }
  }

  /** A cancel frame takes effect exactly when it is handled between the registration and the
      unregistration of the task it names. */
  lemma CancelTakesEffect(acts: seq<Action>, s: State)
    requires Run(acts, s) && s.reader.Handling? && s.reader.msg.CancelTask?
    ensures var t := Do(s, Handles);
            var hit := s.task.Running? && s.task.req.id == s.reader.msg.id;
            if hit then s.task.token < |s.tokens| && t.tokens == s.tokens[s.task.token := Token(s.task.req.id, true)]
            else t.tokens == s.tokens
  {
    EveryRunIsSafe(acts, s);
  }

  // ---------------------------------------------------------------- why a token is cancelled

  /** The state a list of actions leads to. */
  function After(acts: seq<Action>): State {
    if acts == [] then INITIAL
    else
      var prev := After(acts[..|acts| - 1]);
      if Enabled(prev, acts[|acts| - 1]) then Do(prev, acts[|acts| - 1]) else prev
  }

  lemma {:induction false} RunLeadsTo(acts: seq<Action>, s: State)
    requires Run(acts, s)
    ensures s == After(acts)
    decreases acts
  {
    if acts != [] {
      var n := |acts| - 1;
      var prev :| Run(acts[..n], prev) && Enabled(prev, acts[n]) && s == Do(prev, acts[n]);
      RunLeadsTo(acts[..n], prev);
    }
  }

  /** The i-th action handles a cancel frame while token k is the registered one and the frame
      names its task. */
  predicate CancelsToken(acts: seq<Action>, i: int, k: int) {
    0 <= i < |acts| && acts[i] == Handles && Hits(After(acts[..i]), k)
  }

  predicate Hits(s: State, k: int) {
    && s.reader.Handling? && s.reader.msg.CancelTask? && s.task.Running?
    && s.task.token == k && s.task.req.id == s.reader.msg.id
  }

  lemma {:induction false} PrefixRuns(acts: seq<Action>, s: State, i: nat)
    requires Run(acts, s) && i <= |acts|
    ensures Run(acts[..i], After(acts[..i]))
    decreases acts
  {
    if i == |acts| {
      assert acts[..i] == acts;
      RunLeadsTo(acts, s);
    } else {
      var n := |acts| - 1;
      var prev :| Run(acts[..n], prev) && Enabled(prev, acts[n]) && s == Do(prev, acts[n]);
      PrefixRuns(acts[..n], prev, i);
      assert acts[..n][..i] == acts[..i];
    }
  }

  lemma {:induction false} TokensGrow(acts: seq<Action>, i: nat)
    requires i <= |acts|
    ensures |After(acts[..i]).tokens| <= |After(acts).tokens|
    decreases |acts|
  {
    if i == |acts| {
      assert acts[..i] == acts;
    } else {
      var n := |acts| - 1;
      TokensGrow(acts[..n], i);
      assert acts[..n][..i] == acts[..i];
      if Enabled(After(acts[..n]), acts[n]) {
        NoTokenVanishes(After(acts[..n]), acts[n]);
      }
    }
  }

  lemma NoTokenVanishes(s: State, a: Action)
    requires Enabled(s, a)
    ensures |s.tokens| <= |Do(s, a).tokens|
  {
  }

  /** Only a token made before can be hit. */
  lemma HitTokenExists(acts: seq<Action>, s: State, i: nat, k: int)
    requires Run(acts, s) && i <= |acts| && Hits(After(acts[..i]), k)
    ensures 0 <= k < |s.tokens|
  {
    PrefixRuns(acts, s, i);
    EveryRunIsSafe(acts[..i], After(acts[..i]));
    TokensGrow(acts, i);
    RunLeadsTo(acts, s);
  }

  lemma TokenStep(s: State, a: Action, k: nat)
    requires PointerSafe(s) && Enabled(s, a) && k < |s.tokens|
    ensures k < |Do(s, a).tokens| && Do(s, a).tokens[k].task == s.tokens[k].task
    ensures Do(s, a).tokens[k].cancelled <==> s.tokens[k].cancelled || (a == Handles && Hits(s, k))
  {
  }

  lemma NewToken(s: State, a: Action, k: nat)
    requires Enabled(s, a) && |s.tokens| <= k < |Do(s, a).tokens|
    ensures a == MakesToken && !Do(s, a).tokens[k].cancelled
  {
  }

  lemma NotHitBefore(acts: seq<Action>, front: seq<Action>, prev: State, i: nat, k: nat)
    requires front <= acts && Run(front, prev) && i <= |front| && |prev.tokens| <= k
    ensures !Hits(After(acts[..i]), k)
  {
    assert front[..i] == acts[..i];
    if Hits(After(front[..i]), k) {
      HitTokenExists(front, prev, i, k);
    }
  }

  lemma NobodyHitsNewToken(acts: seq<Action>, front: seq<Action>, prev: State, k: nat)
    requires acts == front + [MakesToken] && Run(front, prev) && |prev.tokens| <= k
    ensures forall i :: !CancelsToken(acts, i, k)
  {
    forall i | 0 <= i < |front|
      ensures !CancelsToken(acts, i, k)
    {
      NotHitBefore(acts, front, prev, i, k);
    }
  }

  /** A token is cancelled exactly when some cancel frame for its task was handled while the
      token was the registered one: a frame handled before or after has no effect. */
  lemma {:induction false} CancelledExactly(acts: seq<Action>, s: State, k: nat)
    requires Run(acts, s) && k < |s.tokens|
    ensures s.tokens[k].cancelled <==> exists i :: CancelsToken(acts, i, k)
    decreases acts
  {
    var n := |acts| - 1;
    var front := acts[..n];
    var prev :| Run(front, prev) && Enabled(prev, acts[n]) && s == Do(prev, acts[n]);
    if k < |prev.tokens| {
      EveryRunIsSafe(front, prev);
      RunLeadsTo(front, prev);
      TokenStep(prev, acts[n], k);
      CancelledExactly(front, prev, k);
      LastCancel(acts, front, prev, k);
    } else {
      NewToken(prev, acts[n], k);
      assert acts == front + [MakesToken];
      NobodyHitsNewToken(acts, front, prev, k);
    }
  }

  /** Whether any action cancels the token: one of the earlier ones, or the last. */
  lemma LastCancel(acts: seq<Action>, front: seq<Action>, prev: State, k: int)
    requires acts != [] && front == acts[..|acts| - 1] && prev == After(front)
    ensures (exists i :: CancelsToken(acts, i, k))
            <==> (exists i :: CancelsToken(front, i, k)) || (acts[|acts| - 1] == Handles && Hits(prev, k))
  {
    var n := |acts| - 1;
    forall i | 0 <= i < n
      ensures CancelsToken(acts, i, k) <==> CancelsToken(front, i, k)
    {
      assert front[..i] == acts[..i];
    }
    if acts[n] == Handles && Hits(prev, k) {
      assert CancelsToken(acts, n, k);
    }
    forall i | CancelsToken(front, i, k)
      ensures CancelsToken(acts, i, k)
    {
    }
  }

  // ------------------------------------------------------------------ a disciplined host

  predicate Accepts(f: Frame) {
    f.Accepted?
  }

  predicate Finishes(f: Frame) {
    f.Finished?
  }

  /** How many frames are of a kind. */
  function Count(kind: Frame -> bool, fs: seq<Frame>): nat {
    if fs == [] then 0 else Count(kind, fs[..|fs| - 1]) + if kind(fs[|fs| - 1]) then 1 else 0
  }

  lemma CountSnoc(kind: Frame -> bool, fs: seq<Frame>, f: Frame)
    ensures Count(kind, fs + [f]) == Count(kind, fs) + if kind(f) then 1 else 0
  {
    assert (fs + [f])[..|fs|] == fs;
  }

  function CountIn(kind: Frame -> bool, said: Option<Frame>): nat {
    if said.Some? && kind(said.value) then 1 else 0
  }

  lemma CountGrows(kind: Frame -> bool, s: State, a: Action)
    requires Enabled(s, a)
    ensures Count(kind, Do(s, a).outbox) == Count(kind, s.outbox) + CountIn(kind, Says(s, a))
  {
    OutboxGrows(s, a);
    if Says(s, a).Some? {
      CountSnoc(kind, s.outbox, Says(s, a).value);
    } else {
      assert s.outbox + [] == s.outbox;
    }
  }

  /** The host sends a request only when each earlier one has got a frame of the kind. */
  ghost predicate Disciplined(kind: Frame -> bool, s: State, a: Action) {
    a.HostSends? && a.msg.AskTask? ==> |Requests(s.sent)| == Count(kind, s.outbox)
  }

  ghost predicate DisciplinedRun(kind: Frame -> bool, acts: seq<Action>, s: State)
    decreases acts
  {
    if acts == [] then s == INITIAL
    else
      var n := |acts| - 1;
      exists prev :: && DisciplinedRun(kind, acts[..n], prev) && Enabled(prev, acts[n])
                     && Disciplined(kind, prev, acts[n]) && s == Do(prev, acts[n])
  }

  /** The task thread has a request it has not reported accepted. */
  function Unaccepted(t: Task): nat {
    if t.Took? || t.Ready? || (t.Running? && t.stage.Fresh?) then 1 else 0
  }

  /** At most one request is on its way or still to be accepted, none was lost, and the
      requests are taken in the order sent. */
  ghost predicate OneAtATime(s: State) {
    && s.lost == []
    && Requests(s.sent) == s.taken + Slot(s) + Requests(Pending(s))
    && |Requests(s.sent)| <= Count(Accepts, s.outbox) + 1
    && Count(Accepts, s.outbox) + Unaccepted(s.task) <= |s.taken|
  }

  lemma HeadRequest(s: State)
    requires s.reader.Handling?
    ensures Requests(Pending(s)) == (if s.reader.msg.AskTask? then [s.reader.msg.req] else []) + Requests(s.inbox)
  {
    RequestsConcat([s.reader.msg], s.inbox);
    RequestsSnoc([], s.reader.msg);
    assert [] + [s.reader.msg] == [s.reader.msg];
  }

  lemma SlotFree(s: State)
    requires OneAtATime(s) && s.reader.Handling? && s.reader.msg.AskTask?
    ensures s.shared.incoming.None? && Unaccepted(s.task) == 0
  {
    HeadRequest(s);
  }

  lemma RequestKeepsOrder(s: State, req: Request)
    requires OneAtATime(s) && s.reader == Handling(AskTask(req))
    ensures OneAtATime(HandledRequest(s, AskTask(req), req))
  {
    var t := HandledRequest(s, AskTask(req), req);
    HeadRequest(s);
    SlotFree(s);
    assert Pending(t) == s.inbox;
    MoveOne(s.taken, req, Requests(s.inbox));
  }

  lemma OtherKeepsOrder(s: State, t: State)
    requires OneAtATime(s) && s.reader.Handling? && !s.reader.msg.AskTask? && !t.reader.Handling?
    requires t.inbox == s.inbox && t.shared == s.shared && t.outbox == s.outbox && t.task == s.task
    requires t.sent == s.sent && t.taken == s.taken && t.lost == s.lost
    ensures OneAtATime(t)
  {
    HeadRequest(s);
    assert Pending(t) == s.inbox;
    assert [] + Requests(s.inbox) == Requests(s.inbox);
  }

  lemma MoveOne<T>(taken: seq<T>, x: T, rest: seq<T>)
    ensures taken + [] + ([x] + rest) == taken + [x] + rest
  {
  }

  lemma SendingKeepsOrder(s: State, m: HostMsg)
    requires OneAtATime(s) && Disciplined(Accepts, s, HostSends(m))
    ensures OneAtATime(Do(s, HostSends(m)))
  {
    var t := Do(s, HostSends(m));
    RequestsSnoc(s.sent, m);
    RequestsSnoc(Pending(s), m);
    assert Pending(t) == Pending(s) + [m];
    AppendRequests(s.taken + Slot(s), Requests(Pending(s)), if m.AskTask? then [m.req] else []);
    assert t.taken == s.taken && Slot(t) == Slot(s) && t.outbox == s.outbox && t.task == s.task && t.lost == s.lost;
  }

  lemma AppendRequests<T>(a: seq<T>, b: seq<T>, c: seq<T>)
    ensures (a + b) + c == a + (b + c)
  {
  }

  lemma ReceivingKeepsOrder(s: State)
    requires OneAtATime(s) && Enabled(s, Receives)
    ensures OneAtATime(Do(s, Receives))
  {
    assert Pending(Do(s, Receives)) == Pending(s);
  }

  lemma HandlingKeepsOrder(s: State)
    requires OneAtATime(s) && Enabled(s, Handles)
    ensures OneAtATime(Do(s, Handles))
  {
    if s.reader.msg.AskTask? {
      RequestKeepsOrder(s, s.reader.msg.req);
    } else {
      OtherKeepsOrder(s, Handled(s));
    }
  }

  lemma TakingKeepsOrder(s: State)
    requires OneAtATime(s) && Enabled(s, LooksInSlot)
    ensures OneAtATime(Do(s, LooksInSlot))
  {
    var t := Do(s, LooksInSlot);
    assert s.taken + Slot(s) == t.taken + Slot(t);
    if s.shared.incoming.Some? {
      assert |s.taken| + 1 + |Requests(Pending(s))| == |Requests(s.sent)|;
    }
  }

  predicate SameQueues(s: State, t: State) {
    t.sent == s.sent && t.taken == s.taken && t.lost == s.lost && Slot(t) == Slot(s) && Pending(t) == Pending(s)
  }

  lemma KeepsQueues(s: State, a: Action)
    requires Enabled(s, a) && !a.HostSends? && !a.Receives? && !a.Handles? && !a.LooksInSlot?
    ensures SameQueues(s, Do(s, a))
  {
  }

  /** A request goes from unaccepted to accepted, if it moves at all. */
  predicate AcceptsInTurn(s: State, t: State) {
    && Count(Accepts, s.outbox) <= Count(Accepts, t.outbox)
    && Count(Accepts, t.outbox) + Unaccepted(t.task) <= Count(Accepts, s.outbox) + Unaccepted(s.task)
  }

  lemma AcceptanceReported(s: State, a: Action)
    requires Enabled(s, a) && !a.LooksInSlot?
    ensures Unaccepted(Do(s, a).task) + CountIn(Accepts, Says(s, a)) <= Unaccepted(s.task)
  {
  }

  lemma WorkAcceptsInTurn(s: State, a: Action)
    requires Enabled(s, a) && !a.LooksInSlot?
    ensures AcceptsInTurn(s, Do(s, a))
  {
    AcceptanceReported(s, a);
    CountGrows(Accepts, s, a);
  }

  lemma WorkingKeepsOrder(s: State, t: State)
    requires OneAtATime(s) && SameQueues(s, t) && AcceptsInTurn(s, t)
    ensures OneAtATime(t)
  {
  }

  lemma DisciplineKeeps(s: State, a: Action)
    requires OneAtATime(s) && Enabled(s, a) && Disciplined(Accepts, s, a)
    ensures OneAtATime(Do(s, a))
  {
    match a
    case HostSends(m) => SendingKeepsOrder(s, m);
    case Receives => ReceivingKeepsOrder(s);
    case Handles => HandlingKeepsOrder(s);
    case LooksInSlot => TakingKeepsOrder(s);
    case _ =>
      KeepsQueues(s, a);
      WorkAcceptsInTurn(s, a);
      WorkingKeepsOrder(s, Do(s, a));
  }

  /** With a host that sends a request only when all the earlier ones have been reported
      accepted, no request is ever overwritten or taken out of order. */
  lemma {:induction false} NoRequestLost(acts: seq<Action>, s: State)
    requires DisciplinedRun(Accepts, acts, s)
    ensures Run(acts, s) && OneAtATime(s)
    decreases acts
  {
    if acts != [] {
      var n := |acts| - 1;
      var prev :| && DisciplinedRun(Accepts, acts[..n], prev) && Enabled(prev, acts[n])
                  && Disciplined(Accepts, prev, acts[n]) && s == Do(prev, acts[n]);
      NoRequestLost(acts[..n], prev);
      DisciplineKeeps(prev, acts[n]);
    }
  }

  function Unfinished(t: Task): nat {
    if t.Running? && t.stage.Open? then 1 else 0
  }

  /** A task is finished only after it was accepted. */
  ghost predicate FinishesAccepted(s: State) {
    Count(Finishes, s.outbox) + Unfinished(s.task) <= Count(Accepts, s.outbox)
  }

  lemma FinishReported(s: State, a: Action)
    requires Enabled(s, a)
    ensures Unfinished(Do(s, a).task) + CountIn(Finishes, Says(s, a))
            <= Unfinished(s.task) + CountIn(Accepts, Says(s, a))
  {
  }

  lemma StillFinishesAccepted(s: State, a: Action)
    requires FinishesAccepted(s) && Enabled(s, a)
    ensures FinishesAccepted(Do(s, a))
  {
    FinishReported(s, a);
    CountGrows(Accepts, s, a);
    CountGrows(Finishes, s, a);
  }

  /** A host that waits for the terminal frame of each task waits for its acceptance. */
  lemma {:induction false} WaitingForTheEnd(acts: seq<Action>, s: State)
    requires DisciplinedRun(Finishes, acts, s)
    ensures DisciplinedRun(Accepts, acts, s) && FinishesAccepted(s)
    decreases acts
  {
    if acts == [] {
      CountSnoc(Accepts, [], Hello);
      CountSnoc(Finishes, [], Hello);
      assert [] + [Hello] == [Hello];
    } else {
      var n := |acts| - 1;
      var prev :| && DisciplinedRun(Finishes, acts[..n], prev) && Enabled(prev, acts[n])
                  && Disciplined(Finishes, prev, acts[n]) && s == Do(prev, acts[n]);
      WaitingForTheEnd(acts[..n], prev);
      NoRequestLost(acts[..n], prev);
      StillFinishesAccepted(prev, acts[n]);
      assert Disciplined(Accepts, prev, acts[n]);
    }
  }

  // ------------------------------------------------------------------- frames of one task

  /** Whose trace the stream of frames is inside. */
  datatype Phase = Between | Inside(id: TaskId) | Garbled

  function Next(ph: Phase, f: Frame): Phase {
    match f
    case Hello => ph
    case Heartbeat => ph
    case Accepted(id) => if ph.Garbled? then ph else Inside(id)
    case Event(id) => if ph == Inside(id) then ph else Garbled
    case Finished(id, _) => if ph == Inside(id) then Between else Garbled
  }

  function PhaseOf(fs: seq<Frame>): Phase {
    if fs == [] then Between else Next(PhaseOf(fs[..|fs| - 1]), fs[|fs| - 1])
  }

  lemma PhaseSnoc(fs: seq<Frame>, f: Frame)
    ensures PhaseOf(fs + [f]) == Next(PhaseOf(fs), f)
  {
    assert (fs + [f])[..|fs|] == fs;
  }

  /** The phase agrees with the task the thread is inside. */
  predicate PhaseFits(ph: Phase, t: Task) {
    !ph.Garbled? && (t.Running? && t.stage.Open? ==> ph == Inside(t.req.id))
  }

  ghost predicate TracesApart(s: State) {
    PhaseFits(PhaseOf(s.outbox), s.task)
  }

  lemma PhaseGrows(s: State, a: Action)
    requires Enabled(s, a)
    ensures PhaseOf(Do(s, a).outbox) == if Says(s, a).Some? then Next(PhaseOf(s.outbox), Says(s, a).value)
                                        else PhaseOf(s.outbox)
  {
    OutboxGrows(s, a);
    if Says(s, a).Some? {
      PhaseSnoc(s.outbox, Says(s, a).value);
    } else {
      assert s.outbox + [] == s.outbox;
    }
  }

  lemma PhaseFollows(s: State, a: Action, ph: Phase)
    requires Enabled(s, a) && PhaseFits(ph, s.task)
    ensures PhaseFits(if Says(s, a).Some? then Next(ph, Says(s, a).value) else ph, Do(s, a).task)
  {
  }

  lemma TracesStayApart(s: State, a: Action)
    requires TracesApart(s) && Enabled(s, a)
    ensures TracesApart(Do(s, a))
  {
    PhaseFollows(s, a, PhaseOf(s.outbox));
    PhaseGrows(s, a);
  }

  /** Events and terminal frames always belong to the task accepted last: the frames of two
      tasks never mix, whatever the heartbeat thread puts between them. */
  lemma {:induction false} FramesNeverMix(acts: seq<Action>, s: State)
    requires Run(acts, s)
    ensures TracesApart(s)
    decreases acts
  {
    if acts == [] {
      PhaseSnoc([], Hello);
      assert [] + [Hello] == [Hello];
    } else {
      var n := |acts| - 1;
      var prev :| Run(acts[..n], prev) && Enabled(prev, acts[n]) && s == Do(prev, acts[n]);
      FramesNeverMix(acts[..n], prev);
      TracesStayApart(prev, acts[n]);
    }
  }

  // ------------------------------------------------------------- what is not guaranteed

  lemma OneMore(acts: seq<Action>, s: State, a: Action) returns (more: seq<Action>, t: State)
    requires DisciplinedRun(Finishes, acts, s) && Enabled(s, a) && Disciplined(Finishes, s, a)
    ensures DisciplinedRun(Finishes, more, t) && t == Do(s, a)
  {
    more, t := acts + [a], Do(s, a);
    assert more[..|acts|] == acts;
  }

  lemma OneMoreFree(acts: seq<Action>, s: State, a: Action) returns (more: seq<Action>, t: State)
    requires Run(acts, s) && Enabled(s, a)
    ensures Run(more, t) && t == Do(s, a)
  {
    more, t := acts + [a], Do(s, a);
    assert more[..|acts|] == acts;
  }

  /** Without the discipline a request can be overwritten in the slot. */
  lemma RequestOverwritten(a: Request, b: Request) returns (acts: seq<Action>, s: State)
    ensures Run(acts, s) && s.lost == [a] && s.shared.incoming == Some(b)
  {
    acts, s := [], INITIAL;
    acts, s := OneMoreFree(acts, s, HostSends(AskTask(a)));
    acts, s := OneMoreFree(acts, s, HostSends(AskTask(b)));
    acts, s := OneMoreFree(acts, s, Receives);
    acts, s := OneMoreFree(acts, s, Handles);
    acts, s := OneMoreFree(acts, s, Receives);
    acts, s := OneMoreFree(acts, s, Handles);
  }

  /** Even a disciplined host's cancel frame is lost when it is handled before the task
      thread registers the token: the task then runs to an uncancelled end. */
  lemma CancelLost(r: Request) returns (acts: seq<Action>, s: State)
    ensures DisciplinedRun(Finishes, acts, s)
    ensures s.handled == [AskTask(r), CancelTask(r.id)] && s.inbox == []
    ensures s.tokens == [Token(r.id, false)]
    ensures s.outbox == [Hello, Accepted(r.id), Finished(r.id, false)]
  {
    acts, s := [], INITIAL;
    acts, s := OneMore(acts, s, HostSends(AskTask(r)));
    acts, s := OneMore(acts, s, HostSends(CancelTask(r.id)));
    acts, s := CancelHandledEarly(acts, s, r);
    acts, s := RunsToTheEnd(acts, s, r);
  }

  lemma CancelHandledEarly(before: seq<Action>, was: State, r: Request) returns (acts: seq<Action>, s: State)
    requires DisciplinedRun(Finishes, before, was)
    requires was == INITIAL.(inbox := [AskTask(r), CancelTask(r.id)], sent := was.sent)
    ensures DisciplinedRun(Finishes, acts, s)
    ensures s == INITIAL.(sent := was.sent, handled := [AskTask(r), CancelTask(r.id)], taken := [r], task := Took(r))
  {
    acts, s := before, was;
    acts, s := OneMore(acts, s, Receives);
    acts, s := OneMore(acts, s, Handles);
    acts, s := OneMore(acts, s, TestsLoop);
    acts, s := OneMore(acts, s, LooksInSlot);
    assert s == INITIAL.(inbox := [CancelTask(r.id)], sent := was.sent, handled := [AskTask(r)], taken := [r],
                         task := Took(r));
    acts, s := CancelMisses(acts, s, r);
  }

  lemma CancelMisses(before: seq<Action>, was: State, r: Request) returns (acts: seq<Action>, s: State)
    requires DisciplinedRun(Finishes, before, was) && was.inbox == [CancelTask(r.id)] && was.reader == Receiving
    requires was.shared == INITIAL.shared && was.handled == [AskTask(r)]
    ensures DisciplinedRun(Finishes, acts, s)
    ensures s == was.(inbox := [], handled := [AskTask(r), CancelTask(r.id)])
  {
    acts, s := before, was;
    acts, s := OneMore(acts, s, Receives);
    acts, s := OneMore(acts, s, Handles);
  }

  lemma RunsToTheEnd(before: seq<Action>, was: State, r: Request) returns (acts: seq<Action>, s: State)
    requires DisciplinedRun(Finishes, before, was) && was.task == Took(r) && was.tokens == [] && was.outbox == [Hello]
    ensures DisciplinedRun(Finishes, acts, s) && s.inbox == was.inbox && s.handled == was.handled
    ensures s.tokens == [Token(r.id, false)] && s.outbox == [Hello, Accepted(r.id), Finished(r.id, false)]
  {
    acts, s := before, was;
    acts, s := OneMore(acts, s, MakesToken);
    acts, s := OneMore(acts, s, Registers);
    acts, s := OneMore(acts, s, SendsAccepted);
    acts, s := OneMore(acts, s, SendsFinished(false));
  }

  /** A request still in the slot when the worker shuts down is never taken. */
  lemma RequestDroppedAtShutdown(r: Request) returns (acts: seq<Action>, s: State)
    ensures DisciplinedRun(Finishes, acts, s) && s.task == Exited && s.shared.incoming == Some(r) && s.taken == []
  {
    acts, s := [], INITIAL;
    acts, s := OneMore(acts, s, HostSends(AskTask(r)));
    acts, s := OneMore(acts, s, Receives);
    acts, s := OneMore(acts, s, Handles);
    acts, s := OneMore(acts, s, InputEnds);
    acts, s := OneMore(acts, s, TestsLoop);
  }
}
