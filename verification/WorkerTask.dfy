/** One task of the worker, from the accepted frame to the terminal one
    (adapters/colmap/colmap_worker.cpp, adapters/colmap/colmap_adapter.cpp,
    adapters/colmap/colmap_config.cpp). What the backend does and when the token is set are
    parameters; which sends fail is left open. */
module WorkerTask {
  import opened Wrappers

  // ------------------------------------------------------------------------------- frames

  datatype Info = Info(hash: string, path: string)

  datatype Code = Cancelled | Timeout | ProcessFailed | ValidationDomain | OutputInvalid | Protocol

  datatype Frame =
    | Accepted
    | Log(text: string)
    | Progress(percent: int, substage: string)
    | Artifact(info: Info)
    | Completed(outputs: seq<Info>)
    | Failed(code: Code, recoverable: bool)

  predicate Terminal(f: Frame) {
    f.Completed? || f.Failed?
  }

  /** The host's end: the frames delivered, and all the frames a send was attempted for. */
  class Wire {
    var frames: seq<Frame>
    ghost var attempted: seq<Frame>
    ghost var clean: bool

    ghost predicate Valid()
      reads this
    {
      clean ==> frames == attempted
    }

    constructor ()
      ensures Valid() && clean && attempted == []
    {
      frames, attempted, clean := [], [], true;
    }

    method Send(f: Frame) returns (ok: bool)
      requires Valid()
      modifies this
      ensures Valid() && attempted == old(attempted) + [f]
      ensures clean == (old(clean) && ok)
      ensures frames == if ok then old(frames) + [f] else old(frames)
    {
      ok := *;
      attempted := attempted + [f];
      clean := clean && ok;
      if ok {
        frames := frames + [f];
      }
    }
  }

  // ------------------------------------------------------------------------- the outside

  /** The cancel token. The reader thread sets it at some moment, if ever: after as many polls
      have been answered; it never clears it. */
  class Token {
    const arrives: Option<int>
    var polls: nat

    constructor (a: Option<int>)
      ensures arrives == a && polls == 0
    {
      arrives, polls := a, 0;
    }

    predicate Cancelled()
      reads this
    {
      arrives.Some? && arrives.value <= polls
    }

    method Poll() returns (c: bool)
      modifies this
      ensures c == old(Cancelled()) && polls == old(polls) + 1
    {
      c := arrives.Some? && arrives.value <= polls;
      polls := polls + 1;
    }
  }

  datatype ProcessResult = SpawnFailed | TimedOut | Killed | Exited(code: int, out: string, err: string)

  /** A stage's subprocess: how often its runner polls the token before it is over, and how it
      is over if it is not killed for cancellation. */
  datatype Child = Child(polls: int, result: ProcessResult)

  function PollsOf(c: Child): nat {
    if c.polls < 0 then 0 else c.polls
  }

  /** What a task meets: its inputs, the subprocess of each stage, and the native model read
      back with the name of its payload, if there is one. */
  datatype World = World(inputs: bool, child: int -> Child, output: Result<Option<Info>, Thrown>)

  ghost predicate Sound(w: World) {
    (forall i :: !w.child(i).result.Killed?) && (w.output.Err? ==> w.output.error.code != Cancelled)
  }

  /** The token is set before the last of n further polls. */
  predicate Noticed(arrives: Option<int>, polls: nat, n: nat) {
    arrives.Some? && n > 0 && arrives.value < polls + n
  }

  /** The runner polls the token while the subprocess runs, and kills it when the token is set. */
  method RunSubprocess(token: Token, child: Child) returns (r: ProcessResult)
    modifies token
    ensures Noticed(token.arrives, old(token.polls), PollsOf(child)) ==> r == Killed
    ensures !Noticed(token.arrives, old(token.polls), PollsOf(child)) ==>
              r == child.result && token.polls == old(token.polls) + PollsOf(child)
  {
    for k := 0 to PollsOf(child)
      invariant token.polls == old(token.polls) + k && !Noticed(token.arrives, old(token.polls), k)
    {
      var c := token.Poll();
      if c {
        return Killed;
      }
    }
    r := child.result;
  }

  /** What escapes from the adapter. */
  datatype Thrown = Thrown(code: Code, recoverable: bool)

  const CANCEL := Thrown(Cancelled, false)

  // --------------------------------------------------------------------------------- plan

  const STAGES := ["feature_extractor", "matcher", "mapper", "bundle_adjuster"]

  predicate KnownStage(s: string) {
    s == STAGES[0] || s == STAGES[1] || s == STAGES[2]
  }

  /** The stages named in a list that are enabled. */
  function Enabled(stages: seq<string>, enabled: seq<string>): seq<string> {
    if stages == [] then []
    else Enabled(stages[..|stages| - 1], enabled)
         + if stages[|stages| - 1] in enabled then [stages[|stages| - 1]] else []
  }

  /** The enabled stages in their fixed order; the first three when none is named. */
  function PlanOf(enabled: seq<string>): seq<string> {
    if enabled == [] then STAGES[..3] else Enabled(STAGES, enabled)
  }

  lemma {:induction false} EnabledStages(stages: seq<string>, enabled: seq<string>)
    ensures forall s :: s in Enabled(stages, enabled) <==> s in stages && s in enabled
    ensures |Enabled(stages, enabled)| <= |stages|
  {
    if stages != [] {
      var n := |stages| - 1;
      assert stages == stages[..n] + [stages[n]];
      EnabledStages(stages[..n], enabled);
    }
  }

  /** The adapter can run the plan: there is a stage, and the bundle adjuster is not one. */
  predicate Runnable(plan: seq<string>) {
    plan != [] && forall s :: s in plan ==> KnownStage(s)
  }

  method Plan(enabled: seq<string>) returns (plan: seq<string>)
    ensures plan == PlanOf(enabled) && |plan| <= 4
  {
    if enabled == [] {
      return STAGES[..3];
    }
    plan := [];
    for i := 0 to |STAGES|
      invariant plan == Enabled(STAGES[..i], enabled)
    {
      assert STAGES[..i + 1][..i] == STAGES[..i];
      if STAGES[i] in enabled {
        plan := plan + [STAGES[i]];
      }
    }
    assert STAGES[..|STAGES|] == STAGES;
    EnabledStages(STAGES, enabled);
  }

  // -------------------------------------------------------------- how a task is bound to end

  /** What a stage that is not cancelled throws. */
  function StageThrows(r: ProcessResult): Option<Thrown> {
    match r
    case SpawnFailed => Some(Thrown(ProcessFailed, false))
    case TimedOut => Some(Thrown(Timeout, true))
    case Killed => Some(CANCEL)
    case Exited(code, _, _) => if code != 0 then Some(Thrown(ProcessFailed, false)) else None
  }

  /** What the stages from the i-th on throw, when the token has been polled before. */
  function StagesThrow(n: nat, w: World, arrives: Option<int>, i: nat, polls: nat): Option<Thrown>
    requires i <= n
    decreases n - i
  {
    if i == n then None
    else if Noticed(arrives, polls, 1 + PollsOf(w.child(i))) then Some(CANCEL)
    else if StageThrows(w.child(i).result).Some? then StageThrows(w.child(i).result)
    else StagesThrow(n, w, arrives, i + 1, polls + 1 + PollsOf(w.child(i)))
  }

  function Throws(plan: seq<string>, w: World, arrives: Option<int>, polls: nat): Option<Thrown> {
    if !Runnable(plan) then Some(Thrown(ValidationDomain, false))
    else if !w.inputs then Some(Thrown(ProcessFailed, false))
    else
      var t := StagesThrow(|plan|, w, arrives, 0, polls);
      if t.Some? then t else if w.output.Err? then Some(w.output.error) else None
  }

  /** How often the stages from the i-th on poll the token unless it stops them. */
  function PollsAsked(n: nat, w: World, i: nat): nat
    requires i <= n
    decreases n - i
  {
    if i == n then 0
    else 1 + PollsOf(w.child(i)) + if StageThrows(w.child(i).result).Some? then 0 else PollsAsked(n, w, i + 1)
  }

  /** How a task ends: completed with its artifacts, cancelled, or failed. */
  datatype Ending = Done(outputs: seq<Info>) | Stopped | Broke(code: Code, recoverable: bool)

  function EndingOf(config: Option<seq<string>>, w: World, arrives: Option<int>, polls: nat): Ending {
    if config.None? then Broke(ValidationDomain, false)
    else
      match Throws(PlanOf(config.value), w, arrives, polls)
      case Some(t) => if t.code == Cancelled then Stopped else Broke(t.code, t.recoverable)
      case None => Done(if w.output.value.Some? then [w.output.value.value] else [])
  }

  // ------------------------------------------------------------ the same, read off the outside

  /** Stage i's subprocess is started, is over in time, and exits with code zero. */
  predicate Clean(w: World, i: int) {
    w.child(i).result.Exited? && w.child(i).result.code == 0
  }

  /** The first k of n stages are clean, and the next, if there is one, is not. */
  ghost predicate CleanUpTo(w: World, n: nat, k: nat) {
    k <= n && (forall i :: 0 <= i < k ==> Clean(w, i)) && (k < n ==> !Clean(w, k))
  }

  lemma {:induction false} FirstUnclean(w: World, n: nat, i: nat) returns (k: nat)
    requires i <= n && forall j :: 0 <= j < i ==> Clean(w, j)
    ensures i <= k && CleanUpTo(w, n, k)
    decreases n - i
  {
    if i < n && Clean(w, i) {
      k := FirstUnclean(w, n, i + 1);
    } else {
      k := i;
    }
  }

  /** How often the first k stages poll the token: once each, and while their subprocess runs. */
  function PollsBefore(w: World, k: nat): nat {
    if k == 0 then 0 else PollsBefore(w, k - 1) + 1 + PollsOf(w.child(k - 1))
  }

  /** How many stages are started when the first k of n are clean and the next is not. */
  function Started(n: nat, k: nat): nat {
    if k < n then k + 1 else n
  }

  /** The token is set before the last poll of the stages that are started. */
  predicate SetInTime(w: World, arrives: Option<int>, polls: nat, n: nat, k: nat) {
    arrives.Some? && n > 0 && arrives.value < polls + PollsBefore(w, Started(n, k))
  }

  /** What is thrown for a stage that is not clean: only a time-out can be retried. */
  predicate StageFault(r: ProcessResult, t: Thrown) {
    t == if r.TimedOut? then Thrown(Timeout, true) else Thrown(ProcessFailed, false)
  }

  /** How the run of a plan of known stages has to end. */
  ghost predicate DueAfter(w: World, n: nat, k: nat, arrives: Option<int>, polls: nat, thrown: Option<Thrown>) {
    if SetInTime(w, arrives, polls, n, k) then thrown == Some(Thrown(Cancelled, false))
    else if k < n then thrown.Some? && StageFault(w.child(k).result, thrown.value)
    else thrown == if w.output.Err? then Some(w.output.error) else None
  }

  predicate KnownPlan(plan: seq<string>) {
    plan != [] && forall s :: s in plan ==> s == "feature_extractor" || s == "matcher" || s == "mapper"
  }

  /** How the run of any plan has to end. */
  ghost predicate DueThrow(plan: seq<string>, w: World, arrives: Option<int>, polls: nat, thrown: Option<Thrown>) {
    if !KnownPlan(plan) then thrown == Some(Thrown(ValidationDomain, false))
    else if !w.inputs then thrown == Some(Thrown(ProcessFailed, false))
    else exists k :: CleanUpTo(w, |plan|, k) && DueAfter(w, |plan|, k, arrives, polls, thrown)
  }

  /** How a task has to end: a thrown cancellation stops it, anything else thrown breaks it. */
  ghost predicate DueEnding(config: Option<seq<string>>, w: World, arrives: Option<int>, polls: nat, e: Ending) {
    match config
    case None => e == Broke(ValidationDomain, false)
    case Some(enabled) =>
      var plan := PlanOf(enabled);
      match e
      case Stopped => DueThrow(plan, w, arrives, polls, Some(Thrown(Cancelled, false)))
      case Broke(code, again) => code != Cancelled && DueThrow(plan, w, arrives, polls, Some(Thrown(code, again)))
      case Done(outputs) =>
        && DueThrow(plan, w, arrives, polls, None) && w.output.Ok?
        && outputs == match w.output.value case Some(info) => [info] case None => []
  }

  lemma {:induction false} PollsGrow(w: World, i: nat, k: nat)
    requires i <= k
    ensures PollsBefore(w, i) <= PollsBefore(w, k) && (i < k ==> PollsBefore(w, i) < PollsBefore(w, k))
  {
    if i < k {
      PollsGrow(w, i, k - 1);
    }
  }

  /** What the stages from the i-th on throw, once it is known which stage is not clean. */
  lemma {:induction false} StagesDue(n: nat, w: World, arrives: Option<int>, i: nat, polls: nat, k: nat)
    requires i <= k && CleanUpTo(w, n, k) && Sound(w)
    ensures StagesThrow(n, w, arrives, i, polls)
            == if i < n && arrives.Some? && arrives.value < polls + PollsBefore(w, Started(n, k)) - PollsBefore(w, i)
               then Some(Thrown(Cancelled, false))
               else if k == n then None
               else Some(if w.child(k).result.TimedOut? then Thrown(Timeout, true) else Thrown(ProcessFailed, false))
    decreases n - i
  {
    if i < n {
      PollsGrow(w, i + 1, Started(n, k));
      assert !w.child(i).result.Killed?;
      if i < k && !Noticed(arrives, polls, 1 + PollsOf(w.child(i))) {
        assert Clean(w, i);
        StagesDue(n, w, arrives, i + 1, polls + 1 + PollsOf(w.child(i)), k);
      }
    }
  }

  lemma {:induction false} PollsDue(n: nat, w: World, i: nat, k: nat)
    requires i <= k && CleanUpTo(w, n, k)
    ensures PollsAsked(n, w, i) == PollsBefore(w, Started(n, k)) - PollsBefore(w, i)
    decreases n - i
  {
    if i < n && i < k {
      assert Clean(w, i);
      PollsDue(n, w, i + 1, k);
    }
  }

  lemma ThrowIsDue(plan: seq<string>, w: World, arrives: Option<int>, polls: nat)
    requires Sound(w)
    ensures DueThrow(plan, w, arrives, polls, Throws(plan, w, arrives, polls))
  {
    if Runnable(plan) && w.inputs {
      var k := FirstUnclean(w, |plan|, 0);
      StagesDue(|plan|, w, arrives, 0, polls, k);
      assert DueAfter(w, |plan|, k, arrives, polls, Throws(plan, w, arrives, polls));
    }
  }

  /** A task ends as it has to. */
  lemma EndingIsDue(config: Option<seq<string>>, w: World, arrives: Option<int>, polls: nat)
    requires Sound(w)
    ensures DueEnding(config, w, arrives, polls, EndingOf(config, w, arrives, polls))
  {
    if config.Some? {
      ThrowIsDue(PlanOf(config.value), w, arrives, polls);
    }
  }

  // ----------------------------------------------------------------- what a trace looks like

  /** The progress reports in a stretch of frames. */
  function Reports(fs: seq<Frame>): seq<(int, string)> {
    if fs == [] then []
    else Reports(fs[..|fs| - 1])
         + if fs[|fs| - 1].Progress? then [(fs[|fs| - 1].percent, fs[|fs| - 1].substage)] else []
  }

  lemma ReportsSnoc(fs: seq<Frame>, f: Frame)
    ensures Reports(fs + [f]) == Reports(fs) + if f.Progress? then [(f.percent, f.substage)] else []
  {
    assert (fs + [f])[..|fs|] == fs;
  }

  /** The reports due when the first n stages of a plan are done. */
  function Milestones(plan: seq<string>, n: nat): (r: seq<(int, string)>)
    requires n <= |plan|
    ensures |r| == n && forall i :: 0 <= i < n ==> r[i] == ((i + 1) * 100 / |plan|, plan[i])
  {
    seq(n, i requires 0 <= i < n => ((i + 1) * 100 / |plan|, plan[i]))
  }

  /** Frames of stages at work: logs, and the reports due. */
  ghost predicate Working(fs: seq<Frame>, plan: seq<string>, n: nat) {
    && n <= |plan|
    && (forall f :: f in fs ==> f.Log? || f.Progress?)
    && Reports(fs) == Milestones(plan, n)
  }

  lemma WorkingLog(fs: seq<Frame>, plan: seq<string>, n: nat, text: string)
    requires Working(fs, plan, n)
    ensures Working(fs + [Log(text)], plan, n)
  {
    ReportsSnoc(fs, Log(text));
    assert Reports(fs) + [] == Reports(fs);
  }

  lemma WorkingProgress(fs: seq<Frame>, plan: seq<string>, n: nat)
    requires Working(fs, plan, n) && n < |plan|
    ensures Working(fs + [Progress((n + 1) * 100 / |plan|, plan[n])], plan, n + 1)
  {
    ReportsSnoc(fs, Progress((n + 1) * 100 / |plan|, plan[n]));
  }

  function ArtifactFrames(outputs: seq<Info>): (r: seq<Frame>)
    ensures |r| == |outputs| && forall k :: 0 <= k < |outputs| ==> r[k] == Artifact(outputs[k])
  {
    seq(|outputs|, k requires 0 <= k < |outputs| => Artifact(outputs[k]))
  }

  // ------------------------------------------------------------------------------ the sink

  /** BridgeSink: forwards events as frames and remembers the artifacts that got through. */
  class BridgeSink {
    const wire: Wire
    var outputs: seq<Info>

    constructor (w: Wire)
      ensures wire == w && outputs == []
    {
      wire, outputs := w, [];
    }

    method Progress(percent: int, stage: string)
      requires wire.Valid()
      modifies wire
      ensures wire.Valid() && wire.attempted == old(wire.attempted) + [Frame.Progress(percent, stage)]
      ensures wire.clean ==> old(wire.clean)
    {
      var _ := wire.Send(Frame.Progress(percent, stage));
    }

    method Log(text: string)
      requires wire.Valid()
      modifies wire
      ensures wire.Valid() && wire.attempted == old(wire.attempted) + [Frame.Log(text)]
      ensures wire.clean ==> old(wire.clean)
    {
      var _ := wire.Send(Frame.Log(text));
    }

    method ArtifactProduced(info: Info)
      requires wire.Valid()
      modifies this, wire
      ensures wire.Valid() && wire.attempted == old(wire.attempted) + [Artifact(info)]
      ensures wire.clean ==> old(wire.clean) && outputs == old(outputs) + [info]
      ensures outputs == old(outputs) || outputs == old(outputs) + [info]
    {
      var ok := wire.Send(Artifact(info));
      if ok {
        outputs := outputs + [info];
      }
    }
  }

  // --------------------------------------------------------------------------- the adapter

  /** A log line of a stage, when there is something to say. */
  method LogUnlessEmpty(sink: BridgeSink, text: string, ghost base: seq<Frame>, ghost before: seq<Frame>,
                        ghost plan: seq<string>,
                        ghost n: nat)
    returns (ghost after: seq<Frame>)
    requires sink.wire.Valid() && sink.wire.attempted == base + before && Working(before, plan, n)
    modifies sink.wire
    ensures sink.wire.Valid() && sink.wire.attempted == base + after && Working(after, plan, n)
    ensures sink.wire.clean ==> old(sink.wire.clean)
  {
    after := before;
    if text != "" {
      sink.Log(text);
      WorkingLog(before, plan, n, text);
      after := before + [Log(text)];
      assert base + before + [Log(text)] == base + after;
    }
  }

  /** One stage: none when it was done, else what it threw. */
  method RunStage(plan: seq<string>, i: nat, sink: BridgeSink, token: Token, child: Child, ghost base: seq<Frame>,
                  ghost before: seq<Frame>)
    returns (thrown: Option<Thrown>, ghost after: seq<Frame>)
    requires i < |plan| && sink.wire.Valid() && sink.wire.attempted == base + before && Working(before, plan, i)
    modifies sink.wire, token
    ensures sink.wire.Valid() && sink.wire.attempted == base + after
    ensures Working(after, plan, if thrown.None? then i + 1 else i)
    ensures Noticed(token.arrives, old(token.polls), 1 + PollsOf(child)) ==> thrown == Some(CANCEL)
    ensures !Noticed(token.arrives, old(token.polls), 1 + PollsOf(child)) ==>
              thrown == StageThrows(child.result) && token.polls == old(token.polls) + 1 + PollsOf(child)
    ensures !Noticed(token.arrives, old(token.polls), 1 + PollsOf(child)) && !child.result.Killed? ==>
              if child.result.Exited? && child.result.code == 0 then thrown == None
              else thrown.Some? && StageFault(child.result, thrown.value)
    ensures sink.wire.clean ==> old(sink.wire.clean)
  {
    after := before;
    var cancelled := token.Poll();
    if cancelled {
      return Some(CANCEL), after;
    }
    after := LogUnlessEmpty(sink, "executing", base, after, plan, i);
    var result := RunSubprocess(token, child);
    match result {
      case SpawnFailed => thrown := Some(Thrown(ProcessFailed, false));
      case TimedOut => thrown := Some(Thrown(Timeout, true));
      case Killed => thrown := Some(CANCEL);
      case Exited(code, out, err) =>
        if code != 0 {
          return Some(Thrown(ProcessFailed, false)), after;
        }
        var percent := (i + 1) * 100 / |plan|;
        sink.Progress(percent, plan[i]);
        WorkingProgress(after, plan, i);
        assert base + after + [Progress(percent, plan[i])] == base + (after + [Progress(percent, plan[i])]);
        after := after + [Progress(percent, plan[i])];
        after := LogUnlessEmpty(sink, out, base, after, plan, i + 1);
        after := LogUnlessEmpty(sink, err, base, after, plan, i + 1);
        thrown := None;
    }
  }

  /** The validation of a plan. */
  method CheckPlan(plan: seq<string>) returns (ok: bool)
    ensures ok <==> Runnable(plan)
  {
    if plan == [] {
      return false;
    }
    for i := 0 to |plan|
      invariant forall k :: 0 <= k < i ==> KnownStage(plan[k])
    {
      if !KnownStage(plan[i]) {
        assert plan[i] in plan;
        return false;
      }
    }
    ok := true;
  }

  /** The stages in turn, until one throws. */
  method RunStages(plan: seq<string>, sink: BridgeSink, token: Token, w: World, ghost base: seq<Frame>)
    returns (thrown: Option<Thrown>, ghost work: seq<Frame>, ghost done: nat)
    requires sink.wire.Valid() && sink.wire.attempted == base
    modifies sink.wire, token
    ensures sink.wire.Valid() && sink.wire.attempted == base + work && Working(work, plan, done)
    ensures thrown == StagesThrow(|plan|, w, token.arrives, 0, old(token.polls)) && (thrown.None? ==> done == |plan|)
    ensures thrown.None? ==> token.polls == old(token.polls) + PollsAsked(|plan|, w, 0)
    ensures sink.wire.clean ==> old(sink.wire.clean)
  {
    work, done := [], 0;
    for i := 0 to |plan|
      invariant sink.wire.Valid() && sink.wire.attempted == base + work && Working(work, plan, i) && done == i
      invariant StagesThrow(|plan|, w, token.arrives, 0, old(token.polls))
                == StagesThrow(|plan|, w, token.arrives, i, token.polls)
      invariant old(token.polls) + PollsAsked(|plan|, w, 0) == token.polls + PollsAsked(|plan|, w, i)
      invariant sink.wire.clean ==> old(sink.wire.clean)
    {
      thrown, work := RunStage(plan, i, sink, token, w.child(i), base, work);
      if thrown.Some? {
        return;
      }
      done := i + 1;
    }
    thrown := None;
  }

  /** Execute: every stage in turn, then the artifact if there is one. */
  method Execute(plan: seq<string>, sink: BridgeSink, token: Token, w: World)
    returns (thrown: Option<Thrown>, ghost work: seq<Frame>, ghost done: nat, ghost made: seq<Frame>)
    requires sink.wire.Valid() && sink.outputs == []
    modifies sink, sink.wire, token
    ensures sink.wire.Valid() && sink.wire.attempted == old(sink.wire.attempted) + work + made
    ensures Working(work, plan, done) && (done > 0 ==> Runnable(plan))
    ensures thrown == Throws(plan, w, token.arrives, old(token.polls))
    ensures Sound(w) ==> DueThrow(plan, w, token.arrives, old(token.polls), thrown)
    ensures thrown.Some? ==> made == [] && sink.outputs == []
    ensures thrown.None? ==> done == |plan| && token.polls == old(token.polls) + PollsAsked(|plan|, w, 0)
    ensures thrown.None? ==> made == ArtifactFrames(if w.output.value.Some? then [w.output.value.value] else [])
    ensures thrown.None? && sink.wire.clean ==> made == ArtifactFrames(sink.outputs)
    ensures sink.wire.clean ==> old(sink.wire.clean)
  {
    work, done, made := [], 0, [];
    if Sound(w) {
      ThrowIsDue(plan, w, token.arrives, token.polls);
    }
    var ok := CheckPlan(plan);
    if !ok {
      return Some(Thrown(ValidationDomain, false)), work, done, made;
    }
    if !w.inputs {
      return Some(Thrown(ProcessFailed, false)), work, done, made;
    }
    thrown, work, done := RunStages(plan, sink, token, w, sink.wire.attempted);
    if thrown.Some? {
      return;
    }
    match w.output {
      case Err(e) => thrown := Some(e);
      case Ok(None) =>
        assert ArtifactFrames([]) == [];
      case Ok(Some(info)) =>
        sink.ArtifactProduced(info);
        made := [Artifact(info)];
        assert ArtifactFrames([info]) == [Artifact(info)];
    }
  }

  // --------------------------------------------------------------------------------- the task

  function EndFrames(e: Ending): seq<Frame> {
    match e
    case Done(outputs) => [Completed(outputs)]
    case Stopped => [Progress(100, "cancelled"), Completed([])]
    case Broke(code, recoverable) => [Failed(code, recoverable)]
  }

  /** The whole trace of a task: accepted, stages at work, the artifacts, the end. */
  ghost predicate TaskTrace(t: seq<Frame>, plan: seq<string>, work: seq<Frame>, done: nat, outputs: seq<Info>,
                            e: Ending) {
    && t == [Accepted] + work + ArtifactFrames(outputs) + EndFrames(e)
    && Working(work, plan, done) && (done > 0 ==> forall s :: s in plan ==> KnownStage(s))
    && |outputs| <= 1
    && (if e.Done? then e.outputs == outputs && done == |plan| && plan != [] else outputs == [])
    && (e.Broke? ==> e.code != Cancelled)
  }

  /** Runs one task; config is the stages enabled by the request, or none when it is invalid.
      When every send succeeds the host gets one whole trace, with the ending that is due. */
  method WorkerRunTask(config: Option<seq<string>>, wire: Wire, token: Token, w: World)
    returns (ok: bool, ghost plan: seq<string>, ghost work: seq<Frame>, ghost done: nat, ghost outputs: seq<Info>,
             ghost e: Ending)
    requires wire.Valid() && wire.clean && Sound(w)
    modifies wire, token
    ensures wire.Valid() && (!ok ==> !wire.clean)
    ensures |plan| <= 4 && (config.Some? && wire.clean ==> plan == PlanOf(config.value))
    ensures wire.clean ==> |wire.frames| >= |old(wire.frames)| && wire.frames[..|old(wire.frames)|] == old(wire.frames)
                           && TaskTrace(wire.frames[|old(wire.frames)|..], plan, work, done, outputs, e)
    ensures wire.clean ==> e == EndingOf(config, w, token.arrives, old(token.polls))
    ensures wire.clean ==> DueEnding(config, w, token.arrives, old(token.polls), e)
    ensures wire.clean && e.Done? ==> token.polls == old(token.polls) + PollsAsked(|plan|, w, 0)
  {
    plan, work, done, outputs, e := [], [], 0, [], Broke(Protocol, false);
    EndingIsDue(config, w, token.arrives, token.polls);
    ghost var start := wire.frames;
    ok := wire.Send(Accepted);
    if !ok {
      return;
    }
    assert Reports([]) == Milestones(plan, 0) && ArtifactFrames([]) == [];
    if config.None? {
      var _ := wire.Send(Failed(ValidationDomain, false));
      e := Broke(ValidationDomain, false);
      if wire.clean {
        assert start + [Accepted] + [] + [] == start + [Accepted];
        Assemble(start, wire.frames, work, [], EndFrames(e));
      }
      return;
    }
    var stages := Plan(config.value);
    plan := stages;
    var sink := new BridgeSink(wire);
    var thrown: Option<Thrown>;
    ghost var made: seq<Frame>;
    thrown, work, done, made := Execute(stages, sink, token, w);
    if thrown.None? {
      ok := wire.Send(Completed(sink.outputs));
      e := Done(sink.outputs);
      outputs := sink.outputs;
      if wire.clean {
        SameArtifacts(sink.outputs, if w.output.value.Some? then [w.output.value.value] else []);
        Assemble(start, wire.frames, work, made, EndFrames(e));
      }
    } else if thrown.value.code == Cancelled {
      e := Stopped;
      ok := wire.Send(Progress(100, "cancelled"));
      if !ok {
        return;
      }
      ok := wire.Send(Completed([]));
      if wire.clean {
        TwoAtEnd(start + [Accepted] + work + made, Progress(100, "cancelled"), Completed([]));
        Assemble(start, wire.frames, work, made, EndFrames(e));
      }
    } else {
      var _ := wire.Send(Failed(thrown.value.code, thrown.value.recoverable));
      e := Broke(thrown.value.code, thrown.value.recoverable);
      if wire.clean {
        Assemble(start, wire.frames, work, made, EndFrames(e));
      }
    }
  }

  lemma TwoAtEnd(fs: seq<Frame>, a: Frame, b: Frame)
    ensures fs + [a] + [b] == fs + [a, b]
  {
  }

  lemma SameArtifacts(a: seq<Info>, b: seq<Info>)
    requires ArtifactFrames(a) == ArtifactFrames(b)
    ensures a == b
  {
    forall k | 0 <= k < |a|
      ensures a[k] == b[k]
    {
      assert ArtifactFrames(a)[k] == ArtifactFrames(b)[k];
    }
  }

  /** What was sent in parts is one trace after what was there before. */
  lemma Assemble(start: seq<Frame>, frames: seq<Frame>, work: seq<Frame>, made: seq<Frame>, end: seq<Frame>)
    requires frames == start + [Accepted] + work + made + end
    ensures |frames| >= |start| && frames[..|start|] == start && frames[|start|..] == [Accepted] + work + made + end
  {
    assert frames == start + ([Accepted] + work + made + end);
  }

  // ------------------------------------------------------------------- what the host reads

  lemma MilestonesRise(plan: seq<string>, i: nat, j: nat)
    requires i <= j < |plan|
    ensures var m := Milestones(plan, |plan|);
            0 <= m[i].0 <= m[j].0 <= 100 && m[|plan| - 1].0 == 100 && (m[i].0 >= 1 <==> (i + 1) * 100 >= |plan|)
  {
    var n := |plan|;
    Quotients((i + 1) * 100, (j + 1) * 100, n);
    Quotients((j + 1) * 100, n * 100, n);
    Whole(n);
  }

  /** Each percentage is the share of the stages done, rounded down. */
  lemma MilestoneIs(plan: seq<string>, i: nat)
    requires i < |plan|
    ensures var p := Milestones(plan, |plan|)[i].0; p * |plan| <= (i + 1) * 100 < p * |plan| + |plan|
    ensures Milestones(plan, |plan|)[i].1 == plan[i]
  {
    QuotientIs((i + 1) * 100, |plan|);
  }

  lemma QuotientIs(x: nat, n: nat)
    requires n > 0
    ensures x / n * n <= x < x / n * n + n
  {
    assert x == x / n * n + x % n;
  }

  lemma Quotients(x: nat, y: nat, n: nat)
    requires n > 0 && x <= y
    ensures 0 <= x / n <= y / n && (x / n >= 1 <==> x >= n)
  {
    var q, r := x / n, x % n;
    assert x == q * n + r;
    var p, s := y / n, y % n;
    assert y == p * n + s;
    TimesGrows(p + 1, q, n);
    TimesGrows(1, q, n);
    TimesGrows(q, 0, n);
  }

  lemma TimesGrows(a: int, b: int, n: nat)
    ensures a <= b ==> a * n <= b * n
  {
    if a <= b {
      assert (b - a) * n >= 0;
    }
  }

  lemma Whole(n: nat)
    requires n > 0
    ensures n * 100 / n == 100
  {
    assert n * 100 == 100 * n + 0;
    var q, r := n * 100 / n, n * 100 % n;
    assert n * 100 == q * n + r && 0 <= r < n;
    TimesGrows(q, 99, n);
    TimesGrows(101, q, n);
  }

  lemma {:induction false} ReportAt(fs: seq<Frame>, k: nat)
    requires k < |fs| && fs[k].Progress?
    ensures var n := |Reports(fs[..k])|;
            n < |Reports(fs)| && Reports(fs)[n] == (fs[k].percent, fs[k].substage)
    decreases |fs|
  {
    var last := |fs| - 1;
    if k < last {
      ReportAt(fs[..last], k);
      assert fs[..last][..k] == fs[..k];
    }
  }

  lemma {:induction false} ReportsGrow(fs: seq<Frame>, j: nat, k: nat)
    requires j <= k <= |fs|
    ensures |Reports(fs[..j])| <= |Reports(fs[..k])|
    decreases k - j
  {
    if j < k {
      ReportsGrow(fs, j, k - 1);
      assert fs[..k][..k - 1] == fs[..k - 1];
    }
  }

  /** While the stages work, the reported percentages never fall and stay between 0 and 100;
      each report names its stage, so none says cancelled. They are at least 1 when the plan
      has at most a hundred stages, as every plan of the worker has. */
  lemma ProgressRises(fs: seq<Frame>, plan: seq<string>, n: nat, j: nat, k: nat)
    requires Working(fs, plan, n) && j <= k < |fs| && fs[j].Progress? && fs[k].Progress?
    ensures 0 <= fs[j].percent <= fs[k].percent <= 100
    ensures |plan| <= 100 ==> fs[j].percent >= 1
    ensures fs[k].substage in plan
  {
    ReportAt(fs, j);
    ReportAt(fs, k);
    ReportsGrow(fs, j, k);
    var a, b := |Reports(fs[..j])|, |Reports(fs[..k])|;
    MilestonesRise(plan, a, b);
  }

  lemma NoReportNamesCancelled(plan: seq<string>, done: nat, work: seq<Frame>, k: nat)
    requires Working(work, plan, done) && k < |work| && work[k].Progress? && work[k].substage in plan
    requires done > 0 ==> forall s :: s in plan ==> KnownStage(s)
    ensures work[k].substage != "cancelled"
  {
    ReportAt(work, k);
    assert done > 0;
    var s := work[k].substage;
    assert |"cancelled"| == 9 && |"feature_extractor"| == 17 && |"matcher"| == 7 && |"mapper"| == 6;
  }

  /** Which part of a trace a position lies in. */
  lemma TraceAt(t: seq<Frame>, plan: seq<string>, work: seq<Frame>, done: nat, outputs: seq<Info>, e: Ending, k: nat)
    requires TaskTrace(t, plan, work, done, outputs, e) && k < |t|
    ensures |t| == 1 + |work| + |outputs| + |EndFrames(e)|
    ensures t[k] == if k == 0 then Accepted
                    else if k < 1 + |work| then work[k - 1]
                    else if k < 1 + |work| + |outputs| then Artifact(outputs[k - 1 - |work|])
                    else EndFrames(e)[k - 1 - |work| - |outputs|]
    ensures 0 < k < 1 + |work| ==> t[k].Log? || t[k].Progress?
  {
    if 0 < k < 1 + |work| {
      assert work[k - 1] in work;
    }
  }

  /** The host's view of a whole trace: it starts with the acceptance and ends with its only
      terminal frame, and an artifact is followed at once by the completion that lists it. */
  lemma HostReadsFrames(t: seq<Frame>, plan: seq<string>, work: seq<Frame>, done: nat, outputs: seq<Info>, e: Ending)
    requires TaskTrace(t, plan, work, done, outputs, e)
    ensures |t| >= 2 && t[0] == Accepted
    ensures forall k :: 0 <= k < |t| ==> (t[k] == Accepted <==> k == 0) && (Terminal(t[k]) <==> k == |t| - 1)
    ensures forall k :: 0 <= k < |t| && t[k].Artifact? ==> k == |t| - 2 && t[|t| - 1] == Completed([t[k].info])
    ensures t[|t| - 1].Completed? ==> (t[|t| - 1].outputs == [] <==> forall k :: 0 <= k < |t| ==> !t[k].Artifact?)
  {
    TraceAt(t, plan, work, done, outputs, e, 0);
    TraceAt(t, plan, work, done, outputs, e, |t| - 1);
    forall k | 0 <= k < |t|
      ensures (t[k] == Accepted <==> k == 0) && (Terminal(t[k]) <==> k == |t| - 1)
      ensures t[k].Artifact? ==> k == |t| - 2 && t[|t| - 1] == Completed([t[k].info])
    {
      TraceAt(t, plan, work, done, outputs, e, k);
    }
    if outputs != [] {
      TraceAt(t, plan, work, done, outputs, e, 1 + |work|);
    }
  }

  /** A report of a trace comes from the work, or is the last one, at 100. */
  lemma ReportOfTrace(t: seq<Frame>, plan: seq<string>, work: seq<Frame>, done: nat, outputs: seq<Info>, e: Ending,
                      k: nat)
    requires TaskTrace(t, plan, work, done, outputs, e) && k < |t| && t[k].Progress?
    ensures 0 < k
    ensures if k < 1 + |work| then t[k] == work[k - 1] else t[k].percent == 100
  {
    TraceAt(t, plan, work, done, outputs, e, k);
  }

  /** Percentages never fall over the whole trace of a plan, and lie between 1 and 100. */
  lemma HostReadsProgress(t: seq<Frame>, plan: seq<string>, work: seq<Frame>, done: nat, outputs: seq<Info>, e: Ending,
                          j: nat, k: nat)
    requires TaskTrace(t, plan, work, done, outputs, e) && |plan| <= 100
    requires j <= k < |t| && t[j].Progress? && t[k].Progress?
    ensures 1 <= t[j].percent <= t[k].percent <= 100
  {
    ReportOfTrace(t, plan, work, done, outputs, e, j);
    ReportOfTrace(t, plan, work, done, outputs, e, k);
    if k < 1 + |work| {
      ProgressRises(work, plan, done, j - 1, k - 1);
    } else if j < 1 + |work| {
      ProgressRises(work, plan, done, j - 1, j - 1);
    }
  }

  /** The cancelled substage appears exactly in the trace of a cancelled task, which then ends
      with an empty completion and has no artifact. */
  lemma HostReadsCancellation(t: seq<Frame>, plan: seq<string>, work: seq<Frame>, done: nat, outputs: seq<Info>,
                              e: Ending)
    requires TaskTrace(t, plan, work, done, outputs, e)
    ensures (exists k :: 0 <= k < |t| && t[k].Progress? && t[k].substage == "cancelled") <==> e == Stopped
    ensures e == Stopped ==> |t| >= 2 && t[|t| - 2] == Progress(100, "cancelled") && t[|t| - 1] == Completed([])
    ensures e == Stopped ==> forall k :: 0 <= k < |t| ==> !t[k].Artifact?
  {
    forall k | 0 <= k < |t| && t[k].Progress? && t[k].substage == "cancelled"
      ensures e == Stopped
    {
      TraceAt(t, plan, work, done, outputs, e, k);
      if k < 1 + |work| {
        ProgressRises(work, plan, done, k - 1, k - 1);
        NoReportNamesCancelled(plan, done, work, k - 1);
      }
    }
    HostReadsFrames(t, plan, work, done, outputs, e);
    if e == Stopped {
      TraceAt(t, plan, work, done, outputs, e, |t| - 2);
      TraceAt(t, plan, work, done, outputs, e, |t| - 1);
    }
  }

  // ----------------------------------------------------------------- when a task is cancelled

  lemma {:induction false} StagesCancelledExactly(n: nat, w: World, arrives: Option<int>, i: nat, polls: nat)
    requires i <= n && Sound(w)
    ensures StagesThrow(n, w, arrives, i, polls).Some? && StagesThrow(n, w, arrives, i, polls).value.code == Cancelled
            <==> arrives.Some? && i < n && arrives.value < polls + PollsAsked(n, w, i)
    decreases n - i
  {
    if i < n {
      var c := w.child(i);
      if !Noticed(arrives, polls, 1 + PollsOf(c)) && StageThrows(c.result).None? {
        StagesCancelledExactly(n, w, arrives, i + 1, polls + 1 + PollsOf(c));
        LastStage(n, w, arrives, i, polls);
      }
    }
  }

  lemma LastStage(n: nat, w: World, arrives: Option<int>, i: nat, polls: nat)
    requires i < n && !Noticed(arrives, polls, 1 + PollsOf(w.child(i))) && StageThrows(w.child(i).result).None?
    ensures arrives.Some? && i + 1 == n ==> arrives.value >= polls + PollsAsked(n, w, i)
  {
  }

  /** A task is cancelled exactly when it gets to its stages and the token is set before the
      last poll they make: polls before each stage and while its subprocess runs. */
  lemma CancelledExactly(config: Option<seq<string>>, w: World, arrives: Option<int>)
    requires Sound(w)
    ensures EndingOf(config, w, arrives, 0) == Stopped
            <==> config.Some? && Runnable(PlanOf(config.value)) && w.inputs
                 && arrives.Some? && arrives.value < PollsAsked(|PlanOf(config.value)|, w, 0)
  {
    if config.Some? {
      StagesCancelledExactly(|PlanOf(config.value)|, w, arrives, 0, 0);
    }
  }

  /** A token set from the start stops every task that gets to its stages. */
  lemma CancelledFromTheStart(config: Option<seq<string>>, w: World)
    requires Sound(w) && config.Some? && Runnable(PlanOf(config.value)) && w.inputs
    ensures EndingOf(config, w, Some(0), 0) == Stopped
  {
    CancelledExactly(config, w, Some(0));
  }

  /** A cancelled token lets the task complete exactly when it is set after the last poll. */
  lemma CompletedThoughCancelled(config: Option<seq<string>>, w: World, arrives: Option<int>, polls: nat)
    requires Sound(w) && config.Some? && EndingOf(config, w, arrives, 0).Done?
    requires polls == PollsAsked(|PlanOf(config.value)|, w, 0)
    ensures arrives.Some? && arrives.value <= polls <==> arrives == Some(polls)
  {
    CancelledExactly(config, w, arrives);
  }

  /** A run that shows it: the three stages poll once each, the token is set after the third
      poll, and the task completes. */
  method LateCancel(wire: Wire) returns (token: Token, ghost e: Ending)
    requires wire.Valid() && wire.clean
    modifies wire
    ensures wire.clean ==> e == Done([]) && token.Cancelled()
  {
    var w := World(true, i => Child(0, Exited(0, "", "")), Ok(None));
    token := new Token(Some(3));
    var _, plan, _, _, _, end := WorkerRunTask(Some([]), wire, token, w);
    e := end;
    assert PollsAsked(3, w, 2) == 1 + PollsAsked(3, w, 3) == 1;
    assert PollsAsked(3, w, 1) == 2 && PollsAsked(3, w, 0) == 3;
    assert StagesThrow(3, w, Some(3), 2, 2) == StagesThrow(3, w, Some(3), 3, 3) == None;
    assert StagesThrow(3, w, Some(3), 1, 1) == None && StagesThrow(3, w, Some(3), 0, 0) == None;
  }

  /** The host reads the cancelled substage exactly when the token was set in time. */
  lemma HostReadsCancelledToken(t: seq<Frame>, plan: seq<string>, work: seq<Frame>, done: nat, outputs: seq<Info>,
                                config: Option<seq<string>>, w: World, arrives: Option<int>)
    requires Sound(w) && TaskTrace(t, plan, work, done, outputs, EndingOf(config, w, arrives, 0))
    ensures (exists k :: 0 <= k < |t| && t[k].Progress? && t[k].substage == "cancelled")
            <==> config.Some? && Runnable(PlanOf(config.value)) && w.inputs
                 && arrives.Some? && arrives.value < PollsAsked(|PlanOf(config.value)|, w, 0)
  {
    HostReadsCancellation(t, plan, work, done, outputs, EndingOf(config, w, arrives, 0));
    CancelledExactly(config, w, arrives);
  }

  // ------------------------------------------------------------- what the terminal frame means

  predicate SaysCancelled(f: Frame) {
    f.Progress? && f.substage == "cancelled"
  }

  /** The host reads a cancellation. */
  ghost predicate ReadsCancelled(t: seq<Frame>) {
    exists k :: 0 <= k < |t| && SaysCancelled(t[k])
  }

  /** A trace says completed, and nothing of a cancellation, exactly when the plan was known, the
      inputs were there, every stage was started, was over in time and exited with code zero, the
      output could be read, and the token was not set in time. It then lists that output. */
  lemma HostReadsSuccess(t: seq<Frame>, plan: seq<string>, work: seq<Frame>, done: nat, outputs: seq<Info>, e: Ending,
                         enabled: seq<string>, w: World, arrives: Option<int>, polls: nat)
    requires TaskTrace(t, plan, work, done, outputs, e) && DueEnding(Some(enabled), w, arrives, polls, e)
    ensures var n := |PlanOf(enabled)|;
            t[|t| - 1].Completed? && !ReadsCancelled(t)
            <==> KnownPlan(PlanOf(enabled)) && w.inputs && CleanUpTo(w, n, n) && w.output.Ok?
                 && !SetInTime(w, arrives, polls, n, n)
    ensures t[|t| - 1].Completed? && !ReadsCancelled(t) ==>
              w.output.Ok? && t[|t| - 1].outputs == match w.output.value case Some(info) => [info] case None => []
  {
    LastOfTrace(t, plan, work, done, outputs, e);
    var n := |PlanOf(enabled)|;
    if KnownPlan(PlanOf(enabled)) && w.inputs && CleanUpTo(w, n, n) {
      forall k: nat | CleanUpTo(w, n, k)
        ensures k == n
      {
        assert k < n ==> Clean(w, k);
      }
    }
  }

  /** The last frame tells how the task ended. */
  lemma LastOfTrace(t: seq<Frame>, plan: seq<string>, work: seq<Frame>, done: nat, outputs: seq<Info>, e: Ending)
    requires TaskTrace(t, plan, work, done, outputs, e)
    ensures |t| >= 2 && (ReadsCancelled(t) <==> e == Stopped)
    ensures t[|t| - 1] == match e
                          case Done(infos) => Completed(infos)
                          case Stopped => Completed([])
                          case Broke(code, again) => Failed(code, again)
  {
    HostReadsFrames(t, plan, work, done, outputs, e);
    HostReadsCancellation(t, plan, work, done, outputs, e);
    TraceAt(t, plan, work, done, outputs, e, |t| - 1);
    if e == Stopped {
      assert SaysCancelled(t[|t| - 2]);
    }
    if ReadsCancelled(t) {
      var k :| 0 <= k < |t| && SaysCancelled(t[k]);
      assert t[k].Progress? && t[k].substage == "cancelled";
    }
  }

  /** Without a cancellation the first stage that is not clean decides the failure the host reads:
      a time-out, which can be retried, or a failed process, which cannot. */
  lemma HostReadsFailure(t: seq<Frame>, plan: seq<string>, work: seq<Frame>, done: nat, outputs: seq<Info>, e: Ending,
                         enabled: seq<string>, w: World, arrives: Option<int>, polls: nat, k: nat)
    requires TaskTrace(t, plan, work, done, outputs, e) && DueEnding(Some(enabled), w, arrives, polls, e)
    requires KnownPlan(PlanOf(enabled)) && w.inputs && CleanUpTo(w, |PlanOf(enabled)|, k) && k < |PlanOf(enabled)|
    ensures ReadsCancelled(t) <==> SetInTime(w, arrives, polls, |PlanOf(enabled)|, k)
    ensures !ReadsCancelled(t) ==>
              t[|t| - 1] == if w.child(k).result.TimedOut? then Failed(Timeout, true) else Failed(ProcessFailed, false)
  {
    LastOfTrace(t, plan, work, done, outputs, e);
    forall j: nat | CleanUpTo(w, |PlanOf(enabled)|, j)
      ensures j == k
    {
      assert j < k ==> Clean(w, j);
      assert k < j ==> Clean(w, k);
    }
  }

  /** The plan has the enabled stages in the order of the pipeline: the first three if none is
      named. */
  lemma PlanInOrder(enabled: seq<string>)
    ensures enabled == [] ==> PlanOf(enabled) == ["feature_extractor", "matcher", "mapper"]
    ensures enabled != [] ==> forall s :: s in PlanOf(enabled) <==>
              s in enabled && (s == "feature_extractor" || s == "matcher" || s == "mapper" || s == "bundle_adjuster")
    ensures forall i, j :: 0 <= i < j < |PlanOf(enabled)| ==> Rank(PlanOf(enabled)[i]) < Rank(PlanOf(enabled)[j])
  {
    if enabled != [] {
      EnabledStages(STAGES, enabled);
      RanksRise(STAGES, enabled);
    }
  }

  /** A stage's place in the pipeline. */
  function Rank(s: string): int {
    if s == "feature_extractor" then 0 else if s == "matcher" then 1 else if s == "mapper" then 2 else 3
  }

  lemma {:induction false} RanksRise(stages: seq<string>, enabled: seq<string>)
    requires forall i, j :: 0 <= i < j < |stages| ==> Rank(stages[i]) < Rank(stages[j])
    ensures forall i, j :: 0 <= i < j < |Enabled(stages, enabled)| ==>
              Rank(Enabled(stages, enabled)[i]) < Rank(Enabled(stages, enabled)[j])
  {
    if stages != [] {
      var n := |stages| - 1;
      RanksRise(stages[..n], enabled);
      EnabledStages(stages[..n], enabled);
      forall s | s in Enabled(stages[..n], enabled)
        ensures Rank(s) < Rank(stages[n])
      {
        assert s in stages[..n];
      }
    }
  }
}
