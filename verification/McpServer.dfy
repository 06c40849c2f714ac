/** `Server.Run`: the read loop, its handler goroutines and the graceful shutdown. */
module McpServer {
  import opened Wrappers
  import opened McpHandler

  /** What `handleMessage` writes for what `Handle` returned. */
  function ReplyTo(msg: Message, r: Result<Option<Response>, Failure>): Option<Response> {
    match r
    case Ok(reply) => reply
    case Err(_) => if msg.IsRequest() then Some(Response(msg.id.value, Error(INTERNAL_ERROR))) else None
  }

  /** Exactly what is owed: one response with the id of the request, or nothing. */
  ghost predicate Settles(msg: Message, replies: seq<Response>) {
    if OwedResponse(msg) then |replies| == 1 && replies[0].id == msg.id.value else replies == []
  }

  class Transport {
    var written: seq<Response>

    constructor ()
      ensures written == []
    {
      written := [];
    }

    method Write(response: Response)
      modifies this
      ensures written == old(written) + [response]
    {
      written := written + [response];
    }
  }

  function Answer(msg: Message, body: Body): seq<Response>
    requires msg.id.Some?
  {
    [Response(msg.id.value, body)]
  }

  /**
   * Writes what is owed, with the content that the handler decided on and the internal error
   * for a result that does not marshal; or the process ends, because the id that the method
   * needs is missing.
   */
  method HandleMessage(handler: Handler, transport: Transport, msg: Message, outcome: ProviderOutcome)
    returns (crashed: bool)
    requires handler.Valid()
    modifies handler, transport
    ensures handler.Valid()
    ensures crashed <==> !Admissible(msg)
    ensures crashed || !OwedResponse(msg) ==> transport.written == old(transport.written)
    ensures msg.id.Some? && msg.name == "ping" ==>
              transport.written == old(transport.written) + Answer(msg, Pong)
    ensures msg.id.Some? && msg.name == "initialize" ==>
              transport.written == old(transport.written) +
                Answer(msg, if msg.paramsOk then Initialized(handler.negotiatedVersion) else Error(INVALID_PARAMS))
    ensures OwedResponse(msg) && Dispatch(msg.name) == Unknown ==>
              transport.written == old(transport.written) + Answer(msg, Error(METHOD_NOT_FOUND))
    ensures var kind := Dispatch(msg.name);
            msg.id.Some? && kind.Call? ==>
              transport.written == old(transport.written) + Answer(msg,
                if !Configured(handler.opts, kind.provider) then Error(INTERNAL_ERROR)
                else if !handler.Reaches(msg, kind) then Error(INVALID_PARAMS)
                else if outcome == Succeeds then Provided(handler.UsesV1(kind))
                else Error(INTERNAL_ERROR))
    ensures !crashed ==>
              exists replies :: Settles(msg, replies) && transport.written == old(transport.written) + replies
  {
    NotificationsAreSilent(msg.name);
    var r := handler.Handle(msg, outcome);
    hide Dispatch, NOTIFICATIONS;
    if r == Err(NilDereference) {
      return true;
    }
    SettledBy(msg, r);
    if r.Err? {
      if msg.IsRequest() {
        transport.Write(Response(msg.id.value, Error(INTERNAL_ERROR)));
      }
      return false;
    }
    if r.value.Some? {
      transport.Write(r.value.value);
    }
    assert r.value.None? ==> transport.written == old(transport.written) + [];
    return false;
  }

  function Listed(reply: Option<Response>): seq<Response> {
    if reply.Some? then [reply.value] else []
  }

  lemma SettledBy(msg: Message, r: Result<Option<Response>, Failure>)
    requires Answers(msg, r) && Admissible(msg)
    ensures Settles(msg, Listed(ReplyTo(msg, r)))
  {
  }

  // ---------- the goroutines ----------

  // Where a handler goroutine stands: computing, about to write its reply if there is one,
  // about to call `wg.Done`, and past it.
  datatype Phase = Handling | Replying(reply: Response) | Ending | Finished

  datatype Worker = Worker(msg: Message, phase: Phase)

  // `Reading` is the message loop; `Draining` waits for the goroutines, `Exited` has closed
  // the transport. A goroutine that panics ends the whole process: `Crashed`.
  datatype Loop = Reading | Draining | Exited | Crashed

  // What the transport sees, in order. A progress notification carries no id.
  datatype Event = Read(g: nat) | Wrote(g: nat, response: Response) | Progressed(g: nat) | TransportClosed

  // `wg` is the counter of the wait group; `running` collects the goroutines it counts.
  datatype State = State(loop: Loop, workers: map<nat, Worker>, wg: nat, log: seq<Event>, running: set<nat>)

  const START: State := State(Reading, map[], 0, [], {})

  // `StopReading` stands for every way out of the loop: cancellation, `Close`, end of input
  // and a failing read.
  datatype Step =
    | ReadMessage(g: nat, msg: Message)
    | StopReading
    | Handle(g: nat, r: Result<Option<Response>, Failure>)
    | Progress(g: nat)
    | Reply(g: nat)
    | Done(g: nat)
    | CloseTransport

  ghost predicate InPhase(s: State, g: nat, phase: Phase) {
    g in s.workers && s.workers[g].phase == phase
  }

  ghost predicate Enabled(s: State, step: Step) {
    s.loop != Crashed &&
    match step
    case ReadMessage(g, msg) => s.loop == Reading && g !in s.workers
    case StopReading => s.loop == Reading
    case Handle(g, r) => InPhase(s, g, Handling) && Answers(s.workers[g].msg, r)
    case Progress(g) => InPhase(s, g, Handling) && s.workers[g].msg.name == "tools/call"
    case Reply(g) => g in s.workers && s.workers[g].phase.Replying?
    case Done(g) => InPhase(s, g, Ending) && s.wg > 0
    case CloseTransport => s.loop == Draining && s.wg == 0
  }

  ghost function SetPhase(s: State, g: nat, phase: Phase): State
    requires g in s.workers
  {
    s.(workers := s.workers[g := s.workers[g].(phase := phase)])
  }

  ghost function Apply(s: State, step: Step): State
    requires Enabled(s, step)
  {
    match step
    case ReadMessage(g, msg) =>
      s.(workers := s.workers[g := Worker(msg, Handling)], wg := s.wg + 1,
        log := s.log + [Read(g)], running := s.running + {g})
    case StopReading => s.(loop := Draining)
    case Handle(g, r) =>
      if r == Err(NilDereference) then s.(loop := Crashed) else
      var reply := ReplyTo(s.workers[g].msg, r);
      SetPhase(s, g, if reply.Some? then Replying(reply.value) else Ending)
    case Progress(g) => s.(log := s.log + [Progressed(g)])
    case Reply(g) => SetPhase(s, g, Ending).(log := s.log + [Wrote(g, s.workers[g].phase.reply)])
    case Done(g) => SetPhase(s, g, Finished).(wg := s.wg - 1, running := s.running - {g})
    case CloseTransport => s.(loop := Exited, log := s.log + [TransportClosed])
  }

  /** The state after the steps of a run; none if some step could not be taken. */
  ghost function Run(steps: seq<Step>): Option<State> {
    if steps == [] then Some(START)
    else
      match Run(steps[..|steps| - 1])
      case None => None
      case Some(s) => if Enabled(s, steps[|steps| - 1]) then Some(Apply(s, steps[|steps| - 1])) else None
  }

  /** The responses that goroutine `g` has written, in order. */
  ghost function Replies(log: seq<Event>, g: nat): seq<Response> {
    if log == [] then []
    else
      var rest := Replies(log[..|log| - 1], g);
      match log[|log| - 1]
      case Wrote(f, response) => if f == g then rest + [response] else rest
      case _ => rest
  }

  lemma RepliesAppend(log: seq<Event>, e: Event, g: nat)
    ensures Replies(log + [e], g) ==
            if e.Wrote? && e.g == g then Replies(log, g) + [e.response] else Replies(log, g)
  {
    assert (log + [e])[..|log|] == log;
  }

  // ---------- what every run keeps ----------

  ghost predicate WorkerOk(s: State, g: nat) {
    && (g in s.running <==> g in s.workers && s.workers[g].phase != Finished)
    && (g in s.workers <==> Read(g) in s.log)
    && if g !in s.workers then Replies(s.log, g) == []
       else
         match s.workers[g].phase
         case Handling => Replies(s.log, g) == []
         case Replying(reply) => Replies(s.log, g) == [] && Settles(s.workers[g].msg, [reply])
         case Ending => Settles(s.workers[g].msg, Replies(s.log, g))
         case Finished => Settles(s.workers[g].msg, Replies(s.log, g))
  }

  ghost predicate WgOk(s: State) {
    s.wg == |s.running|
  }

  ghost predicate LoopOk(s: State) {
    if s.loop == Exited
    then s.running == {} && |s.log| > 0 && s.log[|s.log| - 1] == TransportClosed &&
         TransportClosed !in s.log[..|s.log| - 1]
    else TransportClosed !in s.log
  }

  ghost predicate Inv(s: State) {
    (forall g :: WorkerOk(s, g)) && WgOk(s) && LoopOk(s)
  }

  lemma HandledIsAdmissible(msg: Message, r: Result<Option<Response>, Failure>)
    requires Answers(msg, r) && r != Err(NilDereference)
    ensures Admissible(msg)
  {
    hide Admissible, OwedResponse;
  }

  lemma WorkersKept(s: State, step: Step, g: nat)
    requires Inv(s) && Enabled(s, step)
    ensures WorkerOk(Apply(s, step), g)
  {
    hide Answers, ReplyTo, Settles, Replies, Admissible, OwedResponse;
    assert WorkerOk(s, g);
    match step
    case ReadMessage(f, msg) => RepliesAppend(s.log, Read(f), g);
    case StopReading =>
    case Handle(f, r) =>
      if r != Err(NilDereference) {
        HandledIsAdmissible(s.workers[f].msg, r);
        SettledBy(s.workers[f].msg, r);
      }
      assert WorkerOk(s, f);
    case Progress(f) => RepliesAppend(s.log, Progressed(f), g);
    case Reply(f) =>
      var reply := s.workers[f].phase.reply;
      assert WorkerOk(s, f);
      RepliesAppend(s.log, Wrote(f, reply), g);
      assert [] + [reply] == [reply];
    case Done(f) =>
    case CloseTransport => RepliesAppend(s.log, TransportClosed, g);
  }

  lemma WgKept(s: State, step: Step)
    requires Inv(s) && Enabled(s, step)
    ensures WgOk(Apply(s, step))
  {
    hide Answers, ReplyTo, Settles, Replies, Admissible, OwedResponse, LoopOk;
    if step.ReadMessage? || step.Done? { assert WorkerOk(s, step.g); }
  }

  lemma NothingAfterExit(s: State, step: Step)
    requires Inv(s) && s.loop == Exited
    ensures !Enabled(s, step)
  {
    hide Settles, Replies;
    forall g
      ensures g in s.workers ==> s.workers[g].phase == Finished
    {
      assert WorkerOk(s, g);
    }
  }

  lemma LoopKept(s: State, step: Step)
    requires Inv(s) && Enabled(s, step)
    ensures LoopOk(Apply(s, step))
  {
    hide Answers, ReplyTo, Settles, Replies, Admissible, OwedResponse;
    var s' := Apply(s, step);
    if step.CloseTransport? {
      assert s'.log[..|s.log|] == s.log;
    } else if s.loop == Exited {
      NothingAfterExit(s, step);
      assert false;
    }
  }

  lemma {:induction false} RunKeepsInv(steps: seq<Step>)
    requires Run(steps).Some?
    ensures Inv(Run(steps).value)
    decreases |steps|
  {
    hide Enabled, WorkerOk, WgOk, LoopOk;
    if steps == [] {
      StartOk();
    } else {
      var before := steps[..|steps| - 1];
      RunKeepsInv(before);
      var s, step := Run(before).value, steps[|steps| - 1];
      forall g ensures WorkerOk(Apply(s, step), g) { WorkersKept(s, step, g); }
      WgKept(s, step);
      LoopKept(s, step);
    }
  }

  lemma StartOk()
    ensures Inv(START)
  {
  }

  lemma LogGrows(s: State, step: Step)
    requires Enabled(s, step)
    ensures Apply(s, step).log == s.log +
              match step
              case ReadMessage(g, _) => [Read(g)]
              case Progress(g) => [Progressed(g)]
              case Reply(g) => [Wrote(g, s.workers[g].phase.reply)]
              case CloseTransport => [TransportClosed]
              case _ => []
  {
    hide Answers, Admissible;
  }

  /** The log shows the messages read, the progress reported and the closing, and no others. */
  lemma {:induction false} LogTells(steps: seq<Step>, g: nat)
    requires Run(steps).Some?
    ensures var log := Run(steps).value.log;
            && (Read(g) in log <==> exists msg :: ReadMessage(g, msg) in steps)
            && (Progressed(g) in log <==> Progress(g) in steps)
            && (TransportClosed in log <==> CloseTransport in steps)
    decreases |steps|
  {
    hide Enabled, Apply;
    if steps == [] {
      NothingLogged();
    } else {
      var before, step := steps[..|steps| - 1], steps[|steps| - 1];
      assert steps == before + [step];
      LogTells(before, g);
      LogGrows(Run(before).value, step);
      if step.ReadMessage? && step.g == g { assert ReadMessage(g, step.msg) in steps; }
    }
  }

  lemma NothingLogged()
    ensures START.log == []
  {
  }

  // ---------- results ----------

  /** At no time has more been written for a message than it is owed. */
  lemma NeverMoreThanOwed(steps: seq<Step>, g: nat)
    requires Run(steps).Some? && g in Run(steps).value.workers
    ensures var s := Run(steps).value;
            Replies(s.log, g) == [] || (OwedResponse(s.workers[g].msg) && Settles(s.workers[g].msg, Replies(s.log, g)))
  {
    RunKeepsInv(steps);
    assert WorkerOk(Run(steps).value, g);
  }

  /** When the server has exited, every message read got exactly what it is owed, before the transport closed. */
  lemma AllServedBeforeClose(steps: seq<Step>)
    requires Run(steps).Some? && Run(steps).value.loop == Exited
    ensures var s := Run(steps).value;
            && |s.log| > 0 && s.log[|s.log| - 1] == TransportClosed && TransportClosed !in s.log[..|s.log| - 1]
            && forall g :: Read(g) in s.log ==>
                 g in s.workers && Settles(s.workers[g].msg, Replies(s.log[..|s.log| - 1], g))
  {
    hide Settles, Run, Replies;
    var s := Run(steps).value;
    RunKeepsInv(steps);
    forall g | Read(g) in s.log
      ensures g in s.workers && Settles(s.workers[g].msg, Replies(s.log[..|s.log| - 1], g))
    {
      assert WorkerOk(s, g);
      assert s.log == s.log[..|s.log| - 1] + [TransportClosed];
      RepliesAppend(s.log[..|s.log| - 1], TransportClosed, g);
    }
  }

  // ---------- what is written is what the handler returned ----------

  /** What the handler returned for the message of `g`. */
  ghost function Returned(steps: seq<Step>, g: nat): seq<Result<Option<Response>, Failure>> {
    if steps == [] then []
    else
      Returned(steps[..|steps| - 1], g) +
      match steps[|steps| - 1]
      case Handle(f, r) => if f == g then [r] else []
      case _ => []
  }

  /** The replies that say `r`: its response if it has one, and the internal error for an error. */
  ghost predicate Says(msg: Message, r: Result<Option<Response>, Failure>, replies: seq<Response>) {
    match r
    case Ok(None) => replies == []
    case Ok(Some(response)) => replies == [response]
    case Err(_) =>
      if msg.id.Some? && msg.name != "" then replies == [Response(msg.id.value, Error(INTERNAL_ERROR))]
      else replies == []
  }

  /** What was written or is about to be says what the handler returned. */
  ghost predicate SaidOk(s: State, g: nat, returned: seq<Result<Option<Response>, Failure>>) {
    g in s.workers && s.loop != Crashed ==>
      match s.workers[g].phase
      case Handling => returned == [] && Replies(s.log, g) == []
      case Replying(reply) =>
        |returned| == 1 && Replies(s.log, g) == [] && Says(s.workers[g].msg, returned[0], [reply])
      case Ending => |returned| == 1 && Says(s.workers[g].msg, returned[0], Replies(s.log, g))
      case Finished => |returned| == 1 && Says(s.workers[g].msg, returned[0], Replies(s.log, g))
  }

  lemma StepKeepsSaid(s: State, step: Step, g: nat, returned: seq<Result<Option<Response>, Failure>>)
    requires Enabled(s, step) && SaidOk(s, g, returned)
    requires g !in s.workers ==> returned == [] && Replies(s.log, g) == []
    ensures SaidOk(Apply(s, step), g, if step.Handle? && step.g == g then returned + [step.r] else returned)
  {
    hide Answers, Admissible, OwedResponse, Replies;
    var s' := Apply(s, step);
    if |s'.log| == |s.log| + 1 {
      RepliesAppend(s.log, s'.log[|s.log|], g);
    }
  }

  lemma {:induction false} RunKeepsSaid(steps: seq<Step>, g: nat)
    requires Run(steps).Some?
    ensures SaidOk(Run(steps).value, g, Returned(steps, g))
    ensures g !in Run(steps).value.workers ==> Returned(steps, g) == [] && Replies(Run(steps).value.log, g) == []
    decreases |steps|
  {
    hide SaidOk, Replies, Answers, Admissible, Enabled, WorkerOk, WgOk, LoopOk;
    if steps == [] {
      NothingSaid(g);
    } else {
      var before, step := steps[..|steps| - 1], steps[|steps| - 1];
      var s := Run(before).value;
      RunKeepsSaid(before, g);
      RunKeepsInv(steps);
      StepKeepsSaid(s, step, g, Returned(before, g));
      assert Returned(before, g) + [] == Returned(before, g);
      if g !in Run(steps).value.workers { NewcomerSilent(s, step, g); }
    }
  }

  lemma NewcomerSilent(s: State, step: Step, g: nat)
    requires Enabled(s, step) && g !in Apply(s, step).workers && Inv(Apply(s, step))
    ensures g !in s.workers && Replies(Apply(s, step).log, g) == [] && !(step.Handle? && step.g == g)
  {
    hide Answers, Admissible;
    assert WorkerOk(Apply(s, step), g);
  }

  lemma NothingSaid(g: nat)
    ensures SaidOk(START, g, []) && Replies(START.log, g) == []
  {
  }

  /** What is written for a message is what the handler returned for it, or the internal error for an error. */
  lemma WritesWhatHandled(steps: seq<Step>, g: nat)
    requires Run(steps).Some? && Run(steps).value.loop != Crashed
    requires InPhase(Run(steps).value, g, Ending) || InPhase(Run(steps).value, g, Finished)
    ensures var s := Run(steps).value;
            |Returned(steps, g)| == 1 && Says(s.workers[g].msg, Returned(steps, g)[0], Replies(s.log, g))
  {
    RunKeepsSaid(steps, g);
  }

  /** A shutdown that has begun is never stuck: some goroutine can go on, or the transport can be closed. */
  lemma ShutdownProgresses(steps: seq<Step>)
    requires Run(steps).Some? && Run(steps).value.loop == Draining
    ensures exists step :: Enabled(Run(steps).value, step) && !step.Progress?
  {
    var s := Run(steps).value;
    RunKeepsInv(steps);
    if s.running == {} {
      assert Enabled(s, CloseTransport);
    } else {
      var g :| g in s.running;
      assert WorkerOk(s, g);
      var msg := s.workers[g].msg;
      match s.workers[g].phase
      case Handling =>
        var r := if !Admissible(msg) then Err(NilDereference)
                 else if OwedResponse(msg) then Ok(Some(Response(msg.id.value, Pong))) else Ok(None);
        assert Enabled(s, Handle(g, r));
      case Replying(reply) => assert Enabled(s, Reply(g));
      case Ending => assert Enabled(s, Done(g));
    }
  }

  // ---------- how long a shutdown takes ----------

  /** How many steps are left for one goroutine. */
  function Rank(phase: Phase): nat {
    match phase
    case Handling => 3
    case Replying(_) => 2
    case Ending => 1
    case Finished => 0
  }

  ghost function WithLeft(workers: map<nat, Worker>, n: nat): set<nat> {
    set g | g in workers && Rank(workers[g].phase) >= n
  }

  /** The sum of the ranks: the goroutines with at least one, two and three steps left. */
  ghost function RankSum(workers: map<nat, Worker>): nat {
    |WithLeft(workers, 1)| + |WithLeft(workers, 2)| + |WithLeft(workers, 3)|
  }

  /** The steps that a shutdown may still take: those of the goroutines, and the closing. */
  ghost function StepsLeft(s: State): nat {
    if s.loop == Draining then RankSum(s.workers) + 1 else 0
  }

  lemma LevelChanges(workers: map<nat, Worker>, g: nat, w: Worker, n: nat)
    requires g in workers
    ensures var one := (phase: Phase) => if Rank(phase) >= n then 1 else 0;
            |WithLeft(workers[g := w], n)| == |WithLeft(workers, n)| - one(workers[g].phase) + one(w.phase)
  {
    hide Rank;
    var rest := WithLeft(workers, n) - {g};
    assert WithLeft(workers, n) == if Rank(workers[g].phase) >= n then rest + {g} else rest;
    assert WithLeft(workers[g := w], n) == if Rank(w.phase) >= n then rest + {g} else rest;
  }

  lemma RankDrops(workers: map<nat, Worker>, g: nat, w: Worker)
    requires g in workers
    ensures RankSum(workers[g := w]) == RankSum(workers) - Rank(workers[g].phase) + Rank(w.phase)
  {
    hide WithLeft;
    LevelChanges(workers, g, w, 1);
    LevelChanges(workers, g, w, 2);
    LevelChanges(workers, g, w, 3);
  }

  /** While draining, each step but a progress notification leaves fewer to be taken, and none starts reading again. */
  lemma StepsLeftDrops(s: State, step: Step)
    requires s.loop == Draining && Enabled(s, step)
    ensures Apply(s, step).loop != Reading
    ensures if step.Progress? then StepsLeft(Apply(s, step)) == StepsLeft(s)
            else StepsLeft(Apply(s, step)) < StepsLeft(s)
  {
    hide Answers, ReplyTo, Admissible, OwedResponse, RankSum;
    if step.Handle? || step.Reply? || step.Done? {
      var s', g := Apply(s, step), step.g;
      RankDrops(s.workers, g, s'.workers[g]);
      assert s'.loop == Draining ==> s'.workers == s.workers[g := s'.workers[g]];
    }
  }

  /** The steps of a run other than progress notifications. */
  ghost function Moves(steps: seq<Step>): nat {
    if steps == [] then 0
    else Moves(steps[..|steps| - 1]) + (if steps[|steps| - 1].Progress? then 0 else 1)
  }

  /** Once a shutdown has begun, it ends within a number of steps that is known from the start. */
  lemma {:induction false} ShutdownEnds(steps: seq<Step>, more: seq<Step>)
    requires Run(steps).Some? && Run(steps).value.loop == Draining && Run(steps + more).Some?
    ensures Run(steps + more).value.loop != Reading
    ensures Moves(more) + StepsLeft(Run(steps + more).value) <= StepsLeft(Run(steps).value)
    decreases |more|
  {
    hide Enabled, StepsLeft;
    if more == [] {
      assert steps + more == steps;
    } else {
      var before, step := more[..|more| - 1], more[|more| - 1];
      var run := steps + more;
      assert run[..|run| - 1] == steps + before;
      ShutdownEnds(steps, before);
      var s := Run(steps + before).value;
      if s.loop == Draining {
        StepsLeftDrops(s, step);
      } else {
        ExitIsFinal(steps + before, step);
        assert false;
      }
    }
  }

  /** After the exit, or the end of the process, nothing happens any more. */
  lemma ExitIsFinal(steps: seq<Step>, step: Step)
    requires Run(steps).Some? && (Run(steps).value.loop == Exited || Run(steps).value.loop == Crashed)
    ensures !Enabled(Run(steps).value, step)
  {
    if Run(steps).value.loop == Exited {
      RunKeepsInv(steps);
      NothingAfterExit(Run(steps).value, step);
    }
  }

  // ---------- when the process ends with a panic ----------

  /** The messages of the run are among `msgs`. */
  ghost predicate Reads(s: State, msgs: map<nat, Message>) {
    forall g :: g in s.workers ==> g in msgs && msgs[g] == s.workers[g].msg
  }

  lemma {:induction false} NeverCrashes(steps: seq<Step>, msgs: map<nat, Message>)
    requires Run(steps).Some? && Reads(Run(steps).value, msgs)
    requires forall g :: g in msgs ==> Admissible(msgs[g])
    ensures Run(steps).value.loop != Crashed
    decreases |steps|
  {
    hide Admissible, OwedResponse;
    if steps != [] {
      var before := steps[..|steps| - 1];
      var s, step := Run(before).value, steps[|steps| - 1];
      forall g | g in s.workers
        ensures g in msgs && msgs[g] == s.workers[g].msg
      {
        assert g in Apply(s, step).workers && Apply(s, step).workers[g].msg == s.workers[g].msg;
      }
      NeverCrashes(before, msgs);
    }
  }

  lemma Crash(g: nat, msg: Message) returns (steps: seq<Step>)
    requires !Admissible(msg)
    ensures Run(steps).Some? && Run(steps).value.loop == Crashed && Reads(Run(steps).value, map[g := msg])
  {
    var read, handle := ReadMessage(g, msg), Handle(g, Err(NilDereference));
    RunOne(read);
    hide Admissible;
    steps := [read, handle];
    assert steps[..1] == [read];
  }

  lemma RunOne(step: Step)
    requires Enabled(START, step)
    ensures Run([step]) == Some(Apply(START, step))
  {
    assert [step][..0] == [];
    assert Run([]) == Some(START);
  }

  /** A server survives a set of messages, in every run, exactly when each has the id its method needs. */
  lemma CrashesExactly(msgs: map<nat, Message>)
    ensures (forall g :: g in msgs ==> Admissible(msgs[g])) <==>
            forall steps :: Run(steps).Some? && Reads(Run(steps).value, msgs) ==> Run(steps).value.loop != Crashed
  {
    hide Run, Admissible;
    if forall g :: g in msgs ==> Admissible(msgs[g]) {
      forall steps | Run(steps).Some? && Reads(Run(steps).value, msgs)
        ensures Run(steps).value.loop != Crashed
      {
        NeverCrashes(steps, msgs);
      }
    } else {
      var g :| g in msgs && !Admissible(msgs[g]);
      var steps := Crash(g, msgs[g]);
    }
  }
}
