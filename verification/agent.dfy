/**
 The mock agent's HTTP handler (`handleDDTraceData`) and the life of the
 agent process around it. Each request is answered 200 at once; a request
 announcing zero traces is then dropped; with no sender configured the
 shutdown channel is closed; otherwise the body is read and a sending task
 is started for it. A sending task whose body does not decode ends the
 process with a fatal log; every other sending task closes the shutdown
 channel when it completes.

 The process is modelled as a state machine over events: a request
 arriving, or a started task completing. Which task completes when is a
 matter of scheduling, so any interleaving is an event sequence.
 */
module Agent {
  import opened Wrappers
  import opened SpanTree
  import Hex
  import opened Closer
  import opened Sender

  const StatusOK: int := 200

  /** The header the tracer uses to announce how many traces a payload holds. */
  const TraceCountHeader: string := "X-Datadog-Trace-Count"

  /** An incoming request: canonical header names, and the body or `None` when reading it fails. */
  datatype Request = Request(headers: Headers, body: Option<seq<Hex.Byte>>)

  /** `http.Header.Get`: the first value stored under `key`, or the empty string. */
  function HeaderGet(h: Headers, key: string): string {
    if key in h && |h[key]| > 0 then h[key][0] else ""
  }

  /** The request announces a trace count other than zero (or none at all). */
  predicate Announces(req: Request) {
    HeaderGet(req.headers, TraceCountHeader) != "0"
  }

  /** Both sender counts are positive. */
  predicate Configured(s: SenderConfig) {
    s.threads > 0 && s.sendCount > 0
  }

  /** A sending task as started by the handler: its counts, the raw body, the agent endpoint, the forwarded headers. */
  datatype Task = Task(threads: nat, sendCount: nat, body: seq<Hex.Byte>, endpoint: string, headers: Headers)

  /** What handling one request does, in order. */
  datatype Effect = WriteStatus(code: int) | CloseShutdown | ExitFatal | Dispatch(task: Task)

  /** The endpoint tasks post to: the configured agent address with the trace path `ddv4`. */
  function Endpoint(cfg: Config, ddv4: string): string {
    "http://" + cfg.dkAgent + ddv4
  }

  /**
   `handleDDTraceData`. The status is always written first. A zero trace
   count ends the request there. Otherwise exactly one more effect follows:
   closing the shutdown channel when either sender count is not positive,
   a fatal exit when the body cannot be read, and a task for the body
   otherwise.
   */
  function Handle(cfg: Config, ddv4: string, req: Request): (effects: seq<Effect>)
    ensures 1 <= |effects| <= 2 && effects[0] == WriteStatus(StatusOK)
    ensures |effects| == 1 <==> !Announces(req)
    ensures CloseShutdown in effects <==> Announces(req) && !Configured(cfg.sender)
    ensures ExitFatal in effects <==> Announces(req) && Configured(cfg.sender) && req.body.None?
    ensures |effects| == 2 && effects[1].Dispatch? <==> Announces(req) && Configured(cfg.sender) && req.body.Some?
    ensures forall e :: e in effects && e.Dispatch? ==>
      && e.task.threads == cfg.sender.threads && e.task.sendCount == cfg.sender.sendCount
      && e.task.threads > 0 && e.task.sendCount > 0
      && Some(e.task.body) == req.body && e.task.headers == req.headers
      && e.task.endpoint == Endpoint(cfg, ddv4)
  {
    var ok := WriteStatus(StatusOK);
    if !Announces(req) then [ok]
    else if !Configured(cfg.sender) then [ok, CloseShutdown]
    else match req.body {
      case None => [ok, ExitFatal]
      case Some(body) =>
        [ok, Dispatch(Task(cfg.sender.threads, cfg.sender.sendCount, body, Endpoint(cfg, ddv4), req.headers))]
    }
  }

  /**
   Something that happens to the agent process: a request arrives, or one
   running task ends, having decoded its body (`decodes`) or not.
   */
  datatype Event = Arrive(req: Request) | Finish(decodes: bool)

  /** The end of a sending task with the given outcome. */
  function FinishOf(r: TaskResult): Event {
    Finish(r.Completed?)
  }

  /**
   The agent process: the shutdown channel, how many tasks are still
   running, every task started so far, and how many handler panics the
   HTTP server has recovered from.
   */
  datatype Server = Server(closer: Closer, running: nat, dispatched: seq<Task>, recovered: nat)

  /** How the process can end early: a fatal log, or a panic in a sending task (which no one recovers). */
  datatype Halt = Exited | TaskPanicked

  const Start: Server := Server(Open, 0, [], 0)

  /** Closing as the program does (`guarded` false), or through the once-guard (`guarded` true). */
  function CloseWith(c: Closer, guarded: bool): Result<Closer, Panic> {
    if guarded then Success(FireOnce(c)) else Close(c)
  }

  /**
   One event. A handler that panics on the closed channel is recovered by
   the HTTP server, which drops that request and goes on; a sending task
   that panics ends the process, and so does one whose body does not
   decode. A completion with no task running is ignored.
   */
  function StepWith(cfg: Config, ddv4: string, s: Server, e: Event, guarded: bool): Result<Server, Halt> {
    match e {
      case Arrive(req) =>
        var effects := Handle(cfg, ddv4, req);
        if |effects| == 1 then Success(s)
        else match effects[1] {
          case CloseShutdown =>
            (match CloseWith(s.closer, guarded) {
              case Success(c) => Success(s.(closer := c))
              case Failure(_) => Success(s.(recovered := s.recovered + 1))
            })
          case ExitFatal => Failure(Exited)
          case Dispatch(t) => Success(s.(running := s.running + 1, dispatched := s.dispatched + [t]))
          case WriteStatus(_) => Success(s)
        }
      case Finish(decodes) =>
        if s.running == 0 then Success(s)
        else if !decodes then Failure(Exited)
        else match CloseWith(s.closer, guarded) {
          case Success(c) => Success(s.(closer := c, running := s.running - 1))
          case Failure(_) => Failure(TaskPanicked)
        }
    }
  }

  /** The process over a sequence of events, stopping at the first halt. */
  function ServeWith(cfg: Config, ddv4: string, s: Server, events: seq<Event>, guarded: bool): Result<Server, Halt>
    decreases |events|
  {
    if |events| == 0 then Success(s)
    else match StepWith(cfg, ddv4, s, events[0], guarded) {
      case Failure(h) => Failure(h)
      case Success(t) => ServeWith(cfg, ddv4, t, events[1..], guarded)
    }
  }

  /** The process as written: every close is Go's `close`. */
  function ServeAsWritten(cfg: Config, ddv4: string, s: Server, events: seq<Event>): Result<Server, Halt> {
    ServeWith(cfg, ddv4, s, events, false)
  }

  /** The process with the shutdown channel closed through the once-guard. */
  function Serve(cfg: Config, ddv4: string, s: Server, events: seq<Event>): Result<Server, Halt> {
    ServeWith(cfg, ddv4, s, events, true)
  }

  /**
   With no sender configured, the second request that announces traces
   closes the already closed channel: its handler panics.
   */
  lemma UnconfiguredSecondRequestPanics(cfg: Config, ddv4: string, req: Request)
    requires !Configured(cfg.sender) && Announces(req)
    ensures ServeAsWritten(cfg, ddv4, Start, [Arrive(req), Arrive(req)]) == Success(Server(Closer(true), 0, [], 1))
    ensures Serve(cfg, ddv4, Start, [Arrive(req), Arrive(req)]) == Success(Server(Closer(true), 0, [], 0))
  {
    var events := [Arrive(req), Arrive(req)];
    var once := Server(Closer(true), 0, [], 0);
    assert Handle(cfg, ddv4, req) == [WriteStatus(StatusOK), CloseShutdown];
    assert events[1..] == [Arrive(req)];
    assert ServeWith(cfg, ddv4, once, events[1..], false) == Success(once.(recovered := 1));
    assert ServeWith(cfg, ddv4, once, events[1..], true) == Success(once);
  }

  /** A request that starts a task adds it to the running ones, whichever way the channel is closed. */
  lemma ArriveDispatches(cfg: Config, ddv4: string, s: Server, req: Request, guarded: bool)
    requires Configured(cfg.sender) && Announces(req) && req.body.Some?
    ensures var t := Handle(cfg, ddv4, req)[1].task;
      StepWith(cfg, ddv4, s, Arrive(req), guarded) == Success(s.(running := s.running + 1, dispatched := s.dispatched + [t]))
  {
  }

  /**
   With a sender configured, two payloads start two tasks; when both
   complete, the second one closes the already closed channel and the
   process dies of the panic. Through the once-guard both complete.
   */
  lemma TwoTasksPanic(cfg: Config, ddv4: string, req: Request)
    requires Configured(cfg.sender) && Announces(req) && req.body.Some?
    ensures ServeAsWritten(cfg, ddv4, Start, [Arrive(req), Arrive(req), Finish(true), Finish(true)]) == Failure(TaskPanicked)
    ensures var r := Serve(cfg, ddv4, Start, [Arrive(req), Arrive(req), Finish(true), Finish(true)]);
      r.Success? && r.value.closer.closed && r.value.running == 0 && |r.value.dispatched| == 2
  {
    var Finish := Finish(true);
    var events := [Arrive(req), Arrive(req), Finish, Finish];
    var t := Handle(cfg, ddv4, req)[1].task;
    var one := Server(Open, 1, [t], 0);
    var two := Server(Open, 2, [t, t], 0);
    var closed := Server(Closer(true), 1, [t, t], 0);
    assert [] + [t] == [t] && [t] + [t] == [t, t];
    ArriveDispatches(cfg, ddv4, Start, req, false);
    ArriveDispatches(cfg, ddv4, one, req, false);
    ArriveDispatches(cfg, ddv4, Start, req, true);
    ArriveDispatches(cfg, ddv4, one, req, true);
    assert events[1..] == [Arrive(req), Finish, Finish];
    assert events[1..][1..] == [Finish, Finish];
    assert events[1..][1..][1..] == [Finish];
    assert ServeWith(cfg, ddv4, closed, [Finish], false) == Failure(TaskPanicked);
    assert ServeWith(cfg, ddv4, two, [Finish, Finish], false) == Failure(TaskPanicked);
    assert ServeWith(cfg, ddv4, one, events[1..], false) == Failure(TaskPanicked);
    assert ServeWith(cfg, ddv4, closed, [Finish], true) == Success(closed.(running := 0));
    assert ServeWith(cfg, ddv4, two, [Finish, Finish], true) == Success(closed.(running := 0));
    assert ServeWith(cfg, ddv4, one, events[1..], true) == Success(closed.(running := 0));
  }

  /**
   A running task ends the process exactly when its body did not decode;
   one that completes closes the channel, through the once-guard from
   either state.
   */
  lemma FinishHalts(cfg: Config, ddv4: string, s: Server, r: TaskResult)
    requires s.running > 0
    ensures Serve(cfg, ddv4, s, [FinishOf(r)]) == Failure(Exited) <==> r.DecodeFatal?
    ensures r.Completed? ==>
      Serve(cfg, ddv4, s, [FinishOf(r)]) == Success(s.(closer := Closer(true), running := s.running - 1))
  {
    var events := [FinishOf(r)];
    assert events[1..] == [];
    var step := StepWith(cfg, ddv4, s, events[0], true);
    if r.Completed? {
      assert step == Success(s.(closer := Closer(true), running := s.running - 1));
      assert ServeWith(cfg, ddv4, step.value, events[1..], true) == step;
    } else {
      assert step == Failure(Exited);
    }
  }

  /**
   A configured agent whose one task cannot decode the body it was given
   ends with a fatal log, whichever way the channel is closed.
   */
  lemma UndecodableTaskExits(cfg: Config, ddv4: string, req: Request)
    requires Configured(cfg.sender) && Announces(req) && req.body.Some?
    ensures ServeAsWritten(cfg, ddv4, Start, [Arrive(req), Finish(false)]) == Failure(Exited)
    ensures Serve(cfg, ddv4, Start, [Arrive(req), Finish(false)]) == Failure(Exited)
  {
    var events := [Arrive(req), Finish(false)];
    var t := Handle(cfg, ddv4, req)[1].task;
    var one := Server(Open, 1, [t], 0);
    assert [] + [t] == [t];
    ArriveDispatches(cfg, ddv4, Start, req, false);
    ArriveDispatches(cfg, ddv4, Start, req, true);
    assert events[1..] == [Finish(false)];
    assert ServeWith(cfg, ddv4, one, events[1..], false) == Failure(Exited);
    assert ServeWith(cfg, ddv4, one, events[1..], true) == Failure(Exited);
  }

  /**
   Through the once-guard nothing panics: the process either runs through
   every event or stops with a fatal log (an unreadable body, or a task
   whose body does not decode), and no handler panic is ever recovered.
   */
  lemma {:induction false} ServeNeverPanics(cfg: Config, ddv4: string, s: Server, events: seq<Event>)
    ensures var r := Serve(cfg, ddv4, s, events);
      (r.Success? && r.value.recovered == s.recovered) || r == Failure(Exited)
    decreases |events|
  {
    if |events| > 0 {
      var r := StepWith(cfg, ddv4, s, events[0], true);
      if r.Success? {
        ServeNeverPanics(cfg, ddv4, r.value, events[1..]);
      }
    }
  }

  /**
   Wherever the program as written does not panic, the once-guard changes
   nothing: the same run ends in the same state.
   */
  lemma {:induction false} GuardAgrees(cfg: Config, ddv4: string, s: Server, events: seq<Event>)
    requires ServeAsWritten(cfg, ddv4, s, events).Success?
    requires ServeAsWritten(cfg, ddv4, s, events).value.recovered == s.recovered
    ensures Serve(cfg, ddv4, s, events) == ServeAsWritten(cfg, ddv4, s, events)
    decreases |events|
  {
    if |events| > 0 {
      var r := StepWith(cfg, ddv4, s, events[0], false);
      assert r.Success?;
      var t := r.value;
      RecoveredGrows(cfg, ddv4, t, events[1..]);
      assert t.recovered == s.recovered;
      assert StepWith(cfg, ddv4, s, events[0], true) == Success(t);
      GuardAgrees(cfg, ddv4, t, events[1..]);
    }
  }

  /** Recovered panics only accumulate. */
  lemma {:induction false} RecoveredGrows(cfg: Config, ddv4: string, s: Server, events: seq<Event>)
    requires ServeAsWritten(cfg, ddv4, s, events).Success?
    ensures s.recovered <= ServeAsWritten(cfg, ddv4, s, events).value.recovered
    decreases |events|
  {
    if |events| > 0 {
      RecoveredGrows(cfg, ddv4, StepWith(cfg, ddv4, s, events[0], false).value, events[1..]);
    }
  }

  /** Some event of the sequence is a request announcing traces. */
  predicate SomeAnnounce(events: seq<Event>) {
    exists k :: 0 <= k < |events| && events[k].Arrive? && Announces(events[k].req)
  }

  lemma SomeAnnounceStep(events: seq<Event>)
    requires |events| > 0
    ensures SomeAnnounce(events) <==> (events[0].Arrive? && Announces(events[0].req)) || SomeAnnounce(events[1..])
  {
    if SomeAnnounce(events[1..]) {
      var k :| 0 <= k < |events[1..]| && events[1..][k].Arrive? && Announces(events[1..][k].req);
      assert events[k + 1] == events[1..][k];
    }
    if SomeAnnounce(events) && !(events[0].Arrive? && Announces(events[0].req)) {
      var k :| 0 <= k < |events| && events[k].Arrive? && Announces(events[k].req);
      assert events[1..][k - 1] == events[k];
    }
  }

  /**
   With no sender configured no task is ever started, and the shutdown
   channel ends up closed exactly when it already was or some request
   announced traces.
   */
  lemma {:induction false} UnconfiguredServe(cfg: Config, ddv4: string, s: Server, events: seq<Event>)
    requires !Configured(cfg.sender) && s.running == 0
    ensures Serve(cfg, ddv4, s, events).Success?
    ensures var t := Serve(cfg, ddv4, s, events).value;
      && t.dispatched == s.dispatched && t.running == 0
      && (t.closer.closed <==> s.closer.closed || SomeAnnounce(events))
    decreases |events|
  {
    if |events| > 0 {
      SomeAnnounceStep(events);
      UnconfiguredServe(cfg, ddv4, StepWith(cfg, ddv4, s, events[0], true).value, events[1..]);
    }
  }

  /** How many events of the sequence are requests announcing traces. */
  function Announced(events: seq<Event>): nat
    decreases |events|
  {
    if |events| == 0 then 0
    else (if events[0].Arrive? && Announces(events[0].req) then 1 else 0) + Announced(events[1..])
  }

  /** The tasks the handler builds for the requests of the sequence that start one, in order. */
  function TasksFor(cfg: Config, ddv4: string, events: seq<Event>): seq<Task>
    decreases |events|
  {
    if |events| == 0 then []
    else TaskOf(cfg, ddv4, events[0]) + TasksFor(cfg, ddv4, events[1..])
  }

  /** Every request of the sequence has a readable body, and every task that ends decoded its body. */
  predicate Readable(events: seq<Event>) {
    forall k :: 0 <= k < |events| ==> ReadableEvent(events[k])
  }

  /** Whether one event can be handled without a fatal log: a readable body, a task that decodes. */
  predicate ReadableEvent(e: Event) {
    (e.Arrive? ==> e.req.body.Some?) && (e.Finish? ==> e.decodes)
  }

  lemma ReadableTail(events: seq<Event>)
    requires |events| > 0 && Readable(events)
    ensures ReadableEvent(events[0]) && Readable(events[1..])
  {
    forall k | 0 <= k < |events[1..]|
      ensures ReadableEvent(events[1..][k])
    {
      assert events[1..][k] == events[k + 1];
    }
  }

  /** The task one event starts, if any. */
  function TaskOf(cfg: Config, ddv4: string, e: Event): seq<Task> {
    var own := if e.Arrive? then Handle(cfg, ddv4, e.req) else [];
    if |own| == 2 && own[1].Dispatch? then [own[1].task] else []
  }

  /** One readable event of a configured agent appends the task it starts, if any. */
  lemma ConfiguredStep(cfg: Config, ddv4: string, s: Server, e: Event)
    requires Configured(cfg.sender) && ReadableEvent(e)
    ensures StepWith(cfg, ddv4, s, e, true).Success?
    ensures StepWith(cfg, ddv4, s, e, true).value.dispatched == s.dispatched + TaskOf(cfg, ddv4, e)
    ensures |TaskOf(cfg, ddv4, e)| == (if e.Arrive? && Announces(e.req) then 1 else 0)
  {
  }

  /** With a sender configured and every event readable, each event appends the task it starts. */
  lemma {:induction false} ConfiguredTasks(cfg: Config, ddv4: string, s: Server, events: seq<Event>)
    requires Configured(cfg.sender) && Readable(events)
    ensures Serve(cfg, ddv4, s, events).Success?
    ensures Serve(cfg, ddv4, s, events).value.dispatched == s.dispatched + TasksFor(cfg, ddv4, events)
    ensures |TasksFor(cfg, ddv4, events)| == Announced(events)
    decreases |events|
  {
    if |events| > 0 {
      var e := events[0];
      ReadableTail(events);
      ConfiguredStep(cfg, ddv4, s, e);
      var next := StepWith(cfg, ddv4, s, e, true).value;
      ConfiguredTasks(cfg, ddv4, next, events[1..]);
      assert Serve(cfg, ddv4, s, events) == Serve(cfg, ddv4, next, events[1..]);
      assert s.dispatched + TaskOf(cfg, ddv4, e) + TasksFor(cfg, ddv4, events[1..])
          == s.dispatched + TasksFor(cfg, ddv4, events);
    }
  }

  /**
   With a sender configured, every body readable and every task's body
   decoding, the process runs through every event and starts, after the
   tasks it had already started, each announcing request's own task, in
   the order the requests arrive.
   */
  lemma ConfiguredServe(cfg: Config, ddv4: string, s: Server, events: seq<Event>)
    requires Configured(cfg.sender) && Readable(events)
    ensures Serve(cfg, ddv4, s, events).Success?
    ensures var t := Serve(cfg, ddv4, s, events).value;
      && |t.dispatched| == |s.dispatched| + Announced(events)
      && t.dispatched[..|s.dispatched|] == s.dispatched
      && t.dispatched == s.dispatched + TasksFor(cfg, ddv4, events)
  {
    ConfiguredTasks(cfg, ddv4, s, events);
    var t := Serve(cfg, ddv4, s, events).value;
    assert t.dispatched[..|s.dispatched|] == (s.dispatched + TasksFor(cfg, ddv4, events))[..|s.dispatched|];
  }
}
