/**
 * The two ends together, over two reliable first-in-first-out pipes: a client that makes a
 * script of calls, and the host that serves them. Both number their messages from 1.
 */
module Sessions {
  import opened Wrappers
  import opened Messages
  import opened HostChannels
  import opened RemoteClients

  datatype CallSpec = CallSpec(name: string, params: Json)

  datatype Client = Idle | Waiting(id: int)

  datatype Host =
    | Ready
    | Working(request: Request, replies: seq<Reply>)
    | Blocked(request: Request, replies: seq<Reply>, callback: int)
    | Gone

  datatype System = System(handler: Handler, app: Application)

  datatype State = State(
    script: seq<CallSpec>, client: Client, nextId: int, seen: seq<CallbackCall>,
    results: seq<Result<Json, RemoteError>>,
    toHost: seq<Incoming>, toClient: seq<Incoming>,
    host: Host, queued: seq<Request>, nextCallback: int, history: seq<Turn>)

  function Start(script: seq<CallSpec>): State {
    State(script, Idle, 1, [], [], [], [], Ready, [], 1, [])
  }

  function RequestFor(id: int, call: CallSpec): Request {
    Request(NumberId(id), call.name, Some(call.params))
  }

  /** Keeps a result as it is. */
  const KEEP: Json -> Option<Json> := value => Some(value)

  function ResultOf(response: Response): Result<Json, RemoteError> {
    ResultIn(response, KEEP)
  }

  // ---------------------------------------------------------------- one step of either end

  /** The client's next step, if it can take one. A message comes out of a pipe as framing leaves it. */
  function ClientNext(sys: System, s: State): Option<State> {
    match s.client
    case Idle =>
      if s.script == [] then None
      else Some(s.(script := s.script[1..], client := Waiting(s.nextId), nextId := Saturating(s.nextId + 1),
                   toHost := s.toHost + [Normal(RequestIn(RequestFor(s.nextId, s.script[0])))]))
    case Waiting(id) =>
      if s.toClient == [] then None
      else
        var rest := s.(toClient := s.toClient[1..]);
        match s.toClient[0]
        case ResponseIn(response) =>
          if response.id == NumberId(id) then Some(rest.(client := Idle, results := s.results + [ResultOf(response)]))
          else Some(rest)
        case RequestIn(callback) =>
          Some(rest.(seen := sys.app.SeenAfter(s.seen, callback),
                     toHost := s.toHost + [Normal(ResponseIn(sys.app.Response(s.seen, callback)))]))
  }

  /** The host's next step, if it can take one. */
  function HostNext(sys: System, s: State): Option<State> {
    match s.host
    case Gone => None
    case Ready =>
      if s.queued != [] then Some(s.(queued := s.queued[1..], host := Working(s.queued[0], [])))
      else if s.toHost == [] then None
      else
        var rest := s.(toHost := s.toHost[1..]);
        (match s.toHost[0]
         case RequestIn(request) => Some(rest.(host := Working(request, [])))
         case ResponseIn(_) => Some(rest))
    case Working(request, replies) =>
      (match sys.handler.step(s.history, request, replies)
       case Call(call) =>
         Some(s.(host := Blocked(request, replies, s.nextCallback), nextCallback := Saturating(s.nextCallback + 1),
                 toClient := s.toClient + [Normal(RequestIn(CallbackRequest(s.nextCallback, call)))]))
       case Done(_) =>
         var turn := Turn(request, replies);
         Some(s.(host := if request.method_ == SHUTDOWN then Gone else Ready, history := s.history + [turn],
                 toClient := s.toClient + [Normal(ResponseIn(sys.handler.Answer(s.history, turn)))])))
    case Blocked(request, replies, callback) =>
      if s.toHost == [] then None
      else
        var rest := s.(toHost := s.toHost[1..]);
        match s.toHost[0]
        case RequestIn(other) => Some(rest.(queued := s.queued + [other]))
        case ResponseIn(response) =>
          if response.id == NumberId(callback) then Some(rest.(host := Working(request, replies + [ReplyIn(response)])))
          else Some(rest)
  }

  // ---------------------------------------------------------------- what every reachable state is like

  /** Only the last call of a script may ask the host to finish. */
  ghost predicate ShutdownLast(script: seq<CallSpec>) {
    forall i :: 0 <= i < |script| - 1 ==> script[i].name != "host/shutdown"
  }

  ghost predicate InProgress(s: State, id: int, request: Request) {
    request.id == NumberId(id) && (request.method_ == "host/shutdown" ==> s.script == [])
  }

  ghost predicate RequestUnderWay(s: State, id: int) {
    |s.toHost| == 1 && s.toHost[0].RequestIn? && InProgress(s, id, s.toHost[0].request) && s.toClient == []
  }

  ghost predicate ResponseUnderWay(s: State, id: int) {
    s.toHost == [] && |s.toClient| == 1 && s.toClient[0].ResponseIn? && s.toClient[0].response.id == NumberId(id)
  }

  ghost predicate CallbackUnderWay(sys: System, s: State) {
    && s.host.Blocked? && s.toHost == [] && sys.handler.step(s.history, s.host.request, s.host.replies).Call?
    && var call := sys.handler.step(s.history, s.host.request, s.host.replies).call;
       s.toClient == [RequestIn(CallbackRequest(s.host.callback, call))]
  }

  ghost predicate ReplyUnderWay(sys: System, s: State) {
    && s.host.Blocked? && s.toClient == [] && sys.handler.step(s.history, s.host.request, s.host.replies).Call?
    && |s.toHost| == 1 && s.toHost[0].ResponseIn? && s.toHost[0].response.id == NumberId(s.host.callback)
  }

  /** The turn is always somewhere: with one end, or in one message on the way to one end. */
  ghost predicate Inv(sys: System, s: State) {
    && s.queued == [] && ShutdownLast(s.script)
    && match s.client
       case Idle => s.toHost == [] && s.toClient == [] && (s.host.Ready? || (s.host.Gone? && s.script == []))
       case Waiting(id) =>
         match s.host
         case Ready => RequestUnderWay(s, id) || ResponseUnderWay(s, id)
         case Gone => ResponseUnderWay(s, id) && s.script == []
         case Working(request, _) => InProgress(s, id, request) && s.toHost == [] && s.toClient == []
         case Blocked(request, _, _) =>
           InProgress(s, id, request) && (CallbackUnderWay(sys, s) || ReplyUnderWay(sys, s))
  }

  /** Every call has been made and has returned. */
  predicate Finished(s: State) {
    s.client == Idle && s.script == []
  }

  lemma StartsInv(sys: System, script: seq<CallSpec>)
    requires ShutdownLast(script)
    ensures Inv(sys, Start(script))
  {
  }

  /**
   * Exactly one end can move, until every call has returned and neither can: nobody waits for
   * somebody who is waiting, and nobody acts out of turn.
   */
  lemma OneTurnHolder(sys: System, s: State)
    requires Inv(sys, s)
    ensures Finished(s) ==> ClientNext(sys, s).None? && HostNext(sys, s).None?
    ensures !Finished(s) ==> (ClientNext(sys, s).Some? <==> HostNext(sys, s).None?)
  {
  }

  lemma ClientKeepsInv(sys: System, s: State)
    requires Inv(sys, s) && ClientNext(sys, s).Some?
    ensures Inv(sys, ClientNext(sys, s).value)
  {
    var t := ClientNext(sys, s).value;
    if s.client.Idle? {
      assert t.script == s.script[1..];
      assert s.script[0].name == SHUTDOWN ==> t.script == [];
    }
  }

  lemma HostKeepsInv(sys: System, s: State)
    requires Inv(sys, s) && HostNext(sys, s).Some?
    ensures Inv(sys, HostNext(sys, s).value)
  {
  }

  // ---------------------------------------------------------------- what the calls ought to return

  /** A request served with the application answering each callback directly. */
  ghost function Serve(sys: System, history: seq<Turn>, request: Request, replies: seq<Reply>,
                       seen: seq<CallbackCall>): (Turn, seq<CallbackCall>)
    requires sys.handler.Terminates()
    decreases sys.handler.bound(history, request) - |replies|
  {
    match sys.handler.step(history, request, replies)
    case Done(_) => (Turn(request, replies), seen)
    case Call(call) =>
      var (reply, saw) := Asked(sys.app, seen, call);
      Serve(sys, history, request, replies + [reply], saw)
  }

  /** What an application does with a call put to it directly. */
  ghost function Asked(app: Application, seen: seq<CallbackCall>, call: CallbackCall): (Reply, seq<CallbackCall>) {
    if app.allowed.Some? && call.capability !in app.allowed.value then
      (Err("capability `" + call.capability + "` is not allowed by this application"), seen)
    else
      match app.handler
      case None => (Err("this application does not handle the `" + call.capability + "` capability"), seen)
      case Some(handle) => (handle(seen, call), seen + [call])
  }

  lemma AskedOverTheWire(app: Application, seen: seq<CallbackCall>, id: int, call: CallbackCall)
    ensures Asked(app, seen, call) ==
      (app.Makes(seen, CallbackRequest(id, call)), app.SeenAfter(seen, CallbackRequest(id, call)))
  {
    HandlesTheCall(app, seen, id, call);
    hide Application.Makes, Application.SeenAfter, CallbackRequest;
  }

  /** What a handler answers, as a caller at hand would get it. */
  ghost function HandlersResult(handler: Handler, history: seq<Turn>, turn: Turn): Result<Json, RemoteError>
    requires handler.step(history, turn.request, turn.replies).Done?
  {
    match handler.step(history, turn.request, turn.replies).answer
    case Ok(value) => Ok(value)
    case Err(error) => Err(HostError(error.message))
  }

  lemma ResultOverTheWire(handler: Handler, history: seq<Turn>, turn: Turn)
    requires handler.step(history, turn.request, turn.replies).Done?
    ensures ResultOf(handler.Answer(history, turn)) == HandlersResult(handler, history, turn)
  {
    var response := handler.Answer(history, turn);
    var result := ResultOf(response);
    assert Gives(response, KEEP, result);
    if response.error.None? {
      assert KEEP(response.result.value) == Some(response.result.value);
    }
  }

  lemma {:induction false} ServeIsDone(sys: System, history: seq<Turn>, request: Request, replies: seq<Reply>,
                                       seen: seq<CallbackCall>)
    requires sys.handler.Terminates()
    ensures var turn := Serve(sys, history, request, replies, seen).0;
      turn.request == request && sys.handler.step(history, request, turn.replies).Done?
    decreases sys.handler.bound(history, request) - |replies|
  {
    match sys.handler.step(history, request, replies)
    case Done(_) =>
    case Call(call) =>
      var (reply, saw) := Asked(sys.app, seen, call);
      ServeIsDone(sys, history, request, replies + [reply], saw);
  }

  /** The results of a script run call by call, with no pipes between the two. */
  ghost function Direct(sys: System, script: seq<CallSpec>, nextId: int, history: seq<Turn>, seen: seq<CallbackCall>):
    seq<Result<Json, RemoteError>>
    requires sys.handler.Terminates()
    decreases |script|, 0
  {
    if script == [] then []
    else Resume(sys, script[1..], Saturating(nextId + 1), history, Arriving(nextId, script[0]), [], seen)
  }

  /** A call as it arrives: numbered, under its own name, with its parameters unless they are null. */
  ghost function Arriving(id: int, call: CallSpec): Request {
    Request(NumberId(id), call.name, if call.params == JNull then None else Some(call.params))
  }

  /** The same, from the middle of serving one request. */
  ghost function Resume(sys: System, script: seq<CallSpec>, nextId: int, history: seq<Turn>, request: Request,
                        replies: seq<Reply>, seen: seq<CallbackCall>): seq<Result<Json, RemoteError>>
    requires sys.handler.Terminates()
    decreases |script|, 1
  {
    ServeIsDone(sys, history, request, replies, seen);
    var (turn, saw) := Serve(sys, history, request, replies, seen);
    [HandlersResult(sys.handler, history, turn)] + Direct(sys, script, nextId, history + [turn], saw)
  }

  /** What every call will have returned in the end, as read off a state on the way. */
  ghost function Promised(sys: System, s: State): seq<Result<Json, RemoteError>>
    requires sys.handler.Terminates() && Inv(sys, s)
  {
    s.results +
    match s.client
    case Idle => Direct(sys, s.script, s.nextId, s.history, s.seen)
    case Waiting(id) =>
      if s.toClient != [] && s.toClient[0].ResponseIn? then
        [ResultOf(s.toClient[0].response)] + Direct(sys, s.script, s.nextId, s.history, s.seen)
      else
        match s.host
        case Ready => Resume(sys, s.script, s.nextId, s.history, s.toHost[0].request, [], s.seen)
        case Gone => []
        case Working(request, replies) => Resume(sys, s.script, s.nextId, s.history, request, replies, s.seen)
        case Blocked(request, replies, _) =>
          if s.toClient != [] then
            var callback := s.toClient[0].request;
            Resume(sys, s.script, s.nextId, s.history, request, replies + [sys.app.Makes(s.seen, callback)],
              sys.app.SeenAfter(s.seen, callback))
          else
            Resume(sys, s.script, s.nextId, s.history, request, replies + [ReplyIn(s.toHost[0].response)], s.seen)
  }

  lemma ReplySurvivesFraming(response: Response)
    ensures Normal(ResponseIn(response)).ResponseIn? && Normal(ResponseIn(response)).response.id == response.id
    ensures ReplyIn(Normal(ResponseIn(response)).response) == ReplyIn(response)
    ensures ResultOf(Normal(ResponseIn(response)).response) == ResultOf(response)
  {
  }

  lemma ClientKeepsPromise(sys: System, s: State)
    requires sys.handler.Terminates() && Inv(sys, s) && ClientNext(sys, s).Some?
    ensures Inv(sys, ClientNext(sys, s).value) && Promised(sys, ClientNext(sys, s).value) == Promised(sys, s)
  {
    ClientKeepsInv(sys, s);
    if s.client.Waiting? {
      if s.toClient[0].ResponseIn? {
        RecordingKeepsPromise(sys, s);
      } else {
        AnsweringKeepsPromise(sys, s);
      }
    }
  }

  lemma RecordingKeepsPromise(sys: System, s: State)
    requires sys.handler.Terminates() && Inv(sys, s) && s.client.Waiting? && ResponseUnderWay(s, s.client.id)
    requires ClientNext(sys, s).Some? && Inv(sys, ClientNext(sys, s).value)
    ensures Promised(sys, ClientNext(sys, s).value) == Promised(sys, s)
  {
    hide Handler.Terminates, ResultIn, ResultOf, Direct;
    var mine, rest := [ResultOf(s.toClient[0].response)], Direct(sys, s.script, s.nextId, s.history, s.seen);
    assert (s.results + mine) + rest == s.results + (mine + rest);
  }

  lemma AnsweringKeepsPromise(sys: System, s: State)
    requires sys.handler.Terminates() && Inv(sys, s) && s.client.Waiting? && CallbackUnderWay(sys, s)
    requires ClientNext(sys, s).Some? && Inv(sys, ClientNext(sys, s).value)
    ensures Promised(sys, ClientNext(sys, s).value) == Promised(sys, s)
  {
    var callback := s.toClient[0].request;
    ReplySurvivesFraming(sys.app.Response(s.seen, callback));
    ReplyIsWhatTheApplicationMakes(sys.app, s.seen, callback);
    hide Handler.Terminates, Resume, Application.Makes, Application.Response, Application.SeenAfter, Normal, ReplyIn;
  }

  lemma HostKeepsPromise(sys: System, s: State)
    requires sys.handler.Terminates() && Inv(sys, s) && HostNext(sys, s).Some?
    ensures Inv(sys, HostNext(sys, s).value) && Promised(sys, HostNext(sys, s).value) == Promised(sys, s)
  {
    HostKeepsInv(sys, s);
    if s.host.Working? {
      match sys.handler.step(s.history, s.host.request, s.host.replies)
      case Call(call) =>
        AskedOverTheWire(sys.app, s.seen, s.nextCallback, call);
      case Done(_) =>
        ResultOverTheWire(sys.handler, s.history, Turn(s.host.request, s.host.replies));
        ReplySurvivesFraming(sys.handler.Answer(s.history, Turn(s.host.request, s.host.replies)));
    }
  }

  // ---------------------------------------------------------------- whole runs

  /** How far a state is from the end, compared component by component. */
  ghost function CallsLeft(s: State): nat {
    |s.script|
  }

  ghost function Stage(s: State): nat {
    if s.client.Idle? then 0
    else if s.toClient != [] && s.toClient[0].ResponseIn? then 1
    else if s.host.Ready? then 3
    else 2
  }

  ghost function CallbacksLeft(sys: System, s: State): int {
    match s.host
    case Working(request, replies) => sys.handler.bound(s.history, request) - |replies|
    case Blocked(request, replies, _) => sys.handler.bound(s.history, request) - |replies|
    case _ => 0
  }

  ghost function Hop(s: State): nat {
    if s.host.Working? then 2 else if s.toClient != [] then 1 else 0
  }

  /** Each step is a step towards the end, so no run goes on for ever. */
  ghost predicate Nearer(sys: System, t: State, s: State) {
    || CallsLeft(t) < CallsLeft(s)
    || (CallsLeft(t) == CallsLeft(s) &&
        (|| Stage(t) < Stage(s)
         || (Stage(t) == Stage(s) &&
             (|| 0 <= CallbacksLeft(sys, t) < CallbacksLeft(sys, s)
              || (CallbacksLeft(sys, t) == CallbacksLeft(sys, s) && Hop(t) < Hop(s))))))
  }

  lemma StepsNearer(sys: System, s: State)
    requires sys.handler.Terminates() && Inv(sys, s)
    ensures ClientNext(sys, s).Some? ==> Nearer(sys, ClientNext(sys, s).value, s)
    ensures HostNext(sys, s).Some? ==> Nearer(sys, HostNext(sys, s).value, s)
  {
  }

  ghost predicate Next(sys: System, s: State, t: State) {
    ClientNext(sys, s) == Some(t) || HostNext(sys, s) == Some(t)
  }

  ghost predicate Run(sys: System, run: seq<State>) {
    run != [] && forall i :: 0 <= i < |run| - 1 ==> Next(sys, run[i], run[i + 1])
  }

  /** From any state on the way, finitely many steps lead to the end. */
  lemma {:induction false} Finishes(sys: System, s: State) returns (run: seq<State>)
    requires sys.handler.Terminates() && Inv(sys, s)
    ensures Run(sys, run) && run[0] == s && Finished(run[|run| - 1])
    decreases CallsLeft(s), Stage(s), CallbacksLeft(sys, s), Hop(s)
  {
    if Finished(s) {
      return [s];
    }
    OneTurnHolder(sys, s);
    StepsNearer(sys, s);
    var t: State;
    if ClientNext(sys, s).Some? {
      t := ClientNext(sys, s).value;
      ClientKeepsInv(sys, s);
    } else {
      t := HostNext(sys, s).value;
      HostKeepsInv(sys, s);
    }
    hide ClientNext, HostNext, Inv, Handler.Terminates, CallsLeft, Stage, CallbacksLeft, Hop, Finished;
    var rest := Finishes(sys, t);
    run := [s] + rest;
    forall i | 0 <= i < |run| - 1 ensures Next(sys, run[i], run[i + 1]) {
      assert i > 0 ==> Next(sys, rest[i - 1], rest[i - 1 + 1]);
    }
  }

  lemma {:induction false} RunKeeps(sys: System, script: seq<CallSpec>, run: seq<State>, k: nat)
    requires sys.handler.Terminates() && ShutdownLast(script)
    requires Run(sys, run) && run[0] == Start(script) && k < |run|
    ensures Inv(sys, run[k]) && Promised(sys, run[k]) == Direct(sys, script, 1, [], [])
  {
    if k == 0 {
      StartsInv(sys, script);
    } else {
      RunKeeps(sys, script, run, k - 1);
      assert Next(sys, run[k - 1], run[k - 1 + 1]);
      if ClientNext(sys, run[k - 1]) == Some(run[k]) {
        ClientKeepsPromise(sys, run[k - 1]);
      } else {
        HostKeepsPromise(sys, run[k - 1]);
      }
    }
  }

  /**
   * However the two ends take their steps: the host's queue is empty and exactly one end can
   * move in every state reached, a run that can go no further has returned every call with
   * what its own request comes to, and one that has not can go on, nearer to its end.
   */
  lemma Protocol(sys: System, script: seq<CallSpec>, run: seq<State>)
    requires sys.handler.Terminates() && ShutdownLast(script)
    requires Run(sys, run) && run[0] == Start(script)
    ensures var s := run[|run| - 1];
      && s.queued == []
      && (Finished(s) <==> ClientNext(sys, s).None? && HostNext(sys, s).None?)
      && (!Finished(s) ==> (ClientNext(sys, s).Some? <==> HostNext(sys, s).None?))
      && (forall t :: Next(sys, s, t) ==> Nearer(sys, t, s))
      && (Finished(s) ==> s.results == Direct(sys, script, 1, [], []))
  {
    var s := run[|run| - 1];
    RunKeeps(sys, script, run, |run| - 1);
    OneTurnHolder(sys, s);
    StepsNearer(sys, s);
    if Finished(s) {
      assert s.results + [] == s.results;
    }
  }
}
