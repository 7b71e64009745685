/** The application's end of the channel: calling the host, and answering its callbacks meanwhile. */
module RemoteClients {
  import opened Wrappers
  import opened Widths
  import opened Distinctness
  import opened Messages
  import opened HostChannels

  /** What waiting for the next frame comes to: a frame, a broken stream, its end, or the deadline. */
  datatype Event = Frame(message: Incoming) | Failed | Closed | Late

  datatype RemoteError = Transport | HostGone | Timeout | Protocol | HostError(message: string)

  // ---------------------------------------------------------------- answering callbacks

  /** The application: the capabilities it allows at all, and its handler, if it has one. */
  datatype Application = Application(
    allowed: Option<set<string>>, handler: Option<(seq<CallbackCall>, CallbackCall) -> Reply>)
  {
    predicate Blocks(call: CallbackCall) {
      allowed.Some? && call.capability !in allowed.value
    }

    /** The call the handler gets to see, if it gets to see one. */
    function Sees(callback: Request): Option<CallbackCall> {
      var call := CallFromJson(ParamsOf(callback));
      if call.Some? && !Blocks(call.value) && handler.Some? then call else None
    }

    /** What the application makes of a callback, after the calls its handler has seen. */
    function Makes(seen: seq<CallbackCall>, callback: Request): Reply {
      var call := CallFromJson(ParamsOf(callback));
      if call.None? then Err("malformed callback")
      else if Blocks(call.value) then Err("capability `" + call.value.capability +
        "` is not allowed by this application")
      else
        match handler
        case None => Err("this application does not handle the `" + CapabilityName(callback.method_) + "` capability")
        case Some(handle) => handle(seen, call.value)
    }

    function Response(seen: seq<CallbackCall>, callback: Request): Response {
      match Makes(seen, callback)
      case Ok(value) => OkResponse(callback.id, value)
      case Err(message) => FailedResponse(callback.id, ErrorObject(REQUEST_FAILED, message, None))
    }

    function SeenAfter(seen: seq<CallbackCall>, callback: Request): seq<CallbackCall> {
      if Sees(callback).Some? then seen + [Sees(callback).value] else seen
    }
  }

  function ParamsOf(callback: Request): Json {
    if callback.params.Some? then callback.params.value else JNull
  }

  /** The method without its prefix. */
  function CapabilityName(name: string): string {
    if CAPABILITY_PREFIX <= name then name[|CAPABILITY_PREFIX|..] else name
  }

  /** What an application does with a call: refuse it, have no one to ask, or ask its handler. */
  ghost predicate Handled(app: Application, seen: seq<CallbackCall>, call: CallbackCall, reply: Reply,
                          after: seq<CallbackCall>)
  {
    if app.allowed.Some? && call.capability !in app.allowed.value then
      after == seen && reply == Err("capability `" + call.capability + "` is not allowed by this application")
    else
      match app.handler
      case None =>
        after == seen && reply == Err("this application does not handle the `" + call.capability + "` capability")
      case Some(handle) => after == seen + [call] && reply == handle(seen, call)
  }

  /** A call that comes as the host sends it is handled for what it is. */
  lemma HandlesTheCall(app: Application, seen: seq<CallbackCall>, id: int, call: CallbackCall)
    ensures var callback := CallbackRequest(id, call);
      Handled(app, seen, call, app.Makes(seen, callback), app.SeenAfter(seen, callback))
  {
    CallReadsBack(id, call);
    var name := "capability/" + call.capability;
    assert name[|"capability/"|..] == call.capability;
  }

  /** Nothing outside the allowlist ever reaches the handler; a callback that is no call reaches nobody. */
  lemma HandlerSeesOnlyAllowed(app: Application, seen: seq<CallbackCall>, callback: Request)
    requires OnlyAllowed(app, seen)
    ensures OnlyAllowed(app, app.SeenAfter(seen, callback))
    ensures CallFromJson(ParamsOf(callback)).None? ==>
      app.SeenAfter(seen, callback) == seen && app.Makes(seen, callback) == Err("malformed callback")
    ensures var call := CallFromJson(ParamsOf(callback));
      call.Some? && app.allowed.Some? && call.value.capability !in app.allowed.value ==>
        app.SeenAfter(seen, callback) == seen && app.Makes(seen, callback).Err?
  {
  }

  /** The host reads back just what the application made of the callback, whatever the callback's id. */
  lemma ReplyIsWhatTheApplicationMakes(app: Application, seen: seq<CallbackCall>, callback: Request)
    ensures app.Response(seen, callback).id == callback.id
    ensures ReplyIn(app.Response(seen, callback)) == app.Makes(seen, callback)
    ensures match app.Makes(seen, callback)
      case Ok(value) => app.Response(seen, callback) == Response(callback.id, Some(value), None)
      case Err(message) =>
        app.Response(seen, callback) == Response(callback.id, None, Some(ErrorObject(-32000, message, None)))
  {
  }

  // ---------------------------------------------------------------- a run of callbacks

  /** The responses to the callbacks among some events, in order, and the calls the handler saw. */
  ghost function Answering(app: Application, seen: seq<CallbackCall>, events: seq<Event>):
    (seq<Incoming>, seq<CallbackCall>) {
    if events == [] then ([], seen)
    else
      var last := events[|events| - 1];
      var (sent, saw) := Answering(app, seen, events[..|events| - 1]);
      if last.Frame? && last.message.RequestIn? then
        (sent + [ResponseIn(app.Response(saw, last.message.request))], app.SeenAfter(saw, last.message.request))
      else (sent, saw)
  }

  lemma AnsweringNext(app: Application, seen: seq<CallbackCall>, events: seq<Event>, next: Event)
    ensures var (sent, saw) := Answering(app, seen, events);
      Answering(app, seen, events + [next]) ==
      if next.Frame? && next.message.RequestIn? then
        (sent + [ResponseIn(app.Response(saw, next.message.request))], app.SeenAfter(saw, next.message.request))
      else (sent, saw)
  {
    assert (events + [next])[..|events|] == events;
  }

  predicate Replies(event: Event, id: int) {
    event.Frame? && event.message.ResponseIn? && event.message.response.id == NumberId(id)
  }

  /**
   * What a response means to the caller: an error is the host's, with its message; otherwise the
   * call succeeds just when the result, or null where there is none, decodes, and with that value.
   */
  ghost predicate Gives<T(!new)>(response: Response, decode: Json -> Option<T>, r: Result<T, RemoteError>) {
    && (response.error.Some? ==> r == Err(HostError(response.error.value.message)))
    && (response.error.None? ==>
        && (forall value :: r == Ok(value) <==>
              (exists result :: response.result == Some(result) && decode(result) == Some(value))
              || (response.result.None? && decode(JNull) == Some(value)))
        && (r.Err? ==> r.error == Protocol))
  }

  /** What the caller gets out of the host's response. */
  function ResultIn<T(!new)>(response: Response, decode: Json -> Option<T>): (r: Result<T, RemoteError>)
    ensures Gives(response, decode, r)
  {
    if response.error.Some? then Err(HostError(response.error.value.message))
    else
      match decode(if response.result.Some? then response.result.value else JNull)
      case None => Err(Protocol)
      case Some(value) => Ok(value)
  }

  /** The call returned on the last event read: the first response with its own id. */
  ghost predicate Returned<T(!new)>(id: int, read: seq<Event>, decode: Json -> Option<T>, r: Result<T, RemoteError>) {
    && read != [] && Replies(read[|read| - 1], id)
    && Gives(read[|read| - 1].message.response, decode, r)
    && forall i :: 0 <= i < |read| - 1 ==> !Replies(read[i], id)
  }

  ghost predicate EndsIn(read: seq<Event>, event: Event) {
    read != [] && read[|read| - 1] == event
  }

  ghost predicate IsCallback(event: Event) {
    event.Frame? && event.message.RequestIn?
  }

  /** What a broken pipe is put down to: the host's exit, when it turns out to have exited. */
  function Diagnosed(exited: bool): (error: RemoteError)
    ensures error == HostGone <==> exited
    ensures error == Transport <==> !exited
  {
    if exited then HostGone else Transport
  }

  /** The stream broke, or the last write did not go through. */
  ghost predicate Faulty(read: seq<Event>, failed: bool) {
    EndsIn(read, Failed) || (failed && (read == [] || IsCallback(read[|read| - 1])))
  }

  /** The call ended without a response, each way for its own reason; `failed` is whether the last write did. */
  ghost predicate CutShort(id: int, read: seq<Event>, error: RemoteError, left: seq<Event>, failed: bool,
                           exited: bool)
  {
    && (forall i :: 0 <= i < |read| ==> !Replies(read[i], id))
    && (Faulty(read, failed) || EndsIn(read, Closed) || EndsIn(read, Late) || left == [])
    && error ==
      if Faulty(read, failed) then Diagnosed(exited) else if EndsIn(read, Late) then Timeout else HostGone
  }

  /** What a call sends, attempt by attempt: the request, and a response to each callback read. */
  ghost function Attempts(app: Application, request: Request, seen: seq<CallbackCall>,
                          read: seq<Event>): seq<Incoming>
  {
    [RequestIn(request)] + Answering(app, seen, read).0
  }

  /** The handler has only ever seen capabilities the application allows. */
  ghost predicate OnlyAllowed(app: Application, seen: seq<CallbackCall>) {
    app.allowed.Some? ==> forall call <- seen :: call.capability in app.allowed.value
  }

  class RemoteClient {
    const app: Application
    const pipe: Pipe
    var incoming: seq<Event>
    var nextId: int
    var sent: seq<Incoming>
    var tries: nat
    var seen: seq<CallbackCall>
    /** The ids of the calls made so far. */
    ghost var made: seq<int>

    ghost predicate Valid()
      reads this
    {
      made == Ids(|made|) && nextId == Saturating(|made| + 1) && OnlyAllowed(app, seen)
    }

    constructor (app: Application, incoming: seq<Event>, pipe: Pipe)
      ensures Valid() && nextId == 1 && sent == [] && seen == [] && made == [] && tries == 0
      ensures this.app == app && this.incoming == incoming && this.pipe == pipe
    {
      this.app, this.incoming, this.pipe := app, incoming, pipe;
      nextId, sent, seen, made, tries := 1, [], [], [], 0;
    }

    method Write(m: Incoming) returns (ok: bool)
      modifies this`sent, this`tries
      ensures ok == pipe(old(tries)) && tries == old(tries) + 1
      ensures sent == if ok then old(sent) + [m] else old(sent)
    {
      ok := pipe(tries);
      tries := tries + 1;
      if ok {
        sent := sent + [m];
      }
    }

    /** Answers a capability call a plugin made back into this application. */
    method AnswerCallback(callback: Request) returns (ok: bool)
      requires Valid()
      modifies this`sent, this`tries, this`seen
      ensures Valid() && seen == app.SeenAfter(old(seen), callback)
      ensures ok == pipe(old(tries)) && tries == old(tries) + 1
      ensures sent == if ok then old(sent) + [ResponseIn(app.Response(old(seen), callback))] else old(sent)
    {
      var response := app.Response(seen, callback);
      HandlerSeesOnlyAllowed(app, seen, callback);
      seen := app.SeenAfter(seen, callback);
      ok := Write(ResponseIn(response));
    }

    /**
     * Sends one request and reads its reply, answering any callback that arrives while waiting.
     * A result is that of the first response carrying this very call's id; the callbacks read
     * meanwhile were each answered once, in order. `exited` is what asking after the child says,
     * should a read or a write fail.
     */
    method CallHost<T(!new)>(name: string, params: Option<Json>, decode: Json -> Option<T>, exited: bool)
      returns (r: Result<T, RemoteError>, ghost read: seq<Event>)
      requires Valid()
      modifies this
      ensures Valid() && made == old(made) + [old(nextId)]
      ensures old(incoming) == read + incoming
      ensures params.None? ==> r == Err(Protocol) && read == [] && (sent, seen, tries) == old((sent, seen, tries))
      ensures params.Some? ==>
        CallOver(app,
          Begun(old(nextId), Request(NumberId(old(nextId)), name, params), pipe, old(tries), old(sent), old(seen)),
          read, tries, sent, seen, decode, exited, r, incoming)
      ensures old(nextId) < U64_MAX ==> OwnReply(old(made), old(nextId), read)
    {
      hide CallOver, Waiting, Application.Response, Application.SeenAfter, OnlyAllowed, OwnReply, ResultIn, Ids;
      var id := nextId;
      IdsMore(|made|);
      OwnReplyOnly(made, id, []);
      made, nextId := made + [id], Saturating(nextId + 1);
      read, r := [], Err(Protocol);
      if params.None? {
        return;
      }
      ghost var start := Begun(id, Request(NumberId(id), name, params), pipe, tries, sent, seen);
      WaitingStarts(app, start, incoming, decode, exited);
      var ok := Write(RequestIn(Request(NumberId(id), name, params)));
      if !ok {
        return Err(Diagnosed(exited)), read;
      }
      var going := true;
      r := Err(HostGone);
      while going
        invariant Valid() && made == old(made) + [id] && old(incoming) == read + incoming
        invariant going ==> Waiting(app, start, read, tries, sent, seen) && r == Err(HostGone)
        invariant !going ==> CallOver(app, start, read, tries, sent, seen, decode, exited, r, incoming)
        decreases if going then |incoming| + 1 else 0
      {
        if incoming == [] {
          WaitingInVain(app, start, read, tries, sent, seen, decode, exited);
          going := false;
        } else {
          var event := incoming[0];
          WaitingOn(app, start, read, tries, sent, seen, event, incoming[1..], decode, exited);
          read, incoming := read + [event], incoming[1..];
          match event {
            case Failed => r, going := Err(Diagnosed(exited)), false;
            case Closed => r, going := Err(HostGone), false;
            case Late => r, going := Err(Timeout), false;
            case Frame(ResponseIn(response)) =>
              if response.id == NumberId(id) {
                r, going := ResultIn(response, decode), false;
              }
            case Frame(RequestIn(callback)) =>
              ok := AnswerCallback(callback);
              if !ok {
                r, going := Err(Diagnosed(exited)), false;
              }
          }
        }
      }
      OwnReplyOnly(old(made), id, read);
    }
  }

  /** What a call began with: its id and request, and the pipe, the traffic and the calls seen then. */
  datatype Begun = Begun(
    id: int, request: Request, pipe: Pipe, tries: nat, sent: seq<Incoming>, seen: seq<CallbackCall>)

  /** Every attempt from one up to another went through. */
  ghost predicate AllWritten(pipe: Pipe, from: nat, to: int) {
    forall k: nat :: from <= k < to ==> pipe(k)
  }

  /** The traffic is what the attempts so far come to. */
  ghost predicate Traffic(app: Application, b: Begun, read: seq<Event>, tries: nat, sent: seq<Incoming>,
                          seen: seq<CallbackCall>)
  {
    var attempts := Attempts(app, b.request, b.seen, read);
    && seen == Answering(app, b.seen, read).1 && tries == b.tries + |attempts|
    && sent == b.sent + Written(b.pipe, b.tries, attempts)
  }

  /** A call still waiting: nothing read so far is its reply, and every callback read is answered. */
  ghost predicate Waiting(app: Application, b: Begun, read: seq<Event>, tries: nat, sent: seq<Incoming>,
                          seen: seq<CallbackCall>)
  {
    && (forall i :: 0 <= i < |read| ==> read[i].Frame? && !Replies(read[i], b.id))
    && Traffic(app, b, read, tries, sent, seen) && AllWritten(b.pipe, b.tries, tries)
  }

  /** A call that is over, and how. */
  ghost predicate CallOver<T(!new)>(app: Application, b: Begun, read: seq<Event>, tries: nat, sent: seq<Incoming>,
                                    seen: seq<CallbackCall>, decode: Json -> Option<T>, exited: bool,
                                    r: Result<T, RemoteError>, left: seq<Event>)
  {
    && Traffic(app, b, read, tries, sent, seen) && (forall i :: 0 <= i < |read| - 1 ==> read[i].Frame?)
    && (|| (Returned(b.id, read, decode, r) && AllWritten(b.pipe, b.tries, tries))
        || (r.Err? && CutShort(b.id, read, r.error, left, !b.pipe(tries - 1), exited) &&
            AllWritten(b.pipe, b.tries, tries - 1)))
  }

  lemma WaitingStarts<T(!new)>(app: Application, b: Begun, left: seq<Event>, decode: Json -> Option<T>, exited: bool)
    ensures b.pipe(b.tries) ==> Waiting(app, b, [], b.tries + 1, b.sent + [RequestIn(b.request)], b.seen)
    ensures !b.pipe(b.tries) ==>
      CallOver<T>(app, b, [], b.tries + 1, b.sent, b.seen, decode, exited, Err(Diagnosed(exited)), left)
  {
    var request := RequestIn(b.request);
    assert Attempts(app, b.request, b.seen, []) == [request] == [] + [request];
    WrittenMore(b.pipe, b.tries, [], request);
    assert b.sent + [] == b.sent;
  }

  lemma TrafficOn(app: Application, b: Begun, read: seq<Event>, tries: nat, sent: seq<Incoming>,
                  seen: seq<CallbackCall>, event: Event)
    requires Traffic(app, b, read, tries, sent, seen)
    ensures !IsCallback(event) ==> Traffic(app, b, read + [event], tries, sent, seen)
    ensures IsCallback(event) ==>
      var response := ResponseIn(app.Response(seen, event.message.request));
      Traffic(app, b, read + [event], tries + 1, if b.pipe(tries) then sent + [response] else sent,
        app.SeenAfter(seen, event.message.request))
  {
    AnsweringNext(app, b.seen, read, event);
    if IsCallback(event) {
      var response := ResponseIn(app.Response(seen, event.message.request));
      var attempts := Attempts(app, b.request, b.seen, read);
      assert Attempts(app, b.request, b.seen, read + [event]) == attempts + [response];
      WrittenMore(b.pipe, b.tries, attempts, response);
      assert b.sent + (Written(b.pipe, b.tries, attempts) + [response]) == sent + [response];
      assert b.sent + (Written(b.pipe, b.tries, attempts) + []) == sent;
    }
  }

  lemma WaitingInVain<T(!new)>(app: Application, b: Begun, read: seq<Event>, tries: nat, sent: seq<Incoming>,
                               seen: seq<CallbackCall>, decode: Json -> Option<T>, exited: bool)
    requires Waiting(app, b, read, tries, sent, seen)
    ensures CallOver<T>(app, b, read, tries, sent, seen, decode, exited, Err(HostGone), [])
  {
  }

  lemma WaitingOn<T(!new)>(app: Application, b: Begun, read: seq<Event>, tries: nat, sent: seq<Incoming>,
                           seen: seq<CallbackCall>, event: Event, left: seq<Event>, decode: Json -> Option<T>,
                           exited: bool)
    requires Waiting(app, b, read, tries, sent, seen)
    ensures event.Failed? ==>
      CallOver<T>(app, b, read + [event], tries, sent, seen, decode, exited, Err(Diagnosed(exited)), left)
    ensures event.Closed? ==>
      CallOver<T>(app, b, read + [event], tries, sent, seen, decode, exited, Err(HostGone), left)
    ensures event.Late? ==>
      CallOver<T>(app, b, read + [event], tries, sent, seen, decode, exited, Err(Timeout), left)
    ensures Replies(event, b.id) ==>
      CallOver(app, b, read + [event], tries, sent, seen, decode, exited, ResultIn(event.message.response, decode),
        left)
    ensures event.Frame? && event.message.ResponseIn? && !Replies(event, b.id) ==>
      Waiting(app, b, read + [event], tries, sent, seen)
    ensures IsCallback(event) && b.pipe(tries) ==>
      Waiting(app, b, read + [event], tries + 1, sent + [ResponseIn(app.Response(seen, event.message.request))],
        app.SeenAfter(seen, event.message.request))
    ensures IsCallback(event) && !b.pipe(tries) ==>
      CallOver<T>(app, b, read + [event], tries + 1, sent, app.SeenAfter(seen, event.message.request), decode, exited,
        Err(Diagnosed(exited)), left)
  {
    TrafficOn(app, b, read, tries, sent, seen, event);
    assert tries > b.tries;
    hide Application.Response, Application.SeenAfter, ResultIn, Attempts, Answering, Written, Traffic;
    if IsCallback(event) {
      CallbackOn(app, b, read, tries, sent, seen, event, left, decode, exited);
    }
  }

  lemma CallbackOn<T(!new)>(app: Application, b: Begun, read: seq<Event>, tries: nat, sent: seq<Incoming>,
                            seen: seq<CallbackCall>, event: Event, left: seq<Event>, decode: Json -> Option<T>,
                            exited: bool)
    requires Waiting(app, b, read, tries, sent, seen) && tries > b.tries && IsCallback(event)
    ensures b.pipe(tries) ==>
      Waiting(app, b, read + [event], tries + 1, sent + [ResponseIn(app.Response(seen, event.message.request))],
        app.SeenAfter(seen, event.message.request))
    ensures !b.pipe(tries) ==>
      CallOver<T>(app, b, read + [event], tries + 1, sent, app.SeenAfter(seen, event.message.request), decode, exited,
        Err(Diagnosed(exited)), left)
  {
    TrafficOn(app, b, read, tries, sent, seen, event);
    hide Gives, Application.Response, Application.SeenAfter, Attempts, Answering, Written, Traffic;
  }

  /** If the last frame read is a reply to this call, it is none to an earlier one. */
  ghost predicate OwnReply(made: seq<int>, id: int, read: seq<Event>) {
    read != [] && Replies(read[|read| - 1], id) ==> forall other <- made :: !Replies(read[|read| - 1], other)
  }

  /** A reply to this call is none to an earlier one, as long as the ids have not run out. */
  lemma OwnReplyOnly(made: seq<int>, id: int, read: seq<Event>)
    requires made == Ids(|made|) && id == Saturating(|made| + 1)
    ensures id < U64_MAX ==> OwnReply(made, id, read)
  {
  }

  lemma IdsMore(n: nat)
    ensures Ids(n + 1) == Ids(n) + [Saturating(n + 1)]
  {
  }

  // ---------------------------------------------------------------- ids

  /** The ids of the first `n` calls. */
  ghost function Ids(n: nat): (ids: seq<int>)
    ensures |ids| == n && forall i :: 0 <= i < n ==> ids[i] == Saturating(i + 1)
  {
    seq(n, i requires 0 <= i < n => Saturating(i + 1))
  }

  /**
   * No two calls of a client share an id, so that no reply to an abandoned call can pass for
   * another's, exactly while it has made no more than `u64::MAX` calls.
   */
  lemma IdsDistinctIff(client: RemoteClient)
    requires client.Valid()
    ensures Distinct(client.made) <==> |client.made| <= U64_MAX
  {
    var ids := client.made;
    if |ids| > U64_MAX {
      assert ids[U64_MAX - 1] == ids[U64_MAX];
    }
  }
}
