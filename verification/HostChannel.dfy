/** The host's end of the channel: serving requests while plugins call back into the application. */
module HostChannels {
  import opened Wrappers
  import opened Widths
  import opened Messages

  /** What reading one frame yields: a message, or a line that is none. */
  datatype Arrival = Got(message: Incoming) | Bad

  /** What the application makes of a callback, as the plugin sees it. */
  type Reply = Result<Json, string>

  function ReplyIn(response: Response): (reply: Reply)
    ensures response.error.Some? ==> reply == Err(response.error.value.message)
    ensures response.error.None? && response.result.Some? ==> reply == Ok(response.result.value)
    ensures response.error.None? && response.result.None? ==> reply == Ok(JNull)
  {
    match (response.result, response.error)
    case (_, Some(error)) => Err(error.message)
    case (Some(value), None) => Ok(value)
    case (None, None) => Ok(JNull)
  }

  /** One step of answering a request: another callback, or the answer. */
  datatype Step = Call(call: CallbackCall) | Done(answer: Result<Json, ErrorObject>)

  /** A request served, with the replies its callbacks had. */
  datatype Turn = Turn(request: Request, replies: seq<Reply>)

  /**
   * How requests are answered: the next step, given the turns served before (which made the
   * registry what it is) and the replies to the callbacks made so far.
   */
  datatype Handler = Handler(
    step: (seq<Turn>, Request, seq<Reply>) -> Step, bound: (seq<Turn>, Request) -> nat)
  {
    /** Every request is answered after finitely many callbacks. */
    ghost predicate Terminates() {
      forall history, request, replies :: |replies| >= bound(history, request) ==> step(history, request, replies).Done?
    }

    /** The replies of a turn are those to exactly the callbacks its request makes. */
    ghost predicate Answers(history: seq<Turn>, turn: Turn) {
      && (forall k :: 0 <= k < |turn.replies| ==> step(history, turn.request, turn.replies[..k]).Call?)
      && step(history, turn.request, turn.replies).Done?
    }

    /** The response a turn ends with. */
    function Answer(history: seq<Turn>, turn: Turn): Response
      requires step(history, turn.request, turn.replies).Done?
    {
      ResponseTo(turn.request, step(history, turn.request, turn.replies).answer)
    }
  }

  function ResponseTo(request: Request, answer: Result<Json, ErrorObject>): Response {
    match answer
    case Ok(value) => OkResponse(request.id, value)
    case Err(error) => FailedResponse(request.id, error)
  }

  // ---------------------------------------------------------------- reading the traffic

  /** The requests among what arrived, in order. */
  function RequestsOf(arrivals: seq<Arrival>): seq<Request> {
    if arrivals == [] then []
    else
      var last := arrivals[|arrivals| - 1];
      var before := RequestsOf(arrivals[..|arrivals| - 1]);
      if last.Got? && last.message.RequestIn? then before + [last.message.request] else before
  }

  lemma RequestsOfNext(arrivals: seq<Arrival>, next: Arrival)
    ensures RequestsOf(arrivals + [next]) ==
      RequestsOf(arrivals) + (if next.Got? && next.message.RequestIn? then [next.message.request] else [])
  {
    assert (arrivals + [next])[..|arrivals|] == arrivals;
  }

  lemma {:induction false} RequestsOfPrefix(a: seq<Arrival>, b: seq<Arrival>)
    ensures RequestsOf(a) <= RequestsOf(a + b)
  {
    if b == [] {
      assert a + b == a;
    } else {
      var last := |b| - 1;
      assert a + b == (a + b[..last]) + [b[last]];
      RequestsOfPrefix(a, b[..last]);
      RequestsOfNext(a + b[..last], b[last]);
    }
  }

  /** The responses among what was sent, in order. */
  function ResponsesIn(sent: seq<Incoming>): seq<Response> {
    if sent == [] then []
    else
      var last := sent[|sent| - 1];
      var before := ResponsesIn(sent[..|sent| - 1]);
      if last.ResponseIn? then before + [last.response] else before
  }

  /** The callbacks among what was sent, in order. */
  function CallbacksIn(sent: seq<Incoming>): seq<Request> {
    if sent == [] then []
    else
      var last := sent[|sent| - 1];
      var before := CallbacksIn(sent[..|sent| - 1]);
      if last.RequestIn? then before + [last.request] else before
  }

  lemma SentOneMore(sent: seq<Incoming>, m: Incoming)
    ensures ResponsesIn(sent + [m]) == ResponsesIn(sent) + (if m.ResponseIn? then [m.response] else [])
    ensures CallbacksIn(sent + [m]) == CallbacksIn(sent) + (if m.RequestIn? then [m.request] else [])
  {
    assert (sent + [m])[..|sent|] == sent;
  }

  /** Whether each attempt to write succeeds: a pipe may break, or refuse a single frame for its size. */
  type Pipe = nat -> bool

  /** Of these messages, written in turn from attempt `tries` on, those that go through. */
  ghost function Written(pipe: Pipe, tries: nat, messages: seq<Incoming>): seq<Incoming> {
    if messages == [] then []
    else
      var last := |messages| - 1;
      Written(pipe, tries, messages[..last]) + if pipe(tries + last) then [messages[last]] else []
  }

  lemma WrittenMore(pipe: Pipe, tries: nat, messages: seq<Incoming>, m: Incoming)
    ensures Written(pipe, tries, messages + [m]) ==
      Written(pipe, tries, messages) + if pipe(tries + |messages|) then [m] else []
    ensures Written(pipe, tries, []) == []
  {
    assert (messages + [m])[..|messages|] == messages;
  }

  function Saturating(n: int): int {
    if n > U64_MAX then U64_MAX else n
  }

  // ---------------------------------------------------------------- what every step keeps

  function RequestsServed(history: seq<Turn>): (r: seq<Request>)
    ensures |r| == |history| && forall i :: 0 <= i < |history| ==> r[i] == history[i].request
  {
    seq(|history|, i requires 0 <= i < |history| => history[i].request)
  }

  /** Each response sent is the answer of the turn in its place. */
  ghost predicate Answered(handler: Handler, history: seq<Turn>, responses: seq<Response>) {
    |responses| == |history| && forall i :: 0 <= i < |history| ==> AnsweredAt(handler, history, i, responses[i])
  }

  ghost predicate AnsweredAt(handler: Handler, history: seq<Turn>, i: nat, response: Response)
    requires i < |history|
  {
    handler.Answers(history[..i], history[i]) && response == handler.Answer(history[..i], history[i])
  }

  lemma AnsweredMore(handler: Handler, history: seq<Turn>, responses: seq<Response>, turn: Turn)
    requires Answered(handler, history, responses) && handler.Answers(history, turn)
    ensures Answered(handler, history + [turn], responses + [handler.Answer(history, turn)])
  {
    hide Handler.Answers;
    var more := history + [turn];
    assert more[..|history|] == history;
    forall i | 0 <= i < |history| ensures AnsweredAt(handler, more, i, responses[i]) {
      assert AnsweredAt(handler, history, i, responses[i]);
      assert more[..i] == history[..i];
    }
  }

  /** Requests as they arrived are those answered, then the one in progress, then those queued. */
  ghost predicate InOrder(consumed: seq<Arrival>, served: seq<Request>, current: seq<Request>, queued: seq<Request>) {
    RequestsOf(consumed) == served + current + queued
  }

  lemma InOrderQueues(consumed: seq<Arrival>, served: seq<Request>, current: seq<Request>, queued: seq<Request>,
                      next: Arrival)
    requires InOrder(consumed, served, current, queued)
    ensures next.Got? && next.message.RequestIn? ==>
      InOrder(consumed + [next], served, current, queued + [next.message.request])
    ensures !(next.Got? && next.message.RequestIn?) ==> InOrder(consumed + [next], served, current, queued)
  {
    RequestsOfNext(consumed, next);
    if next.Got? && next.message.RequestIn? {
      assert served + current + (queued + [next.message.request]) ==
        (served + current + queued) + [next.message.request];
    }
  }

  /** Callbacks are numbered upwards, each below the next number, until the numbers run out. */
  ghost predicate Numbered(calls: seq<Request>, next: int) {
    && 1 <= next <= U64_MAX
    && (forall i :: 0 <= i < |calls| ==> calls[i].id.NumberId? && (calls[i].id.number < next || next == U64_MAX))
    && (forall i, j :: 0 <= i < j < |calls| ==>
         calls[i].id.number < calls[j].id.number || calls[j].id.number == U64_MAX)
  }

  lemma NumberedMore(calls: seq<Request>, next: int, call: Request)
    requires Numbered(calls, next)
    ensures Numbered(calls, Saturating(next + 1))
    ensures call.id == NumberId(next) ==> Numbered(calls + [call], Saturating(next + 1))
  {
  }

  lemma CalledOnce(calls: seq<Request>, next: int, sent: seq<Incoming>, call: CallbackCall)
    requires Numbered(calls, next) && calls == CallbacksIn(sent)
    ensures Numbered(CallbacksIn(sent), Saturating(next + 1))
    ensures Numbered(CallbacksIn(sent + [RequestIn(CallbackRequest(next, call))]), Saturating(next + 1))
  {
    NumberedMore(calls, next, CallbackRequest(next, call));
    SentOneMore(sent, RequestIn(CallbackRequest(next, call)));
  }

  /** The last frame read is the first to carry this id as a response, and this is its reply. */
  ghost predicate RepliedBy(id: int, read: seq<Arrival>, r: Reply) {
    && read != [] && RespondsTo(read[|read| - 1], id) && r == ReplyIn(read[|read| - 1].message.response)
    && forall i :: 0 <= i < |read| - 1 ==> !RespondsTo(read[i], id)
  }

  /**
   * One callback: what was asked, under which id, whether it could be sent, what was read
   * meanwhile, the reply, and whether the stream was closed before there was one.
   */
  datatype Exchange = Exchange(
    call: CallbackCall, id: int, sent: bool, read: seq<Arrival>, reply: Reply, closed: bool)

  ghost predicate AllGot(read: seq<Arrival>) {
    forall i :: 0 <= i < |read| ==> read[i].Got?
  }

  /** The call fails because it was not sent, a frame could not be read, or the stream was closed. */
  ghost predicate Unanswered(e: Exchange) {
    && (forall i :: 0 <= i < |e.read| ==> !RespondsTo(e.read[i], e.id))
    && if !e.sent then e.read == [] && !e.closed && e.reply == Err("sending the callback")
       else if e.closed then AllGot(e.read) && e.reply == Err("the application closed the channel")
       else
         && BadLast(e.read) && AllGot(e.read[..|e.read| - 1])
         && e.reply == Err("awaiting the callback reply")
  }

  /** The reply is that of the first response to the call. */
  ghost predicate Replied(e: Exchange) {
    e.sent && !e.closed && RepliedBy(e.id, e.read, e.reply) && AllGot(e.read)
  }

  /** The reply is that of the first response to the call, or there was none. */
  ghost predicate Fair(e: Exchange) {
    Replied(e) || Unanswered(e)
  }

  /** Every frame read is a message, and none of them answers the call. */
  ghost predicate Awaiting(read: seq<Arrival>, id: int) {
    AllGot(read) && forall i :: 0 <= i < |read| ==> !RespondsTo(read[i], id)
  }

  lemma AwaitingOn(call: CallbackCall, read: seq<Arrival>, id: int, next: Arrival)
    requires Awaiting(read, id)
    ensures Fair(Exchange(call, id, true, read, Err("the application closed the channel"), true))
    ensures next.Bad? ==> Fair(Exchange(call, id, true, read + [next], Err("awaiting the callback reply"), false))
    ensures RespondsTo(next, id) ==>
      Fair(Exchange(call, id, true, read + [next], ReplyIn(next.message.response), false))
    ensures next.Got? && !RespondsTo(next, id) ==> Awaiting(read + [next], id)
  {
    assert (read + [next])[..|read|] == read;
  }

  lemma Unsent(call: CallbackCall, id: int)
    ensures Fair(Exchange(call, id, false, [], Err("sending the callback"), false)) && Awaiting([], id)
  {
  }

  /** The callback as it is sent. */
  function CallbackRequest(id: int, call: CallbackCall): Request {
    Request(NumberId(id), CAPABILITY_PREFIX + call.capability, Some(CallToJson(call)))
  }

  /** A callback is numbered, named for its capability, and carries the whole call, so that it can be read back. */
  lemma CallReadsBack(id: int, call: CallbackCall)
    ensures CallbackRequest(id, call).id == NumberId(id)
    ensures CallbackRequest(id, call).method_ == "capability/" + call.capability
    ensures CallbackRequest(id, call).params == Some(JObject(map["plugin" := JString(call.plugin),
                "capability" := JString(call.capability), "grant" := call.grant, "args" := JArray(call.args)]))
    ensures CallFromJson(CallbackRequest(id, call).params.value) == Some(call)
  {
  }

  /** A turn's callbacks, one exchange each, in the order its handler asked for them. */
  ghost predicate Exchanged(handler: Handler, history: seq<Turn>, turn: Turn, log: seq<Exchange>) {
    && |log| == |turn.replies|
    && forall k :: 0 <= k < |log| ==>
        ExchangedAt(handler.step(history, turn.request, turn.replies[..k]), turn.replies[k], log[k])
  }

  ghost predicate ExchangedAt(step: Step, reply: Reply, e: Exchange) {
    step == Call(e.call) && e.reply == reply && Fair(e)
  }

  lemma ExchangedMore(handler: Handler, history: seq<Turn>, request: Request, got: seq<Reply>, log: seq<Exchange>,
                      e: Exchange)
    requires Exchanged(handler, history, Turn(request, got), log) &&
      ExchangedAt(handler.step(history, request, got), e.reply, e)
    ensures Exchanged(handler, history, Turn(request, got + [e.reply]), log + [e])
  {
    hide ExchangedAt;
    var more, logs := got + [e.reply], log + [e];
    forall k | 0 <= k < |logs| ensures ExchangedAt(handler.step(history, request, more[..k]), more[k], logs[k]) {
      if k < |log| {
        assert more[..k] == got[..k];
        assert ExchangedAt(handler.step(history, request, got[..k]), got[k], log[k]);
      } else {
        assert more[..k] == got;
      }
    }
  }

  lemma ExchangedAnswers(handler: Handler, history: seq<Turn>, turn: Turn, log: seq<Exchange>)
    requires Exchanged(handler, history, turn, log) && handler.step(history, turn.request, turn.replies).Done?
    ensures handler.Answers(history, turn)
  {
    forall k | 0 <= k < |turn.replies| ensures handler.step(history, turn.request, turn.replies[..k]).Call? {
      assert ExchangedAt(handler.step(history, turn.request, turn.replies[..k]), turn.replies[k], log[k]);
    }
  }

  /** Everything read in the course of some exchanges. */
  ghost function ReadBy(log: seq<Exchange>): seq<Arrival> {
    if log == [] then [] else ReadBy(log[..|log| - 1]) + log[|log| - 1].read
  }

  lemma ReadByMore(consumed: seq<Arrival>, log: seq<Exchange>, e: Exchange)
    ensures consumed + ReadBy(log + [e]) == (consumed + ReadBy(log)) + e.read
  {
    assert (log + [e])[..|log|] == log;
  }

  /** The callbacks of some exchanges, as they are sent. */
  ghost function CallsOf(log: seq<Exchange>): (calls: seq<Incoming>)
    ensures |calls| == |log|
  {
    seq(|log|, k requires 0 <= k < |log| => RequestIn(CallbackRequest(log[k].id, log[k].call)))
  }

  /**
   * The exchanges of one turn, with the attempts and ids they used up, begun after `from` was
   * read of the whole stream.
   */
  ghost predicate Dialogue(handler: Handler, history: seq<Turn>, turn: Turn, log: seq<Exchange>, pipe: Pipe, tries: nat,
                           id: int, from: seq<Arrival>, stream: seq<Arrival>)
  {
    && Exchanged(handler, history, turn, log)
    && forall k :: 0 <= k < |log| ==> InTurn(log, k, pipe, tries, id, from, stream)
  }

  ghost predicate InTurn(log: seq<Exchange>, k: nat, pipe: Pipe, tries: nat, id: int, from: seq<Arrival>,
                         stream: seq<Arrival>)
    requires k < |log|
  {
    && log[k].sent == pipe(tries + k) && log[k].id == Saturating(id + k)
    && (log[k].closed ==> from + ReadBy(log[..k + 1]) == stream)
  }

  lemma DialogueMore(handler: Handler, history: seq<Turn>, request: Request, got: seq<Reply>, log: seq<Exchange>,
                     pipe: Pipe, tries: nat, id: int, from: seq<Arrival>, stream: seq<Arrival>, e: Exchange)
    requires Dialogue(handler, history, Turn(request, got), log, pipe, tries, id, from, stream)
    requires ExchangedAt(handler.step(history, request, got), e.reply, e)
    requires e.sent == pipe(tries + |log|) && e.id == Saturating(id + |log|)
    requires e.closed ==> from + ReadBy(log) + e.read == stream
    ensures Dialogue(handler, history, Turn(request, got + [e.reply]), log + [e], pipe, tries, id, from, stream)
  {
    hide Exchanged, ExchangedAt, InTurn, ReadBy;
    ExchangedMore(handler, history, request, got, log, e);
    InTurnLast(log, pipe, tries, id, from, stream, e);
    forall k | 0 <= k < |log + [e]| ensures InTurn(log + [e], k, pipe, tries, id, from, stream) {
      if k < |log| {
        InTurnStill(log, k, pipe, tries, id, from, stream, e);
      }
    }
  }

  lemma InTurnStill(log: seq<Exchange>, k: nat, pipe: Pipe, tries: nat, id: int, from: seq<Arrival>,
                    stream: seq<Arrival>, e: Exchange)
    requires k < |log| && InTurn(log, k, pipe, tries, id, from, stream)
    ensures InTurn(log + [e], k, pipe, tries, id, from, stream)
  {
    hide ReadBy;
    assert (log + [e])[..k + 1] == log[..k + 1];
  }

  lemma InTurnLast(log: seq<Exchange>, pipe: Pipe, tries: nat, id: int, from: seq<Arrival>, stream: seq<Arrival>,
                   e: Exchange)
    requires e.sent == pipe(tries + |log|) && e.id == Saturating(id + |log|)
    requires e.closed ==> from + ReadBy(log) + e.read == stream
    ensures InTurn(log + [e], |log|, pipe, tries, id, from, stream)
  {
    ReadByMore(from, log, e);
    hide ReadBy;
    assert (log + [e])[..|log| + 1] == log + [e];
  }

  lemma CallsMore(pipe: Pipe, tries: nat, log: seq<Exchange>, e: Exchange)
    ensures Written(pipe, tries, CallsOf(log + [e])) == Written(pipe, tries, CallsOf(log)) +
      if pipe(tries + |log|) then [RequestIn(CallbackRequest(e.id, e.call))] else []
    ensures CallsOf([]) == [] && Written(pipe, tries, []) == []
  {
    assert CallsOf(log + [e]) == CallsOf(log) + [RequestIn(CallbackRequest(e.id, e.call))];
    WrittenMore(pipe, tries, CallsOf(log), RequestIn(CallbackRequest(e.id, e.call)));
  }

  lemma {:induction false} RequestsOfConcat(a: seq<Arrival>, b: seq<Arrival>)
    ensures RequestsOf(a + b) == RequestsOf(a) + RequestsOf(b)
  {
    if b == [] {
      assert a + b == a;
    } else {
      var last := |b| - 1;
      assert a + b == (a + b[..last]) + [b[last]] && b == b[..last] + [b[last]];
      RequestsOfConcat(a, b[..last]);
      RequestsOfNext(a + b[..last], b[last]);
      RequestsOfNext(b[..last], b[last]);
    }
  }

  // ---------------------------------------------------------------- what a whole session comes to

  /** Where a channel stands: turns served, attempts made, the next id, what was read, what was sent. */
  datatype Mark = Mark(
    history: seq<Turn>, tries: nat, nextCallback: int, consumed: seq<Arrival>, sent: seq<Incoming>)

  /** One request served: what was read before it came up, its turn, its callbacks, and the response. */
  datatype Episode = Episode(idle: seq<Arrival>, turn: Turn, log: seq<Exchange>, response: Response)

  /** After these exchanges in the course of a turn. */
  ghost function During(pipe: Pipe, m: Mark, log: seq<Exchange>): Mark {
    Mark(m.history, m.tries + |log|, Saturating(m.nextCallback + |log|), m.consumed + ReadBy(log),
      m.sent + Written(pipe, m.tries, CallsOf(log)))
  }

  /** After a turn, whether its response could be sent or not. */
  ghost function Ending(pipe: Pipe, m: Mark, turn: Turn, response: Response): Mark {
    m.(history := m.history + [turn], tries := m.tries + 1,
       sent := if pipe(m.tries) then m.sent + [ResponseIn(response)] else m.sent)
  }

  ghost function After(pipe: Pipe, m: Mark, episode: Episode): Mark {
    var begun := m.(consumed := m.consumed + episode.idle);
    Ending(pipe, During(pipe, begun, episode.log), episode.turn, episode.response)
  }

  ghost function MarkAfter(pipe: Pipe, first: Mark, episodes: seq<Episode>): Mark {
    if episodes == [] then first
    else After(pipe, MarkAfter(pipe, first, episodes[..|episodes| - 1]), episodes[|episodes| - 1])
  }

  /** Nothing but stray responses, up to the last frame. */
  ghost predicate Strays(idle: seq<Arrival>) {
    forall i :: 0 <= i < |idle| - 1 ==> idle[i].Got? && idle[i].message.ResponseIn?
  }

  /** The requests read and not yet answered, in order. */
  ghost function Pending(m: Mark): seq<Request> {
    var arrived := RequestsOf(m.consumed);
    if |m.history| <= |arrived| then arrived[|m.history|..] else []
  }

  /** The next request: the one that has waited longest, or the first to arrive after stray responses. */
  ghost predicate Taken(m: Mark, idle: seq<Arrival>, request: Request) {
    && Strays(idle)
    && if Pending(m) != [] then idle == [] && request == Pending(m)[0]
       else idle != [] && idle[|idle| - 1] == Got(RequestIn(request))
  }

  /** A turn in the middle: from the mark `m`, with the requests met meanwhile queued in order. */
  ghost predicate Handling(handler: Handler, pipe: Pipe, stream: seq<Arrival>, m: Mark, before: seq<Request>,
                           turn: Turn, log: seq<Exchange>, now: Mark, queued: seq<Request>)
  {
    && now == During(pipe, m, log) && queued == before + RequestsOf(ReadBy(log)) && |turn.replies| == |log|
    && ResponsesIn(now.sent) == ResponsesIn(m.sent)
    && Dialogue(handler, m.history, turn, log, pipe, m.tries, m.nextCallback, m.consumed, stream)
  }

  /** One callback made from here: sent or not, read for, and numbered. */
  ghost predicate Calls(pipe: Pipe, now: Mark, e: Exchange, then_: Mark) {
    && e.sent == pipe(now.tries) && e.id == now.nextCallback
    && then_ == Mark(now.history, now.tries + 1, Saturating(now.nextCallback + 1), now.consumed + e.read,
         now.sent + if e.sent then [RequestIn(CallbackRequest(e.id, e.call))] else [])
  }

  lemma HandlingStarts(handler: Handler, pipe: Pipe, stream: seq<Arrival>, m: Mark, before: seq<Request>,
                       request: Request)
    requires m.nextCallback <= U64_MAX
    ensures Handling(handler, pipe, stream, m, before, Turn(request, []), [], m, before)
  {
    assert CallsOf([]) == [];
  }

  lemma HandledAnswers(handler: Handler, pipe: Pipe, stream: seq<Arrival>, m: Mark, before: seq<Request>, turn: Turn,
                       log: seq<Exchange>, now: Mark, queued: seq<Request>)
    requires Handling(handler, pipe, stream, m, before, turn, log, now, queued)
    requires handler.step(m.history, turn.request, turn.replies).Done?
    ensures handler.Answers(m.history, turn)
  {
    ExchangedAnswers(handler, m.history, turn, log);
  }

  lemma HandlingOn(handler: Handler, pipe: Pipe, stream: seq<Arrival>, m: Mark, before: seq<Request>, request: Request,
                   got: seq<Reply>, log: seq<Exchange>, now: Mark, queued: seq<Request>, e: Exchange, then_: Mark)
    requires Handling(handler, pipe, stream, m, before, Turn(request, got), log, now, queued)
    requires Calls(pipe, now, e, then_) && ExchangedAt(handler.step(m.history, request, got), e.reply, e)
    requires e.closed ==> then_.consumed == stream
    ensures Handling(handler, pipe, stream, m, before, Turn(request, got + [e.reply]), log + [e], then_,
              queued + RequestsOf(e.read))
  {
    hide Dialogue, ExchangedAt, Written, CallsOf, ReadBy, RequestsOf, ResponsesIn;
    DialogueMore(handler, m.history, request, got, log, pipe, m.tries, m.nextCallback, m.consumed, stream, e);
    hide During, Calls;
    DuringOn(pipe, m, log, now, e, then_);
    QueuedOn(log, e);
    var met, more := RequestsOf(ReadBy(log)), RequestsOf(e.read);
    assert (before + met) + more == before + (met + more);
  }

  lemma QueuedOn(log: seq<Exchange>, e: Exchange)
    ensures RequestsOf(ReadBy(log + [e])) == RequestsOf(ReadBy(log)) + RequestsOf(e.read)
  {
    assert (log + [e])[..|log|] == log;
    RequestsOfConcat(ReadBy(log), e.read);
  }

  lemma DuringOn(pipe: Pipe, m: Mark, log: seq<Exchange>, now: Mark, e: Exchange, then_: Mark)
    requires now == During(pipe, m, log) && Calls(pipe, now, e, then_)
    ensures then_ == During(pipe, m, log + [e]) && ResponsesIn(then_.sent) == ResponsesIn(now.sent)
  {
    var calls, call := Written(pipe, m.tries, CallsOf(log)), RequestIn(CallbackRequest(e.id, e.call));
    ReadByMore(m.consumed, log, e);
    CallsMore(pipe, m.tries, log, e);
    SentOneMore(now.sent, call);
    hide Written, CallsOf, ReadBy, ResponsesIn, CallbackRequest, CallbacksIn;
    AddMaybe(m.sent, calls, if e.sent then [call] else []);
    if !e.sent {
      assert then_.sent == now.sent;
    }
  }

  lemma AddMaybe<T>(a: seq<T>, b: seq<T>, c: seq<T>)
    ensures (a + b) + c == a + (b + c) && a + [] == a
  {
  }

  /** From this mark the episode took its course: callbacks and replies as its handler asked, and its answer. */
  ghost predicate Proper(handler: Handler, pipe: Pipe, stream: seq<Arrival>, m: Mark, episode: Episode) {
    && Taken(m, episode.idle, episode.turn.request) && handler.Answers(m.history, episode.turn)
    && episode.response == handler.Answer(m.history, episode.turn)
    && Dialogue(handler, m.history, episode.turn, episode.log, pipe, m.tries, m.nextCallback,
         m.consumed + episode.idle, stream)
  }

  ghost predicate AllProper(handler: Handler, pipe: Pipe, stream: seq<Arrival>, first: Mark, episodes: seq<Episode>) {
    forall i :: 0 <= i < |episodes| ==>
      Proper(handler, pipe, stream, MarkAfter(pipe, first, episodes[..i]), episodes[i])
  }

  lemma EpisodeOn(handler: Handler, pipe: Pipe, stream: seq<Arrival>, first: Mark, episodes: seq<Episode>,
                  episode: Episode)
    requires AllProper(handler, pipe, stream, first, episodes)
    requires Proper(handler, pipe, stream, MarkAfter(pipe, first, episodes), episode)
    ensures AllProper(handler, pipe, stream, first, episodes + [episode])
    ensures MarkAfter(pipe, first, episodes + [episode]) == After(pipe, MarkAfter(pipe, first, episodes), episode)
  {
    hide Proper, After;
    var more := episodes + [episode];
    assert more[..|episodes|] == episodes;
    forall i | 0 <= i < |more| ensures Proper(handler, pipe, stream, MarkAfter(pipe, first, more[..i]), more[i]) {
      if i < |episodes| {
        assert more[..i] == episodes[..i];
      }
    }
  }

  /** How serving ended: everything up to the mark, then `tail`, read in vain for another request. */
  ghost predicate Ends(outcome: ServeOutcome, pipe: Pipe, mark: Mark, tail: seq<Arrival>, now: Mark) {
    && Strays(tail) && now.tries == mark.tries && now.nextCallback == mark.nextCallback && now.sent == mark.sent
    && now.consumed == mark.consumed + tail
    && match outcome
       case WriteFailed =>
         tail == [] && now.tries > 0 && !pipe(now.tries - 1) &&
         mark.history != [] && now.history == mark.history[..|mark.history| - 1]
       case Stopped => tail == [] && now.history == mark.history
       case ReadFailed => BadLast(tail) && now.history == mark.history
       case StreamEnded => AllGot(tail) && now.history == mark.history
  }

  predicate RespondsTo(arrival: Arrival, id: int) {
    arrival.Got? && arrival.message.ResponseIn? && arrival.message.response.id == NumberId(id)
  }

  datatype NextOutcome = Serving(request: Request) | EndOfStream | ReadError

  datatype ServeOutcome = Stopped | StreamEnded | ReadFailed | WriteFailed

  /** Reads one of the peer's frames at a time, and writes through its own pipe. */
  class HostChannel {
    const pipe: Pipe
    var inbound: seq<Arrival>
    var queued: seq<Request>
    var nextCallback: int
    var sent: seq<Incoming>
    var tries: nat
    var history: seq<Turn>
    ghost var consumed: seq<Arrival>
    ghost var current: seq<Request>

    ghost predicate Valid()
      reads this
    {
      && InOrder(consumed, RequestsServed(history), current, queued)
      && Numbered(CallbacksIn(sent), nextCallback)
    }

    /** Everything the peer ever sends. */
    ghost function Stream(): seq<Arrival>
      reads this
    {
      consumed + inbound
    }

    /** Where the channel stands now. */
    ghost function Now(): Mark
      reads this
    {
      Mark(history, tries, nextCallback, consumed, sent)
    }

    constructor (inbound: seq<Arrival>, pipe: Pipe)
      ensures Valid() && this.inbound == inbound && this.pipe == pipe && tries == 0 && nextCallback == 1
      ensures queued == [] && sent == [] && consumed == [] && history == [] && current == []
    {
      this.inbound, this.pipe, tries, nextCallback, queued, sent := inbound, pipe, 0, 1, [], [];
      consumed, history, current := [], [], [];
      new;
      assert RequestsOf([]) == [];
    }

    /** The next frame; `None` at the end of the stream. */
    method ReadFrame() returns (r: Option<Arrival>)
      modifies this`inbound, this`consumed
      ensures r.None? <==> old(inbound) == []
      ensures r.None? ==> inbound == old(inbound) && consumed == old(consumed)
      ensures r.Some? ==> old(inbound) == [r.value] + inbound && consumed == old(consumed) + [r.value]
    {
      if inbound == [] {
        r := None;
      } else {
        r := Some(inbound[0]);
        consumed := consumed + [inbound[0]];
        inbound := inbound[1..];
      }
    }

    method Write(m: Incoming) returns (ok: bool)
      modifies this`sent, this`tries
      ensures ok == pipe(old(tries)) && tries == old(tries) + 1
      ensures sent == if ok then old(sent) + [m] else old(sent)
    {
      ok := pipe(tries);
      tries := tries + 1;
      if ok {
        sent := sent + [m];
      }
    }

    /** The next request to serve: a queued one first, then whatever arrives. */
    method NextRequest() returns (r: NextOutcome, ghost idle: seq<Arrival>)
      requires Valid() && current == []
      modifies this`inbound, this`consumed, this`queued, this`current
      ensures Valid() && Stream() == old(Stream()) && consumed == old(consumed) + idle && Strays(idle)
      ensures r.Serving? ==> Taken(old(Now()), idle, r.request)
      ensures r.Serving? ==> current == [r.request] && |queued| + |inbound| < |old(queued)| + |old(inbound)|
      ensures !r.Serving? ==> current == [] && queued == []
      ensures r.EndOfStream? ==> inbound == [] && AllGot(idle)
      ensures r.ReadError? ==> BadLast(idle)
    {
      idle := [];
      QueuedIsPending(Now(), queued);
      if queued != [] {
        r := Serving(queued[0]);
        QueuedNext(consumed, RequestsServed(history), queued);
        current, queued := [queued[0]], queued[1..];
        return;
      }
      while true
        invariant Valid() && current == [] && queued == [] && Stream() == old(Stream()) && |inbound| <= |old(inbound)|
        invariant consumed == old(consumed) + idle
        invariant forall i :: 0 <= i < |idle| ==> idle[i].Got? && idle[i].message.ResponseIn?
        decreases |inbound|
      {
        ghost var before, first := consumed, Stream();
        var arrival := ReadFrame();
        if arrival.None? {
          return EndOfStream, idle;
        }
        idle := idle + [arrival.value];
        assert Stream() == first;
        RequestsOfNext(before, arrival.value);
        if arrival.value.Bad? {
          return ReadError, idle;
        }
        if arrival.value.message.RequestIn? {
          current := [arrival.value.message.request];
          ArrivedNext(before, RequestsServed(history), arrival.value);
          return Serving(arrival.value.message.request), idle;
        }
        // A reply with nothing waiting for it is no reason to stop serving.
      }
    }

    /**
     * Calls back into the application and waits for its answer, queueing what else it asks
     * meanwhile. The reply is that of the first response to carry this call's id; the call fails
     * only when it cannot be sent, the stream ends, or a frame cannot be read.
     */
    method CallApplication(call: CallbackCall) returns (r: Reply, ghost e: Exchange)
      requires Valid()
      modifies this`inbound, this`consumed, this`queued, this`sent, this`tries, this`nextCallback
      ensures Valid() && Stream() == old(Stream()) && e.call == call && e.reply == r
      ensures queued == old(queued) + RequestsOf(e.read) && |queued| + |inbound| <= |old(queued)| + |old(inbound)|
      ensures Calls(pipe, old(Now()), e, Now()) && Fair(e) && (e.closed ==> inbound == [])
    {
      hide InOrder, ReplyIn, RequestsOf, Fair, Awaiting, Numbered, CallbacksIn, CallbackRequest, Saturating;
      var id := nextCallback;
      CalledOnce(CallbacksIn(sent), nextCallback, sent, call);
      NothingRequested();
      nextCallback := Saturating(nextCallback + 1);
      var ok := Write(RequestIn(CallbackRequest(id, call)));
      Unsent(call, id);
      if !ok {
        r := Err("sending the callback");
        return r, Exchange(call, id, false, [], r, false);
      }
      ghost var stream, out, read, tried := Stream(), sent, [], tries;
      while true
        invariant Valid() && Stream() == stream && sent == out && tries == tried
        invariant nextCallback == Saturating(id + 1)
        invariant consumed == old(consumed) + read && queued == old(queued) + RequestsOf(read)
        invariant Awaiting(read, id) && |queued| + |inbound| <= |old(queued)| + |old(inbound)|
        decreases |inbound|
      {
        ghost var before, was := consumed, read;
        var arrival := ReadFrame();
        if arrival.None? {
          r := Err("the application closed the channel");
          AwaitingOn(call, was, id, Bad);
          return r, Exchange(call, id, true, read, r, true);
        }
        AwaitingOn(call, was, id, arrival.value);
        RequestsOfNext(was, arrival.value);
        InOrderQueues(before, RequestsServed(history), current, queued, arrival.value);
        read := was + [arrival.value];
        assert Stream() == stream;
        if arrival.value.Bad? {
          r := Err("awaiting the callback reply");
          return r, Exchange(call, id, true, read, r, false);
        }
        match arrival.value.message {
          case ResponseIn(response) =>
            if response.id == NumberId(id) {
              r := ReplyIn(response);
              return r, Exchange(call, id, true, read, r, false);
            }
          case RequestIn(request) =>
            queued := queued + [request];
        }
      }
    }

    /** Answers the request in progress: as many callbacks as it takes, then the answer. */
    method Handle(handler: Handler, request: Request) returns (turn: Turn, ghost log: seq<Exchange>)
      requires Valid() && handler.Terminates()
      modifies this`inbound, this`consumed, this`queued, this`sent, this`tries, this`nextCallback
      ensures Valid() && Stream() == old(Stream()) && |queued| + |inbound| <= |old(queued)| + |old(inbound)|
      ensures turn.request == request && handler.Answers(history, turn)
      ensures Handling(handler, pipe, old(Stream()), old(Now()), old(queued), turn, log, Now(), queued)
    {
      hide InOrder, CallbacksIn, Handling, Fair, Handler.Answers;
      var got: seq<Reply> := [];
      log := [];
      var step := handler.step(history, request, got);
      HandlingStarts(handler, pipe, Stream(), Now(), queued, request);
      while step.Call?
        invariant Valid() && Stream() == old(Stream()) && |queued| + |inbound| <= |old(queued)| + |old(inbound)|
        invariant step == handler.step(history, request, got)
        invariant Handling(handler, pipe, old(Stream()), old(Now()), old(queued), Turn(request, got), log, Now(),
          queued)
        decreases handler.bound(history, request) - |got|
      {
        hide Numbered, Calls;
        ghost var now, waiting := Now(), queued;
        var reply, e := CallApplication(step.call);
        HandlingOn(handler, pipe, old(Stream()), old(Now()), old(queued), request, got, log, now, waiting, e, Now());
        log, got := log + [e], got + [reply];
        step := handler.step(history, request, got);
      }
      turn := Turn(request, got);
      HandledAnswers(handler, pipe, Stream(), old(Now()), old(queued), turn, log, Now(), queued);
    }

    /** Answers one request and notes the turn, unless the response cannot be sent. */
    method Respond(handler: Handler, request: Request, ghost idle: seq<Arrival>, ghost m: Mark)
      returns (ok: bool, ghost episode: Episode)
      requires Valid() && handler.Terminates() && current == [request] && Taken(m, idle, request)
      requires Answered(handler, history, ResponsesIn(sent)) && NoShutdown(RequestsServed(history))
      requires Now() == m.(consumed := m.consumed + idle)
      modifies this
      ensures Valid() && Stream() == old(Stream()) && |queued| + |inbound| <= |old(queued)| + |old(inbound)|
      ensures Answered(handler, history, ResponsesIn(sent)) && Proper(handler, pipe, old(Stream()), m, episode)
      ensures ok ==> current == [] && Now() == After(pipe, m, episode)
      ensures !ok ==>
        tries > 0 && !pipe(tries - 1) && Now() == After(pipe, m, episode).(history := m.history)
      ensures if ok && request.method_ == SHUTDOWN then UpToShutdown(RequestsServed(history))
              else NoShutdown(RequestsServed(history))
    {
      hide InOrder, Numbered, Answered, Handler.Terminates, RequestsOf, ResponsesIn, CallbacksIn;
      hide NoShutdown, UpToShutdown, ReadBy, Written, CallsOf, Taken, Handling, Proper;
      ghost var start, waiting := Now(), queued;
      var turn, log := Handle(handler, request);
      var response := handler.Answer(history, turn);
      episode := Episode(idle, turn, log, response);
      HandledIsProper(handler, pipe, Stream(), m, start, waiting, episode, Now(), queued);
      AnsweredMore(handler, history, ResponsesIn(sent), turn);
      SentOneMore(sent, ResponseIn(response));
      NumberedStays(sent, ResponseIn(response), nextCallback);
      ShutdownNext(history, turn);
      FinishedInOrder(consumed, history, turn, queued);
      ok := Write(ResponseIn(response));
      if ok {
        history, current := history + [turn], [];
      }
    }

    /**
     * Serves requests until the client asks to stop, closes the stream, or it breaks. Whatever
     * arrives, requests are answered one by one in the order they came, each once, and each with
     * what its handler makes of the replies to its callbacks.
     */
    method Serve(handler: Handler)
      returns (outcome: ServeOutcome, ghost episodes: seq<Episode>, ghost tail: seq<Arrival>)
      requires Valid() && handler.Terminates() && current == []
      requires Answered(handler, history, ResponsesIn(sent)) && NoShutdown(RequestsServed(history))
      modifies this
      ensures Valid() && Stream() == old(Stream()) && Answered(handler, history, ResponsesIn(sent))
      ensures AllProper(handler, pipe, old(Stream()), old(Now()), episodes)
      ensures Ends(outcome, pipe, MarkAfter(pipe, old(Now()), episodes), tail, Now())
      ensures RequestsServed(history) + current + queued <= RequestsOf(old(Stream()))
      ensures outcome.StreamEnded? ==> RequestsServed(history) == RequestsOf(old(Stream()))
      ensures outcome.ReadFailed? ==> RequestsServed(history) == RequestsOf(consumed)
      ensures if outcome.Stopped? then UpToShutdown(RequestsServed(history)) else NoShutdown(RequestsServed(history))
    {
      ghost var stream, first := Stream(), Now();
      outcome, episodes, tail := StreamEnded, [], [];
      var going := true;
      EndsHere(pipe, Now());
      assert AllProper(handler, pipe, stream, first, episodes) && MarkAfter(pipe, first, episodes) == first;
      hide Numbered, Handler.Terminates, ResponsesIn, CallbacksIn, AllProper, MarkAfter, After, Ends, Proper, Answered;
      while going
        invariant Valid() && Stream() == stream && Answered(handler, history, ResponsesIn(sent))
        invariant AllProper(handler, pipe, stream, first, episodes)
        invariant Ends(outcome, pipe, MarkAfter(pipe, first, episodes), tail, Now())
        invariant going ==> current == [] && outcome.StreamEnded? && tail == []
        invariant if outcome.Stopped? then UpToShutdown(RequestsServed(history))
                  else NoShutdown(RequestsServed(history))
        invariant !going && (outcome.StreamEnded? || outcome.ReadFailed?) ==> current == [] && queued == []
        invariant !going && outcome.StreamEnded? ==> inbound == []
        decreases if going then |queued| + |inbound| + 1 else 0
      {
        hide InOrder, RequestsOf, NoShutdown, UpToShutdown, Strays, Taken, AllGot, BadLast;
        ghost var m, was := MarkAfter(pipe, first, episodes), Now();
        EndedHere(pipe, m, was);
        var next, idle := NextRequest();
        if next.Serving? {
          var request := next.request;
          var ok, episode := Respond(handler, request, idle, m);
          EpisodeOn(handler, pipe, stream, first, episodes, episode);
          episodes := episodes + [episode];
          EndsAfter(pipe, m, episode, Now());
          if !ok {
            outcome, going := WriteFailed, false;
          } else if request.method_ == SHUTDOWN {
            outcome, going := Stopped, false;
          }
        } else {
          tail := idle;
          EndsReading(pipe, was, idle, Now());
          outcome, going := if next.EndOfStream? then StreamEnded else ReadFailed, false;
        }
      }
      AnsweredInOrder(consumed, inbound, RequestsServed(history), current, queued);
      AllAnswered(consumed, RequestsServed(history));
    }
  }

  lemma HandledIsProper(handler: Handler, pipe: Pipe, stream: seq<Arrival>, m: Mark, start: Mark, before: seq<Request>,
                        episode: Episode, now: Mark, queued: seq<Request>)
    requires Taken(m, episode.idle, episode.turn.request) && start == m.(consumed := m.consumed + episode.idle)
    requires Handling(handler, pipe, stream, start, before, episode.turn, episode.log, now, queued)
    requires handler.Answers(m.history, episode.turn) && episode.response == handler.Answer(m.history, episode.turn)
    ensures Proper(handler, pipe, stream, m, episode)
    ensures After(pipe, m, episode) == Ending(pipe, now, episode.turn, episode.response)
    ensures now.history == m.history && ResponsesIn(now.sent) == ResponsesIn(m.sent)
  {
  }

  lemma NumberedStays(sent: seq<Incoming>, m: Incoming, next: int)
    requires Numbered(CallbacksIn(sent), next) && m.ResponseIn?
    ensures Numbered(CallbacksIn(sent + [m]), next)
  {
    SentOneMore(sent, m);
    assert CallbacksIn(sent) + [] == CallbacksIn(sent);
  }

  lemma AllAnswered(consumed: seq<Arrival>, served: seq<Request>)
    ensures InOrder(consumed, served, [], []) ==> served == RequestsOf(consumed)
  {
    assert served + [] + [] == served;
  }

  lemma QueuedIsPending(m: Mark, queued: seq<Request>)
    requires InOrder(m.consumed, RequestsServed(m.history), [], queued)
    ensures Pending(m) == queued
  {
    assert RequestsOf(m.consumed) == RequestsServed(m.history) + queued;
  }

  lemma NothingRequested()
    ensures RequestsOf([]) == []
  {
  }

  lemma EndsHere(pipe: Pipe, now: Mark)
    ensures Ends(StreamEnded, pipe, now, [], now) && Ends(Stopped, pipe, now, [], now)
  {
  }

  lemma EndedHere(pipe: Pipe, mark: Mark, now: Mark)
    requires Ends(StreamEnded, pipe, mark, [], now)
    ensures mark == now
  {
  }

  lemma EndsAfter(pipe: Pipe, m: Mark, episode: Episode, now: Mark)
    ensures now == After(pipe, m, episode) ==>
      Ends(StreamEnded, pipe, After(pipe, m, episode), [], now) && Ends(Stopped, pipe, After(pipe, m, episode), [], now)
    ensures now == After(pipe, m, episode).(history := m.history) && now.tries > 0 && !pipe(now.tries - 1) ==>
      Ends(WriteFailed, pipe, After(pipe, m, episode), [], now)
  {
    var after := After(pipe, m, episode);
    assert after.history[..|after.history| - 1] == m.history && after.consumed + [] == after.consumed;
  }

  lemma EndsReading(pipe: Pipe, mark: Mark, idle: seq<Arrival>, now: Mark)
    requires Strays(idle) && now == mark.(consumed := mark.consumed + idle)
    ensures AllGot(idle) ==> Ends(StreamEnded, pipe, mark, idle, now)
    ensures BadLast(idle) ==> Ends(ReadFailed, pipe, mark, idle, now)
  {
  }

  ghost predicate NoShutdown(served: seq<Request>) {
    forall i :: 0 <= i < |served| ==> served[i].method_ != "host/shutdown"
  }

  ghost predicate UpToShutdown(served: seq<Request>) {
    served != [] && served[|served| - 1].method_ == "host/shutdown" && NoShutdown(served[..|served| - 1])
  }

  lemma ShutdownNext(history: seq<Turn>, turn: Turn)
    requires NoShutdown(RequestsServed(history))
    ensures if turn.request.method_ == SHUTDOWN then UpToShutdown(RequestsServed(history + [turn]))
            else NoShutdown(RequestsServed(history + [turn]))
  {
    var served := RequestsServed(history + [turn]);
    assert served[..|history|] == RequestsServed(history);
    assert served == RequestsServed(history) + [turn.request];
  }

  ghost predicate BadLast(read: seq<Arrival>) {
    read != [] && read[|read| - 1] == Bad
  }

  /** What has been answered, is in progress, or is queued is just how the requests arrived. */
  lemma AnsweredInOrder(consumed: seq<Arrival>, inbound: seq<Arrival>, served: seq<Request>, current: seq<Request>,
                        queued: seq<Request>)
    requires InOrder(consumed, served, current, queued)
    ensures served + current + queued <= RequestsOf(consumed + inbound)
    ensures inbound == [] && current == [] && queued == [] ==> served == RequestsOf(consumed + inbound)
  {
    RequestsOfPrefix(consumed, inbound);
    if inbound == [] {
      assert consumed + inbound == consumed;
      if current == [] && queued == [] {
        assert served + [] + [] == served;
      }
    }
  }

  lemma QueuedNext(consumed: seq<Arrival>, served: seq<Request>, queued: seq<Request>)
    requires InOrder(consumed, served, [], queued) && queued != []
    ensures InOrder(consumed, served, [queued[0]], queued[1..])
  {
    assert served + [] + queued == served + [queued[0]] + queued[1..];
  }

  lemma ArrivedNext(consumed: seq<Arrival>, served: seq<Request>, next: Arrival)
    requires InOrder(consumed, served, [], []) && next.Got? && next.message.RequestIn?
    ensures InOrder(consumed + [next], served, [next.message.request], [])
  {
    RequestsOfNext(consumed, next);
    assert served + [] + [] + [next.message.request] == served + [next.message.request] + [];
  }

  lemma FinishedInOrder(consumed: seq<Arrival>, history: seq<Turn>, turn: Turn, queued: seq<Request>)
    requires InOrder(consumed, RequestsServed(history), [turn.request], queued)
    ensures InOrder(consumed, RequestsServed(history + [turn]), [], queued)
  {
    var served := RequestsServed(history);
    assert RequestsServed(history + [turn]) == served + [turn.request];
    assert (served + [turn.request]) + [] + queued == served + [turn.request] + queued;
  }
}
