/**
 * The protocol's steps are those of the two classes: what a channel does in serving, and what a
 * client does in a call, is a run of the steps of its end, as long as nothing breaks off.
 */
module Refinements {
  import opened Wrappers
  import opened Widths
  import opened Sequences
  import opened Messages
  import opened HostChannels
  import opened RemoteClients
  import opened Sessions

  /** Messages as framing leaves them. */
  ghost function Framed(messages: seq<Incoming>): (r: seq<Incoming>)
    ensures |r| == |messages|
  {
    seq(|messages|, i requires 0 <= i < |messages| => Normal(messages[i]))
  }

  lemma FramedMore(messages: seq<Incoming>, m: Incoming)
    ensures Framed(messages + [m]) == Framed(messages) + [Normal(m)] && Framed([]) == []
  {
  }

  // ---------------------------------------------------------------- runs of one end

  /** Some steps of one end, the other standing still. */
  ghost predicate Walks(next: State -> Option<State>, path: seq<State>, s: State, t: State) {
    && path != [] && path[0] == s && path[|path| - 1] == t
    && forall i :: 0 <= i < |path| - 1 ==> next(path[i]) == Some(path[i + 1])
  }

  ghost predicate Reaches(next: State -> Option<State>, s: State, t: State) {
    exists path :: Walks(next, path, s, t)
  }

  lemma ReachesSelf(next: State -> Option<State>, s: State)
    ensures Reaches(next, s, s)
  {
    assert Walks(next, [s], s, s);
  }

  lemma ReachesStep(next: State -> Option<State>, s: State, t: State)
    requires next(s) == Some(t)
    ensures Reaches(next, s, t)
  {
    assert Walks(next, [s, t], s, t);
  }

  lemma ReachesOn(next: State -> Option<State>, s: State, t: State, u: State)
    requires Reaches(next, s, t) && Reaches(next, t, u)
    ensures Reaches(next, s, u)
  {
    var p :| Walks(next, p, s, t);
    var q :| Walks(next, q, t, u);
    var path := p + q[1..];
    forall i | 0 <= i < |path| - 1 ensures next(path[i]) == Some(path[i + 1]) {
      if i < |p| - 1 {
        assert next(p[i]) == Some(p[i + 1]);
      } else {
        assert path[i] == q[i - (|p| - 1)] && path[i + 1] == q[i - (|p| - 1) + 1];
        assert next(q[i - (|p| - 1)]) == Some(q[i - (|p| - 1) + 1]);
      }
    }
    assert Walks(next, path, s, u);
  }

  ghost function HostEnd(sys: System): State -> Option<State> {
    s => HostNext(sys, s)
  }

  ghost function ClientEnd(sys: System): State -> Option<State> {
    s => ClientNext(sys, s)
  }

  // ---------------------------------------------------------------- the host

  ghost function Carried(read: seq<Arrival>): (r: seq<Incoming>)
    requires AllGot(read)
    ensures |r| == |read|
  {
    seq(|read|, i requires 0 <= i < |read| => read[i].message)
  }

  /** Waiting for a reply, the host queues what requests it meets and skips other responses. */
  lemma {:induction false} AwaitingWalks(sys: System, s: State, read: seq<Arrival>, rest: seq<Incoming>)
    requires s.host.Blocked? && Awaiting(read, s.host.callback) && s.toHost == Carried(read) + rest
    ensures Reaches(HostEnd(sys), s, s.(toHost := rest, queued := s.queued + RequestsOf(read)))
    decreases |read|
  {
    if read == [] {
      assert s.toHost == rest && s.queued + RequestsOf(read) == s.queued;
      ReachesSelf(HostEnd(sys), s);
    } else {
      var tail := read[1..];
      assert read == [read[0]] + tail && s.toHost[0] == read[0].message && s.toHost[1..] == Carried(tail) + rest;
      RequestsOfConcat([read[0]], tail);
      assert [read[0]] == [] + [read[0]];
      RequestsOfNext([], read[0]);
      NothingRequested();
      var t := HostNext(sys, s).value;
      assert s.queued + RequestsOf(read) == t.queued + RequestsOf(tail);
      AwaitingWalks(sys, t, tail, rest);
      ReachesStep(HostEnd(sys), s, t);
      ReachesOn(HostEnd(sys), s, t, s.(toHost := rest, queued := s.queued + RequestsOf(read)));
    }
  }

  /** Where a host stands that serves `turn`, after these exchanges since `s`. */
  ghost function Serving(s: State, turn: Turn, log: seq<Exchange>, rest: seq<Incoming>): State {
    s.(toHost := rest, host := Working(turn.request, turn.replies), queued := s.queued + RequestsOf(ReadBy(log)),
       nextCallback := Saturating(s.nextCallback + |log|), toClient := s.toClient + Framed(CallsOf(log)))
  }

  /** One exchange, from the call to its reply. */
  lemma ExchangeWalks(sys: System, s: State, e: Exchange, rest: seq<Incoming>)
    requires s.host.Working? && sys.handler.step(s.history, s.host.request, s.host.replies) == Call(e.call)
    requires e.id == s.nextCallback && Replied(e) && s.toHost == Carried(e.read) + rest
    ensures Reaches(HostEnd(sys), s,
              s.(toHost := rest, host := Working(s.host.request, s.host.replies + [e.reply]),
                 queued := s.queued + RequestsOf(e.read), nextCallback := Saturating(s.nextCallback + 1),
                 toClient := s.toClient + [Normal(RequestIn(CallbackRequest(e.id, e.call)))]))
  {
    var last := |e.read| - 1;
    var waited, reply := e.read[..last], e.read[last];
    assert e.read == waited + [reply] && Carried(e.read) == Carried(waited) + [reply.message];
    RequestsOfNext(waited, reply);
    assert RequestsOf(e.read) == RequestsOf(waited);
    var called := HostNext(sys, s).value;
    ReachesStep(HostEnd(sys), s, called);
    assert called.toHost == Carried(waited) + ([reply.message] + rest);
    AwaitingWalks(sys, called, waited, [reply.message] + rest);
    var met := called.(toHost := [reply.message] + rest, queued := s.queued + RequestsOf(waited));
    ReachesOn(HostEnd(sys), s, called, met);
    assert met.toHost[1..] == rest;
    var replied := HostNext(sys, met).value;
    ReachesStep(HostEnd(sys), met, replied);
    ReachesOn(HostEnd(sys), s, met, replied);
  }

  ghost predicate AllReplied(log: seq<Exchange>) {
    forall k :: 0 <= k < |log| ==> Replied(log[k])
  }

  lemma {:induction false} AllGotBy(log: seq<Exchange>)
    requires AllReplied(log)
    ensures AllGot(ReadBy(log))
  {
    if log != [] {
      AllGotBy(log[..|log| - 1]);
    }
  }

  /** Every callback of a turn, one exchange after another. */
  lemma {:induction false} TurnWalks(sys: System, s: State, turn: Turn, log: seq<Exchange>, rest: seq<Incoming>)
    requires s.host == Working(turn.request, []) && Exchanged(sys.handler, s.history, turn, log) && AllReplied(log)
    requires forall k :: 0 <= k < |log| ==> log[k].id == Saturating(s.nextCallback + k)
    requires 1 <= s.nextCallback <= U64_MAX && AllGot(ReadBy(log)) && s.toHost == Carried(ReadBy(log)) + rest
    ensures Reaches(HostEnd(sys), s, Serving(s, turn, log, rest))
    decreases |log|
  {
    if log == [] {
      assert turn.replies == [] && CallsOf(log) == [] && s.toHost == rest;
      assert s.queued + [] == s.queued && s.toClient + [] == s.toClient;
      ReachesSelf(HostEnd(sys), s);
    } else {
      var last := |log| - 1;
      var before, e := log[..last], log[last];
      var turn' := Turn(turn.request, turn.replies[..last]);
      AllGotBy(before);
      assert Carried(ReadBy(log)) == Carried(ReadBy(before)) + Carried(e.read);
      assert s.toHost == Carried(ReadBy(before)) + (Carried(e.read) + rest);
      ExchangedBefore(sys.handler, s.history, turn, log);
      TurnWalks(sys, s, turn', before, Carried(e.read) + rest);
      var t := Serving(s, turn', before, Carried(e.read) + rest);
      ExchangeWalks(sys, t, e, rest);
      ServingMore(s, turn, log, rest);
      ReachesOn(HostEnd(sys), s, t, Serving(s, turn, log, rest));
    }
  }

  lemma ExchangedBefore(handler: Handler, history: seq<Turn>, turn: Turn, log: seq<Exchange>)
    requires Exchanged(handler, history, turn, log) && log != []
    ensures var last := |log| - 1;
      && Exchanged(handler, history, Turn(turn.request, turn.replies[..last]), log[..last])
      && handler.step(history, turn.request, turn.replies[..last]) == Call(log[last].call)
      && log[last].reply == turn.replies[last]
  {
    var last := |log| - 1;
    var turn' := Turn(turn.request, turn.replies[..last]);
    forall k | 0 <= k < last
      ensures ExchangedAt(handler.step(history, turn.request, turn'.replies[..k]), turn'.replies[k], log[..last][k])
    {
      assert turn'.replies[..k] == turn.replies[..k];
      assert ExchangedAt(handler.step(history, turn.request, turn.replies[..k]), turn.replies[k], log[k]);
    }
    assert ExchangedAt(handler.step(history, turn.request, turn.replies[..last]), turn.replies[last], log[last]);
  }

  lemma ServingMore(s: State, turn: Turn, log: seq<Exchange>, rest: seq<Incoming>)
    requires log != [] && |turn.replies| == |log| && turn.replies[|log| - 1] == log[|log| - 1].reply
    requires 1 <= s.nextCallback <= U64_MAX
    ensures var last := |log| - 1;
      var t := Serving(s, Turn(turn.request, turn.replies[..last]), log[..last], []);
      Serving(s, turn, log, rest) ==
      t.(toHost := rest, host := Working(turn.request, t.host.replies + [log[last].reply]),
         queued := t.queued + RequestsOf(log[last].read), nextCallback := Saturating(t.nextCallback + 1),
         toClient := t.toClient + [Normal(RequestIn(CallbackRequest(log[last].id, log[last].call)))])
  {
    var last := |log| - 1;
    var before, e, call := log[..last], log[last], RequestIn(CallbackRequest(log[last].id, log[last].call));
    assert turn.replies == turn.replies[..last] + [turn.replies[last]];
    RequestsOfConcat(ReadBy(before), e.read);
    assert ReadBy(log) == ReadBy(before) + e.read;
    assert CallsOf(log) == CallsOf(before) + [call];
    FramedMore(CallsOf(before), call);
    hide CallsOf, Framed, ReadBy, RequestsOf, Normal, CallbackRequest;
    assert s.queued + RequestsOf(ReadBy(log)) == s.queued + RequestsOf(ReadBy(before)) + RequestsOf(e.read);
    assert s.toClient + Framed(CallsOf(log)) == s.toClient + Framed(CallsOf(before)) + [Normal(call)];
  }

  // ---------------------------------------------------------------- one request, and all of them

  lemma {:induction false} StraysEnd(idle: seq<Arrival>, request: Request)
    requires Strays(idle) && idle != [] && idle[|idle| - 1] == Got(RequestIn(request))
    ensures AllGot(idle) && RequestsOf(idle) == [request]
  {
    var last := |idle| - 1;
    OnlyStrays(idle[..last]);
    assert idle == idle[..last] + [idle[last]];
    RequestsOfNext(idle[..last], idle[last]);
  }

  lemma {:induction false} OnlyStrays(idle: seq<Arrival>)
    requires forall i :: 0 <= i < |idle| ==> idle[i].Got? && idle[i].message.ResponseIn?
    ensures RequestsOf(idle) == []
  {
    if idle != [] {
      OnlyStrays(idle[..|idle| - 1]);
    }
  }

  /** With nothing queued, stray responses are skipped until a request arrives. */
  lemma {:induction false} StraysWalk(sys: System, s: State, idle: seq<Arrival>, request: Request, rest: seq<Incoming>)
    requires s.host.Ready? && s.queued == [] && Strays(idle) && AllGot(idle)
    requires idle != [] && idle[|idle| - 1] == Got(RequestIn(request)) && s.toHost == Carried(idle) + rest
    ensures Reaches(HostEnd(sys), s, s.(toHost := rest, host := Working(request, [])))
    decreases |idle|
  {
    var tail := idle[1..];
    assert s.toHost[0] == idle[0].message && s.toHost[1..] == Carried(tail) + rest;
    var t := HostNext(sys, s).value;
    ReachesStep(HostEnd(sys), s, t);
    if tail == [] {
      assert t.toHost == rest;
    } else {
      StraysWalk(sys, t, tail, request, rest);
      ReachesOn(HostEnd(sys), s, t, s.(toHost := rest, host := Working(request, [])));
    }
  }

  /** The protocol's host stands where the channel does, ready for another request. */
  ghost predicate Aligned(s: State, m: Mark) {
    && s.host.Ready? && s.history == m.history && s.nextCallback == m.nextCallback && s.queued == Pending(m)
    && |m.history| <= |RequestsOf(m.consumed)| && 1 <= m.nextCallback <= U64_MAX
  }

  lemma TakenWalks(sys: System, s: State, m: Mark, idle: seq<Arrival>, request: Request, rest: seq<Incoming>)
    requires Aligned(s, m) && Taken(m, idle, request) && AllGot(idle) && s.toHost == Carried(idle) + rest
    ensures Reaches(HostEnd(sys), s,
              s.(toHost := rest, host := Working(request, []), queued := if s.queued == [] then [] else s.queued[1..]))
  {
    if s.queued == [] {
      StraysWalk(sys, s, idle, request, rest);
    } else {
      assert s.toHost == rest;
      ReachesStep(HostEnd(sys), s, HostNext(sys, s).value);
    }
  }

  /** Requests read and not answered, once another was taken and answered. */
  lemma PendingAfter(pipe: Pipe, m: Mark, episode: Episode)
    requires |m.history| <= |RequestsOf(m.consumed)| && Taken(m, episode.idle, episode.turn.request)
    ensures var after := After(pipe, m, episode);
      && |after.history| <= |RequestsOf(after.consumed)|
      && Pending(after) == (if Pending(m) == [] then [] else Pending(m)[1..]) + RequestsOf(ReadBy(episode.log))
  {
    var arrived, more := RequestsOf(m.consumed), RequestsOf(ReadBy(episode.log));
    var after := After(pipe, m, episode);
    assert after.consumed == (m.consumed + episode.idle) + ReadBy(episode.log) && |after.history| == |m.history| + 1;
    RequestsOfConcat(m.consumed + episode.idle, ReadBy(episode.log));
    RequestsOfConcat(m.consumed, episode.idle);
    IdleRequests(m, episode.idle, episode.turn.request);
    hide RequestsOf, ReadBy, After, Taken;
    var n, idle := |m.history|, RequestsOf(episode.idle);
    DropConcat(arrived, idle, n);
    PendingLess(arrived, idle, n);
    DropConcat(arrived + idle, more, n + 1);
    assert RequestsOf(after.consumed) == (arrived + idle) + more;
  }

  lemma PendingLess<T>(arrived: seq<T>, idle: seq<T>, n: nat)
    requires n <= |arrived| && |idle| == if n == |arrived| then 1 else 0
    ensures n + 1 <= |arrived + idle|
    ensures (arrived + idle)[n + 1..] == if n == |arrived| then [] else arrived[n..][1..]
  {
  }

  lemma IdleRequests(m: Mark, idle: seq<Arrival>, request: Request)
    requires Taken(m, idle, request)
    ensures RequestsOf(idle) == if Pending(m) == [] then [request] else []
  {
    if Pending(m) == [] {
      StraysEnd(idle, request);
    } else {
      NothingRequested();
    }
  }

  /** Where a host stands that has served this request since `s`. */
  ghost function Served(s: State, pipe: Pipe, m: Mark, episode: Episode, rest: seq<Incoming>): State {
    s.(toHost := rest, host := if episode.turn.request.method_ == SHUTDOWN then Gone else Ready,
       queued := Pending(After(pipe, m, episode)), nextCallback := Saturating(s.nextCallback + |episode.log|),
       history := s.history + [episode.turn],
       toClient := s.toClient + Framed(CallsOf(episode.log) + [ResponseIn(episode.response)]))
  }

  lemma EpisodeWalks(sys: System, s: State, pipe: Pipe, stream: seq<Arrival>, m: Mark, episode: Episode,
                     rest: seq<Incoming>)
    requires Aligned(s, m) && Proper(sys.handler, pipe, stream, m, episode) && AllReplied(episode.log)
    requires AllGot(episode.idle) && AllGot(ReadBy(episode.log))
    requires s.toHost == Carried(episode.idle) + (Carried(ReadBy(episode.log)) + rest)
    ensures Reaches(HostEnd(sys), s, Served(s, pipe, m, episode, rest))
  {
    var turn, log := episode.turn, episode.log;
    TakenWalks(sys, s, m, episode.idle, turn.request, Carried(ReadBy(log)) + rest);
    var taken := s.(toHost := Carried(ReadBy(log)) + rest, host := Working(turn.request, []),
      queued := if s.queued == [] then [] else s.queued[1..]);
    forall k | 0 <= k < |log| ensures log[k].id == Saturating(s.nextCallback + k) {
      assert InTurn(log, k, pipe, m.tries, m.nextCallback, m.consumed + episode.idle, stream);
    }
    TurnWalks(sys, taken, turn, log, rest);
    var worked := Serving(taken, turn, log, rest);
    ReachesOn(HostEnd(sys), s, taken, worked);
    PendingAfter(pipe, m, episode);
    FramedMore(CallsOf(log), ResponseIn(episode.response));
    AnswerWalks(sys, s, worked, pipe, m, episode, rest);
    ReachesOn(HostEnd(sys), s, worked, Served(s, pipe, m, episode, rest));
  }

  lemma AnswerWalks(sys: System, s: State, worked: State, pipe: Pipe, m: Mark, episode: Episode, rest: seq<Incoming>)
    requires sys.handler.step(s.history, episode.turn.request, episode.turn.replies).Done?
    requires episode.response == sys.handler.Answer(s.history, episode.turn)
    requires Framed(CallsOf(episode.log) + [ResponseIn(episode.response)]) ==
      Framed(CallsOf(episode.log)) + [Normal(ResponseIn(episode.response))]
    requires worked == s.(toHost := rest, host := Working(episode.turn.request, episode.turn.replies),
        queued := Pending(After(pipe, m, episode)), nextCallback := Saturating(s.nextCallback + |episode.log|),
        toClient := s.toClient + Framed(CallsOf(episode.log)))
    ensures Reaches(HostEnd(sys), worked, Served(s, pipe, m, episode, rest))
  {
    hide CallsOf, Framed, Pending, After, Normal;
    var calls, response := Framed(CallsOf(episode.log)), [Normal(ResponseIn(episode.response))];
    assert (s.toClient + calls) + response == s.toClient + (calls + response);
    ReachesStep(HostEnd(sys), worked, Served(s, pipe, m, episode, rest));
  }

  ghost function ReadAll(episodes: seq<Episode>): seq<Arrival> {
    if episodes == [] then []
    else
      var last := episodes[|episodes| - 1];
      ReadAll(episodes[..|episodes| - 1]) + (last.idle + ReadBy(last.log))
  }

  ghost function SentAll(episodes: seq<Episode>): seq<Incoming> {
    if episodes == [] then []
    else
      var last := episodes[|episodes| - 1];
      SentAll(episodes[..|episodes| - 1]) + (CallsOf(last.log) + [ResponseIn(last.response)])
  }

  /** Every callback had its reply, and only the last request may have been the one to stop. */
  ghost predicate Fluent(episodes: seq<Episode>) {
    && (forall i :: 0 <= i < |episodes| ==> AllReplied(episodes[i].log))
    && (forall i :: 0 <= i < |episodes| - 1 ==> episodes[i].turn.request.method_ != SHUTDOWN)
  }

  /** Where a host stands that has served all these requests since `s`. */
  ghost function AllServed(s: State, pipe: Pipe, first: Mark, episodes: seq<Episode>, rest: seq<Incoming>): State {
    var m := MarkAfter(pipe, first, episodes);
    s.(toHost := rest,
       host := if episodes != [] && episodes[|episodes| - 1].turn.request.method_ == SHUTDOWN then Gone else Ready,
       queued := Pending(m), nextCallback := m.nextCallback, history := m.history,
       toClient := s.toClient + Framed(SentAll(episodes)))
  }

  lemma EpisodesBefore(handler: Handler, pipe: Pipe, stream: seq<Arrival>, first: Mark, episodes: seq<Episode>)
    requires AllProper(handler, pipe, stream, first, episodes) && episodes != [] && Fluent(episodes)
    ensures var last := |episodes| - 1;
      && AllProper(handler, pipe, stream, first, episodes[..last]) && Fluent(episodes[..last])
      && Proper(handler, pipe, stream, MarkAfter(pipe, first, episodes[..last]), episodes[last])
      && AllReplied(episodes[last].log)
      && (last > 0 ==> episodes[last - 1].turn.request.method_ != SHUTDOWN)
  {
    hide Proper, MarkAfter;
    var last := |episodes| - 1;
    var before := episodes[..last];
    forall i | 0 <= i < last ensures Proper(handler, pipe, stream, MarkAfter(pipe, first, before[..i]), before[i]) {
      assert before[..i] == episodes[..i];
    }
  }

  /**
   * What a channel does in serving, when every callback is replied to, is a run of the protocol's
   * host: the same turns, the same messages sent, the same requests queued.
   */
  lemma {:induction false} ServingIsHostRun(sys: System, s: State, pipe: Pipe, stream: seq<Arrival>, first: Mark,
                                            episodes: seq<Episode>, rest: seq<Incoming>)
    requires Aligned(s, first) && AllProper(sys.handler, pipe, stream, first, episodes) && Fluent(episodes)
    requires AllGot(ReadAll(episodes)) && s.toHost == Carried(ReadAll(episodes)) + rest
    ensures Reaches(HostEnd(sys), s, AllServed(s, pipe, first, episodes, rest))
    ensures var m := MarkAfter(pipe, first, episodes);
      |m.history| <= |RequestsOf(m.consumed)| && 1 <= m.nextCallback <= U64_MAX
    decreases |episodes|
  {
    if episodes == [] {
      assert s.toHost == rest && s.toClient + Framed(SentAll(episodes)) == s.toClient;
      ReachesSelf(HostEnd(sys), s);
    } else {
      hide AllProper, Fluent, Proper, Pending, After, Framed, ReadBy, Reaches, AllServed, Aligned;
      var last := |episodes| - 1;
      var before, episode := episodes[..last], episodes[last];
      EpisodesBefore(sys.handler, pipe, stream, first, episodes);
      SplitRead(ReadAll(before), episode.idle, ReadBy(episode.log), rest);
      ServingIsHostRun(sys, s, pipe, stream, first, before, Carried(episode.idle + ReadBy(episode.log)) + rest);
      OneMoreServed(sys, s, pipe, stream, first, episodes, rest);
    }
  }

  lemma OneMoreServed(sys: System, s: State, pipe: Pipe, stream: seq<Arrival>, first: Mark, episodes: seq<Episode>,
                      rest: seq<Incoming>)
    requires episodes != [] && Aligned(s, first)
    requires var last := |episodes| - 1;
      var (before, episode) := (episodes[..last], episodes[last]);
      var m := MarkAfter(pipe, first, before);
      && AllGot(episode.idle + ReadBy(episode.log)) && AllGot(episode.idle) && AllGot(ReadBy(episode.log))
      && Proper(sys.handler, pipe, stream, m, episode) && AllReplied(episode.log)
      && (last > 0 ==> episodes[last - 1].turn.request.method_ != SHUTDOWN)
      && |m.history| <= |RequestsOf(m.consumed)| && 1 <= m.nextCallback <= U64_MAX
      && Carried(episode.idle + ReadBy(episode.log)) + rest ==
        Carried(episode.idle) + (Carried(ReadBy(episode.log)) + rest)
      && Reaches(HostEnd(sys), s,
           AllServed(s, pipe, first, before, Carried(episode.idle + ReadBy(episode.log)) + rest))
    ensures Reaches(HostEnd(sys), s, AllServed(s, pipe, first, episodes, rest))
    ensures var m := MarkAfter(pipe, first, episodes);
      |m.history| <= |RequestsOf(m.consumed)| && 1 <= m.nextCallback <= U64_MAX
  {
    var last := |episodes| - 1;
    var before, episode := episodes[..last], episodes[last];
    var m, left := MarkAfter(pipe, first, before), Carried(episode.idle + ReadBy(episode.log)) + rest;
    hide Proper, Pending, ReadBy, Framed, Reaches, SentAll, CallsOf, RequestsOf, MarkAfter, AllServed, After, Served,
      Aligned, AllReplied;
    var t := AllServed(s, pipe, first, before, left);
    StillAligned(s, pipe, first, before, left);
    AllServedReads(s, pipe, first, before, left);
    EpisodeWalks(sys, t, pipe, stream, m, episode, rest);
    ProperTakes(sys.handler, pipe, stream, m, episode);
    PendingAfter(pipe, m, episode);
    NextMark(pipe, first, episodes);
    LastServed(s, pipe, first, episodes, left, rest);
    ReachesOn(HostEnd(sys), s, t, AllServed(s, pipe, first, episodes, rest));
  }

  lemma StillAligned(s: State, pipe: Pipe, first: Mark, episodes: seq<Episode>, left: seq<Incoming>)
    requires episodes != [] ==> episodes[|episodes| - 1].turn.request.method_ != SHUTDOWN
    requires var m := MarkAfter(pipe, first, episodes);
      |m.history| <= |RequestsOf(m.consumed)| && 1 <= m.nextCallback <= U64_MAX
    ensures Aligned(AllServed(s, pipe, first, episodes, left), MarkAfter(pipe, first, episodes))
  {
  }

  lemma AllServedReads(s: State, pipe: Pipe, first: Mark, episodes: seq<Episode>, left: seq<Incoming>)
    ensures AllServed(s, pipe, first, episodes, left).toHost == left
  {
  }

  lemma ProperTakes(handler: Handler, pipe: Pipe, stream: seq<Arrival>, m: Mark, episode: Episode)
    requires Proper(handler, pipe, stream, m, episode)
    ensures Taken(m, episode.idle, episode.turn.request)
  {
  }

  lemma NextMark(pipe: Pipe, first: Mark, episodes: seq<Episode>)
    requires episodes != []
    ensures MarkAfter(pipe, first, episodes) ==
      After(pipe, MarkAfter(pipe, first, episodes[..|episodes| - 1]), episodes[|episodes| - 1])
    ensures var m := MarkAfter(pipe, first, episodes[..|episodes| - 1]);
      m.nextCallback >= 1 ==> 1 <= MarkAfter(pipe, first, episodes).nextCallback <= U64_MAX
  {
  }

  lemma SplitRead(before: seq<Arrival>, idle: seq<Arrival>, read: seq<Arrival>, rest: seq<Incoming>)
    requires AllGot(before + (idle + read))
    ensures AllGot(before) && AllGot(idle + read) && AllGot(idle) && AllGot(read)
    ensures Carried(before + (idle + read)) + rest == Carried(before) + (Carried(idle + read) + rest)
    ensures Carried(idle + read) + rest == Carried(idle) + (Carried(read) + rest)
  {
    var all, own := before + (idle + read), idle + read;
    forall i | 0 <= i < |before| ensures before[i].Got? { assert all[i] == before[i]; }
    forall i | 0 <= i < |own| ensures own[i].Got? { assert all[|before| + i] == own[i]; }
    forall i | 0 <= i < |idle| ensures idle[i].Got? { assert own[i] == idle[i]; }
    forall i | 0 <= i < |read| ensures read[i].Got? { assert own[|idle| + i] == read[i]; }
    assert Carried(all) == Carried(before) + Carried(own) && Carried(own) == Carried(idle) + Carried(read);
  }

  lemma FramedConcat(a: seq<Incoming>, b: seq<Incoming>)
    ensures Framed(a + b) == Framed(a) + Framed(b)
  {
  }

  lemma LastServed(s: State, pipe: Pipe, first: Mark, episodes: seq<Episode>, left: seq<Incoming>, rest: seq<Incoming>)
    requires episodes != []
    ensures var last := |episodes| - 1;
      var m := MarkAfter(pipe, first, episodes[..last]);
      Served(AllServed(s, pipe, first, episodes[..last], left), pipe, m, episodes[last], rest) ==
      AllServed(s, pipe, first, episodes, rest)
  {
    var last := |episodes| - 1;
    var before, own := SentAll(episodes[..last]), CallsOf(episodes[last].log) + [ResponseIn(episodes[last].response)];
    FramedConcat(before, own);
    hide CallsOf, Framed, Pending, ReadBy;
    assert s.toClient + Framed(before + own) == (s.toClient + Framed(before)) + Framed(own);
  }

  /** When every write goes through, what the run sends is what the channel sends. */
  lemma {:induction false} EverythingSent(pipe: Pipe, first: Mark, episodes: seq<Episode>)
    requires forall k: nat :: first.tries <= k < MarkAfter(pipe, first, episodes).tries ==> pipe(k)
    ensures MarkAfter(pipe, first, episodes).sent == first.sent + SentAll(episodes)
    ensures MarkAfter(pipe, first, episodes).tries >= first.tries
    decreases |episodes|
  {
    if episodes == [] {
      assert first.sent + [] == first.sent;
    } else {
      var last := |episodes| - 1;
      var m, episode := MarkAfter(pipe, first, episodes[..last]), episodes[last];
      SentNext(pipe, m, episode);
      NextMark(pipe, first, episodes);
      hide MarkAfter, After, CallsOf, Written, SentAll;
      assert forall k: nat :: first.tries <= k < m.tries ==> pipe(k);
      EverythingSent(pipe, first, episodes[..last]);
      EverythingWritten(pipe, m.tries, CallsOf(episode.log));
      var sent, calls, response := SentAll(episodes[..last]), CallsOf(episode.log), [ResponseIn(episode.response)];
      Regroup(first.sent, sent, calls, response);
      SentAllNext(episodes);
    }
  }

  lemma SentAllNext(episodes: seq<Episode>)
    requires episodes != []
    ensures var last := |episodes| - 1;
      SentAll(episodes) ==
      SentAll(episodes[..last]) + (CallsOf(episodes[last].log) + [ResponseIn(episodes[last].response)])
  {
  }

  lemma SentNext(pipe: Pipe, m: Mark, episode: Episode)
    ensures After(pipe, m, episode).tries == m.tries + |CallsOf(episode.log)| + 1
    ensures pipe(m.tries + |CallsOf(episode.log)|) ==>
      After(pipe, m, episode).sent ==
      (m.sent + Written(pipe, m.tries, CallsOf(episode.log))) + [ResponseIn(episode.response)]
  {
  }

  lemma {:induction false} EverythingWritten(pipe: Pipe, tries: nat, messages: seq<Incoming>)
    requires forall k: nat :: tries <= k < tries + |messages| ==> pipe(k)
    ensures Written(pipe, tries, messages) == messages
    decreases |messages|
  {
    if messages != [] {
      EverythingWritten(pipe, tries, messages[..|messages| - 1]);
    }
  }

  // ---------------------------------------------------------------- the client

  ghost predicate AllFrames(read: seq<Event>) {
    forall i :: 0 <= i < |read| ==> read[i].Frame?
  }

  ghost function Heard(read: seq<Event>): (r: seq<Incoming>)
    requires AllFrames(read)
    ensures |r| == |read|
  {
    seq(|read|, i requires 0 <= i < |read| => read[i].message)
  }

  /** Where a waiting client stands, these frames after `s`. */
  ghost function AfterAnswering(app: Application, s: State, read: seq<Event>, rest: seq<Incoming>): State {
    var (responses, seen) := Answering(app, s.seen, read);
    s.(toClient := rest, seen := seen, toHost := s.toHost + Framed(responses))
  }

  /** Waiting for its reply, a client answers the callbacks it meets and skips other responses. */
  lemma {:induction false} WaitingWalks(sys: System, s: State, read: seq<Event>, rest: seq<Incoming>)
    requires s.client.Waiting? && AllFrames(read) && forall i :: 0 <= i < |read| ==> !Replies(read[i], s.client.id)
    requires s.toClient == Heard(read) + rest
    ensures Reaches(ClientEnd(sys), s, AfterAnswering(sys.app, s, read, rest))
    decreases |read|
  {
    if read == [] {
      assert s.toClient == rest && s.toHost + Framed([]) == s.toHost;
      ReachesSelf(ClientEnd(sys), s);
    } else {
      var last := |read| - 1;
      var before, event := read[..last], read[last];
      assert read == before + [event] && Heard(read) == Heard(before) + [event.message];
      assert s.toClient == Heard(before) + ([event.message] + rest);
      WaitingWalks(sys, s, before, [event.message] + rest);
      var t := AfterAnswering(sys.app, s, before, [event.message] + rest);
      AnsweringNext(sys.app, s.seen, before, event);
      assert t.toClient[0] == event.message && t.toClient[1..] == rest;
      var (responses, seen) := Answering(sys.app, s.seen, before);
      if event.message.RequestIn? {
        var response := ResponseIn(sys.app.Response(seen, event.message.request));
        FramedMore(responses, response);
        assert (s.toHost + Framed(responses)) + [Normal(response)] == s.toHost + Framed(responses + [response]);
      }
      ReachesStep(ClientEnd(sys), t, AfterAnswering(sys.app, s, read, rest));
      ReachesOn(ClientEnd(sys), s, t, AfterAnswering(sys.app, s, read, rest));
    }
  }

  /** Where a client stands after a call that returned. */
  ghost function Called(sys: System, s: State, read: seq<Event>, r: Result<Json, RemoteError>,
                        rest: seq<Incoming>): State
    requires s.script != []
  {
    s.(script := s.script[1..], client := Idle, nextId := Saturating(s.nextId + 1), results := s.results + [r],
       toClient := rest, seen := Answering(sys.app, s.seen, read).1,
       toHost := s.toHost + Framed(Attempts(sys.app, RequestFor(s.nextId, s.script[0]), s.seen, read)))
  }

  /** A call that returned is a run of the protocol's client: the same traffic, the same result. */
  lemma CallIsClientRun(sys: System, s: State, read: seq<Event>, r: Result<Json, RemoteError>, rest: seq<Incoming>)
    requires s.client.Idle? && s.script != [] && AllFrames(read) && Returned(s.nextId, read, KEEP, r)
    requires s.toClient == Heard(read) + rest
    ensures Reaches(ClientEnd(sys), s, Called(sys, s, read, r, rest))
  {
    var last := |read| - 1;
    var before, reply := read[..last], read[last];
    assert read == before + [reply] && Heard(read) == Heard(before) + [reply.message];
    var begun := ClientNext(sys, s).value;
    ReachesStep(ClientEnd(sys), s, begun);
    assert begun.toClient == Heard(before) + ([reply.message] + rest);
    WaitingWalks(sys, begun, before, [reply.message] + rest);
    var waited := AfterAnswering(sys.app, begun, before, [reply.message] + rest);
    ReachesOn(ClientEnd(sys), s, begun, waited);
    AnsweringNext(sys.app, s.seen, before, reply);
    assert waited.toClient[0] == reply.message && waited.toClient[1..] == rest;
    var request, responses := RequestIn(RequestFor(s.nextId, s.script[0])), Answering(sys.app, s.seen, before).0;
    FramedConcat([request], responses);
    assert Framed([request]) == [Normal(request)];
    assert (s.toHost + [Normal(request)]) + Framed(responses) == s.toHost + Framed([request] + responses);
    ReachesStep(ClientEnd(sys), waited, Called(sys, s, read, r, rest));
    ReachesOn(ClientEnd(sys), s, waited, Called(sys, s, read, r, rest));
  }
}
