/**
 * Both classes at once: a channel and a client, each running to its end against what the other
 * sends, make up a run of the protocol, so that every call returns what it ought to.
 */
module Compositions {
  import opened Wrappers
  import opened Messages
  import opened HostChannels
  import opened RemoteClients
  import opened Sessions
  import opened Refinements

  // ---------------------------------------------------------------- two ends make one state

  /** The client's part of one state and the host's part of another, with what is between them. */
  function Joined(p: State, q: State, toHost: seq<Incoming>, toClient: seq<Incoming>): State {
    State(p.script, p.client, p.nextId, p.seen, p.results, toHost, toClient, q.host, q.queued, q.nextCallback,
      q.history)
  }

  /**
   * `s` is what the client at `p` and the host at `q` make up, where each end has all of the
   * other's messages before it from the start: `xs` for the host, `ys` for the client.
   */
  ghost predicate Joint(s: State, p: State, q: State, xs: seq<Incoming>, ys: seq<Incoming>) {
    var taken, given := |ys| - |p.toClient|, |q.toClient|;
    var served, asked := |xs| - |q.toHost|, |p.toHost|;
    && 0 <= taken <= given <= |ys| && p.toClient == ys[taken..] && q.toClient == ys[..given]
    && 0 <= served <= asked <= |xs| && q.toHost == xs[served..] && p.toHost == xs[..asked]
    && s == Joined(p, q, xs[served..asked], ys[taken..given])
  }

  lemma ClientMoves(sys: System, s: State, p: State, q: State, xs: seq<Incoming>, ys: seq<Incoming>)
    requires Joint(s, p, q, xs, ys) && ClientNext(sys, s).Some?
    ensures ClientNext(sys, p).Some?
    ensures ClientNext(sys, p).value.toHost <= xs ==>
      Joint(ClientNext(sys, s).value, ClientNext(sys, p).value, q, xs, ys)
  {
    var taken, given := |ys| - |p.toClient|, |q.toClient|;
    if s.toClient != [] {
      assert p.toClient[0] == ys[taken] == s.toClient[0];
    }
    var p' := ClientNext(sys, p).value;
    if p'.toHost <= xs {
      OneMoreBetween(xs, |xs| - |q.toHost|, p.toHost, p'.toHost);
      if |p'.toClient| < |p.toClient| {
        OneLessBetween(ys, taken, given);
      }
    }
  }

  lemma HostMoves(sys: System, s: State, p: State, q: State, xs: seq<Incoming>, ys: seq<Incoming>)
    requires Joint(s, p, q, xs, ys) && HostNext(sys, s).Some?
    ensures HostNext(sys, q).Some?
    ensures HostNext(sys, q).value.toClient <= ys ==>
      Joint(HostNext(sys, s).value, p, HostNext(sys, q).value, xs, ys)
  {
    var served, asked := |xs| - |q.toHost|, |p.toHost|;
    if s.toHost != [] {
      assert q.toHost[0] == xs[served] == s.toHost[0];
    }
    var q' := HostNext(sys, q).value;
    if q'.toClient <= ys {
      OneMoreBetween(ys, |ys| - |p.toClient|, q.toClient, q'.toClient);
      if |q'.toHost| < |q.toHost| {
        OneLessBetween(xs, served, asked);
      }
    }
  }

  lemma OneMoreBetween(all: seq<Incoming>, from: nat, before: seq<Incoming>, after: seq<Incoming>)
    requires from <= |before| && before <= after <= all
    ensures all[from..|after|] == all[from..|before|] + after[|before|..]
  {
  }

  lemma OneLessBetween(all: seq<Incoming>, from: nat, to: nat)
    requires from < to <= |all|
    ensures all[from..to][1..] == all[from + 1..to] && all[from..][1..] == all[from + 1..]
  {
  }

  // ---------------------------------------------------------------- two walks make one run

  lemma {:induction false} ClientSendsMore(sys: System, path: seq<State>, s: State, t: State, i: nat)
    requires Walks(ClientEnd(sys), path, s, t) && i < |path|
    ensures path[i].toHost <= t.toHost
    decreases |path| - i
  {
    if i < |path| - 1 {
      assert ClientEnd(sys)(path[i]) == Some(path[i + 1]);
      ClientSendsMore(sys, path, s, t, i + 1);
    }
  }

  lemma {:induction false} HostSendsMore(sys: System, path: seq<State>, s: State, t: State, i: nat)
    requires Walks(HostEnd(sys), path, s, t) && i < |path|
    ensures path[i].toClient <= t.toClient
    decreases |path| - i
  {
    if i < |path| - 1 {
      assert HostEnd(sys)(path[i]) == Some(path[i + 1]);
      HostSendsMore(sys, path, s, t, i + 1);
    }
  }

  /** A walk goes on from each of its states but the last. */
  lemma GoesOn(next: State -> Option<State>, path: seq<State>, s: State, t: State, i: nat)
    requires Walks(next, path, s, t) && i < |path|
    ensures i < |path| - 1 ==> next(path[i]).Some?
    ensures i == |path| - 1 ==> path[i] == t
  {
    assert i < |path| - 1 ==> next(path[i]) == Some(path[i + 1]);
  }

  /** Both ends ran from the start of a script until they could go no further, each on all the other sent. */
  ghost predicate RanOut(sys: System, script: seq<CallSpec>, clients: seq<State>, hosts: seq<State>, c: State,
                         h: State)
  {
    && Walks(ClientEnd(sys), clients, Start(script).(toClient := h.toClient), c) && ClientNext(sys, c).None?
    && Walks(HostEnd(sys), hosts, Start(script).(toHost := c.toHost), h) && HostNext(sys, h).None?
  }

  /** Every state of a run is made up of a state of either walk. */
  lemma {:induction false} RunIsJoint(sys: System, script: seq<CallSpec>, clients: seq<State>, hosts: seq<State>,
                                      c: State, h: State, run: seq<State>, k: nat) returns (i: nat, j: nat)
    requires RanOut(sys, script, clients, hosts, c, h)
    requires Run(sys, run) && run[0] == Start(script) && k < |run|
    ensures i < |clients| && j < |hosts| && Joint(run[k], clients[i], hosts[j], c.toHost, h.toClient)
  {
    if k == 0 {
      i, j := 0, 0;
    } else {
      i, j := RunIsJoint(sys, script, clients, hosts, c, h, run, k - 1);
      var s, p, q := run[k - 1], clients[i], hosts[j];
      hide ClientNext, HostNext, Joint;
      assert Next(sys, run[k - 1], run[k - 1 + 1]);
      if ClientNext(sys, s) == Some(run[k]) {
        ClientMoves(sys, s, p, q, c.toHost, h.toClient);
        NextOnPath(ClientEnd(sys), clients, Start(script).(toClient := h.toClient), c, i);
        ClientSendsMore(sys, clients, clients[0], c, i + 1);
        i := i + 1;
      } else {
        HostMoves(sys, s, p, q, c.toHost, h.toClient);
        NextOnPath(HostEnd(sys), hosts, Start(script).(toHost := c.toHost), h, j);
        HostSendsMore(sys, hosts, hosts[0], h, j + 1);
        j := j + 1;
      }
    }
  }

  /** A state that can go on stands before the last of a walk that cannot, and goes on along it. */
  lemma NextOnPath(next: State -> Option<State>, path: seq<State>, s: State, t: State, i: nat)
    requires Walks(next, path, s, t) && next(t).None? && i < |path| && next(path[i]).Some?
    ensures i < |path| - 1 && next(path[i]) == Some(path[i + 1])
  {
  }

  /**
   * Wherever the two ends come to a stop, each having had before it exactly what the other sent,
   * they have run the protocol to its end: every call has returned what it ought to.
   */
  lemma TwoEndsMeet(sys: System, script: seq<CallSpec>, c: State, h: State) returns (run: seq<State>)
    requires sys.handler.Terminates() && ShutdownLast(script)
    requires Reaches(ClientEnd(sys), Start(script).(toClient := h.toClient), c) && ClientNext(sys, c).None?
    requires Reaches(HostEnd(sys), Start(script).(toHost := c.toHost), h) && HostNext(sys, h).None?
    ensures Run(sys, run) && run[0] == Start(script) && run[|run| - 1] == Joined(c, h, h.toHost, c.toClient)
    ensures Finished(c) && c.results == Direct(sys, script, 1, [], [])
  {
    var clients :| Walks(ClientEnd(sys), clients, Start(script).(toClient := h.toClient), c);
    var hosts :| Walks(HostEnd(sys), hosts, Start(script).(toHost := c.toHost), h);
    StartsInv(sys, script);
    run := Finishes(sys, Start(script));
    Sessions.Protocol(sys, script, run);
    var last := |run| - 1;
    var i, j := RunIsJoint(sys, script, clients, hosts, c, h, run, last);
    var s, p, q := run[last], clients[i], hosts[j];
    GoesOn(ClientEnd(sys), clients, Start(script).(toClient := h.toClient), c, i);
    GoesOn(HostEnd(sys), hosts, Start(script).(toHost := c.toHost), h, j);
    assert p == c && q == h;
  }

  // ---------------------------------------------------------------- a whole script of calls

  /** Calls made one after another, each returned on the last of the frames it read. */
  ghost predicate CallsReturn(nextId: int, heard: seq<seq<Event>>, results: seq<Result<Json, RemoteError>>)
    decreases |heard|
  {
    && |heard| == |results|
    && (heard != [] ==>
        && AllFrames(heard[0]) && Returned(nextId, heard[0], KEEP, results[0])
        && CallsReturn(Saturating(nextId + 1), heard[1..], results[1..]))
  }

  /** Every frame read in these calls, in order. */
  ghost function FramesRead(heard: seq<seq<Event>>): seq<Event> {
    if heard == [] then [] else heard[0] + FramesRead(heard[1..])
  }

  lemma {:induction false} CallsReadFrames(nextId: int, heard: seq<seq<Event>>, results: seq<Result<Json, RemoteError>>)
    requires CallsReturn(nextId, heard, results)
    ensures AllFrames(FramesRead(heard))
    decreases |heard|
  {
    if heard != [] {
      CallsReadFrames(Saturating(nextId + 1), heard[1..], results[1..]);
    }
  }

  /** Everything a client sends in making these calls: each request, and a response to each callback read. */
  ghost function SentInCalls(app: Application, nextId: int, script: seq<CallSpec>, seen: seq<CallbackCall>,
                             heard: seq<seq<Event>>): seq<Incoming>
    requires |heard| <= |script|
    decreases |heard|
  {
    if heard == [] then []
    else
      Attempts(app, RequestFor(nextId, script[0]), seen, heard[0]) +
      SentInCalls(app, Saturating(nextId + 1), script[1..], Answering(app, seen, heard[0]).1, heard[1..])
  }

  /** A script of calls that all return is a run of the protocol's client. */
  lemma {:induction false} CallsAreClientRun(sys: System, s: State, heard: seq<seq<Event>>,
                                             results: seq<Result<Json, RemoteError>>, rest: seq<Incoming>)
    returns (c: State)
    requires s.client.Idle? && |heard| == |s.script| && CallsReturn(s.nextId, heard, results)
    requires AllFrames(FramesRead(heard)) && s.toClient == Heard(FramesRead(heard)) + rest
    ensures Reaches(ClientEnd(sys), s, c) && c.client.Idle? && c.script == [] && c.results == s.results + results
    ensures c.toHost == s.toHost + Framed(SentInCalls(sys.app, s.nextId, s.script, s.seen, heard))
    decreases |heard|
  {
    if heard == [] {
      c := s;
      ReachesSelf(ClientEnd(sys), s);
    } else {
      var tail := FramesRead(heard[1..]);
      CallsReadFrames(Saturating(s.nextId + 1), heard[1..], results[1..]);
      assert s.toClient == Heard(heard[0]) + (Heard(tail) + rest);
      CallIsClientRun(sys, s, heard[0], results[0], Heard(tail) + rest);
      var t := Called(sys, s, heard[0], results[0], Heard(tail) + rest);
      c := CallsAreClientRun(sys, t, heard[1..], results[1..], rest);
      ReachesOn(ClientEnd(sys), s, t, c);
      var first, more := Attempts(sys.app, RequestFor(s.nextId, s.script[0]), s.seen, heard[0]),
        SentInCalls(sys.app, t.nextId, t.script, t.seen, heard[1..]);
      FramedConcat(first, more);
      assert c.toHost == (s.toHost + Framed(first)) + Framed(more) == s.toHost + Framed(first + more);
      assert s.results + results == (s.results + [results[0]]) + results[1..];
    }
  }

  // ---------------------------------------------------------------- both classes

  /** A ready host with nothing queued skips any number of responses. */
  lemma {:induction false} StraysSkipped(sys: System, s: State, strays: seq<Incoming>)
    requires s.host.Ready? && s.queued == [] && s.toHost == strays && forall m <- strays :: m.ResponseIn?
    ensures Reaches(HostEnd(sys), s, s.(toHost := []))
    decreases |strays|
  {
    if strays == [] {
      ReachesSelf(HostEnd(sys), s);
    } else {
      var t := s.(toHost := strays[1..]);
      assert strays[0] in strays && s.toHost[0].ResponseIn?;
      ReachesStep(HostEnd(sys), s, t);
      StraysSkipped(sys, t, strays[1..]);
      ReachesOn(HostEnd(sys), s, t, s.(toHost := []));
    }
  }

  /** The channel stopped when asked to, or has answered all there was to answer. */
  ghost predicate ServedOut(pipe: Pipe, first: Mark, episodes: seq<Episode>, rest: seq<Incoming>) {
    || (episodes != [] && episodes[|episodes| - 1].turn.request.method_ == SHUTDOWN)
    || (Pending(MarkAfter(pipe, first, episodes)) == [] && forall m <- rest :: m.ResponseIn?)
  }

  /** Where a channel stands before it has read anything. */
  const FRESH: Mark := Mark([], 0, 1, [], [])

  /**
   * A channel that serves and a client that makes its calls, each reading over a first-in-
   * first-out pipe what the other sends, return for every call what its own request comes to
   * when the application answers each callback directly; and what the two of them do is one run
   * of the protocol.
   */
  lemma ClassesCompose(sys: System, script: seq<CallSpec>, heard: seq<seq<Event>>,
                       results: seq<Result<Json, RemoteError>>, pipe: Pipe, stream: seq<Arrival>,
                       episodes: seq<Episode>, unread: seq<Incoming>, unheard: seq<Incoming>)
    returns (run: seq<State>)
    requires sys.handler.Terminates() && ShutdownLast(script)
    requires |heard| == |script| && CallsReturn(1, heard, results) && AllFrames(FramesRead(heard))
    requires AllProper(sys.handler, pipe, stream, FRESH, episodes) && Fluent(episodes) && AllGot(ReadAll(episodes))
    requires ServedOut(pipe, FRESH, episodes, unread)
    requires Heard(FramesRead(heard)) + unheard == Framed(SentAll(episodes))
    requires Carried(ReadAll(episodes)) + unread == Framed(SentInCalls(sys.app, 1, script, [], heard))
    ensures results == Direct(sys, script, 1, [], [])
    ensures Run(sys, run) && run[0] == Start(script) && Finished(run[|run| - 1])
    ensures run[|run| - 1].results == results
  {
    var c := CallsRunOut(sys, script, heard, results, unheard);
    var h := ServingRunsOut(sys, script, pipe, stream, episodes, unread);
    assert c.toHost == Framed(SentInCalls(sys.app, 1, script, [], heard));
    run := TwoEndsMeet(sys, script, c, h);
  }

  lemma CallsRunOut(sys: System, script: seq<CallSpec>, heard: seq<seq<Event>>,
                    results: seq<Result<Json, RemoteError>>, unheard: seq<Incoming>) returns (c: State)
    requires |heard| == |script| && CallsReturn(1, heard, results) && AllFrames(FramesRead(heard))
    ensures Reaches(ClientEnd(sys),
              Start(script).(toClient := Heard(FramesRead(heard)) + unheard), c)
    ensures ClientNext(sys, c).None? && c.results == results
    ensures c.toHost == Framed(SentInCalls(sys.app, 1, script, [], heard))
  {
    var s := Start(script).(toClient := Heard(FramesRead(heard)) + unheard);
    c := CallsAreClientRun(sys, s, heard, results, unheard);
    assert [] + results == results;
  }

  lemma ServingRunsOut(sys: System, script: seq<CallSpec>, pipe: Pipe, stream: seq<Arrival>, episodes: seq<Episode>,
                       unread: seq<Incoming>) returns (h: State)
    requires AllProper(sys.handler, pipe, stream, FRESH, episodes) && Fluent(episodes) && AllGot(ReadAll(episodes))
    requires ServedOut(pipe, FRESH, episodes, unread)
    ensures Reaches(HostEnd(sys), Start(script).(toHost := Carried(ReadAll(episodes)) + unread), h)
    ensures HostNext(sys, h).None? && h.toClient == Framed(SentAll(episodes))
  {
    var s := Start(script).(toHost := Carried(ReadAll(episodes)) + unread);
    FreshAligned(script, s.toHost);
    ServingIsHostRun(sys, s, pipe, stream, FRESH, episodes, unread);
    h := AllServed(s, pipe, FRESH, episodes, unread);
    ServedStands(s, pipe, episodes, unread);
    hide AllProper, Fluent, ServedOut, AllServed, Reaches, ReadAll, SentAll, Framed, Carried;
    h := StraysDone(sys, s, h, unread);
  }

  /** Where a host that has served everything comes to a stop. */
  lemma StraysDone(sys: System, s: State, served: State, unread: seq<Incoming>) returns (h: State)
    requires Reaches(HostEnd(sys), s, served) && served.toHost == unread
    requires served.host.Gone? || (served.host.Ready? && served.queued == [] && forall m <- unread :: m.ResponseIn?)
    ensures Reaches(HostEnd(sys), s, h) && HostNext(sys, h).None? && h.toClient == served.toClient
  {
    hide Reaches;
    h := served;
    if h.host.Ready? {
      StraysSkipped(sys, h, unread);
      ReachesOn(HostEnd(sys), s, h, h.(toHost := []));
      h := h.(toHost := []);
    }
  }

  lemma FreshAligned(script: seq<CallSpec>, toHost: seq<Incoming>)
    ensures Aligned(Start(script).(toHost := toHost), FRESH)
  {
    NothingRequested();
  }

  lemma ServedStands(s: State, pipe: Pipe, episodes: seq<Episode>, unread: seq<Incoming>)
    requires ServedOut(pipe, FRESH, episodes, unread) && s.toClient == []
    ensures var h := AllServed(s, pipe, FRESH, episodes, unread);
      && h.toHost == unread && h.toClient == Framed(SentAll(episodes))
      && (h.host.Gone? || (h.host.Ready? && h.queued == [] && forall m <- unread :: m.ResponseIn?))
  {
    hide Framed, SentAll, MarkAfter, Pending;
  }
}
