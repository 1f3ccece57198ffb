/** The session index of the feed socket server and message routing (apps/api/src/feed/feed.gateway.ts). */
module FeedGateway {
  import opened Wrappers
  import opened Jsons

  /** A WebSocket object, by identity. */
  type Socket = nat

  type Index = map<string, set<Socket>>

  /** What happens to sockets: they connect with a query parameter, start closing, and are closed. */
  datatype Event =
    | Connect(ws: Socket, query: Option<string>)
    | Closing(ws: Socket)
    | Close(ws: Socket)

  /** extractSessionId: an empty parameter counts as none. */
  function SessionOf(query: Option<string>): Option<string> {
    if query == Some("") then None else query
  }

  // ----- the handlers, on values

  function Added(sessions: Index, sid: Option<string>, ws: Socket): Index {
    if sid == None then sessions
    else sessions[sid.value := (if sid.value in sessions then sessions[sid.value] else {}) + {ws}]
  }

  function Removed(sessions: Index, sid: Option<string>, ws: Socket): Index {
    if sid == None || sid.value !in sessions then sessions
    else
      var bucket := sessions[sid.value] - {ws};
      if bucket == {} then sessions - {sid.value} else sessions[sid.value := bucket]
  }

  /** The server: the index, the session each close handler captured, and the sockets still OPEN. */
  datatype State = State(sessions: Index, captured: map<Socket, Option<string>>, open: set<Socket>)

  const START := State(map[], map[], {})

  function Step(s: State, e: Event): State {
    match e
    case Connect(ws, query) =>
      State(Added(s.sessions, SessionOf(query), ws), s.captured[ws := SessionOf(query)], s.open + {ws})
    case Closing(ws) => s.(open := s.open - {ws})
    case Close(ws) =>
      if ws in s.captured then
        State(Removed(s.sessions, s.captured[ws], ws), s.captured - {ws}, s.open - {ws})
      else s
  }

  function Run(events: seq<Event>): State {
    if events == [] then START else Step(Run(events[..|events| - 1]), events[|events| - 1])
  }

  // ----- the reference: which sockets are live, read off the history

  /** Some(session) for a socket that connected and was not closed since; None for any other. */
  function LiveIn(events: seq<Event>, ws: Socket): Option<Option<string>> {
    if events == [] then None
    else
      var n := |events| - 1;
      match events[n]
      case Connect(w, query) =>
        if w != ws then LiveIn(events[..n], ws)
        else if query.Some? && |query.value| > 0 then Some(query)
        else Some(None)
      case Closing(_) => LiveIn(events[..n], ws)
      case Close(w) => if w == ws then None else LiveIn(events[..n], ws)
  }

  /** Live, and not closing since it connected. */
  predicate OpenIn(events: seq<Event>, ws: Socket) {
    events != [] &&
    var n := |events| - 1;
    match events[n]
    case Connect(w, _) => w == ws || OpenIn(events[..n], ws)
    case Closing(w) => w != ws && OpenIn(events[..n], ws)
    case Close(w) => w != ws && OpenIn(events[..n], ws)
  }

  /** A socket object connects only while it is not live. */
  ghost predicate Plausible(events: seq<Event>) {
    forall i :: 0 <= i < |events| && events[i].Connect? ==> LiveIn(events[..i], events[i].ws) == None
  }

  /** The index holds each session's live sockets, and no empty bucket. */
  ghost predicate Agrees(s: State, events: seq<Event>) {
    && (forall ws: Socket :: ws in s.captured <==> LiveIn(events, ws).Some?)
    && (forall ws: Socket :: ws in s.captured ==> LiveIn(events, ws) == Some(s.captured[ws]))
    && (forall ws: Socket :: ws in s.open <==> OpenIn(events, ws))
    && (forall ws: Socket :: ws in s.open ==> ws in s.captured)
    && (forall sid :: sid in s.sessions ==> s.sessions[sid] != {})
    && (forall sid, ws: Socket :: sid in s.sessions && ws in s.sessions[sid] <==> LiveIn(events, ws) == Some(Some(sid)))
  }

  lemma StepAgrees(s: State, events: seq<Event>, e: Event)
    requires Agrees(s, events)
    requires e.Connect? ==> LiveIn(events, e.ws) == None
    ensures Agrees(Step(s, e), events + [e])
  {
    assert (events + [e])[..|events|] == events;
    match e
    case Connect(ws, query) => ConnectAgrees(s, events, ws, query);
    case Closing(ws) =>
    case Close(ws) => CloseAgrees(s, events, ws);
  }

  lemma ConnectAgrees(s: State, events: seq<Event>, ws: Socket, query: Option<string>)
    requires Agrees(s, events) && LiveIn(events, ws) == None
    ensures Agrees(Step(s, Connect(ws, query)), events + [Connect(ws, query)])
  {
    var after := events + [Connect(ws, query)];
    assert after[..|events|] == events;
    var sid := SessionOf(query);
    var t := Added(s.sessions, sid, ws);
    forall id, w: Socket ensures id in t && w in t[id] <==> LiveIn(after, w) == Some(Some(id)) {
      assert id in s.sessions && w in s.sessions[id] <==> LiveIn(events, w) == Some(Some(id));
    }
  }

  lemma CloseAgrees(s: State, events: seq<Event>, ws: Socket)
    requires Agrees(s, events)
    ensures Agrees(Step(s, Close(ws)), events + [Close(ws)])
  {
  }

  /** After every plausible sequence of events the index agrees with the history. */
  lemma {:induction false} RunAgrees(events: seq<Event>)
    requires Plausible(events)
    ensures Agrees(Run(events), events)
  {
    if events != [] {
      var n := |events| - 1;
      var before := events[..n];
      forall i | 0 <= i < n && before[i].Connect? ensures LiveIn(before[..i], before[i].ws) == None {
        assert before[..i] == events[..i] && before[i] == events[i];
      }
      RunAgrees(before);
      StepAgrees(Run(before), before, events[n]);
      assert before + [events[n]] == events;
    }
  }

  // ----- routing

  /** parsed?.meta?.sessionId when it is a non-empty string; a message that is not JSON has none. */
  function Target(message: Option<Json>): Option<string> {
    if message == None then None
    else
      var id := Field(Field(message.value, "meta"), "sessionId");
      if id.Str? && id.s != "" then Some(id.s) else None
  }

  /** The message is an object whose meta is an object whose sessionId is this non-empty string. */
  ghost predicate Names(message: Option<Json>, sid: string) {
    && sid != ""
    && message.Some? && message.value.Obj? && "meta" in message.value.fields
    && var meta := message.value.fields["meta"];
       meta.Obj? && "sessionId" in meta.fields && meta.fields["sessionId"] == Str(sid)
  }

  lemma TargetIsNamed(message: Option<Json>, sid: string)
    ensures Target(message) == Some(sid) <==> Names(message, sid)
  {
  }

  /** The sockets a message must reach, from the history and the shape of the message alone. */
  ghost predicate MustReach(events: seq<Event>, message: Option<Json>, ws: Socket) {
    && OpenIn(events, ws)
    && forall sid :: Names(message, sid) ==> LiveIn(events, ws) == Some(Some(sid))
  }

  function Recipients(s: State, message: Option<Json>): set<Socket> {
    var target := Target(message);
    if target.Some? then
      if target.value in s.sessions then s.sessions[target.value] * s.open else {}
    else s.captured.Keys * s.open
  }

  /** Every message reaches exactly the sockets it must, after every history. */
  lemma DispatchReaches(events: seq<Event>, message: Option<Json>, ws: Socket)
    requires Plausible(events)
    ensures ws in Recipients(Run(events), message) <==> MustReach(events, message, ws)
  {
    hide Run, LiveIn, OpenIn, Names, Plausible;
    RunAgrees(events);
    var s := Run(events);
    forall sid ensures Target(message) == Some(sid) <==> Names(message, sid) {
      TargetIsNamed(message, sid);
    }
    if Target(message).Some? {
      var sid := Target(message).value;
      assert Names(message, sid);
      assert sid in s.sessions && ws in s.sessions[sid] <==> LiveIn(events, ws) == Some(Some(sid));
    }
  }

  /**
   * A message that names no session goes to every open socket: one that is not JSON, one without meta, one whose
   * sessionId is missing, empty or not a string.
   */
  lemma NoTargetMeansBroadcast(events: seq<Event>, message: Option<Json>, ws: Socket)
    requires Plausible(events) && forall sid :: !Names(message, sid)
    ensures ws in Recipients(Run(events), message) <==> OpenIn(events, ws)
  {
    hide Run, LiveIn, OpenIn, Names, Plausible, Recipients;
    DispatchReaches(events, message, ws);
  }

  // ----- the gateway

  class Gateway {
    var sessions: Index
    var clients: set<Socket>
    var open: set<Socket>
    var captured: map<Socket, Option<string>>
    ghost var history: seq<Event>

    ghost function Now(): State
      reads this
    {
      State(sessions, captured, open)
    }

    ghost predicate Valid()
      reads this
    {
      Plausible(history) && Now() == Run(history) && clients == captured.Keys
    }

    constructor ()
      ensures Valid() && history == []
    {
      sessions, clients, open, captured, history := map[], {}, {}, map[], [];
    }

    /** The connection handler; it leaves a close handler that has captured the session id. */
    method OnConnection(ws: Socket, query: Option<string>)
      requires Valid() && ws !in clients
      modifies this
      ensures Valid() && history == old(history) + [Connect(ws, query)]
    {
      hide Plausible, Run, LiveIn, OpenIn, Step, Added;
      ConnectStep(Now(), ws, query);
      AddedCases(sessions, SessionOf(query), ws);
      NotLive(history, ws);
      PlausibleStep(history, Connect(ws, query));
      RunStep(history, Connect(ws, query));
      var sessionId := SessionOf(query);
      if sessionId.Some? {
        if sessionId.value !in sessions {
          sessions := sessions[sessionId.value := {}];
        }
        sessions := sessions[sessionId.value := sessions[sessionId.value] + {ws}];
      }
      clients := clients + {ws};
      open := open + {ws};
      captured := captured[ws := sessionId];
      history := history + [Connect(ws, query)];
      assert sessions == Added(old(sessions), sessionId, ws);
    }

    /** The socket leaves the OPEN state; its close event comes later. */
    method OnClosing(ws: Socket)
      requires Valid() && ws in clients
      modifies this
      ensures Valid() && history == old(history) + [Closing(ws)]
    {
      hide Plausible, Run, LiveIn, OpenIn;
      PlausibleStep(history, Closing(ws));
      RunStep(history, Closing(ws));
      open := open - {ws};
      history := history + [Closing(ws)];
    }

    /** The close handler. */
    method OnClose(ws: Socket)
      requires Valid() && ws in clients
      modifies this
      ensures Valid() && history == old(history) + [Close(ws)]
    {
      hide Plausible, Run, LiveIn, OpenIn, Step, Removed;
      PlausibleStep(history, Close(ws));
      RunStep(history, Close(ws));
      CloseStep(Now(), ws);
      RemovedCases(sessions, captured[ws], ws);
      var sessionId := captured[ws];
      if sessionId.Some? && sessionId.value in sessions {
        var bucket := sessions[sessionId.value] - {ws};
        sessions := sessions[sessionId.value := bucket];
        if |bucket| == 0 {
          sessions := sessions - {sessionId.value};
        }
      }
      clients := clients - {ws};
      open := open - {ws};
      captured := captured - {ws};
      history := history + [Close(ws)];
      assert sessions == Removed(old(sessions), sessionId, ws);
    }

    method SendToOpen(targets: set<Socket>) returns (sent: seq<Socket>)
      ensures forall ws: Socket :: multiset(sent)[ws] == if ws in targets && ws in open then 1 else 0
    {
      sent := [];
      var rest := targets;
      while rest != {}
        invariant rest <= targets
        invariant forall ws: Socket :: multiset(sent)[ws] == if ws in targets - rest && ws in open then 1 else 0
        decreases rest
      {
        var client :| client in rest;
        rest := rest - {client};
        if client in open {
          sent := sent + [client];
        }
      }
    }

    /** Each socket that must get the message gets it once; no other socket gets it. */
    method Dispatch(message: Option<Json>) returns (sent: seq<Socket>)
      requires Valid()
      ensures forall ws: Socket :: multiset(sent)[ws] == if MustReach(history, message, ws) then 1 else 0
    {
      var sessionId := Target(message);
      if sessionId.Some? {
        if sessionId.value !in sessions {
          sent := [];
        } else {
          sent := SendToOpen(sessions[sessionId.value]);
        }
      } else {
        sent := SendToOpen(clients);
      }
      forall ws: Socket ensures ws in Recipients(Now(), message) <==> MustReach(history, message, ws) {
        DispatchReaches(history, message, ws);
      }
    }
  }

  lemma ConnectStep(s: State, ws: Socket, query: Option<string>)
    ensures Step(s, Connect(ws, query))
         == State(Added(s.sessions, SessionOf(query), ws), s.captured[ws := SessionOf(query)], s.open + {ws})
  {
  }

  lemma CloseStep(s: State, ws: Socket)
    requires ws in s.captured
    ensures Step(s, Close(ws)) == State(Removed(s.sessions, s.captured[ws], ws), s.captured - {ws}, s.open - {ws})
  {
  }

  lemma AddedCases(sessions: Index, sid: Option<string>, ws: Socket)
    ensures sid == None ==> Added(sessions, sid, ws) == sessions
    ensures sid.Some? && sid.value in sessions ==>
              Added(sessions, sid, ws) == sessions[sid.value := sessions[sid.value] + {ws}]
    ensures sid.Some? && sid.value !in sessions ==>
              Added(sessions, sid, ws) == sessions[sid.value := {}][sid.value := {} + {ws}]
  {
  }

  lemma RemovedCases(sessions: Index, sid: Option<string>, ws: Socket)
    ensures sid == None || sid.value !in sessions ==> Removed(sessions, sid, ws) == sessions
    ensures sid.Some? && sid.value in sessions ==>
              Removed(sessions, sid, ws)
              == if |sessions[sid.value] - {ws}| == 0 then sessions[sid.value := sessions[sid.value] - {ws}] - {sid.value}
                 else sessions[sid.value := sessions[sid.value] - {ws}]
  {
  }

  lemma RunStep(events: seq<Event>, e: Event)
    ensures Run(events + [e]) == Step(Run(events), e)
  {
    assert (events + [e])[..|events|] == events;
  }

  lemma NotLive(events: seq<Event>, ws: Socket)
    requires Plausible(events) && ws !in Run(events).captured
    ensures LiveIn(events, ws) == None
  {
    hide Run, LiveIn, OpenIn, Plausible;
    RunAgrees(events);
  }

  lemma PlausibleStep(events: seq<Event>, e: Event)
    requires Plausible(events) && (e.Connect? ==> LiveIn(events, e.ws) == None)
    ensures Plausible(events + [e])
  {
    var after := events + [e];
    forall i | 0 <= i < |after| && after[i].Connect? ensures LiveIn(after[..i], after[i].ws) == None {
      if i < |events| {
        assert after[..i] == events[..i] && after[i] == events[i];
      } else {
        assert after[..i] == events;
      }
    }
  }
}
