/** The daemon and the proxy in their own, imperative form; every method is tied to the step it performs. */
module DaemonServer {
  import opened Common
  import opened DaemonSpec
  import opened DaemonProtocol

  /** The owner has been announced to the first n live sessions, where they are authenticated, and to nobody else. */
  ghost predicate Announced(s: Server, sockets: map<SessionId, seq<Control>>, n: nat)
    requires Shaped(s) && s.owner.Some? && n <= |s.live|
  {
    && sockets.Keys == s.wire.Keys
    && (forall id :: id in s.wire && id !in s.live ==> sockets[id] == s.wire[id])
    && (forall k :: 0 <= k < n ==>
          sockets[s.live[k]] == if s.records[s.live[k]].authenticated
                                then s.wire[s.live[k]] + [OwnerChanged(s.owner.value)]
                                else s.wire[s.live[k]])
    && (forall k :: n <= k < |s.live| ==> sockets[s.live[k]] == s.wire[s.live[k]])
  }

  lemma OneMoreAnnounced(s: Server, sockets: map<SessionId, seq<Control>>, n: nat)
    requires Shaped(s) && NoDuplicates(s.live) && s.owner.Some? && n < |s.live| && Announced(s, sockets, n)
    ensures var id := s.live[n];
            var more := if s.records[id].authenticated then Post(sockets, id, OwnerChanged(s.owner.value)) else sockets;
            Announced(s, more, n + 1)
  {
  }

  /** Announcing the owner session by session, in map order, amounts to the broadcast. */
  lemma EverySocketAnnounced(s: Server, sockets: map<SessionId, seq<Control>>)
    requires Shaped(s) && s.owner.Some? && Announced(s, sockets, |s.live|)
    ensures sockets == Broadcast(s).wire
  {
    forall id | id in s.wire ensures sockets[id] == Broadcast(s).wire[id] {
      if id in s.live {
        var k :| 0 <= k < |s.live| && s.live[k] == id;
      }
    }
  }

  class DaemonServer {
    const settings: Settings
    var sessions: map<SessionId, Session>
    var order: seq<SessionId>
    var closing: set<SessionId>
    var ownerSessionId: Option<SessionId>
    var idleTimer: Option<nat>
    var pendingTimers: set<nat>
    var timersMade: nat
    var activeConnections: int
    var sockets: map<SessionId, seq<Control>>
    var stopped: bool
    ghost var late: set<SessionId>
    ghost var released: multiset<SessionId>

    ghost function State(): Server
      reads this
    {
      Server(sessions, order, closing, ownerSessionId, idleTimer, pendingTimers, timersMade,
             activeConnections, sockets, stopped, late, released)
    }

    constructor (settings: Settings)
      ensures State() == INITIAL && this.settings == settings
    {
      this.settings := settings;
      sessions, order, closing := map[], [], {};
      ownerSessionId, idleTimer, pendingTimers, timersMade := None, None, {}, 0;
      activeConnections, sockets, stopped := 0, map[], false;
      late, released := {}, multiset{};
    }

    method SendControl(id: SessionId, m: Control)
      modifies this`sockets
      ensures sockets == Post(old(sockets), id, m)
    {
      if id in sockets {
        sockets := sockets[id := sockets[id] + [m]];
      }
    }

    method BroadcastOwnerChange()
      requires Shaped(State()) && NoDuplicates(order)
      modifies this`sockets
      ensures State() == Broadcast(old(State()))
    {
      if ownerSessionId == None {
        return;
      }
      ghost var s := State();
      var news := OwnerChanged(ownerSessionId.value);
      for i := 0 to |order|
        invariant Announced(s, sockets, i)
      {
        OneMoreAnnounced(s, sockets, i);
        if sessions[order[i]].authenticated {
          SendControl(order[i], news);
        }
      }
      EverySocketAnnounced(s, sockets);
    }

    /** The first session of the stable sort of the authenticated ones by connection time. */
    method EarliestAuthenticated() returns (next: Option<SessionId>)
      requires Shaped(State())
      ensures next == Elect(sessions, order)
    {
      next := None;
      for i := 0 to |order|
        invariant next == Elect(sessions, order[..i])
      {
        assert order[..i + 1][..i] == order[..i];
        var id := order[i];
        if sessions[id].authenticated {
          if next == None || sessions[id].connectedAt < sessions[next.value].connectedAt {
            next := Some(id);
          }
        }
      }
      assert order[..|order|] == order;
    }

    method AssignOwnerIfNeeded()
      requires Shaped(State()) && NoDuplicates(order)
      modifies this`ownerSessionId, this`sockets
      ensures State() == AssignOwner(old(State()))
    {
      if ownerSessionId == None {
        var next := EarliestAuthenticated();
        if next.Some? {
          ownerSessionId := next;
          BroadcastOwnerChange();
        }
      }
    }

    method ClearIdleTimer()
      modifies this`idleTimer, this`pendingTimers
      ensures State() == ClearIdle(old(State()))
    {
      if idleTimer.Some? {
        pendingTimers := pendingTimers - {idleTimer.value};
        idleTimer := None;
      }
    }

    method StartIdleTimer()
      modifies this`idleTimer, this`pendingTimers, this`timersMade
      ensures State() == ArmIdle(old(State()))
    {
      if idleTimer.Some? {
        pendingTimers := pendingTimers - {idleTimer.value};
      }
      idleTimer := Some(timersMade);
      pendingTimers := pendingTimers + {timersMade};
      timersMade := timersMade + 1;
    }

    method HandleIdleTimeout(timer: nat)
      requires timer in pendingTimers
      modifies this`pendingTimers, this`stopped
      ensures State() == Fire(old(State()), timer)
    {
      pendingTimers := pendingTimers - {timer};
      if |order| > 0 {
        return;
      }
      stopped := true;
    }

    method IncrementActiveConnections()
      modifies this`activeConnections
      ensures State() == old(State()).(connections := old(activeConnections) + 1)
    {
      activeConnections := activeConnections + 1;
    }

    method DecrementActiveConnections()
      modifies this`activeConnections
      ensures State() == old(State()).(connections := Decremented(old(activeConnections)))
    {
      activeConnections := if 0 < activeConnections - 1 then activeConnections - 1 else 0;
    }

    method HandleConnection(id: SessionId, now: int)
      requires id !in sessions
      modifies this`sessions, this`order, this`sockets
      ensures State() == Connect(old(State()), id, now)
    {
      sessions := sessions[id := Session(false, now, now, None)];
      order := order + [id];
      sockets := sockets[id := []];
    }

    /** The hello case of the control handler. */
    method HandleHello(id: SessionId, clientId: Option<string>, secret: Option<string>, now: int)
      requires id in sessions && Shaped(State()) && NoDuplicates(order)
      modifies this
      ensures State() == ServerStep(settings, old(State()), Hello(id, clientId, secret, now))
    {
      if settings.sharedSecret.Some? && secret != settings.sharedSecret {
        SendControl(id, Refused);
        return;
      }
      ghost var s := State();
      if clientId.Some? {
        sessions := sessions[id := sessions[id].(clientId := clientId)];
      }
      assert State() == Named(s, id, clientId);
      Admit(id);
      AcknowledgeHello(id, now);
    }

    method AcknowledgeHello(id: SessionId, now: int)
      requires id in sessions
      modifies this`sessions, this`sockets
      ensures State() == Acknowledge(old(State()), id, now)
    {
      sessions := sessions[id := sessions[id].(lastSeen := now)];
      SendControl(id, HelloAck(id, ownerSessionId == Some(id)));
    }

    /** The part of the hello case that runs once per session. */
    method Admit(id: SessionId)
      requires id in sessions && Shaped(State()) && NoDuplicates(order)
      modifies this
      ensures State() == Authenticate(old(State()), id)
    {
      if !sessions[id].authenticated {
        MarkAuthenticated(id);
        ElectAndDisarm();
      }
    }

    method MarkAuthenticated(id: SessionId)
      requires id in sessions
      modifies this`sessions, this`activeConnections, this`late
      ensures State() == Marked(old(State()), id)
    {
      late := if Gone(State(), id) then late + {id} else late;
      sessions := sessions[id := sessions[id].(authenticated := true)];
      IncrementActiveConnections();
    }

    method ElectAndDisarm()
      requires Shaped(State()) && NoDuplicates(order)
      modifies this`ownerSessionId, this`sockets, this`idleTimer, this`pendingTimers
      ensures State() == ClearIdle(AssignOwner(old(State())))
    {
      AssignOwnerIfNeeded();
      ClearIdleTimer();
    }

    /** A heartbeat. */
    method HandleHeartbeat(id: SessionId, now: int)
      requires id in sessions
      modifies this`sessions
      ensures State() == Touch(old(State()), id, now)
    {
      if !sessions[id].authenticated {
        return;
      }
      sessions := sessions[id := sessions[id].(lastSeen := now)];
    }

    /** handleDisconnect up to its first await. */
    method HandleDisconnect(id: SessionId)
      modifies this`order, this`closing
      ensures State() == BeginDisconnect(old(State()), id)
    {
      if id !in order {
        return;
      }
      order := Without(order, id);
      closing := closing + {id};
    }

    /** handleDisconnect from the last await on. */
    method AfterClose(id: SessionId)
      requires id in closing && Shaped(State()) && NoDuplicates(order)
      modifies this
      ensures State() == FinishDisconnect(old(State()), id)
    {
      CloseSession(id);
      PassOwnershipOn(id);
      if |order| == 0 {
        StartIdleTimer();
      }
    }

    method CloseSession(id: SessionId)
      requires id in sessions
      modifies this`closing, this`activeConnections, this`released
      ensures State() == Closed(old(State()), id)
    {
      closing := closing - {id};
      if sessions[id].authenticated {
        DecrementActiveConnections();
        released := released + multiset{id};
      }
    }

    method PassOwnershipOn(id: SessionId)
      requires Shaped(State()) && NoDuplicates(order)
      modifies this`ownerSessionId, this`sockets
      ensures State() == HandOver(old(State()), id)
    {
      if ownerSessionId == Some(id) {
        ownerSessionId := None;
        AssignOwnerIfNeeded();
      }
    }

    /** One iteration of the sweep, up to the await inside it. */
    method SweepSession(id: SessionId, now: int)
      requires id in order && id in sessions
      modifies this`order, this`closing
      ensures State() == SweepOne(old(State()), id, now, settings.heartbeatTimeoutMs)
    {
      if now - sessions[id].lastSeen > settings.heartbeatTimeoutMs {
        HandleDisconnect(id);
      }
    }
  }

  /** The two variables the proxy keeps about itself. */
  class ProxyBridge {
    var sessionId: Option<SessionId>
    var isOwner: bool

    ghost function View(): ProxyView
      reads this
    {
      ProxyView(sessionId, isOwner)
    }

    constructor ()
      ensures View() == ProxyView(None, false)
    {
      sessionId, isOwner := None, false;
    }

    method HandleControl(m: Control)
      modifies this
      ensures View() == OnControl(old(View()), m)
    {
      match m
      case HelloAck(id, owns) =>
        sessionId := Some(id);
        isOwner := owns;
      case OwnerChanged(owner) =>
        isOwner := Some(owner) == sessionId;
      case Refused =>
    }
  }
}
