/** What the ownership protocol promises, over every run. */
module DaemonTheorems {
  import opened Common
  import opened DaemonSpec
  import opened DaemonProtocol

  lemma RunIsConsistent(c: Settings, events: seq<Event>)
    ensures Consistent(Run(c, START, events))
  {
    RunKeeps(c, START, events);
  }

  /** At any point of message delivery at most one live session's proxy believes it is the owner, and it is right. */
  lemma AtMostOneOwner(c: Settings, events: seq<Event>, a: SessionId, b: SessionId)
    requires var w := Run(c, START, events);
             && a in w.server.live && b in w.server.live
             && a in w.views && w.views[a].isOwner
             && b in w.views && w.views[b].isOwner
    ensures a == b && Run(c, START, events).server.owner == Some(a)
  {
    RunIsConsistent(c, events);
  }

  /** Handling what is on the wire brings every live authenticated proxy to the truth. */
  lemma ViewsConverge(c: Settings, events: seq<Event>, id: SessionId)
    requires id in Run(c, START, events).server.live && Eligible(Run(c, START, events).server.records, id)
    ensures var w := Run(c, START, events);
            && id in w.views && id in w.server.wire
            && Settled(w.views[id], w.server.wire[id]) == ProxyView(Some(id), w.server.owner == Some(id))
  {
    RunIsConsistent(c, events);
  }

  /** Without an owner nobody live is authenticated; an owner is authenticated and not yet gone. */
  lemma OwnerIsAccountedFor(c: Settings, events: seq<Event>)
    ensures var s := Run(c, START, events).server;
            && (s.owner == None <==> forall id :: Eligible(s.records, id) ==> id !in s.live && s.owner != Some(id))
            && (s.owner.Some? ==>
                  Eligible(s.records, s.owner.value) && (s.owner.value in s.live || s.owner.value in s.closing))
  {
    RunIsConsistent(c, events);
  }

  // ------------------------------------------------------------------ stability of the owner

  /** Sessions never come back: a session that is live now, and was known before, was live before. */
  lemma StepIsStable(c: Settings, w: World, e: Event, id: SessionId)
    requires Shaped(w.server) && (forall x :: x in w.server.live ==> x !in w.server.closing) && id in w.server.records
    ensures var s, s' := w.server, Step(c, w, e).server;
            && id in s'.records
            && (id in s'.live ==> id in s.live)
            && (id in s'.live && s.owner == Some(id) ==> s'.owner == Some(id))
  {
  }

  lemma {:induction false} OwnerStableFrom(c: Settings, w: World, events: seq<Event>, id: SessionId)
    requires Consistent(w) && w.server.owner == Some(id) && id in w.server.records
    ensures var w' := Run(c, w, events);
            && id in w'.server.records
            && (id in w'.server.live ==> w'.server.owner == Some(id) && id in w.server.live)
  {
    if events != [] {
      var init := events[..|events| - 1];
      OwnerStableFrom(c, w, init, id);
      RunKeeps(c, w, init);
      StepIsStable(c, Run(c, w, init), events[|events| - 1], id);
    }
  }

  lemma {:induction false} RunConcat(c: Settings, w: World, a: seq<Event>, b: seq<Event>)
    ensures Run(c, w, a + b) == Run(c, Run(c, w, a), b)
  {
    if b == [] {
      assert a + b == a;
    } else {
      assert (a + b)[..|a + b| - 1] == a + b[..|b| - 1];
      RunConcat(c, w, a, b[..|b| - 1]);
    }
  }

  /** The owner never changes while its session is live. */
  lemma OwnerKeptWhileLive(c: Settings, past: seq<Event>, future: seq<Event>, id: SessionId)
    requires Run(c, START, past).server.owner == Some(id)
    requires id in Run(c, START, past + future).server.live
    ensures Run(c, START, past + future).server.owner == Some(id)
  {
    RunIsConsistent(c, past);
    RunConcat(c, START, past, future);
    OwnerStableFrom(c, Run(c, START, past), future, id);
  }

  lemma HelloElects(s: Server, id: SessionId, clientId: Option<string>, now: int)
    ensures var r := AcceptHello(s, id, clientId, now);
            r.owner != s.owner ==> r.owner == Elect(r.records, r.live)
  {
    if id in s.records {
      var s1 := Authenticate(Named(s, id, clientId), id);
      // lastSeen, written after the election, has no influence on it
      ElectIgnoresLastSeen(s1.records, Acknowledge(s1, id, now).records, s.live);
    }
  }

  lemma FinishElects(s: Server, id: SessionId)
    ensures var r := FinishDisconnect(s, id);
            r.owner != s.owner ==> r.owner == Elect(r.records, r.live)
  {
  }

  lemma OwnerChangeIsAnElection(c: Settings, w: World, e: Event)
    ensures var s' := Step(c, w, e).server;
            s'.owner != w.server.owner ==> s'.owner == Elect(s'.records, s'.live)
  {
    match e
    case Hello(id, clientId, _, now) => HelloElects(w.server, id, clientId, now);
    case DisconnectFinishes(id) => FinishElects(w.server, id);
    case _ =>
  }

  lemma {:induction false} ElectIgnoresLastSeen(
      a: map<SessionId, Session>, b: map<SessionId, Session>, live: seq<SessionId>)
    requires a.Keys == b.Keys
    requires forall id :: id in a ==>
               a[id].authenticated == b[id].authenticated && a[id].connectedAt == b[id].connectedAt
    ensures Elect(a, live) == Elect(b, live)
  {
    if live != [] {
      ElectIgnoresLastSeen(a, b, live[..|live| - 1]);
    }
  }

  /** Whenever the owner changes, the new one is the authenticated live session that connected first. */
  lemma ElectionsPickTheEarliest(c: Settings, events: seq<Event>, e: Event)
    ensures var s := Run(c, START, events).server;
            var s' := Run(c, START, events + [e]).server;
            s'.owner != s.owner ==> Earliest(s'.records, s'.live, s'.owner)
  {
    RunIsConsistent(c, events);
    assert (events + [e])[..|events + [e]| - 1] == events;
    var w := Run(c, START, events);
    OwnerChangeIsAnElection(c, w, e);
    var s' := Step(c, w, e).server;
    ElectIsEarliest(s'.records, s'.live);
  }

  // ------------------------------------------------------------------ arrival order

  ghost predicate InArrivalOrder(s: Server) {
    && (forall id :: id in s.live ==> id in s.records)
    && ArrivalOrdered(s.records, s.live)
  }

  /** The connections of a run happen at non-decreasing times, none later than `latest`. */
  ghost predicate ClockMonotone(events: seq<Event>, latest: int) {
    && (forall i :: 0 <= i < |events| && events[i].Connected? ==> events[i].now <= latest)
    && (forall i, j :: 0 <= i < j < |events| && events[i].Connected? && events[j].Connected? ==>
          events[i].now <= events[j].now)
  }

  ghost predicate ArrivalOrdered(records: map<SessionId, Session>, live: seq<SessionId>)
    requires forall id :: id in live ==> id in records
  {
    forall i, j :: 0 <= i < j < |live| ==> records[live[i]].connectedAt <= records[live[j]].connectedAt
  }

  lemma {:induction false} WithoutKeepsOrder(records: map<SessionId, Session>, live: seq<SessionId>, x: SessionId)
    requires forall id :: id in live ==> id in records
    requires ArrivalOrdered(records, live)
    ensures ArrivalOrdered(records, Without(live, x))
  {
    if live != [] {
      WithoutKeepsOrder(records, live[1..], x);
      OrderedWithFirst(records, live, Without(live[1..], x));
    }
  }

  lemma OrderedWithFirst(records: map<SessionId, Session>, live: seq<SessionId>, rest: seq<SessionId>)
    requires live != [] && (forall id :: id in live ==> id in records) && ArrivalOrdered(records, live)
    requires (forall id :: id in rest ==> id in live) && ArrivalOrdered(records, rest)
    ensures ArrivalOrdered(records, [live[0]] + rest)
  {
    forall j | 0 <= j < |rest| ensures records[live[0]].connectedAt <= records[rest[j]].connectedAt {
      FirstArrived(records, live, rest[j]);
    }
  }

  lemma FirstArrived(records: map<SessionId, Session>, live: seq<SessionId>, id: SessionId)
    requires forall x :: x in live ==> x in records
    requires ArrivalOrdered(records, live) && id in live
    ensures records[live[0]].connectedAt <= records[id].connectedAt
  {
    var k :| 0 <= k < |live| && live[k] == id;
  }

  lemma {:induction false} RunInArrivalOrder(c: Settings, events: seq<Event>, latest: int)
    requires ClockMonotone(events, latest)
    ensures InArrivalOrder(Run(c, START, events).server)
    ensures forall id :: id in Run(c, START, events).server.live ==>
              Run(c, START, events).server.records[id].connectedAt <= latest
  {
    if events != [] {
      var init, e := events[..|events| - 1], events[|events| - 1];
      RunInArrivalOrder(c, init, if e.Connected? then e.now else latest);
      RunIsConsistent(c, init);
      var w := Run(c, START, init);
      var w' := Step(c, w, e);
      StepKeepsRecords(c, w, e);
      StepMovesLive(c, w, e);
      match e
      case DisconnectBegins(id) => WithoutKeepsOrder(w.server.records, w.server.live, id);
      case Swept(id, now) => WithoutKeepsOrder(w.server.records, w.server.live, id);
      case _ =>
    }
  }

  /** Connection times are fixed and the live list only grows at the end or loses members. */
  lemma StepKeepsRecords(c: Settings, w: World, e: Event)
    requires Shaped(w.server)
    ensures RecordsKept(w.server, Step(c, w, e).server)
  {
    match e
    case Hello(id, clientId, _, now) => HelloKeepsRecords(w.server, id, clientId, now);
    case _ =>
  }

  ghost predicate RecordsKept(s: Server, s': Server) {
    s.records.Keys <= s'.records.Keys
    && forall id :: id in s.records ==> s'.records[id].connectedAt == s.records[id].connectedAt
  }

  lemma HelloKeepsRecords(s: Server, id: SessionId, clientId: Option<string>, now: int)
    requires Shaped(s)
    ensures RecordsKept(s, AcceptHello(s, id, clientId, now))
  {
  }

  lemma StepMovesLive(c: Settings, w: World, e: Event)
    requires Shaped(w.server)
    ensures var s, s' := w.server, Step(c, w, e).server;
            match e
            case Connected(id, now) =>
              s' == s || (s'.live == s.live + [id] && id in s'.records && s'.records[id].connectedAt == now)
            case DisconnectBegins(id) => s'.live == s.live || s'.live == Without(s.live, id)
            case Swept(id, _) => s'.live == s.live || s'.live == Without(s.live, id)
            case _ => s'.live == s.live
  {
  }

  /** With a clock that never runs backwards the winner is simply the first authenticated entry of the sessions map. */
  lemma ElectionIsFirstInMapOrder(c: Settings, events: seq<Event>, latest: int, k: nat)
    requires ClockMonotone(events, latest)
    requires var s := Run(c, START, events).server;
             && k < |s.live| && Eligible(s.records, s.live[k])
             && (forall i :: 0 <= i < k ==> !Eligible(s.records, s.live[i]))
    ensures var s := Run(c, START, events).server;
            Elect(s.records, s.live) == Some(s.live[k])
  {
    RunInArrivalOrder(c, events, latest);
    var s := Run(c, START, events).server;
    assert Earliest(s.records, s.live, Some(s.live[k])) by {
      var x := s.live[k];
      assert s.live[k] == x && Eligible(s.records, x);
    }
    ElectIsEarliest(s.records, s.live);
    EarliestIsUnique(s.records, s.live, Elect(s.records, s.live), Some(s.live[k]));
  }

  // ------------------------------------------------------------------ the active-connection counter

  /** The authenticated sessions that are live or in the middle of disconnecting. */
  function Held(s: Server): set<SessionId> {
    set id | id in s.records && s.records[id].authenticated && (id in s.live || id in s.closing)
  }

  ghost predicate Counted(s: Server) {
    && s.connections == |Held(s)| + |s.late|
    && (forall id :: id in s.late ==> Gone(s, id) && s.records[id].authenticated)
    && (forall id :: s.released[id] == if Gone(s, id) && s.records[id].authenticated && id !in s.late then 1 else 0)
  }

  /** The count depends on which sessions are authenticated, live and closing, and on nothing else. */
  lemma SameCount(s: Server, r: Server)
    requires Counted(s)
    requires r.records.Keys == s.records.Keys && r.live == s.live && r.closing == s.closing
    requires forall id :: id in s.records ==> r.records[id].authenticated == s.records[id].authenticated
    requires r.connections == s.connections && r.late == s.late && r.released == s.released
    ensures Counted(r)
  {
    assert Held(r) == Held(s);
  }

  lemma MarkCounts(s: Server, id: SessionId)
    requires Shaped(s) && Counted(s) && id in s.records && !s.records[id].authenticated
    ensures Counted(Marked(s, id))
  {
    MarkHolds(s, id);
    assert id !in s.late;
  }

  lemma MarkHolds(s: Server, id: SessionId)
    requires Shaped(s) && id in s.records && !s.records[id].authenticated
    ensures |Held(Marked(s, id))| == |Held(s)| + if Gone(s, id) then 0 else 1
  {
    assert id !in Held(s);
    assert Held(Marked(s, id)) == if Gone(s, id) then Held(s) else Held(s) + {id};
  }

  lemma AuthenticateCounts(s: Server, id: SessionId)
    requires Shaped(s) && Counted(s) && id in s.records
    ensures Counted(Authenticate(s, id))
  {
    if !s.records[id].authenticated {
      MarkCounts(s, id);
      SameCount(Marked(s, id), Authenticate(s, id));
    }
  }

  lemma AcknowledgeCounts(s: Server, id: SessionId, now: int)
    requires Counted(s) && id in s.records
    ensures Counted(Acknowledge(s, id, now))
  {
    SameCount(s, Acknowledge(s, id, now));
  }

  lemma HelloCounts(s: Server, id: SessionId, clientId: Option<string>, now: int)
    requires Shaped(s) && Counted(s)
    ensures Counted(AcceptHello(s, id, clientId, now))
  {
    if id in s.records {
      var named := Named(s, id, clientId);
      SameCount(s, named);
      AuthenticateCounts(named, id);
      AcknowledgeCounts(Authenticate(named, id), id, now);
    }
  }

  lemma CloseCounts(s: Server, id: SessionId)
    requires Shaped(s) && Counted(s) && id in s.closing && id !in s.live
    ensures Counted(Closed(s, id))
    ensures Eligible(s.records, id) ==> s.connections >= 1 && s.released[id] == 0
  {
    var r := Closed(s, id);
    assert id in s.records && !Gone(s, id);
    if Eligible(s.records, id) {
      assert id in Held(s);
      assert Held(r) == Held(s) - {id};
      assert |Held(s)| >= 1;
    } else {
      assert Held(r) == Held(s);
    }
  }

  lemma FinishCounts(s: Server, id: SessionId)
    requires Shaped(s) && Counted(s) && (forall x :: x in s.live ==> x !in s.closing)
    ensures Counted(FinishDisconnect(s, id))
    ensures id in s.closing && Eligible(s.records, id) ==>
              && s.connections >= 1
              && FinishDisconnect(s, id).connections == s.connections - 1
              && s.released[id] == 0
              && FinishDisconnect(s, id).released == s.released + multiset{id}
  {
    if id in s.closing {
      CloseCounts(s, id);
      SameCount(Closed(s, id), FinishDisconnect(s, id));
    }
  }

  lemma BeginCounts(s: Server, id: SessionId)
    requires Counted(s)
    ensures Counted(BeginDisconnect(s, id))
  {
    assert Held(BeginDisconnect(s, id)) == Held(s);
  }

  lemma ConnectCounts(s: Server, id: SessionId, now: int)
    requires Counted(s) && Shaped(s)
    ensures Counted(Connect(s, id, now))
  {
    assert Held(Connect(s, id, now)) == Held(s);
  }

  /** Refused hellos, traffic, timer firings and deliveries concern the count in no way. */
  lemma QuietCounts(c: Settings, w: World, e: Event)
    requires Counted(w.server) && !w.server.stopped
    requires e.Traffic? || e.TimerFires? || e.Delivered? || (e.Hello? && !Accepts(c.sharedSecret, e.secret))
    ensures Counted(Step(c, w, e).server)
  {
    SameCount(w.server, Step(c, w, e).server);
  }

  lemma StepCounts(c: Settings, w: World, e: Event)
    requires Consistent(w) && Counted(w.server)
    ensures Counted(Step(c, w, e).server)
  {
    var s := w.server;
    if !s.stopped {
      match e
      case Connected(id, now) => ConnectCounts(s, id, now);
      case Hello(id, clientId, secret, now) =>
        if Accepts(c.sharedSecret, secret) {
          HelloCounts(s, id, clientId, now);
        } else {
          QuietCounts(c, w, e);
        }
      case DisconnectBegins(id) => BeginCounts(s, id);
      case DisconnectFinishes(id) => FinishCounts(s, id);
      case Swept(id, _) => BeginCounts(s, id);
      case _ => QuietCounts(c, w, e);
    }
  }

  lemma {:induction false} RunCounts(c: Settings, events: seq<Event>)
    ensures Counted(Run(c, START, events).server)
  {
    if events != [] {
      var init := events[..|events| - 1];
      RunCounts(c, init);
      RunIsConsistent(c, init);
      StepCounts(c, Run(c, START, init), events[|events| - 1]);
    }
  }

  /** A hello that authenticates a session whose disconnect has already finished. */
  predicate LateHello(c: Settings, s: Server, e: Event) {
    && !s.stopped && e.Hello? && Accepts(c.sharedSecret, e.secret)
    && Gone(s, e.id) && !s.records[e.id].authenticated
  }

  predicate LateAt(c: Settings, events: seq<Event>, k: nat) {
    k < |events| && LateHello(c, Run(c, START, events[..k]).server, events[k])
  }

  ghost predicate NoLateHello(c: Settings, events: seq<Event>) {
    forall k: nat :: !LateAt(c, events, k)
  }

  lemma LateAtNext(c: Settings, events: seq<Event>, e: Event, k: nat)
    ensures LateAt(c, events + [e], k)
            <==> LateAt(c, events, k) || (k == |events| && LateHello(c, Run(c, START, events).server, e))
  {
    var all := events + [e];
    if k <= |events| {
      assert all[..k] == events[..k];
      assert events[..|events|] == events;
    }
  }

  lemma NoLateHelloNext(c: Settings, events: seq<Event>, e: Event)
    ensures NoLateHello(c, events + [e]) <==> NoLateHello(c, events) && !LateHello(c, Run(c, START, events).server, e)
  {
    forall k: nat
      ensures LateAt(c, events + [e], k)
              <==> LateAt(c, events, k) || (k == |events| && LateHello(c, Run(c, START, events).server, e))
    {
      LateAtNext(c, events, e, k);
    }
    assert LateAt(c, events + [e], |events|)
           <==> LateAt(c, events, |events|) || LateHello(c, Run(c, START, events).server, e);
  }

  lemma LateGrows(c: Settings, w: World, e: Event)
    ensures Step(c, w, e).server.late == w.server.late + if LateHello(c, w.server, e) then {e.id} else {}
  {
  }

  /** No session is late exactly when there was no late hello. */
  ghost predicate LateExact(c: Settings, events: seq<Event>) {
    Run(c, START, events).server.late == {} <==> NoLateHello(c, events)
  }

  lemma {:induction false} LateExactly(c: Settings, events: seq<Event>)
    ensures LateExact(c, events)
  {
    if events == [] {
      NothingLate(c);
    } else {
      LateExactly(c, events[..|events| - 1]);
      LateExactlyNext(c, events[..|events| - 1], events[|events| - 1], events);
    }
  }

  lemma NothingLate(c: Settings)
    ensures LateExact(c, [])
  {
  }

  lemma LateExactlyNext(c: Settings, events: seq<Event>, e: Event, all: seq<Event>)
    requires LateExact(c, events) && all == events + [e]
    ensures LateExact(c, all)
  {
    RunSnoc(c, START, events, e);
    LateGrows(c, Run(c, START, events), e);
    NoLateHelloNext(c, events, e);
  }

  /**
   * The counter is the number of authenticated sessions live or mid-disconnect, and it is that exactly as long as
   * no session was first authenticated after its disconnect had finished.
   */
  lemma CounterExact(c: Settings, events: seq<Event>)
    ensures var s := Run(c, START, events).server;
            && s.connections == |Held(s)| + |s.late|
            && (s.connections == |Held(s)| <==> NoLateHello(c, events))
  {
    RunCounts(c, events);
    LateExactly(c, events);
  }

  /** Every authenticated session is decremented once, when its disconnect finishes, and the clamp never acts. */
  lemma DecrementedOnce(c: Settings, events: seq<Event>, id: SessionId)
    ensures var s := Run(c, START, events).server;
            && s.released[id] <= 1
            && (s.released[id] == 1 <==> Gone(s, id) && s.records[id].authenticated && id !in s.late)
    ensures var s := Run(c, START, events).server;
            id in s.closing && Eligible(s.records, id) ==>
              && Decremented(s.connections) == s.connections - 1
              && FinishDisconnect(s, id).released == s.released + multiset{id}
  {
    RunCounts(c, events);
    RunIsConsistent(c, events);
    FinishCounts(Run(c, START, events).server, id);
  }

  // ------------------------------------------------------------------ the idle timeout

  predicate Armed(s: Server) {
    s.idleTimer.Some? && s.idleTimer.value in s.pending
  }

  predicate Deserted(s: Server) {
    s.live == [] && s.closing == {} && s.records != map[]
  }

  /** A disconnect finishes and leaves nobody behind. */
  predicate LastOut(s: Server, e: Event) {
    !s.stopped && e.DisconnectFinishes? && e.id in s.closing && s.live == []
  }

  /** A late hello that no such departure has followed yet. */
  predicate Disarmed(c: Settings, events: seq<Event>) {
    events != [] &&
    var init, e := events[..|events| - 1], events[|events| - 1];
    var s := Run(c, START, init).server;
    LateHello(c, s, e) || (!LastOut(s, e) && Disarmed(c, init))
  }

  /** The remembered timeout is the only one, and in a deserted daemon there is one unless it was disarmed. */
  ghost predicate IdleSound(s: Server, disarmed: bool) {
    && (forall t :: t in s.pending ==> s.idleTimer == Some(t))
    && (!s.stopped && Deserted(s) ==> (Armed(s) <==> !disarmed))
  }

  lemma AuthenticateKeepsIdle(s: Server, id: SessionId, disarmed: bool)
    requires IdleSound(s, disarmed) && !s.stopped && id in s.records
    ensures IdleSound(Authenticate(s, id), (Gone(s, id) && !s.records[id].authenticated) || disarmed)
  {
  }

  lemma HelloKeepsIdle(s: Server, id: SessionId, clientId: Option<string>, now: int, disarmed: bool)
    requires IdleSound(s, disarmed) && Shaped(s) && !s.stopped
    ensures IdleSound(AcceptHello(s, id, clientId, now), (Gone(s, id) && !s.records[id].authenticated) || disarmed)
  {
    if id in s.records {
      AuthenticateKeepsIdle(Named(s, id, clientId), id, disarmed);
    }
  }

  lemma FinishKeepsIdle(s: Server, id: SessionId, disarmed: bool)
    requires IdleSound(s, disarmed) && !s.stopped
    ensures IdleSound(FinishDisconnect(s, id), !LastOut(s, DisconnectFinishes(id)) && disarmed)
  {
  }

  lemma StepKeepsIdle(c: Settings, w: World, e: Event, disarmed: bool)
    requires Shaped(w.server) && IdleSound(w.server, disarmed)
    ensures IdleSound(Step(c, w, e).server, LateHello(c, w.server, e) || (!LastOut(w.server, e) && disarmed))
  {
    if !w.server.stopped {
      match e
      case Hello(id, clientId, _, now) => HelloKeepsIdle(w.server, id, clientId, now, disarmed);
      case DisconnectFinishes(id) => FinishKeepsIdle(w.server, id, disarmed);
      case _ =>
    }
  }

  lemma {:induction false} RunKeepsIdle(c: Settings, events: seq<Event>)
    ensures IdleSound(Run(c, START, events).server, Disarmed(c, events))
  {
    if events != [] {
      var init := events[..|events| - 1];
      RunKeepsIdle(c, init);
      RunIsConsistent(c, init);
      StepKeepsIdle(c, Run(c, START, init), events[|events| - 1], Disarmed(c, init));
    }
  }

  /** Only a late hello disarms. */
  lemma {:induction false} DisarmedByLateHello(c: Settings, events: seq<Event>)
    ensures NoLateHello(c, events) ==> !Disarmed(c, events)
  {
    if events != [] {
      var init, e := events[..|events| - 1], events[|events| - 1];
      DisarmedByLateHello(c, init);
      NoLateHelloNext(c, init, e);
      assert events == init + [e];
    }
  }

  /**
   * A running daemon that everybody has left has exactly one idle timeout pending, and has none exactly when a late
   * hello was not yet followed by a last departure.
   */
  lemma DesertedDaemonWillStop(c: Settings, events: seq<Event>)
    ensures var s := Run(c, START, events).server;
            !s.stopped && Deserted(s) ==>
              && (Armed(s) <==> !Disarmed(c, events))
              && s.pending == if Armed(s) then {s.idleTimer.value} else {}
    ensures NoLateHello(c, events) ==> !Disarmed(c, events)
  {
    RunKeepsIdle(c, events);
    DisarmedByLateHello(c, events);
  }

  /** The remembered timeout is pending, and fires in a running daemon without live sessions. */
  predicate StopsAt(c: Settings, events: seq<Event>, k: nat) {
    k < |events| &&
    var s := Run(c, START, events[..k]).server;
    && !s.stopped && events[k].TimerFires? && s.live == []
    && s.idleTimer == Some(events[k].timer) && events[k].timer in s.pending
  }

  lemma StepStops(c: Settings, w: World, e: Event)
    requires !w.server.stopped && Step(c, w, e).server.stopped
    ensures e.TimerFires? && e.timer in w.server.pending && w.server.live == []
  {
  }

  lemma StopsAtLonger(c: Settings, events: seq<Event>, e: Event, k: nat)
    requires StopsAt(c, events, k)
    ensures StopsAt(c, events + [e], k)
  {
    assert (events + [e])[..k] == events[..k];
  }

  lemma StopsAtLast(c: Settings, events: seq<Event>, e: Event)
    requires !Run(c, START, events).server.stopped && Step(c, Run(c, START, events), e).server.stopped
    ensures StopsAt(c, events + [e], |events|)
  {
    RunKeepsIdle(c, events);
    StepStops(c, Run(c, START, events), e);
    assert (events + [e])[..|events|] == events;
  }

  lemma {:induction false} StaysStopped(c: Settings, events: seq<Event>, k: nat)
    requires k <= |events| && Run(c, START, events[..k]).server.stopped
    ensures Run(c, START, events).server.stopped
  {
    if k == |events| {
      assert events[..k] == events;
    } else {
      var init := events[..|events| - 1];
      assert init[..k] == events[..k];
      StaysStopped(c, init, k);
    }
  }

  lemma StopsThen(c: Settings, events: seq<Event>, k: nat)
    requires StopsAt(c, events, k)
    ensures Run(c, START, events).server.stopped
  {
    assert events[..k + 1] == events[..k] + [events[k]];
    RunSnoc(c, START, events[..k], events[k]);
    StaysStopped(c, events, k + 1);
  }

  /** The daemon has stopped exactly when the remembered timeout fired at a moment when no session was live. */
  lemma {:induction false} StopsExactlyWhenEmpty(c: Settings, events: seq<Event>)
    ensures Run(c, START, events).server.stopped <==> exists k: nat :: StopsAt(c, events, k)
  {
    if k: nat :| StopsAt(c, events, k) {
      StopsThen(c, events, k);
    } else if Run(c, START, events).server.stopped {
      var k := StopFound(c, events);
    }
  }

  lemma {:induction false} StopFound(c: Settings, events: seq<Event>) returns (k: nat)
    requires Run(c, START, events).server.stopped
    ensures StopsAt(c, events, k)
  {
    var init, e := events[..|events| - 1], events[|events| - 1];
    assert events == init + [e];
    if Run(c, START, init).server.stopped {
      k := StopFound(c, init);
      StopsAtLonger(c, init, e, k);
    } else {
      k := |init|;
      StopsAtLast(c, init, e);
    }
  }

  lemma RunSnoc(c: Settings, w: World, events: seq<Event>, e: Event)
    ensures Run(c, w, events + [e]) == Step(c, Run(c, w, events), e)
  {
    assert (events + [e])[..|events + [e]| - 1] == events;
  }

  const DEPARTURE := [Connected(0, 0), DisconnectBegins(0)] + [DisconnectFinishes(0)]

  lemma DepartureArms(c: Settings)
    ensures var s := Run(c, START, DEPARTURE).server;
            && s.live == [] && s.closing == {} && !s.stopped && s.connections == 0 && s.late == {} && s.owner == None
            && s.idleTimer.Some? && s.pending == {s.idleTimer.value}
            && s.records == map[0 := Session(false, 0, 0, None)] && 0 in s.wire
  {
    var e1, e2 := Connected(0, 0), DisconnectBegins(0);
    assert Run(c, START, []) == START;
    RunSnoc(c, START, [], e1);
    assert [] + [e1] == [e1];
    RunSnoc(c, START, [e1], e2);
    assert [e1] + [e2] == [e1, e2];
    assert Connect(INITIAL, 0, 0).live == [0] by { assert [] + [0] == [0]; }
    var w1 := Step(c, START, e1);
    assert Run(c, START, [e1]) == w1;
    var w2 := Step(c, w1, e2);
    WithoutOnly(0);
    assert w1.server.live == [0];
    assert w2.server.live == Without(w1.server.live, 0) == [];
    assert w2.server.closing == {0};
    assert Run(c, START, [e1, e2]) == w2;
    RunSnoc(c, START, [e1, e2], DisconnectFinishes(0));
  }

  /** A hello handled after its session's disconnect has finished leaks a connection and disarms the idle timeout. */
  lemma LateHelloLeaks(c: Settings)
    requires c.sharedSecret == None
    ensures var s := Run(c, START, DEPARTURE + [Hello(0, None, None, 1)]).server;
            && s.connections == 1 && Held(s) == {} && s.late == {0}
            && !s.stopped && Deserted(s) && !Armed(s)
  {
    DepartureArms(c);
    RunSnoc(c, START, DEPARTURE, Hello(0, None, None, 1));
    var s := Run(c, START, DEPARTURE + [Hello(0, None, None, 1)]).server;
    assert 0 in s.records && s.records[0].authenticated;
    assert s.live == [] && s.closing == {};
    assert Held(s) == {};
    assert s.late == {0};
    assert s.connections == 1;
    assert !s.stopped;
    assert s.idleTimer == None;
  }
}
