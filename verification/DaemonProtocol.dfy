/**
 * Runs of the shared daemon together with its proxies: every interleaving of connections, hellos,
 * traffic, the two halves of a disconnect, sweeps, timer firings and message deliveries.
 */
module DaemonProtocol {
  import opened Common
  import opened DaemonSpec

  datatype Settings = Settings(sharedSecret: Option<string>, heartbeatTimeoutMs: int)

  /** The daemon and, per connected proxy, what that proxy believes. */
  datatype World = World(server: Server, views: map<SessionId, ProxyView>)

  datatype Event =
    | Connected(id: SessionId, now: int)
    | Hello(id: SessionId, clientId: Option<string>, secret: Option<string>, now: int)
    | Traffic(id: SessionId, now: int)
    | DisconnectBegins(id: SessionId)
    | DisconnectFinishes(id: SessionId)
    | Swept(id: SessionId, now: int)
    | TimerFires(timer: nat)
    | Delivered(id: SessionId)

  const START := World(INITIAL, map[])

  function ServerStep(c: Settings, s: Server, e: Event): Server {
    match e
    case Connected(id, now) => Connect(s, id, now)
    case Hello(id, clientId, secret, now) =>
      if Accepts(c.sharedSecret, secret) then AcceptHello(s, id, clientId, now) else RefuseHello(s, id)
    case Traffic(id, now) => Touch(s, id, now)
    case DisconnectBegins(id) => BeginDisconnect(s, id)
    case DisconnectFinishes(id) => FinishDisconnect(s, id)
    case Swept(id, now) => SweepOne(s, id, now, c.heartbeatTimeoutMs)
    case TimerFires(timer) => Fire(s, timer)
    case Delivered(id) =>
      if id in s.wire && s.wire[id] != [] then s.(wire := s.wire[id := s.wire[id][1..]]) else s
  }

  function ViewsStep(w: World, e: Event): map<SessionId, ProxyView> {
    match e
    case Connected(id, _) =>
      if id in w.server.records then w.views else w.views[id := ProxyView(None, false)]
    case Delivered(id) =>
      if id in w.server.wire && w.server.wire[id] != [] && id in w.views
      then w.views[id := OnControl(w.views[id], w.server.wire[id][0])]
      else w.views
    case _ => w.views
  }

  /** Nothing happens after the daemon has stopped. */
  function Step(c: Settings, w: World, e: Event): World {
    if w.server.stopped then w
    else World(ServerStep(c, w.server, e), ViewsStep(w, e))
  }

  function Run(c: Settings, w: World, events: seq<Event>): World {
    if events == [] then w
    else Step(c, Run(c, w, events[..|events| - 1]), events[|events| - 1])
  }

  // ------------------------------------------------------------------ the invariant

  ghost predicate Structure(w: World) {
    var s := w.server;
    && Shaped(s)
    && w.views.Keys == s.records.Keys
    && NoDuplicates(s.live)
    && (forall id :: id in s.live ==> id !in s.closing)
  }

  /** The owner is authenticated and has not finished disconnecting; without one, nobody qualifies. */
  ghost predicate OwnerSound(s: Server) {
    match s.owner
    case Some(o) => Eligible(s.records, o) && (o in s.live || o in s.closing)
    case None => forall id :: id in s.live ==> !Eligible(s.records, id)
  }

  /** The message would make the proxy of `id` believe it is the owner. */
  predicate Claims(id: SessionId, m: Control) {
    match m
    case HelloAck(_, isOwner) => isOwner
    case OwnerChanged(o) => o == id
    case Refused => false
  }

  /** A message that names the receiving session names it correctly. */
  predicate Addressed(id: SessionId, m: Control) {
    m.HelloAck? ==> m.sessionId == id
  }

  /** Nothing on the wire of `id` misnames it, and nothing tells it that it is the owner unless it may be told so. */
  ghost predicate Honest(id: SessionId, messages: seq<Control>, mayClaim: bool) {
    forall i :: 0 <= i < |messages| ==> Addressed(id, messages[i]) && (Claims(id, messages[i]) ==> mayClaim)
  }

  /** A session that has not finished disconnecting may be told it is the owner only if it is. */
  predicate MayClaim(s: Server, id: SessionId) {
    (id in s.live || id in s.closing) ==> s.owner == Some(id)
  }

  /** For a session that has not finished disconnecting, every claim of ownership, believed or on the wire, is true. */
  ghost predicate ClaimsTrue(w: World) {
    var s := w.server;
    && (forall id :: id in w.views ==>
          w.views[id].sessionId in {None, Some(id)} && (w.views[id].isOwner ==> MayClaim(s, id)))
    && (forall id :: id in s.wire ==> Honest(id, s.wire[id], MayClaim(s, id)))
  }

  /**
   * Once its messages are handled, a live authenticated proxy knows its identity and whether it is the owner;
   * `apart` names the sessions whose acknowledgement is still to be written.
   */
  ghost predicate Converges(w: World, apart: set<SessionId>) {
    var s := w.server;
    forall id :: id in s.live && id !in apart && Eligible(s.records, id) && id in w.views && id in s.wire ==>
      Settled(w.views[id], s.wire[id]) == ProxyView(Some(id), s.owner == Some(id))
  }

  ghost predicate Consistent(w: World) {
    Structure(w) && OwnerSound(w.server) && ClaimsTrue(w) && Converges(w, {})
  }

  // ------------------------------------------------------------------ each step keeps it

  lemma AnnouncedIsHonest(s: Server, id: SessionId)
    requires Shaped(s) && s.owner == None && id in s.wire && Honest(id, s.wire[id], MayClaim(s, id))
    ensures var r := AssignOwner(s); Honest(id, r.wire[id], MayClaim(r, id))
  {
    var r := AssignOwner(s);
    assert MayClaim(s, id) ==> MayClaim(r, id);
    if r.owner.Some? && id in s.live && Eligible(s.records, id) {
      assert r.wire[id] == s.wire[id] + [OwnerChanged(r.owner.value)];
    } else {
      assert r.wire[id] == s.wire[id];
    }
  }

  lemma AssignOwnerClaims(s: Server, views: map<SessionId, ProxyView>)
    requires Structure(World(s, views)) && ClaimsTrue(World(s, views))
    requires s.owner == None
    ensures var r := AssignOwner(s);
            Structure(World(r, views)) && OwnerSound(r) && ClaimsTrue(World(r, views))
  {
    var r := AssignOwner(s);
    forall id | id in r.wire ensures Honest(id, r.wire[id], MayClaim(r, id)) {
      AnnouncedIsHonest(s, id);
    }
  }

  /** Electing and announcing an owner, from a state without one, restores everything the owner field is tied to. */
  lemma AssignOwnerKeeps(s: Server, views: map<SessionId, ProxyView>, apart: set<SessionId>)
    requires Structure(World(s, views)) && ClaimsTrue(World(s, views))
    requires s.owner == None
    requires forall id :: id in s.live && Eligible(s.records, id) && id !in apart ==>
               Settled(views[id], s.wire[id]).sessionId == Some(id)
    ensures var r := AssignOwner(s);
            Structure(World(r, views)) && OwnerSound(r) && ClaimsTrue(World(r, views))
            && Converges(World(r, views), apart)
  {
    AssignOwnerClaims(s, views);
    var r := AssignOwner(s);
    forall id | r.owner.Some? && id in s.live && Eligible(s.records, id) && id !in apart
      ensures Settled(views[id], r.wire[id]) == ProxyView(Some(id), r.owner == Some(id))
    {
      assert r.wire[id] == s.wire[id] + [OwnerChanged(r.owner.value)];
      SettledSnoc(views[id], s.wire[id], OwnerChanged(r.owner.value));
    }
  }

  /** Nothing but the authenticated flag of a record matters to the invariant. */
  lemma RecordKeeps(s: Server, views: map<SessionId, ProxyView>, id: SessionId, record: Session, apart: set<SessionId>)
    requires id in s.records && record.authenticated == s.records[id].authenticated
    requires Structure(World(s, views)) && OwnerSound(s) && ClaimsTrue(World(s, views))
             && Converges(World(s, views), apart)
    ensures var w := World(s.(records := s.records[id := record]), views);
            Structure(w) && OwnerSound(w.server) && ClaimsTrue(w) && Converges(w, apart)
  {
  }

  /** Timers, counters and history play no part in the invariant. */
  lemma BookkeepingKeeps(s: Server, r: Server, views: map<SessionId, ProxyView>, apart: set<SessionId>)
    requires Structure(World(s, views)) && OwnerSound(s) && ClaimsTrue(World(s, views))
             && Converges(World(s, views), apart)
    requires r.records == s.records && r.live == s.live && r.closing == s.closing
    requires r.owner == s.owner && r.wire == s.wire
    ensures var w := World(r, views);
            Structure(w) && OwnerSound(w.server) && ClaimsTrue(w) && Converges(w, apart)
  {
  }

  lemma MarkKeeps(s: Server, views: map<SessionId, ProxyView>, id: SessionId, record: Session)
    requires Consistent(World(s, views)) && id in s.records && record.authenticated
    ensures var r := s.(records := s.records[id := record]);
            && Structure(World(r, views)) && ClaimsTrue(World(r, views)) && Converges(World(r, views), {id})
            && (r.owner.Some? ==> OwnerSound(r))
  {
  }

  /** Marking a session authenticated and electing an owner if there is none. */
  lemma MarkAndElectKeeps(s: Server, views: map<SessionId, ProxyView>, id: SessionId)
    requires Consistent(World(s, views)) && id in s.records
    ensures var w := World(AssignOwner(s.(records := s.records[id := s.records[id].(authenticated := true)])), views);
            Structure(w) && OwnerSound(w.server) && ClaimsTrue(w) && Converges(w, {id})
  {
    var marked := s.(records := s.records[id := s.records[id].(authenticated := true)]);
    MarkKeeps(s, views, id, marked.records[id]);
    if s.owner == None {
      AssignOwnerKeeps(marked, views, {id});
    }
  }

  /** Apart from the bookkeeping, authenticating is marking the record and electing an owner if there is none. */
  lemma AuthenticateShape(s: Server, id: SessionId)
    requires id in s.records && !s.records[id].authenticated
    ensures var t := Authenticate(s, id);
            var r := AssignOwner(s.(records := s.records[id := s.records[id].(authenticated := true)]));
            && t.records == r.records && t.live == r.live && t.closing == r.closing
            && t.owner == r.owner && t.wire == r.wire
  {
  }

  lemma AuthenticateKeeps(s: Server, views: map<SessionId, ProxyView>, id: SessionId)
    requires Consistent(World(s, views)) && id in s.records
    ensures var w := World(Authenticate(s, id), views);
            Structure(w) && OwnerSound(w.server) && ClaimsTrue(w) && Converges(w, {id})
  {
    if !s.records[id].authenticated {
      MarkAndElectKeeps(s, views, id);
      AuthenticateShape(s, id);
      var r := AssignOwner(s.(records := s.records[id := s.records[id].(authenticated := true)]));
      BookkeepingKeeps(r, Authenticate(s, id), views, {id});
    }
  }

  lemma AcknowledgeKeeps(s: Server, views: map<SessionId, ProxyView>, id: SessionId, now: int)
    requires id in s.records
    requires var w := World(s, views);
             Structure(w) && OwnerSound(w.server) && ClaimsTrue(w) && Converges(w, {id})
    ensures Consistent(World(Acknowledge(s, id, now), views))
  {
    SettledSnoc(views[id], s.wire[id], HelloAck(id, s.owner == Some(id)));
  }

  lemma HelloKeeps(s: Server, views: map<SessionId, ProxyView>, id: SessionId, clientId: Option<string>, now: int)
    requires Consistent(World(s, views))
    ensures Consistent(World(AcceptHello(s, id, clientId, now), views))
  {
    if id in s.records {
      var named := Named(s, id, clientId);
      RecordKeeps(s, views, id, named.records[id], {});
      AuthenticateKeeps(named, views, id);
      AcknowledgeKeeps(Authenticate(named, id), views, id, now);
    }
  }

  /** Taking a session off the closing set, when it is not the owner, takes nothing away from the others. */
  lemma ClosedKeeps(s: Server, views: map<SessionId, ProxyView>, id: SessionId)
    requires Consistent(World(s, views)) && id in s.closing && s.owner != Some(id)
    ensures Consistent(World(Closed(s, id), views))
  {
  }

  /** Once its owner is off the closing set, no session left may claim the ownership. */
  lemma VacancyKeeps(s: Server, views: map<SessionId, ProxyView>, id: SessionId)
    requires Consistent(World(s, views)) && id in s.closing && s.owner == Some(id)
    ensures var w := World(Closed(s, id).(owner := None), views);
            Structure(w) && ClaimsTrue(w)
  {
  }

  /** The half of the second part of a disconnect that concerns the owner. */
  lemma HandOverKeeps(s: Server, views: map<SessionId, ProxyView>, id: SessionId)
    requires Consistent(World(s, views)) && id in s.closing
    ensures Consistent(World(HandOver(Closed(s, id), id), views))
  {
    if s.owner == Some(id) {
      VacancyKeeps(s, views, id);
      AssignOwnerKeeps(Closed(s, id).(owner := None), views, {});
    } else {
      ClosedKeeps(s, views, id);
    }
  }

  lemma FinishKeeps(s: Server, views: map<SessionId, ProxyView>, id: SessionId)
    requires Consistent(World(s, views))
    ensures Consistent(World(FinishDisconnect(s, id), views))
  {
    if id in s.closing {
      HandOverKeeps(s, views, id);
      BookkeepingKeeps(HandOver(Closed(s, id), id), FinishDisconnect(s, id), views, {});
    }
  }

  /** The proxy of `id` handles the first of its messages. */
  function Handled(w: World, id: SessionId): World
    requires id in w.views && id in w.server.wire && w.server.wire[id] != []
  {
    World(w.server.(wire := w.server.wire[id := w.server.wire[id][1..]]),
          w.views[id := OnControl(w.views[id], w.server.wire[id][0])])
  }

  lemma HandledClaims(w: World, id: SessionId)
    requires Structure(w) && ClaimsTrue(w) && id in w.views && w.server.wire[id] != []
    ensures Structure(Handled(w, id)) && ClaimsTrue(Handled(w, id))
  {
    var messages := w.server.wire[id];
    assert Addressed(id, messages[0]) && (Claims(id, messages[0]) ==> MayClaim(w.server, id));
    assert forall i :: 0 <= i < |messages[1..]| ==> messages[1..][i] == messages[i + 1];
  }

  lemma HandledConverges(w: World, id: SessionId)
    requires Structure(w) && Converges(w, {}) && id in w.views && w.server.wire[id] != []
    ensures Converges(Handled(w, id), {})
  {
  }

  lemma DeliveryKeeps(c: Settings, w: World, id: SessionId)
    requires Consistent(w) && !w.server.stopped
    ensures Consistent(Step(c, w, Delivered(id)))
  {
    if id in w.server.wire && w.server.wire[id] != [] {
      HandledClaims(w, id);
      HandledConverges(w, id);
      assert Step(c, w, Delivered(id)) == Handled(w, id);
    }
  }

  lemma RefusalKeeps(s: Server, views: map<SessionId, ProxyView>, id: SessionId)
    requires Consistent(World(s, views))
    ensures Consistent(World(RefuseHello(s, id), views))
  {
    if id in s.wire {
      SettledSnoc(views[id], s.wire[id], Refused);
    }
  }

  lemma ConnectClaims(s: Server, views: map<SessionId, ProxyView>, id: SessionId, now: int)
    requires Structure(World(s, views)) && ClaimsTrue(World(s, views)) && id !in s.records
    ensures var w := World(Connect(s, id, now), views[id := ProxyView(None, false)]); Structure(w) && ClaimsTrue(w)
  {
  }

  lemma ConnectKeeps(c: Settings, w: World, id: SessionId, now: int)
    requires Consistent(w) && !w.server.stopped
    ensures Consistent(Step(c, w, Connected(id, now)))
  {
    if id !in w.server.records {
      ConnectClaims(w.server, w.views, id, now);
    }
  }

  lemma BeginKeeps(s: Server, views: map<SessionId, ProxyView>, id: SessionId)
    requires Consistent(World(s, views))
    ensures Consistent(World(BeginDisconnect(s, id), views))
  {
    WithoutNoDuplicates(s.live, id);
  }

  lemma StepKeeps(c: Settings, w: World, e: Event)
    requires Consistent(w)
    ensures Consistent(Step(c, w, e))
  {
    if !w.server.stopped {
      match e
      case Connected(id, now) => ConnectKeeps(c, w, id, now);
      case Hello(id, clientId, secret, now) =>
        if Accepts(c.sharedSecret, secret) {
          HelloKeeps(w.server, w.views, id, clientId, now);
        } else {
          RefusalKeeps(w.server, w.views, id);
        }
      case Traffic(id, now) =>
        if Eligible(w.server.records, id) {
          RecordKeeps(w.server, w.views, id, w.server.records[id].(lastSeen := now), {});
        }
      case DisconnectBegins(id) => BeginKeeps(w.server, w.views, id);
      case DisconnectFinishes(id) => FinishKeeps(w.server, w.views, id);
      case Swept(id, now) => BeginKeeps(w.server, w.views, id);
      case TimerFires(timer) =>
      case Delivered(id) => DeliveryKeeps(c, w, id);
    }
  }

  lemma {:induction false} RunKeeps(c: Settings, w: World, events: seq<Event>)
    requires Consistent(w)
    ensures Consistent(Run(c, w, events))
  {
    if events != [] {
      RunKeeps(c, w, events[..|events| - 1]);
      StepKeeps(c, Run(c, w, events[..|events| - 1]), events[|events| - 1]);
    }
  }
}
