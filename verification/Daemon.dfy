/**
 * The ownership protocol of the shared daemon (src/daemon/server.ts), the proxy's view of it
 * (src/daemon/proxy.ts) and the active-connection counter (src/server/stats.ts).
 *
 * A session record outlives its removal from the live map, because the handlers of its socket hold on to
 * it: control messages can still arrive for a session that is closing or gone.
 */
module DaemonSpec {
  import opened Common

  /** Session identifiers are random UUIDs; the protocol only ever compares them. */
  type SessionId = nat

  datatype Session = Session(authenticated: bool, connectedAt: int, lastSeen: int, clientId: Option<string>)

  /** Control messages travelling from the daemon to one proxy. */
  datatype Control =
    | HelloAck(sessionId: SessionId, isOwner: bool)
    | OwnerChanged(ownerSessionId: SessionId)
    | Refused

  /** What one proxy has learnt from its control messages. */
  datatype ProxyView = ProxyView(sessionId: Option<SessionId>, isOwner: bool)

  /**
   * The daemon's state. `live` lists the keys of the sessions map in insertion order, `closing`
   * holds the sessions between the two halves of `handleDisconnect`, `wire` the control messages
   * written to a session's socket and not yet handled by its proxy.
   * `pending` are the idle timeouts that have neither fired nor been cleared.
   * `late` and `released` are history: sessions first authenticated after their disconnect had
   * finished, and the decrements performed, per session.
   */
  datatype Server = Server(
    records: map<SessionId, Session>,
    live: seq<SessionId>,
    closing: set<SessionId>,
    owner: Option<SessionId>,
    idleTimer: Option<nat>,
    pending: set<nat>,
    timersMade: nat,
    connections: int,
    wire: map<SessionId, seq<Control>>,
    stopped: bool,
    late: set<SessionId>,
    released: multiset<SessionId>)

  const INITIAL := Server(map[], [], {}, None, None, {}, 0, 0, map[], false, {}, multiset{})

  /** Every session the daemon still refers to has a record and a socket. */
  ghost predicate Shaped(s: Server) {
    && s.wire.Keys == s.records.Keys
    && (forall id :: id in s.live ==> id in s.records)
    && s.closing <= s.records.Keys
  }

  predicate Eligible(records: map<SessionId, Session>, id: SessionId) {
    id in records && records[id].authenticated
  }

  // ------------------------------------------------------------------ elections

  /** The k-th live session is authenticated, and connected first; ties go to the earlier map entry. */
  ghost predicate EarliestAt(records: map<SessionId, Session>, live: seq<SessionId>, k: nat) {
    && k < |live| && Eligible(records, live[k])
    && (forall i :: 0 <= i < |live| && Eligible(records, live[i]) ==>
          records[live[k]].connectedAt <= records[live[i]].connectedAt)
    && (forall i :: 0 <= i < k && Eligible(records, live[i]) ==>
          records[live[k]].connectedAt < records[live[i]].connectedAt)
  }

  /** r is the authenticated session that connected first, if there is one. */
  ghost predicate Earliest(records: map<SessionId, Session>, live: seq<SessionId>, r: Option<SessionId>) {
    match r
    case None => forall i :: 0 <= i < |live| ==> !Eligible(records, live[i])
    case Some(x) => exists k: nat :: EarliestAt(records, live, k) && live[k] == x
  }

  function Elect(records: map<SessionId, Session>, live: seq<SessionId>): (r: Option<SessionId>)
    ensures r.Some? ==> r.value in live && Eligible(records, r.value)
    ensures r == None ==> forall id :: id in live ==> !Eligible(records, id)
  {
    if live == [] then None
    else
      var last := live[|live| - 1];
      var rest := Elect(records, live[..|live| - 1]);
      if !Eligible(records, last) then rest
      else if rest == None || records[last].connectedAt < records[rest.value].connectedAt then Some(last)
      else rest
  }

  /** The last session does not beat the earliest one before it. */
  lemma EarliestStays(records: map<SessionId, Session>, live: seq<SessionId>, last: SessionId, k: nat)
    requires EarliestAt(records, live, k)
    requires Eligible(records, last) ==> records[live[k]].connectedAt <= records[last].connectedAt
    ensures EarliestAt(records, live + [last], k) && (live + [last])[k] == live[k]
  {
  }

  /** The last session beats the earliest one before it. */
  lemma LastIsEarlier(records: map<SessionId, Session>, live: seq<SessionId>, last: SessionId, k: nat)
    requires EarliestAt(records, live, k)
    requires Eligible(records, last) && records[last].connectedAt < records[live[k]].connectedAt
    ensures EarliestAt(records, live + [last], |live|)
  {
  }

  /** There is no other. */
  lemma LastIsOnly(records: map<SessionId, Session>, live: seq<SessionId>, last: SessionId)
    requires Eligible(records, last) && forall i :: 0 <= i < |live| ==> !Eligible(records, live[i])
    ensures EarliestAt(records, live + [last], |live|)
  {
  }

  lemma {:induction false} ElectIsEarliest(records: map<SessionId, Session>, live: seq<SessionId>)
    ensures Earliest(records, live, Elect(records, live))
  {
    if live != [] {
      var init, last := live[..|live| - 1], live[|live| - 1];
      ElectIsEarliest(records, init);
      EarliestNext(records, init, last, Elect(records, init));
      assert live == init + [last];
    }
  }

  lemma EarliestNext(records: map<SessionId, Session>, live: seq<SessionId>, last: SessionId, r: Option<SessionId>)
    requires Earliest(records, live, r) && (r.Some? ==> r.value in records)
    ensures Earliest(records, live + [last],
                     if Eligible(records, last)
                        && (r == None || records[last].connectedAt < records[r.value].connectedAt)
                     then Some(last) else r)
  {
    match r
    case None =>
      if Eligible(records, last) {
        LastIsOnly(records, live, last);
      }
    case Some(x) =>
      var k: nat :| EarliestAt(records, live, k) && live[k] == x;
      if Eligible(records, last) && records[last].connectedAt < records[x].connectedAt {
        LastIsEarlier(records, live, last, k);
      } else {
        EarliestStays(records, live, last, k);
      }
  }

  /** An election has one possible outcome. */
  lemma EarliestIsUnique(
      records: map<SessionId, Session>, live: seq<SessionId>, a: Option<SessionId>, b: Option<SessionId>)
    requires Earliest(records, live, a) && Earliest(records, live, b)
    ensures a == b
  {
    if a.Some? && b.Some? {
      var i: nat :| EarliestAt(records, live, i) && live[i] == a.value;
      var j: nat :| EarliestAt(records, live, j) && live[j] == b.value;
      assert !(i < j) && !(j < i);
    }
  }

  // ------------------------------------------------------------------ atomic steps

  /** A control message is written to a session's socket. */
  function Post(wire: map<SessionId, seq<Control>>, id: SessionId, m: Control): map<SessionId, seq<Control>> {
    if id in wire then wire[id := wire[id] + [m]] else wire
  }

  /** ownerChanged goes to every live authenticated session and to nobody else. */
  function Broadcast(s: Server): (r: Server)
    ensures r == s.(wire := r.wire) && r.wire.Keys == s.wire.Keys
  {
    match s.owner
    case None => s
    case Some(o) =>
      s.(wire := map id | id in s.wire ::
           if id in s.live && Eligible(s.records, id) then s.wire[id] + [OwnerChanged(o)] else s.wire[id])
  }

  function AssignOwner(s: Server): (r: Server)
    ensures r == s.(owner := r.owner, wire := r.wire) && r.wire.Keys == s.wire.Keys
  {
    if s.owner.Some? then s
    else
      match Elect(s.records, s.live)
      case None => s
      case Some(x) => Broadcast(s.(owner := Some(x)))
  }

  function ClearIdle(s: Server): Server {
    match s.idleTimer
    case None => s
    case Some(t) => s.(pending := s.pending - {t}, idleTimer := None)
  }

  function ArmIdle(s: Server): Server {
    var kept := if s.idleTimer.Some? then s.pending - {s.idleTimer.value} else s.pending;
    s.(pending := kept + {s.timersMade}, idleTimer := Some(s.timersMade), timersMade := s.timersMade + 1)
  }

  /** A socket connects; its identifier has not been used before. */
  function Connect(s: Server, id: SessionId, now: int): Server {
    if id in s.records then s
    else s.(records := s.records[id := Session(false, now, now, None)],
            live := s.live + [id],
            wire := s.wire[id := []])
  }

  /** The session's disconnect has finished. */
  predicate Gone(s: Server, id: SessionId) {
    id in s.records && id !in s.live && id !in s.closing
  }

  function Marked(s: Server, id: SessionId): Server
    requires id in s.records
  {
    s.(records := s.records[id := s.records[id].(authenticated := true)],
       connections := s.connections + 1,
       late := if Gone(s, id) then s.late + {id} else s.late)
  }

  /** The block that runs for the first accepted hello of a session. */
  function Authenticate(s: Server, id: SessionId): (r: Server)
    requires id in s.records
    ensures r.records == s.records[id := s.records[id].(authenticated := true)]
    ensures r.live == s.live && r.closing == s.closing && r.wire.Keys == s.wire.Keys
  {
    if s.records[id].authenticated then s else ClearIdle(AssignOwner(Marked(s, id)))
  }

  function Named(s: Server, id: SessionId, clientId: Option<string>): (r: Server)
    requires id in s.records
  {
    if clientId.Some? then s.(records := s.records[id := s.records[id].(clientId := clientId)]) else s
  }

  /** The session has been seen, and is told who it is and whether it is the owner. */
  function Acknowledge(s: Server, id: SessionId, now: int): Server
    requires id in s.records
  {
    s.(records := s.records[id := s.records[id].(lastSeen := now)],
       wire := Post(s.wire, id, HelloAck(id, s.owner == Some(id))))
  }

  /** A hello whose secret is accepted, handled in one turn of the event loop. */
  function AcceptHello(s: Server, id: SessionId, clientId: Option<string>, now: int): Server {
    if id !in s.records then s
    else Acknowledge(Authenticate(Named(s, id, clientId), id), id, now)
  }

  /** A hello with the wrong secret: only an error is sent; the disconnect follows as its own step. */
  function RefuseHello(s: Server, id: SessionId): Server {
    s.(wire := Post(s.wire, id, Refused))
  }

  predicate Accepts(required: Option<string>, offered: Option<string>) {
    required == None || offered == required
  }

  /** A heartbeat, or an MCP message on an authenticated session. */
  function Touch(s: Server, id: SessionId, now: int): Server {
    if !Eligible(s.records, id) then s
    else s.(records := s.records[id := s.records[id].(lastSeen := now)])
  }

  /** handleDisconnect up to its first await. */
  function BeginDisconnect(s: Server, id: SessionId): Server {
    if id !in s.live then s
    else s.(live := Without(s.live, id), closing := s.closing + {id})
  }

  /** Math.max(0, n - 1) */
  function Decremented(n: int): int {
    if n - 1 < 0 then 0 else n - 1
  }

  /** The session is no longer closing; if it was authenticated the counter is decremented. */
  function Closed(s: Server, id: SessionId): Server {
    var s1 := s.(closing := s.closing - {id});
    if Eligible(s.records, id)
    then s1.(connections := Decremented(s.connections), released := s.released + multiset{id})
    else s1
  }

  /** If the session was the owner, the ownership passes on. */
  function HandOver(s: Server, id: SessionId): (r: Server)
    ensures r == s.(owner := r.owner, wire := r.wire)
  {
    if s.owner == Some(id) then AssignOwner(s.(owner := None)) else s
  }

  /** handleDisconnect after its awaits. */
  function FinishDisconnect(s: Server, id: SessionId): Server {
    if id !in s.closing then s
    else
      var s1 := HandOver(Closed(s, id), id);
      if s1.live == [] then ArmIdle(s1) else s1
  }

  /** One turn of the sweep: a live session that has been silent too long starts to disconnect. */
  function SweepOne(s: Server, id: SessionId, now: int, timeout: int): Server {
    if id in s.live && id in s.records && now - s.records[id].lastSeen > timeout then BeginDisconnect(s, id) else s
  }

  /** An idle timeout fires: the daemon stops unless a session is live. */
  function Fire(s: Server, timer: nat): Server {
    if timer !in s.pending then s
    else
      var s1 := s.(pending := s.pending - {timer});
      if s1.live != [] then s1 else s1.(stopped := true)
  }

  // ------------------------------------------------------------------ the proxy

  /** The proxy's control handler. */
  function OnControl(v: ProxyView, m: Control): ProxyView {
    match m
    case HelloAck(id, isOwner) => ProxyView(Some(id), isOwner)
    case OwnerChanged(o) => v.(isOwner := v.sessionId == Some(o))
    case Refused => v
  }

  /** The view a proxy reaches once everything on its wire is handled. */
  function Settled(v: ProxyView, messages: seq<Control>): ProxyView
    decreases |messages|
  {
    if messages == [] then v else Settled(OnControl(v, messages[0]), messages[1..])
  }

  lemma {:induction false} SettledSnoc(v: ProxyView, messages: seq<Control>, m: Control)
    ensures Settled(v, messages + [m]) == OnControl(Settled(v, messages), m)
    decreases |messages|
  {
    if messages == [] {
      assert messages + [m] == [m];
    } else {
      assert (messages + [m])[1..] == messages[1..] + [m];
      SettledSnoc(OnControl(v, messages[0]), messages[1..], m);
    }
  }
}
