/** What the daemon knows of a session, told by the events alone: who is admitted, when it was seen, and is swept. */
module DaemonRecords {
  import opened Common
  import opened DaemonSpec
  import opened DaemonProtocol
  import opened DaemonTheorems

  // ------------------------------------------------------------------ one event

  /** The hello carries the daemon's secret, if the daemon has one. */
  predicate CarriesTheSecret(c: Settings, e: Event)
    requires e.Hello?
  {
    match c.sharedSecret
    case None => true
    case Some(secret) => e.secret == Some(secret)
  }

  function RecordOf(s: Server, id: SessionId): Option<Session> {
    if id in s.records then Some(s.records[id]) else None
  }

  /** What an event that is handled makes of the record of a session. */
  function RecordAfter(c: Settings, record: Option<Session>, e: Event, id: SessionId): Option<Session> {
    match (record, e)
    case (None, Connected(i, now)) => if i == id then Some(Session(false, now, now, None)) else None
    case (Some(r), Hello(i, clientId, _, now)) =>
      if i == id && CarriesTheSecret(c, e)
      then Some(Session(true, r.connectedAt, now, if clientId.Some? then clientId else r.clientId))
      else record
    case (Some(r), Traffic(i, now)) => if i == id && r.authenticated then Some(r.(lastSeen := now)) else record
    case _ => record
  }

  lemma StepRecord(c: Settings, w: World, e: Event, id: SessionId)
    ensures RecordOf(Step(c, w, e).server, id) ==
            if w.server.stopped then RecordOf(w.server, id) else RecordAfter(c, RecordOf(w.server, id), e, id)
  {
  }

  /** A hello without the secret is answered with an error and changes nothing else. */
  lemma WrongSecretIsRefused(c: Settings, w: World, e: Event)
    requires !w.server.stopped && e.Hello? && c.sharedSecret.Some? && e.secret != c.sharedSecret
    ensures var s, s' := w.server, Step(c, w, e).server;
            && s' == s.(wire := s'.wire) && s'.wire.Keys == s.wire.Keys && Step(c, w, e).views == w.views
            && forall id :: id in s.wire ==> s'.wire[id] == if id == e.id then s.wire[id] + [Refused] else s.wire[id]
  {
  }

  // ------------------------------------------------------------------ admission

  /** The k-th event comes before the daemon stops. */
  predicate Handled(c: Settings, events: seq<Event>, k: nat) {
    k < |events| && !Run(c, START, events[..k]).server.stopped
  }

  predicate Connects(c: Settings, events: seq<Event>, id: SessionId, k: nat) {
    Handled(c, events, k) && events[k].Connected? && events[k].id == id
  }

  ghost predicate ConnectedBefore(c: Settings, events: seq<Event>, id: SessionId, k: nat) {
    exists j: nat :: j < k && Connects(c, events, id, j)
  }

  /** The k-th event is a hello of a connected session, and carries the secret. */
  ghost predicate Admits(c: Settings, events: seq<Event>, id: SessionId, k: nat) {
    && Handled(c, events, k) && events[k].Hello? && events[k].id == id
    && ConnectedBefore(c, events, id, k) && CarriesTheSecret(c, events[k])
  }

  ghost predicate AdmittedBefore(c: Settings, events: seq<Event>, id: SessionId, k: nat) {
    exists j: nat :: j < k && Admits(c, events, id, j)
  }

  lemma HandledEarlier(c: Settings, events: seq<Event>, e: Event, k: nat)
    ensures k < |events| ==> (Handled(c, events + [e], k) <==> Handled(c, events, k)) && (events + [e])[k] == events[k]
    ensures Handled(c, events + [e], |events|) <==> !Run(c, START, events).server.stopped
  {
    var all := events + [e];
    assert all[..|events|] == events;
    if k < |events| {
      assert all[..k] == events[..k];
    }
  }

  lemma ConnectedEarlier(c: Settings, events: seq<Event>, e: Event, id: SessionId, k: nat)
    requires k <= |events|
    ensures ConnectedBefore(c, events + [e], id, k) <==> ConnectedBefore(c, events, id, k)
  {
    forall j: nat | j < k ensures Connects(c, events + [e], id, j) <==> Connects(c, events, id, j) {
      HandledEarlier(c, events, e, j);
    }
    if j: nat :| j < k && Connects(c, events, id, j) {
      assert Connects(c, events + [e], id, j);
    }
  }

  lemma ConnectedSooner(c: Settings, events: seq<Event>, id: SessionId, k: nat, n: nat)
    requires k <= n
    ensures ConnectedBefore(c, events, id, k) ==> ConnectedBefore(c, events, id, n)
  {
  }

  lemma AdmitsEarlier(c: Settings, events: seq<Event>, e: Event, id: SessionId, k: nat)
    requires k < |events|
    ensures Admits(c, events + [e], id, k) <==> Admits(c, events, id, k)
  {
    HandledEarlier(c, events, e, k);
    ConnectedEarlier(c, events, e, id, k);
  }

  lemma AdmittedEarlier(c: Settings, events: seq<Event>, e: Event, id: SessionId, k: nat)
    requires k <= |events|
    ensures AdmittedBefore(c, events + [e], id, k) <==> AdmittedBefore(c, events, id, k)
  {
    forall j: nat | j < k ensures Admits(c, events + [e], id, j) <==> Admits(c, events, id, j) {
      AdmitsEarlier(c, events, e, id, j);
    }
    if j: nat :| j < k && Admits(c, events, id, j) {
      assert Admits(c, events + [e], id, j);
    }
  }

  lemma ConnectedNext(c: Settings, events: seq<Event>, e: Event, id: SessionId)
    ensures ConnectedBefore(c, events + [e], id, |events| + 1) <==>
            || ConnectedBefore(c, events, id, |events|)
            || (!Run(c, START, events).server.stopped && e.Connected? && e.id == id)
  {
    var all := events + [e];
    HandledEarlier(c, events, e, |events|);
    ConnectedEarlier(c, events, e, id, |events|);
    assert all[|events|] == e;
    assert Connects(c, all, id, |events|) <==> !Run(c, START, events).server.stopped && e.Connected? && e.id == id;
    if j: nat :| j < |events| && Connects(c, all, id, j) {
      assert j < |events| + 1;
    }
  }

  lemma AdmittedNext(c: Settings, events: seq<Event>, e: Event, id: SessionId)
    ensures Admits(c, events + [e], id, |events|) <==>
            && !Run(c, START, events).server.stopped && e.Hello? && e.id == id
            && ConnectedBefore(c, events, id, |events|) && CarriesTheSecret(c, e)
    ensures AdmittedBefore(c, events + [e], id, |events| + 1) <==>
            AdmittedBefore(c, events, id, |events|) || Admits(c, events + [e], id, |events|)
  {
    var all := events + [e];
    HandledEarlier(c, events, e, |events|);
    ConnectedEarlier(c, events, e, id, |events|);
    AdmittedEarlier(c, events, e, id, |events|);
    assert all[|events|] == e;
    if j: nat :| j < |events| && Admits(c, all, id, j) {
      assert j < |events| + 1;
    }
  }

  /** The daemon has a record of exactly the sessions that connected. */
  lemma {:induction false} KnownExactly(c: Settings, events: seq<Event>, id: SessionId)
    ensures id in Run(c, START, events).server.records <==> ConnectedBefore(c, events, id, |events|)
  {
    if events != [] {
      var init, e := events[..|events| - 1], events[|events| - 1];
      assert events == init + [e];
      KnownExactly(c, init, id);
      StepRecord(c, Run(c, START, init), e, id);
      ConnectedNext(c, init, e, id);
    }
  }

  /**
   * A session is authenticated exactly when a hello of it carried the daemon's secret, after it had connected and
   * before the daemon stopped. Without a secret any such hello will do.
   */
  lemma {:induction false} AuthenticatedExactly(c: Settings, events: seq<Event>, id: SessionId)
    ensures (id in Run(c, START, events).server.records && Run(c, START, events).server.records[id].authenticated)
            <==> exists k: nat :: k < |events| && Admits(c, events, id, k)
  {
    if events != [] {
      var init, e := events[..|events| - 1], events[|events| - 1];
      assert events == init + [e];
      AuthenticatedExactly(c, init, id);
      AuthenticatedNext(c, init, e, id);
    }
  }

  lemma AuthenticatedNext(c: Settings, events: seq<Event>, e: Event, id: SessionId)
    requires Eligible(Run(c, START, events).server.records, id) <==> AdmittedBefore(c, events, id, |events|)
    ensures Eligible(Run(c, START, events + [e]).server.records, id)
            <==> AdmittedBefore(c, events + [e], id, |events| + 1)
  {
    RunSnoc(c, START, events, e);
    StepRecord(c, Run(c, START, events), e, id);
    KnownExactly(c, events, id);
    AdmittedNext(c, events, e, id);
  }

  // ------------------------------------------------------------------ silence

  /** The k-th event shows that the session is there: it connects, is admitted, or sends something once admitted. */
  ghost predicate Renews(c: Settings, events: seq<Event>, id: SessionId, k: nat) {
    || (Connects(c, events, id, k) && !ConnectedBefore(c, events, id, k))
    || Admits(c, events, id, k)
    || (Handled(c, events, k) && events[k].Traffic? && events[k].id == id && AdmittedBefore(c, events, id, k))
  }

  function TimeOf(e: Event): int {
    match e
    case Connected(_, now) => now
    case Hello(_, _, _, now) => now
    case Traffic(_, now) => now
    case _ => 0
  }

  /** The k-th event is the last one that shows it. */
  ghost predicate LastSeenAt(c: Settings, events: seq<Event>, id: SessionId, k: nat) {
    k < |events| && Renews(c, events, id, k) && forall j: nat :: k < j < |events| ==> !Renews(c, events, id, j)
  }

  lemma RenewsEarlier(c: Settings, events: seq<Event>, e: Event, id: SessionId, k: nat)
    requires k < |events|
    ensures Renews(c, events + [e], id, k) <==> Renews(c, events, id, k)
  {
    HandledEarlier(c, events, e, k);
    ConnectedEarlier(c, events, e, id, k);
    AdmitsEarlier(c, events, e, id, k);
    AdmittedEarlier(c, events, e, id, k);
  }

  /** An event renews the record, or leaves the time in it as it was. */
  lemma RenewsNext(c: Settings, events: seq<Event>, e: Event, id: SessionId)
    ensures var before := RecordOf(Run(c, START, events).server, id);
            var after := RecordOf(Run(c, START, events + [e]).server, id);
            if Renews(c, events + [e], id, |events|) then after.Some? && after.value.lastSeen == TimeOf(e)
            else
              && (after.Some? <==> before.Some?)
              && (after.Some? ==> after.value.lastSeen == before.value.lastSeen)
  {
    RunSnoc(c, START, events, e);
    StepRecord(c, Run(c, START, events), e, id);
    HandledEarlier(c, events, e, |events|);
    ConnectedEarlier(c, events, e, id, |events|);
    AdmittedEarlier(c, events, e, id, |events|);
    AdmittedNext(c, events, e, id);
    KnownExactly(c, events, id);
    AuthenticatedExactly(c, events, id);
    assert (events + [e])[|events|] == e;
  }

  lemma LastSeenStays(c: Settings, events: seq<Event>, e: Event, id: SessionId, k: nat, all: seq<Event>)
    requires LastSeenAt(c, events, id, k) && all == events + [e] && !Renews(c, all, id, |events|)
    ensures LastSeenAt(c, all, id, k) && all[k] == events[k]
  {
    forall j: nat | j < |events| ensures Renews(c, all, id, j) <==> Renews(c, events, id, j) {
      RenewsEarlier(c, events, e, id, j);
    }
  }

  /** A session was last seen at the last event that shows it. */
  lemma {:induction false} LastSeenExactly(c: Settings, events: seq<Event>, id: SessionId) returns (k: nat)
    requires RecordOf(Run(c, START, events).server, id).Some?
    ensures LastSeenAt(c, events, id, k)
    ensures RecordOf(Run(c, START, events).server, id).value.lastSeen == TimeOf(events[k])
  {
    if events == [] {
      assert false;
    }
    var init, e := events[..|events| - 1], events[|events| - 1];
    assert events == init + [e];
    RenewsNext(c, init, e, id);
    if Renews(c, events, id, |init|) {
      k := |init|;
    } else {
      k := LastSeenExactly(c, init, id);
      LastSeenStays(c, init, e, id, k, events);
    }
  }

  /** The sweep removes a live session exactly when it has been silent for longer than the heartbeat timeout. */
  lemma SweptExactly(c: Settings, events: seq<Event>, id: SessionId, k: nat, now: int)
    requires var s := Run(c, START, events).server; !s.stopped && id in s.live && LastSeenAt(c, events, id, k)
    ensures var s, s' := Run(c, START, events).server, Run(c, START, events + [Swept(id, now)]).server;
            && (id !in s'.live <==> now - TimeOf(events[k]) > c.heartbeatTimeoutMs)
            && (id in s'.closing <==> now - TimeOf(events[k]) > c.heartbeatTimeoutMs)
            && (forall other :: other != id ==> (other in s'.live <==> other in s.live))
  {
    RunIsConsistent(c, events);
    var j := LastSeenExactly(c, events, id);
    assert j == k by {
      assert !(j < k) && !(k < j);
    }
    RunSnoc(c, START, events, Swept(id, now));
  }

  // ------------------------------------------------------------------ the client's name

  /** The k-th event is the last admitted hello of the session that names the client. */
  ghost predicate NamedAt(c: Settings, events: seq<Event>, id: SessionId, k: nat) {
    Admits(c, events, id, k) && events[k].clientId.Some?
  }

  ghost predicate LastNamedAt(c: Settings, events: seq<Event>, id: SessionId, k: nat) {
    k < |events| && NamedAt(c, events, id, k) && forall j: nat :: k < j < |events| ==> !NamedAt(c, events, id, j)
  }

  /** The client's name is that of the last admitted hello that gave one; there is none without such a hello. */
  ghost predicate NameSound(c: Settings, events: seq<Event>, id: SessionId, name: Option<string>) {
    match name
    case Some(_) => exists k: nat :: LastNamedAt(c, events, id, k) && events[k].clientId == name
    case None => forall k: nat :: k < |events| ==> !NamedAt(c, events, id, k)
  }

  lemma NameStays(c: Settings, events: seq<Event>, e: Event, id: SessionId, name: Option<string>, all: seq<Event>)
    requires NameSound(c, events, id, name) && all == events + [e] && !NamedAt(c, all, id, |events|)
    ensures NameSound(c, all, id, name)
  {
    forall j: nat | j < |events| ensures NamedAt(c, all, id, j) <==> NamedAt(c, events, id, j) {
      AdmitsEarlier(c, events, e, id, j);
    }
    if name.Some? {
      var k: nat :| LastNamedAt(c, events, id, k) && events[k].clientId == name;
      assert LastNamedAt(c, all, id, k);
    }
  }

  lemma NameChanges(c: Settings, events: seq<Event>, e: Event, id: SessionId)
    ensures var before := RecordOf(Run(c, START, events).server, id);
            var after := RecordOf(Run(c, START, events + [e]).server, id);
            if NamedAt(c, events + [e], id, |events|) then after.Some? && after.value.clientId == e.clientId
            else after.Some? ==> after.value.clientId == if before.Some? then before.value.clientId else None
  {
    RunSnoc(c, START, events, e);
    StepRecord(c, Run(c, START, events), e, id);
    KnownExactly(c, events, id);
    AdmittedNext(c, events, e, id);
    assert (events + [e])[|events|] == e;
  }

  /** No hello is admitted before the session connects. */
  lemma UnknownIsUnnamed(c: Settings, events: seq<Event>, id: SessionId)
    requires RecordOf(Run(c, START, events).server, id) == None
    ensures NameSound(c, events, id, None)
  {
    KnownExactly(c, events, id);
    forall k: nat | k < |events| ensures !NamedAt(c, events, id, k) {
      ConnectedSooner(c, events, id, k, |events|);
    }
  }

  /** What a session's client is called. */
  lemma {:induction false} ClientNameExactly(c: Settings, events: seq<Event>, id: SessionId)
    requires RecordOf(Run(c, START, events).server, id).Some?
    ensures NameSound(c, events, id, RecordOf(Run(c, START, events).server, id).value.clientId)
  {
    if events == [] {
      assert false;
    }
    var init, e := events[..|events| - 1], events[|events| - 1];
    assert events == init + [e];
    NameChanges(c, init, e, id);
    if NamedAt(c, events, id, |init|) {
      assert LastNamedAt(c, events, id, |init|);
    } else if RecordOf(Run(c, START, init).server, id).Some? {
      ClientNameExactly(c, init, id);
      NameStays(c, init, e, id, RecordOf(Run(c, START, init).server, id).value.clientId, events);
    } else {
      UnknownIsUnnamed(c, init, id);
      NameStays(c, init, e, id, None, events);
    }
  }
}
