/** The ledger of one-time confirmation tokens (src/security/policy.ts:105-159) over whole runs. */
module Ledger {
  import opened Common

  const CONFIRMATION_TTL_MS := 300000

  datatype Confirmation = Confirmation(capability: string, action: string, createdAt: int)

  type Pending = map<string, Confirmation>

  /** `now` is the clock reading of the cleanup that every operation begins with, `stamp` that of the creation. */
  datatype Step =
    | Issue(capability: string, action: string, token: string, now: int, stamp: int)
    | Check(token: string, capability: string, action: string, now: int)
    | CountPending(now: int)

  function Cleanup(m: Pending, now: int): Pending {
    map t | t in m && now - m[t].createdAt <= CONFIRMATION_TTL_MS :: m[t]
  }

  function Accepts(m: Pending, token: string, capability: string, action: string): bool {
    token in m && m[token].capability == capability && m[token].action == action
  }

  function Apply(m: Pending, s: Step): Pending {
    var kept := Cleanup(m, s.now);
    match s
    case Issue(capability, action, token, _, stamp) => kept[token := Confirmation(capability, action, stamp)]
    case Check(token, capability, action, _) =>
      if Accepts(kept, token, capability, action) then kept - {token} else kept
    case CountPending(_) => kept
  }

  function PendingAfter(run: seq<Step>): Pending {
    if run == [] then map[] else Apply(PendingAfter(run[..|run| - 1]), run[|run| - 1])
  }

  /** A token is accepted by a step after a run. */
  predicate AcceptedBy(run: seq<Step>, s: Step) {
    s.Check? && Accepts(Cleanup(PendingAfter(run), s.now), s.token, s.capability, s.action)
  }

  /** The i-th step of a run accepts its token. */
  predicate Accepted(run: seq<Step>, i: nat) {
    i < |run| && AcceptedBy(run[..i], run[i])
  }

  /** The clock never goes back. */
  ghost predicate Timely(run: seq<Step>) {
    forall i, j :: 0 <= i <= j < |run| ==> run[i].now <= run[j].now
  }

  /** No token is generated twice. */
  ghost predicate FreshTokens(run: seq<Step>) {
    forall i, j :: 0 <= i < j < |run| && run[i].Issue? && run[j].Issue? ==> run[i].token != run[j].token
  }

  ghost predicate Orderly(run: seq<Step>) {
    Timely(run) && FreshTokens(run)
  }

  // ------------------------------------------------------------------ what is pending

  /** The i-th step issued the token, for the pair and at the time that the confirmation says. */
  ghost predicate IssuedAt(run: seq<Step>, i: nat, token: string, c: Confirmation) {
    i < |run| && run[i].Issue? && run[i].token == token
    && run[i].capability == c.capability && run[i].action == c.action && run[i].stamp == c.createdAt
  }

  /** No step from the i-th on accepts the token. */
  ghost predicate NotSpent(run: seq<Step>, i: nat, token: string) {
    forall j: nat :: i <= j < |run| && Accepted(run, j) ==> run[j].token != token
  }

  /** The last step, if it came after the i-th, was no later than five minutes after the creation. */
  ghost predicate NotExpired(run: seq<Step>, i: nat, createdAt: int) {
    i < |run| - 1 ==> run[|run| - 1].now - createdAt <= CONFIRMATION_TTL_MS
  }

  ghost predicate Live(run: seq<Step>, token: string, c: Confirmation) {
    exists i: nat :: IssuedAt(run, i, token, c) && NotSpent(run, i, token) && NotExpired(run, i, c.createdAt)
  }

  lemma PendingNext(run: seq<Step>, s: Step)
    ensures PendingAfter(run + [s]) == Apply(PendingAfter(run), s)
  {
    assert (run + [s])[..|run|] == run;
  }

  lemma AcceptedNext(run: seq<Step>, s: Step, i: nat)
    ensures i < |run| ==> Accepted(run + [s], i) == Accepted(run, i)
    ensures i == |run| ==> Accepted(run + [s], i) == AcceptedBy(run, s)
  {
    var next := run + [s];
    if i <= |run| {
      assert next[..i] == run[..i];
    }
    if i == |run| {
      assert run[..i] == run;
    }
  }

  /** One step keeps a token live exactly when it is not too old and the step does not accept it. */
  lemma LiveNext(run: seq<Step>, s: Step, token: string, c: Confirmation)
    requires Timely(run + [s]) && !(s.Issue? && s.token == token)
    ensures Live(run + [s], token, c) <==>
            Live(run, token, c) && s.now - c.createdAt <= CONFIRMATION_TTL_MS
            && !(AcceptedBy(run, s) && s.token == token)
  {
    var next := run + [s];
    if Live(next, token, c) {
      var i: nat :| IssuedAt(next, i, token, c) && NotSpent(next, i, token) && NotExpired(next, i, c.createdAt);
      LiveBefore(run, s, token, c, i);
    }
    if Live(run, token, c) && s.now - c.createdAt <= CONFIRMATION_TTL_MS && !(AcceptedBy(run, s) && s.token == token) {
      var i: nat :| IssuedAt(run, i, token, c) && NotSpent(run, i, token) && NotExpired(run, i, c.createdAt);
      LiveAfter(run, s, token, c, i);
    }
  }

  lemma LiveBefore(run: seq<Step>, s: Step, token: string, c: Confirmation, i: nat)
    requires Timely(run + [s]) && !(s.Issue? && s.token == token)
    requires var next := run + [s];
             IssuedAt(next, i, token, c) && NotSpent(next, i, token) && NotExpired(next, i, c.createdAt)
    ensures Live(run, token, c) && s.now - c.createdAt <= CONFIRMATION_TTL_MS
            && !(AcceptedBy(run, s) && s.token == token)
  {
    var next := run + [s];
    assert i < |run| && IssuedAt(run, i, token, c);
    AcceptedNext(run, s, |run|);
    forall j: nat | i <= j < |run| && Accepted(run, j) ensures run[j].token != token {
      AcceptedNext(run, s, j);
    }
    assert next[|run|] == s && next[|run| - 1].now <= next[|run|].now;
  }

  lemma LiveAfter(run: seq<Step>, s: Step, token: string, c: Confirmation, i: nat)
    requires IssuedAt(run, i, token, c) && NotSpent(run, i, token)
    requires s.now - c.createdAt <= CONFIRMATION_TTL_MS && !(AcceptedBy(run, s) && s.token == token)
    ensures Live(run + [s], token, c)
  {
    var next := run + [s];
    forall j: nat | i <= j < |next| && Accepted(next, j) ensures next[j].token != token {
      AcceptedNext(run, s, j);
    }
    assert IssuedAt(next, i, token, c);
  }

  /** A token just issued is live with the confirmation it was issued with, and with no other. */
  lemma LiveIssued(run: seq<Step>, s: Step, c: Confirmation)
    requires FreshTokens(run + [s]) && s.Issue?
    ensures Live(run + [s], s.token, c) <==> c == Confirmation(s.capability, s.action, s.stamp)
  {
    var next := run + [s];
    assert next[|run|] == s;
    AcceptedNext(run, s, |run|);
    if c == Confirmation(s.capability, s.action, s.stamp) {
      assert IssuedAt(next, |run|, s.token, c) && NotSpent(next, |run|, s.token);
    }
    if Live(next, s.token, c) {
      var i: nat :| IssuedAt(next, i, s.token, c);
      assert i == |run|;
    }
  }

  /** The pending map holds exactly the live tokens. */
  lemma {:induction false} PendingIsLive(run: seq<Step>, token: string, c: Confirmation)
    requires Orderly(run)
    ensures token in PendingAfter(run) && PendingAfter(run)[token] == c <==> Live(run, token, c)
  {
    if run != [] {
      var init, s := run[..|run| - 1], run[|run| - 1];
      assert run == init + [s];
      PendingIsLive(init, token, c);
      PendingNext(init, s);
      if s.Issue? && s.token == token {
        LiveIssued(init, s, c);
      } else {
        LiveNext(init, s, token, c);
      }
    }
  }

  // ------------------------------------------------------------------ what acceptance means

  /**
   * The i-th step issued the token that s presents, for the pair that s presents it for, at most five minutes before s.
   */
  ghost predicate IssuedFor(run: seq<Step>, i: nat, s: Step)
    requires s.Check?
  {
    i < |run| && run[i].Issue? && run[i].token == s.token && run[i].capability == s.capability
    && run[i].action == s.action
    && s.now - run[i].stamp <= 300000
  }

  /**
   * A check accepts its token exactly when the token was issued earlier, for the same capability and action, at most
   * five minutes ago, and was not accepted since.
   */
  lemma AcceptedExactly(run: seq<Step>, s: Step)
    requires Orderly(run + [s]) && s.Check?
    ensures AcceptedBy(run, s) <==> exists i: nat :: IssuedFor(run, i, s) && NotSpent(run, i, s.token)
  {
    var next := run + [s];
    assert next[|run|] == s && forall i :: 0 <= i < |run| ==> next[i] == run[i];
    assert Orderly(run);
    if AcceptedBy(run, s) {
      var c := PendingAfter(run)[s.token];
      PendingIsLive(run, s.token, c);
      var i: nat :| IssuedAt(run, i, s.token, c) && NotSpent(run, i, s.token);
      assert IssuedFor(run, i, s);
    }
    if i: nat :| IssuedFor(run, i, s) && NotSpent(run, i, s.token) {
      assert next[|run| - 1].now <= next[|run|].now;
      var c := Confirmation(s.capability, s.action, run[i].stamp);
      assert IssuedAt(run, i, s.token, c);
      PendingIsLive(run, s.token, c);
    }
  }

  /** Where the token of an accepting step was issued. */
  lemma IssueOf(run: seq<Step>, i: nat) returns (k: nat)
    requires Orderly(run) && Accepted(run, i)
    ensures k < i && run[k].Issue? && run[k].token == run[i].token && NotSpent(run[..i], k, run[i].token)
  {
    assert run[..i + 1] == run[..i] + [run[i]];
    AcceptedExactly(run[..i], run[i]);
    k :| IssuedFor(run[..i], k, run[i]) && NotSpent(run[..i], k, run[i].token);
  }

  /** No token is accepted twice. */
  lemma AcceptedAtMostOnce(run: seq<Step>, i: nat, j: nat)
    requires Orderly(run) && i < j && Accepted(run, i) && Accepted(run, j)
    ensures run[i].token != run[j].token
  {
    var k := IssueOf(run, j);
    var m := IssueOf(run, i);
    if i >= k {
      assert run[..j][..i] == run[..i];
      assert Accepted(run[..j], i);
    }
  }

  // ------------------------------------------------------------------ conservation

  /** The pending tokens of one pair. */
  function TokensOf(m: Pending, capability: string, action: string): set<string> {
    set t | t in m && m[t].capability == capability && m[t].action == action
  }

  predicate ForPair(s: Step, capability: string, action: string) {
    !s.CountPending? && s.capability == capability && s.action == action
  }

  function Issued(run: seq<Step>, capability: string, action: string): nat {
    if run == [] then 0
    else
      var s := run[|run| - 1];
      Issued(run[..|run| - 1], capability, action) + (if s.Issue? && ForPair(s, capability, action) then 1 else 0)
  }

  function AcceptedOf(run: seq<Step>, capability: string, action: string): nat {
    if run == [] then 0
    else
      var init, s := run[..|run| - 1], run[|run| - 1];
      AcceptedOf(init, capability, action) + (if AcceptedBy(init, s) && ForPair(s, capability, action) then 1 else 0)
  }

  /** The tokens that cleanups dropped. */
  function Expired(run: seq<Step>, capability: string, action: string): nat {
    if run == [] then 0
    else
      var init, s := run[..|run| - 1], run[|run| - 1];
      var before := PendingAfter(init);
      Expired(init, capability, action)
      + |TokensOf(before, capability, action) - TokensOf(Cleanup(before, s.now), capability, action)|
  }

  lemma CleanupCount(m: Pending, now: int, capability: string, action: string)
    ensures var kept := TokensOf(Cleanup(m, now), capability, action);
            |TokensOf(m, capability, action)| == |kept| + |TokensOf(m, capability, action) - kept|
  {
    var all, kept := TokensOf(m, capability, action), TokensOf(Cleanup(m, now), capability, action);
    assert kept <= all && all == kept + (all - kept);
  }

  lemma IssueCount(kept: Pending, s: Step, capability: string, action: string)
    requires s.Issue? && s.token !in kept
    ensures |TokensOf(kept[s.token := Confirmation(s.capability, s.action, s.stamp)], capability, action)|
            == |TokensOf(kept, capability, action)| + (if ForPair(s, capability, action) then 1 else 0)
  {
    var before := TokensOf(kept, capability, action);
    var after := TokensOf(kept[s.token := Confirmation(s.capability, s.action, s.stamp)], capability, action);
    assert s.token !in before;
    assert after == if ForPair(s, capability, action) then before + {s.token} else before;
  }

  lemma AcceptCount(kept: Pending, s: Step, capability: string, action: string)
    requires s.Check? && Accepts(kept, s.token, s.capability, s.action)
    ensures |TokensOf(kept - {s.token}, capability, action)| + (if ForPair(s, capability, action) then 1 else 0)
            == |TokensOf(kept, capability, action)|
  {
    var before, after := TokensOf(kept, capability, action), TokensOf(kept - {s.token}, capability, action);
    if ForPair(s, capability, action) {
      assert s.token in before;
      assert after == before - {s.token};
    } else {
      assert after == before;
    }
  }

  /** After the cleanup: an issued token is one more, an accepted one is one less, nothing else changes. */
  lemma StepCount(m: Pending, s: Step, capability: string, action: string)
    requires s.Issue? ==> s.token !in m
    ensures var kept := Cleanup(m, s.now);
            |TokensOf(Apply(m, s), capability, action)|
            + (if s.Check? && Accepts(kept, s.token, s.capability, s.action) && ForPair(s, capability, action)
               then 1 else 0)
            == |TokensOf(kept, capability, action)| + (if s.Issue? && ForPair(s, capability, action) then 1 else 0)
  {
    var kept := Cleanup(m, s.now);
    if s.Issue? {
      IssueCount(kept, s, capability, action);
    } else if s.Check? && Accepts(kept, s.token, s.capability, s.action) {
      AcceptCount(kept, s, capability, action);
    }
  }

  /** For every pair: whatever was issued is still pending, was accepted, or has expired. */
  lemma {:induction false} NothingIsLost(run: seq<Step>, capability: string, action: string)
    requires Orderly(run)
    ensures Issued(run, capability, action)
            == |TokensOf(PendingAfter(run), capability, action)| + AcceptedOf(run, capability, action)
               + Expired(run, capability, action)
  {
    if run != [] {
      var init, s := run[..|run| - 1], run[|run| - 1];
      assert run == init + [s];
      NothingIsLost(init, capability, action);
      var before := PendingAfter(init);
      if s.Issue? && s.token in before {
        PendingIsLive(init, s.token, before[s.token]);
      }
      CleanupCount(before, s.now, capability, action);
      StepCount(before, s, capability, action);
    }
  }
}
