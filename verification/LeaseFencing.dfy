/** Transaction status leases at their authority: renewals and expiry fence each other. */
module LeaseFencing {
  import opened Base
  import opened ByteOrder

  datatype Status = Pending | Committed | Aborted

  datatype Record = Record(
    txnId: U128,
    startTimestamp: U64,
    commitTimestamp: Option<U64>,
    status: Status,
    primaryKey: Key,
    participants: seq<U64>,
    lastHeartbeat: Option<U64>,
    leaseDeadlineMs: Option<U64>)

  predicate ValidRecord(r: Record) {
    && r.txnId != 0
    && r.startTimestamp != 0
    && r.primaryKey != []
    && r.participants != []
    && r.participants[0] != 0
    && (forall i | 1 <= i < |r.participants| - 1 :: r.participants[i] < r.participants[i + 1])
    && (forall i | 1 <= i < |r.participants| :: r.participants[i] != r.participants[0])
    && (r.lastHeartbeat.Some? ==> r.startTimestamp <= r.lastHeartbeat.value)
    && r.leaseDeadlineMs != Some(0)
    && match r.status
       case Committed => r.commitTimestamp.Some? && r.startTimestamp < r.commitTimestamp.value
       case _ => r.commitTimestamp.None?
  }

  predicate SameIdentity(a: Record, b: Record) {
    && a.txnId == b.txnId
    && a.startTimestamp == b.startTimestamp
    && a.primaryKey == b.primaryKey
    && a.participants == b.participants
  }

  /** The logical time of the last sign of life. */
  function Stamp(r: Record): U64 {
    if r.lastHeartbeat.Some? then r.lastHeartbeat.value else r.startTimestamp
  }

  /** A heartbeat carries the record it renews, the record it proposes and one clock sample. */
  predicate ValidHeartbeat(expected: Record, next: Record, nowMs: U64) {
    && ValidRecord(expected) && ValidRecord(next)
    && nowMs != 0
    && expected.status.Pending? && next.status.Pending?
    && SameIdentity(expected, next)
    && expected.leaseDeadlineMs.Some? && nowMs < expected.leaseDeadlineMs.value
    && next.leaseDeadlineMs.Some? && expected.leaseDeadlineMs.value <= next.leaseDeadlineMs.value
    && next.lastHeartbeat.Some? && Stamp(expected) < next.lastHeartbeat.value
  }

  predicate ValidExpiry(expected: Record, nowMs: U64) {
    && ValidRecord(expected)
    && nowMs != 0
    && expected.status.Pending?
    && expected.leaseDeadlineMs.Some? && expected.leaseDeadlineMs.value <= nowMs
  }

  type Statuses = map<U128, Record>

  /**
   * A replicated command at the status authority. `admitted` is the verdict of the checks made
   * outside the status table: key ownership, the key list and the storage batch.
   */
  datatype Command =
    | Begin(record: Record, admitted: bool)
    | Heartbeat(expected: Record, next: Record, nowMs: U64)
    | Expire(expected: Record, nowMs: U64)
    | Commit(record: Record, admitted: bool)
    | Abort(record: Record, admitted: bool)

  datatype Step = Step(statuses: Statuses, accepted: bool)

  function Expired(r: Record): Record {
    r.(status := Aborted, commitTimestamp := None)
  }

  function ApplyBegin(m: Statuses, r: Record, admitted: bool): Step {
    if !ValidRecord(r) || !r.status.Pending? || !admitted then Step(m, false)
    else if r.txnId !in m then Step(m[r.txnId := r], true)
    else Step(m, m[r.txnId] == r)
  }

  function ApplyHeartbeat(m: Statuses, expected: Record, next: Record, nowMs: U64): Step {
    if !ValidHeartbeat(expected, next, nowMs) then Step(m, false)
    else if expected.txnId !in m || m[expected.txnId] != expected then Step(m, false)
    else Step(m[expected.txnId := next], true)
  }

  function ApplyExpire(m: Statuses, expected: Record, nowMs: U64): Step {
    if !ValidExpiry(expected, nowMs) then Step(m, false)
    else if expected.txnId !in m then Step(m, false)
    else if m[expected.txnId] == Expired(expected) then Step(m, true)
    else if m[expected.txnId] != expected then Step(m, false)
    else Step(m[expected.txnId := Expired(expected)], true)
  }

  function ApplyCommit(m: Statuses, r: Record, admitted: bool): Step {
    if !ValidRecord(r) || !r.status.Committed? || !admitted then Step(m, false)
    else if r.txnId !in m || !SameIdentity(m[r.txnId], r) then Step(m, false)
    else if m[r.txnId].status.Pending? then Step(m[r.txnId := r], true)
    else Step(m, m[r.txnId] == r)
  }

  function ApplyAbort(m: Statuses, r: Record, admitted: bool): Step {
    if !ValidRecord(r) || !r.status.Aborted? || !admitted then Step(m, false)
    else if r.txnId !in m || !SameIdentity(m[r.txnId], r) then Step(m, false)
    else if m[r.txnId].status.Pending? then Step(m[r.txnId := r], true)
    else Step(m, m[r.txnId] == r)
  }

  function Apply(m: Statuses, c: Command): Step {
    match c
    case Begin(r, admitted) => ApplyBegin(m, r, admitted)
    case Heartbeat(expected, next, nowMs) => ApplyHeartbeat(m, expected, next, nowMs)
    case Expire(expected, nowMs) => ApplyExpire(m, expected, nowMs)
    case Commit(r, admitted) => ApplyCommit(m, r, admitted)
    case Abort(r, admitted) => ApplyAbort(m, r, admitted)
  }

  /** The statuses after the first `i` commands of a run from an empty table. */
  function At(log: seq<Command>, i: nat): Statuses
    requires i <= |log|
  {
    if i == 0 then map[] else Apply(At(log, i - 1), log[i - 1]).statuses
  }

  // ---------- one record ----------

  /** A live lease can be renewed or expired, never both at the same instant. */
  lemma RenewalExcludesExpiry(expected: Record, next: Record, nowMs: U64)
    ensures !(ValidHeartbeat(expected, next, nowMs) && ValidExpiry(expected, nowMs))
  {
  }

  /** `b` is `a` or comes strictly after it: a renewal or a final decision. */
  ghost predicate Later(a: Record, b: Record) {
    || a == b
    || (&& SameIdentity(a, b)
        && a.status.Pending?
        && (b.status.Pending? ==>
              && Stamp(a) < Stamp(b)
              && a.leaseDeadlineMs.Some? && b.leaseDeadlineMs.Some?
              && a.leaseDeadlineMs.value <= b.leaseDeadlineMs.value))
  }

  lemma LaterIsTransitive(a: Record, b: Record, c: Record)
    requires Later(a, b) && Later(b, c)
    ensures Later(a, c)
  {
  }

  lemma LaterIsAntisymmetric(a: Record, b: Record)
    requires Later(a, b) && Later(b, a)
    ensures a == b
  {
  }

  // ---------- runs ----------

  ghost predicate Wellformed(m: Statuses) {
    forall k | k in m :: m[k].txnId == k && ValidRecord(m[k])
  }

  /** No record disappears, and each stays or moves forward. */
  ghost predicate Forward(m: Statuses, u: Statuses) {
    forall k | k in m :: k in u && Later(m[k], u[k])
  }

  /** Replacing one record by a later one, or adding one, moves forward. */
  lemma ReplacedForward(m: Statuses, r: Record)
    requires Wellformed(m) && ValidRecord(r) && (r.txnId in m ==> Later(m[r.txnId], r))
    ensures Wellformed(m[r.txnId := r]) && Forward(m, m[r.txnId := r])
  {
  }

  lemma HeartbeatIsLater(expected: Record, next: Record, nowMs: U64)
    requires ValidHeartbeat(expected, next, nowMs)
    ensures Later(expected, next)
  {
  }

  lemma StepMovesForward(m: Statuses, c: Command)
    requires Wellformed(m)
    ensures Wellformed(Apply(m, c).statuses) && Forward(m, Apply(m, c).statuses)
  {
    var u := Apply(m, c).statuses;
    if u != m {
      match c
      case Begin(r, _) => ReplacedForward(m, r);
      case Heartbeat(expected, next, nowMs) =>
        HeartbeatIsLater(expected, next, nowMs);
        ReplacedForward(m, next);
      case Expire(expected, _) => ReplacedForward(m, Expired(expected));
      case Commit(r, _) => ReplacedForward(m, r);
      case Abort(r, _) => ReplacedForward(m, r);
    }
  }

  lemma {:induction false} RunIsWellformed(log: seq<Command>, i: nat)
    requires i <= |log|
    ensures Wellformed(At(log, i))
  {
    if i > 0 {
      RunIsWellformed(log, i - 1);
      StepMovesForward(At(log, i - 1), log[i - 1]);
    }
  }

  /** Along any run a status record only moves forward: identity fixed, deadline never earlier. */
  lemma {:induction false} RunMovesForward(log: seq<Command>, i: nat, j: nat, txn: U128)
    requires i <= j <= |log| && txn in At(log, i)
    ensures txn in At(log, j) && Later(At(log, i)[txn], At(log, j)[txn])
    decreases j - i
  {
    if i < j {
      RunMovesForward(log, i, j - 1, txn);
      RunIsWellformed(log, j - 1);
      StepMovesForward(At(log, j - 1), log[j - 1]);
      LaterIsTransitive(At(log, i)[txn], At(log, j - 1)[txn], At(log, j)[txn]);
    }
  }

  /** No ABA: once a record has been replaced it never comes back. */
  lemma RecordsNeverReturn(log: seq<Command>, i: nat, m: nat, j: nat, txn: U128)
    requires i <= m <= j <= |log| && txn in At(log, i)
    requires txn in At(log, m) && At(log, m)[txn] != At(log, i)[txn]
    ensures txn in At(log, j) && At(log, j)[txn] != At(log, i)[txn]
  {
    RunMovesForward(log, i, m, txn);
    RunMovesForward(log, m, j, txn);
    if At(log, j)[txn] == At(log, i)[txn] {
      LaterIsAntisymmetric(At(log, i)[txn], At(log, m)[txn]);
    }
  }

  /** A decision is final. */
  lemma DecisionsAreFinal(log: seq<Command>, i: nat, j: nat, txn: U128)
    requires i <= j <= |log| && txn in At(log, i) && !At(log, i)[txn].status.Pending?
    ensures txn in At(log, j) && At(log, j)[txn] == At(log, i)[txn]
  {
    RunMovesForward(log, i, j, txn);
  }

  /**
   * Command `c` decides the transaction whose pending record is `p` with outcome `d`: a published
   * decision, or an expiry that names exactly `p` and whose clock has reached its deadline.
   */
  ghost predicate Decides(c: Command, p: Record, d: Record) {
    && p.status.Pending?
    && SameIdentity(p, d)
    && (|| (c == Commit(d, true) && d.status.Committed?)
        || (c == Abort(d, true) && d.status.Aborted?)
        || (&& c.Expire?
            && c.expected == p
            && d == Expired(p)
            && p.leaseDeadlineMs.Some? && p.leaseDeadlineMs.value <= c.nowMs))
  }

  lemma StepDecides(m: Statuses, c: Command, txn: U128)
    requires Wellformed(m)
    requires txn in Apply(m, c).statuses && !Apply(m, c).statuses[txn].status.Pending?
    ensures txn in m
    ensures m[txn].status.Pending? ==> Decides(c, m[txn], Apply(m, c).statuses[txn])
  {
  }

  /**
   * Every decided transaction was decided once, at a definite command, from the pending record it
   * had at that moment. In particular an expiry aborts only on the latest lease, after its deadline.
   */
  lemma {:induction false} DecisionHasCause(log: seq<Command>, i: nat, txn: U128) returns (m: nat)
    requires i <= |log| && txn in At(log, i) && !At(log, i)[txn].status.Pending?
    ensures m < i && txn in At(log, m) && Decides(log[m], At(log, m)[txn], At(log, i)[txn])
  {
    RunIsWellformed(log, i - 1);
    StepDecides(At(log, i - 1), log[i - 1], txn);
    if At(log, i - 1)[txn].status.Pending? {
      m := i - 1;
    } else {
      m := DecisionHasCause(log, i - 1, txn);
      DecisionsAreFinal(log, i - 1, i, txn);
    }
  }

  lemma OnlyCurrentExpires(m: Statuses, expected: Record, nowMs: U64)
    requires Apply(m, Expire(expected, nowMs)).statuses != m
    ensures expected.txnId in m && m[expected.txnId] == expected
  {
  }

  /**
   * An expiry built from an observed record has no effect once that record has been renewed or
   * decided, no matter how late it is applied or what clock it carries.
   */
  lemma StaleExpiryHasNoEffect(log: seq<Command>, i: nat, m: nat, j: nat, txn: U128, nowMs: U64)
    requires i <= m <= j <= |log| && txn in At(log, i)
    requires txn in At(log, m) && At(log, m)[txn] != At(log, i)[txn]
    ensures Apply(At(log, j), Expire(At(log, i)[txn], nowMs)).statuses == At(log, j)
  {
    RecordsNeverReturn(log, i, m, j, txn);
    RunIsWellformed(log, i);
    assert At(log, i)[txn].txnId == txn;
  }

  /** Likewise a heartbeat built from a replaced record renews nothing. */
  lemma StaleHeartbeatHasNoEffect(log: seq<Command>, i: nat, m: nat, j: nat, txn: U128, next: Record, nowMs: U64)
    requires i <= m <= j <= |log| && txn in At(log, i)
    requires txn in At(log, m) && At(log, m)[txn] != At(log, i)[txn]
    ensures Apply(At(log, j), Heartbeat(At(log, i)[txn], next, nowMs)) == Step(At(log, j), false)
  {
    RecordsNeverReturn(log, i, m, j, txn);
    RunIsWellformed(log, i);
    assert At(log, i)[txn].txnId == txn;
  }

  // ---------- the law of one command ----------

  /** What an expired record becomes: aborted, without a commit timestamp, otherwise the same. */
  function AbortedForm(r: Record): Record {
    Record(r.txnId, r.startTimestamp, None, Aborted, r.primaryKey, r.participants, r.lastHeartbeat, r.leaseDeadlineMs)
  }

  /** The decision `d` may be published over the stored pending record. */
  predicate Decidable(m: Statuses, d: Record) {
    && ValidRecord(d)
    && d.txnId in m && m[d.txnId].status.Pending?
    && m[d.txnId].startTimestamp == d.startTimestamp
    && m[d.txnId].primaryKey == d.primaryKey
    && m[d.txnId].participants == d.participants
  }

  /** The command has `r` to store. */
  predicate Stores(m: Statuses, c: Command, r: Record) {
    match c
    case Begin(record, admitted) =>
      admitted && r == record && ValidRecord(record) && record.status.Pending? && record.txnId !in m
    case Heartbeat(expected, next, nowMs) =>
      r == next && ValidHeartbeat(expected, next, nowMs) && expected.txnId in m && m[expected.txnId] == expected
    case Expire(expected, nowMs) =>
      && r == AbortedForm(expected)
      && ValidExpiry(expected, nowMs)
      && expected.txnId in m && m[expected.txnId] == expected
    case Commit(record, admitted) => admitted && r == record && record.status.Committed? && Decidable(m, record)
    case Abort(record, admitted) => admitted && r == record && record.status.Aborted? && Decidable(m, record)
  }

  /** The stored record already is what the command asks for. */
  predicate Repeats(m: Statuses, c: Command) {
    match c
    case Begin(record, admitted) =>
      admitted && record.status.Pending? && record.txnId in m && m[record.txnId] == record
    case Heartbeat(_, _, _) => false
    case Expire(expected, nowMs) =>
      ValidExpiry(expected, nowMs) && expected.txnId in m && m[expected.txnId] == AbortedForm(expected)
    case Commit(record, admitted) =>
      admitted && record.status.Committed? && record.txnId in m && m[record.txnId] == record
    case Abort(record, admitted) =>
      admitted && record.status.Aborted? && record.txnId in m && m[record.txnId] == record
  }

  /**
   * What one command does, in all cases: it stores exactly its record, or it repeats what is
   * stored and is accepted without a change, or it is refused without a change.
   */
  lemma CommandLaw(m: Statuses, c: Command)
    requires Wellformed(m)
    ensures forall r | Stores(m, c, r) :: Apply(m, c) == Step(m[r.txnId := r], true)
    ensures Repeats(m, c) ==> Apply(m, c) == Step(m, true)
    ensures !Repeats(m, c) && (forall r :: !Stores(m, c, r)) ==> Apply(m, c) == Step(m, false)
  {
    match c
    case Begin(record, admitted) => assert !Stores(m, c, record) ==> Apply(m, c).statuses == m;
    case Heartbeat(expected, next, nowMs) => assert !Stores(m, c, next) ==> Apply(m, c) == Step(m, false);
    case Expire(expected, nowMs) => assert !Stores(m, c, AbortedForm(expected)) ==> Apply(m, c).statuses == m;
    case Commit(record, admitted) => assert !Stores(m, c, record) ==> Apply(m, c).statuses == m;
    case Abort(record, admitted) => assert !Stores(m, c, record) ==> Apply(m, c).statuses == m;
  }

  /** A live lease can be renewed: any later heartbeat to the same or a later deadline is stored. */
  lemma LiveLeaseRenews(m: Statuses, txn: U128, heartbeat: U64, deadlineMs: U64, nowMs: U64)
    requires Wellformed(m) && txn in m && m[txn].status.Pending? && m[txn].leaseDeadlineMs.Some?
    requires 0 < nowMs < m[txn].leaseDeadlineMs.value <= deadlineMs
    requires m[txn].startTimestamp < heartbeat && (m[txn].lastHeartbeat.Some? ==> m[txn].lastHeartbeat.value < heartbeat)
    ensures var next := m[txn].(lastHeartbeat := Some(heartbeat), leaseDeadlineMs := Some(deadlineMs));
            Apply(m, Heartbeat(m[txn], next, nowMs)) == Step(m[txn := next], true)
  {
  }

  /** A lease at or past its deadline can be expired, and a heartbeat can no longer save it. */
  lemma DeadLeaseExpires(m: Statuses, txn: U128, next: Record, nowMs: U64)
    requires Wellformed(m) && txn in m && m[txn].status.Pending? && m[txn].leaseDeadlineMs.Some?
    requires m[txn].leaseDeadlineMs.value <= nowMs
    ensures Apply(m, Expire(m[txn], nowMs)) == Step(m[txn := AbortedForm(m[txn])], true)
    ensures Apply(m, Heartbeat(m[txn], next, nowMs)) == Step(m, false)
  {
  }

  /** A pending transaction, leased or not, can be decided either way with its own identity. */
  lemma PendingIsDecidable(m: Statuses, txn: U128, commitTimestamp: U64)
    requires Wellformed(m) && txn in m && m[txn].status.Pending? && m[txn].startTimestamp < commitTimestamp
    ensures var d := m[txn].(status := Committed, commitTimestamp := Some(commitTimestamp));
            Apply(m, Commit(d, true)) == Step(m[txn := d], true)
    ensures Apply(m, Abort(AbortedForm(m[txn]), true)) == Step(m[txn := AbortedForm(m[txn])], true)
  {
  }

  // ---------- the status table, updated in place ----------

  class StatusAuthority {
    var statuses: Statuses

    constructor ()
      ensures statuses == map[]
    {
      statuses := map[];
    }

    method HeartbeatStatus(expected: Record, next: Record, nowMs: U64) returns (accepted: bool)
      modifies this
      ensures Step(statuses, accepted) == Apply(old(statuses), Heartbeat(expected, next, nowMs))
    {
      if !ValidHeartbeat(expected, next, nowMs) {
        return false;
      }
      if expected.txnId !in statuses {
        return false;
      }
      if statuses[expected.txnId] != expected {
        return false;
      }
      statuses := statuses[expected.txnId := next];
      accepted := true;
    }

    method ExpireStatus(expected: Record, nowMs: U64) returns (accepted: bool)
      modifies this
      ensures Step(statuses, accepted) == Apply(old(statuses), Expire(expected, nowMs))
    {
      if !ValidExpiry(expected, nowMs) {
        return false;
      }
      var aborted := expected.(status := Aborted, commitTimestamp := None);
      if expected.txnId !in statuses {
        return false;
      }
      if statuses[expected.txnId] == aborted {
        return true;
      }
      if statuses[expected.txnId] != expected {
        return false;
      }
      statuses := statuses[expected.txnId := aborted];
      accepted := true;
    }

    /** Publish a commit or abort decision over a pending record; repeats are idempotent. */
    method Decide(record: Record, admitted: bool) returns (accepted: bool)
      requires !record.status.Pending?
      modifies this
      ensures Step(statuses, accepted)
           == Apply(old(statuses), if record.status.Committed? then Commit(record, admitted) else Abort(record, admitted))
    {
      if !ValidRecord(record) || !admitted {
        return false;
      }
      if record.txnId !in statuses {
        return false;
      }
      var existing := statuses[record.txnId];
      if !SameIdentity(existing, record) {
        return false;
      }
      if existing.status.Pending? {
        statuses := statuses[record.txnId := record];
        return true;
      }
      accepted := existing == record;
    }
  }
}
