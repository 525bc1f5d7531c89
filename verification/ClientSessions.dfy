/** Client sessions over whole runs: epochs fence off every earlier incarnation of a client. */
module ClientSessions {
  import opened Base
  import opened MetadataTypes
  import opened Validation
  import opened MetadataSpec
  import opened MetadataInvariant
  import opened MetadataRuns
  import opened Chains

  /** The entry reaches the session handlers. */
  predicate RunsSession(s: State, e: Entry) {
    Fresh(s, e) && s.clusterId.Some? && ValidCommand(e.command) && IsSessionCommand(e.command)
  }

  lemma ApplyOnSessions(s: State, c: Command)
    ensures var r := Apply(s, c);
            if s.clusterId.Some? && ValidCommand(c) && IsSessionCommand(c)
            then SessionStep(r.state.clientSessions, r.outcome) == ApplySession(s.clientSessions, c)
            else r.state.clientSessions == s.clientSessions
  {
  }

  lemma EntryOnSessions(s: State, e: Entry)
    ensures var r := ApplyEntry(s, e);
            if RunsSession(s, e)
            then SessionStep(r.state.clientSessions, r.outcome) == ApplySession(s.clientSessions, e.command)
            else r.state.clientSessions == s.clientSessions
  {
    ApplyOnSessions(s, e.command);
  }

  // ---------- the law of one command ----------

  function SessionOf(m: Sessions, clientId: U128): Option<ClientSession> {
    if clientId in m then Some(m[clientId]) else None
  }

  /** `epoch` is one that a registration asking for `requested` may open after `existing`. */
  predicate Opens(existing: Option<ClientSession>, requested: U64, epoch: U64) {
    match existing
    case None => epoch == if requested == 0 then 1 else requested
    case Some(session) => epoch == session.epoch + 1 && (requested == 0 || requested == epoch)
  }

  predicate Acknowledges(m: Sessions, clientId: U128, epoch: U64, through: U64) {
    && clientId in m
    && m[clientId].epoch == epoch
    && m[clientId].acknowledgedThrough < through < U64_MAX
  }

  /** A registration changes the sessions exactly when there is an epoch to open, by opening it. */
  lemma RegistersExactly(m: Sessions, clientId: U128, requested: U64)
    requires SessionsInv(m)
    ensures var r := RegisterSession(m, clientId, requested);
            && (r.outcome.ClientRegistered? <==>
                  exists epoch: U64 :: Opens(SessionOf(m, clientId), requested, epoch))
            && (!r.outcome.ClientRegistered? ==> r.sessions == m)
            && (r.outcome.ClientRegistered? ==>
                  && Opens(SessionOf(m, clientId), requested, r.outcome.epoch)
                  && r.outcome.clientId == clientId
                  && r.sessions == m[clientId := ClientSession(clientId, r.outcome.epoch, 0, 1)])
  {
    var r := RegisterSession(m, clientId, requested);
    assert r.outcome.ClientRegistered? ==> Opens(SessionOf(m, clientId), requested, r.outcome.epoch);
  }

  /** A renewal changes the sessions exactly by moving the acknowledgement of the current epoch. */
  lemma RenewsExactly(m: Sessions, clientId: U128, epoch: U64, through: U64)
    ensures var r := RenewSession(m, clientId, epoch, through);
            && (r.outcome.ClientRenewed? <==> Acknowledges(m, clientId, epoch, through))
            && r.sessions == if r.outcome.ClientRenewed?
                             then m[clientId := m[clientId].(acknowledgedThrough := through, firstRetained := through + 1)]
                             else m
  {
  }

  // ---------- histories ----------

  ghost function SessionMaps(log: seq<Entry>): (ms: seq<Sessions>)
    ensures |ms| == |log| + 1
    ensures forall i | 0 <= i < |ms| :: ms[i] == At(log, i).clientSessions
  {
    seq(|log| + 1, i requires 0 <= i <= |log| => At(log, i).clientSessions)
  }

  /** The distinct sessions a client goes through during the run. */
  ghost function SessionHistory(log: seq<Entry>, clientId: U128): seq<ClientSession> {
    Changes(SessionMaps(log), clientId)
  }

  ghost predicate Begins(s: ClientSession) {
    s.epoch != 0 && s.acknowledgedThrough == 0 && s.firstRetained == 1
  }

  ghost predicate Continues(a: ClientSession, b: ClientSession) {
    && a.clientId == b.clientId
    && b.firstRetained == b.acknowledgedThrough + 1
    && (|| (b.epoch == a.epoch + 1 && b.acknowledgedThrough == 0)
        || (b.epoch == a.epoch && a.acknowledgedThrough < b.acknowledgedThrough))
  }

  lemma SessionsFollow(log: seq<Entry>, clientId: U128, i: nat)
    requires i < |log|
    ensures Follows(SessionMaps(log)[i], SessionMaps(log)[i + 1], clientId, Begins, Continues)
  {
    StateAtNext(Init(), log, i);
    ReachableInv(log, i);
    EntryOnSessions(At(log, i), log[i]);
  }

  /**
   * Over any run a client's sessions form one chain: each change either opens the next epoch with
   * nothing acknowledged or moves the acknowledgement of the same epoch strictly forward.
   */
  lemma SessionChain(log: seq<Entry>, clientId: U128)
    ensures var h, now := SessionHistory(log, clientId), At(log, |log|).clientSessions;
            && IsChain(h, Begins, Continues)
            && (if h == [] then clientId !in now else clientId in now && h[|h| - 1] == now[clientId])
  {
    var ms := SessionMaps(log);
    assert ms[0] == map[];
    forall i | 0 <= i < |log| ensures Follows(ms[i], ms[i + 1], clientId, Begins, Continues) {
      SessionsFollow(log, clientId, i);
    }
    ChangesAreChain(ms, clientId, Begins, Continues);
  }

  // ---------- fencing ----------

  lemma {:induction false} EpochsOnlyGrow(log: seq<Entry>, i: nat, j: nat, clientId: U128)
    requires i <= j <= |log| && clientId in At(log, i).clientSessions
    ensures clientId in At(log, j).clientSessions
    ensures At(log, i).clientSessions[clientId].epoch <= At(log, j).clientSessions[clientId].epoch
    decreases j - i
  {
    if i < j {
      EpochsOnlyGrow(log, i, j - 1, clientId);
      AtProgress(log, j - 1);
    }
  }

  /** Entry `i` is executed, not replayed, and answers with a session of the client. */
  ghost predicate Registers(log: seq<Entry>, i: nat, clientId: U128, epoch: U64)
    requires i < |log|
  {
    RunsSession(At(log, i), log[i]) && OutcomeAt(Init(), log, i) == ClientRegistered(clientId, epoch)
  }

  lemma RegistrationIsStored(log: seq<Entry>, i: nat, clientId: U128, epoch: U64)
    requires i < |log| && Registers(log, i, clientId, epoch)
    ensures clientId in At(log, i + 1).clientSessions && At(log, i + 1).clientSessions[clientId].epoch == epoch
    ensures clientId in At(log, i).clientSessions ==> At(log, i).clientSessions[clientId].epoch < epoch
  {
    StateAtNext(Init(), log, i);
    EntryOnSessions(At(log, i), log[i]);
  }

  /** No two executed registrations of a client ever hand out the same epoch. */
  lemma EpochsAreNeverShared(log: seq<Entry>, i: nat, j: nat, clientId: U128, e: U64, f: U64)
    requires i < j < |log| && Registers(log, i, clientId, e) && Registers(log, j, clientId, f)
    ensures e < f
  {
    RegistrationIsStored(log, i, clientId, e);
    EpochsOnlyGrow(log, i + 1, j, clientId);
    RegistrationIsStored(log, j, clientId, f);
  }

  /** Once a later epoch is open, a renewal under an earlier one is refused forever. */
  lemma StaleSessionIsFenced(log: seq<Entry>, i: nat, j: nat, clientId: U128, epoch: U64, through: U64)
    requires i <= j <= |log| && clientId in At(log, i).clientSessions
    requires epoch < At(log, i).clientSessions[clientId].epoch
    ensures Apply(At(log, j), RenewClient(clientId, epoch, through)).state == At(log, j)
    ensures !Apply(At(log, j), RenewClient(clientId, epoch, through)).outcome.ChangedState()
  {
    EpochsOnlyGrow(log, i, j, clientId);
  }
}
