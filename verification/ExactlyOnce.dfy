/** Retries of a logical command are invisible to the state and repeat the first answer. */
module ExactlyOnce {
  import opened MetadataTypes
  import opened MetadataSpec
  import opened MetadataRuns

  function IdsOf(e: Entry): set<LogicalCommandId> {
    if e.Logged? then {e.id} else {}
  }

  function Ids(log: seq<Entry>): set<LogicalCommandId> {
    set e | e in log && e.Logged? :: e.id
  }

  predicate IsRepeat(seen: set<LogicalCommandId>, e: Entry) {
    e.Logged? && e.id in seen
  }

  /** The log without entries whose identity was seen before. */
  function Dedup(log: seq<Entry>, seen: set<LogicalCommandId>): seq<Entry> {
    if log == [] then []
    else if IsRepeat(seen, log[0]) then Dedup(log[1..], seen)
    else [log[0]] + Dedup(log[1..], seen + IdsOf(log[0]))
  }

  /** The outcomes of a run, one per entry. */
  function Answers(s: State, log: seq<Entry>): (os: seq<Outcome>)
    ensures |os| == |log|
    decreases |log|
  {
    if log == [] then []
    else
      var step := ApplyEntry(s, log[0]);
      [step.outcome] + Answers(step.state, log[1..])
  }

  /** The outcomes at the entries that `Dedup` keeps. */
  function Kept(log: seq<Entry>, seen: set<LogicalCommandId>, os: seq<Outcome>): seq<Outcome>
    requires |os| == |log|
  {
    if log == [] then []
    else if IsRepeat(seen, log[0]) then Kept(log[1..], seen, os[1..])
    else [os[0]] + Kept(log[1..], seen + IdsOf(log[0]), os[1..])
  }

  function Seen(s: State): set<LogicalCommandId> {
    s.requestDeduplication.Keys
  }

  lemma StepSeen(s: State, e: Entry)
    ensures Seen(ApplyEntry(s, e).state) == Seen(s) + IdsOf(e)
    ensures IsRepeat(Seen(s), e) ==> ApplyEntry(s, e).state == s
  {
    ApplyKeepsCache(s, e.command);
  }

  /** Deleting every repeat changes neither the final state nor any remaining outcome. */
  lemma {:induction false} RepeatsAreInvisible(s: State, log: seq<Entry>)
    ensures Run(s, log) == Run(s, Dedup(log, Seen(s)))
    ensures Kept(log, Seen(s), Answers(s, log)) == Answers(s, Dedup(log, Seen(s)))
    decreases |log|
  {
    if log != [] {
      var e, step := log[0], ApplyEntry(s, log[0]);
      StepSeen(s, e);
      RepeatsAreInvisible(step.state, log[1..]);
      if !IsRepeat(Seen(s), e) {
        var rest := Dedup(log[1..], Seen(s) + IdsOf(e));
        assert ([e] + rest)[1..] == rest;
      }
    }
  }

  /** What a retry returns: the same outcome, but rejections come back as their text. */
  function Replayed(o: Outcome): Outcome {
    if o.Rejected? then RejectedAgain(o.cause) else o
  }

  lemma ReplayedIsCached(o: Outcome)
    ensures FromCached(ToCached(o)) == Replayed(o)
  {
  }

  lemma {:induction false} CacheStays(s: State, log: seq<Entry>, i: nat, j: nat, id: LogicalCommandId)
    requires i <= j <= |log| && id in StateAt(s, log, i).requestDeduplication
    ensures id in StateAt(s, log, j).requestDeduplication
    ensures StateAt(s, log, j).requestDeduplication[id] == StateAt(s, log, i).requestDeduplication[id]
    decreases j - i
  {
    if i < j {
      CacheStays(s, log, i, j - 1, id);
      StateAtNext(s, log, j - 1);
      EntryKeepsCached(StateAt(s, log, j - 1), log[j - 1], id);
    }
  }

  lemma EntryKeepsCached(s: State, e: Entry, id: LogicalCommandId)
    requires id in s.requestDeduplication
    ensures id in ApplyEntry(s, e).state.requestDeduplication
    ensures ApplyEntry(s, e).state.requestDeduplication[id] == s.requestDeduplication[id]
  {
    ApplyKeepsCache(s, e.command);
  }

  lemma FirstIsCached(s: State, e: Entry)
    requires e.Logged? && e.id !in s.requestDeduplication
    ensures var step := ApplyEntry(s, e);
            e.id in step.state.requestDeduplication
            && step.state.requestDeduplication[e.id] == ToCached(step.outcome)
  {
  }

  lemma {:induction false} RunSeen(s: State, log: seq<Entry>)
    ensures Seen(Run(s, log)) == Seen(s) + Ids(log)
    decreases |log|
  {
    if log != [] {
      assert log == [log[0]] + log[1..];
      StepSeen(s, log[0]);
      RunSeen(ApplyEntry(s, log[0]).state, log[1..]);
    }
  }

  /**
   * In any run from the empty state, every later entry with the identity of entry `i`, the first
   * to carry it, leaves the state alone and answers with the first outcome, whatever command it
   * carries.
   */
  lemma RetryRepeatsFirstAnswer(log: seq<Entry>, i: nat, j: nat)
    requires i < j < |log| && log[i].Logged? && log[j].Logged? && log[j].id == log[i].id
    requires forall k | 0 <= k < i && log[k].Logged? :: log[k].id != log[i].id
    ensures At(log, j + 1) == At(log, j)
    ensures OutcomeAt(Init(), log, j) == Replayed(OutcomeAt(Init(), log, i))
  {
    var s, id := Init(), log[i].id;
    RunSeen(s, log[..i]);
    FirstIsCached(StateAt(s, log, i), log[i]);
    StateAtNext(s, log, i);
    CacheStays(s, log, i + 1, j, id);
    ReplayedIsCached(OutcomeAt(s, log, i));
    StateAtNext(s, log, j);
  }
}
