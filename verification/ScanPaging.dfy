/** The resumable scan contract: chains of validated pages deliver each row once, in order. */
module ScanPaging {
  import opened Base
  import opened ByteOrder

  const MAX_SCAN_ROWS: U32 := 65_536
  const MAX_SCAN_BYTES: U32 := 8 * 1024 * 1024

  datatype Request = Request(
    clientId: U128,
    sequence: U64,
    raftGroupId: U64,
    tabletId: U64,
    tabletEpoch: U64,
    startKey: Option<Key>,
    endKey: Option<Key>,
    resumeAfter: Option<Key>,
    readTimestamp: U64,
    maxRows: U32,
    maxBytes: U32,
    rpcAttemptId: Option<U64>,
    deadlineRemainingMs: Option<U64>,
    intentOnly: bool)

  datatype ScanRow = ScanRow(key: Key, row: seq<Byte>)

  /** An intent with the encoded length of its lock and the verdict of the lock's own validation. */
  datatype Intent = Intent(key: Key, lockLength: nat, lockValid: bool)

  datatype Batch = Batch(
    rows: seq<ScanRow>,
    intents: seq<Intent>,
    nextResumeAfter: Option<Key>,
    exhausted: bool)

  predicate ValidRequest(r: Request) {
    && r.clientId != 0 && r.sequence != 0 && r.raftGroupId != 0 && r.tabletId != 0 && r.tabletEpoch != 0
    && r.readTimestamp != 0
    && 0 < r.maxRows <= MAX_SCAN_ROWS
    && 0 < r.maxBytes <= MAX_SCAN_BYTES
    && (r.startKey.Some? && r.endKey.Some? ==> !Leq(r.endKey.value, r.startKey.value))
    && (r.resumeAfter.Some? && r.startKey.Some? ==> !Less(r.resumeAfter.value, r.startKey.value))
    && (r.resumeAfter.Some? && r.endKey.Some? ==> !Leq(r.endKey.value, r.resumeAfter.value))
    && r.rpcAttemptId != Some(0)
    && r.deadlineRemainingMs != Some(0)
  }

  function RowKeys(rows: seq<ScanRow>): (ks: seq<Key>)
    ensures |ks| == |rows| && forall i | 0 <= i < |rows| :: ks[i] == rows[i].key
  {
    seq(|rows|, i requires 0 <= i < |rows| => rows[i].key)
  }

  function IntentKeys(intents: seq<Intent>): (ks: seq<Key>)
    ensures |ks| == |intents| && forall i | 0 <= i < |intents| :: ks[i] == intents[i].key
  {
    seq(|intents|, i requires 0 <= i < |intents| => intents[i].key)
  }

  /** Each key is below its successor, as the windows-of-two check sees it. */
  predicate Climbs(ks: seq<Key>) {
    forall i | 0 <= i < |ks| - 1 :: !Leq(ks[i + 1], ks[i])
  }

  predicate ValidBatch(b: Batch) {
    && Climbs(RowKeys(b.rows))
    && Climbs(IntentKeys(b.intents))
    && (forall i | 0 <= i < |b.intents| :: b.intents[i].key != [] && b.intents[i].lockValid)
    && if b.intents != [] then
         && b.rows == []
         && (b.nextResumeAfter.None?
             || (b.nextResumeAfter.value == b.intents[|b.intents| - 1].key && !b.exhausted))
       else if b.rows != [] then
         if b.nextResumeAfter.Some? then b.nextResumeAfter.value == b.rows[|b.rows| - 1].key else b.exhausted
       else b.nextResumeAfter.None? && b.exhausted
  }

  function RowsLength(rows: seq<ScanRow>): nat {
    if rows == [] then 0 else |rows[0].key| + |rows[0].row| + RowsLength(rows[1..])
  }

  function IntentsLength(intents: seq<Intent>): nat {
    if intents == [] then 0 else |intents[0].key| + intents[0].lockLength + IntentsLength(intents[1..])
  }

  /** The key is inside the request's bounds and after its cursor. */
  predicate Inside(r: Request, key: Key) {
    && (r.startKey.Some? ==> !Less(key, r.startKey.value))
    && (r.endKey.Some? ==> !Leq(r.endKey.value, key))
    && (r.resumeAfter.Some? ==> !Leq(key, r.resumeAfter.value))
  }

  predicate IntentModeAgrees(r: Request, b: Batch) {
    if r.intentOnly then
      && b.rows == []
      && if b.intents == [] then b.exhausted && b.nextResumeAfter.None?
         else if b.exhausted then b.nextResumeAfter.None?
         else b.nextResumeAfter == Some(b.intents[|b.intents| - 1].key)
    else b.intents != [] ==> b.nextResumeAfter.None? && !b.exhausted
  }

  predicate ValidFor(r: Request, b: Batch) {
    && ValidRequest(r)
    && ValidBatch(b)
    && |b.rows| <= r.maxRows && |b.intents| <= r.maxRows
    && RowsLength(b.rows) + IntentsLength(b.intents) <= r.maxBytes
    && IntentModeAgrees(r, b)
    && (forall i | 0 <= i < |b.rows| :: Inside(r, b.rows[i].key))
    && (forall i | 0 <= i < |b.intents| :: Inside(r, b.intents[i].key))
    && (b.nextResumeAfter.Some? && r.endKey.Some? ==> !Leq(r.endKey.value, b.nextResumeAfter.value))
  }

  /** The follow-up request: the published cursor, or the same cursor when none was published. */
  function NextRequest(r: Request, b: Batch): Request {
    if b.nextResumeAfter.Some? then r.(resumeAfter := b.nextResumeAfter) else r
  }

  // ---------- one page ----------

  lemma CursorIsInside(r: Request, b: Batch)
    requires ValidFor(r, b) && b.nextResumeAfter.Some?
    ensures Inside(r, b.nextResumeAfter.value)
  {
    if b.intents != [] {
      assert Inside(r, b.intents[|b.intents| - 1].key);
    } else {
      assert Inside(r, b.rows[|b.rows| - 1].key);
    }
  }

  /** Every follow-up request of an accepted page is itself valid. */
  lemma FollowUpValidates(r: Request, b: Batch)
    requires ValidFor(r, b)
    ensures ValidRequest(NextRequest(r, b))
  {
    if b.nextResumeAfter.Some? {
      CursorIsInside(r, b);
    }
  }

  /** A page that is not the last one advances the cursor strictly or reports intents. */
  lemma PagesMakeProgress(r: Request, b: Batch)
    requires ValidFor(r, b) && !b.exhausted
    ensures || b.intents != []
            || (b.nextResumeAfter.Some?
                && (r.resumeAfter.Some? ==> Less(r.resumeAfter.value, b.nextResumeAfter.value)))
  {
    if b.nextResumeAfter.Some? && r.resumeAfter.Some? {
      CursorIsInside(r, b);
      LessOrGeq(r.resumeAfter.value, b.nextResumeAfter.value);
    }
  }

  lemma {:induction false} ClimbingIsAscending(ks: seq<Key>, i: nat, j: nat)
    requires Climbs(ks) && i < j < |ks|
    ensures Less(ks[i], ks[j])
    decreases j
  {
    LessOrGeq(ks[j - 1], ks[j - 1 + 1]);
    if i < j - 1 {
      ClimbingIsAscending(ks, i, j - 1);
      LessTransitive(ks[i], ks[j - 1], ks[j]);
    }
  }

  // ---------- chains of pages ----------

  /** Each page answers the follow-up of the page before it. */
  ghost predicate IsChain(first: Request, pages: seq<Batch>)
    decreases |pages|
  {
    pages != [] ==> ValidFor(first, pages[0]) && IsChain(NextRequest(first, pages[0]), pages[1..])
  }

  /** What the page delivers: intents in an intent-only scan, rows otherwise. */
  function PageKeys(r: Request, b: Batch): seq<Key> {
    if r.intentOnly then IntentKeys(b.intents) else RowKeys(b.rows)
  }

  function Delivered(r: Request, pages: seq<Batch>): seq<Key>
    decreases |pages|
  {
    if pages == [] then [] else PageKeys(r, pages[0]) + Delivered(r, pages[1..])
  }

  predicate Ascends(ks: seq<Key>) {
    forall i, j | 0 <= i < j < |ks| :: Less(ks[i], ks[j])
  }

  /** The scan is only continued past an exhausted page if that page published a cursor. */
  ghost predicate ContinuesFromCursors(pages: seq<Batch>) {
    forall i | 0 <= i < |pages| - 1 && pages[i].exhausted :: pages[i].nextResumeAfter.Some?
  }

  lemma CursorIsLastKey(r: Request, b: Batch)
    requires ValidFor(r, b) && PageKeys(r, b) != [] && (b.exhausted ==> b.nextResumeAfter.Some?)
    ensures b.nextResumeAfter == Some(PageKeys(r, b)[|PageKeys(r, b)| - 1])
  {
  }

  lemma PageKeysInside(r: Request, b: Batch, i: nat)
    requires ValidFor(r, b) && i < |PageKeys(r, b)|
    ensures Inside(r, PageKeys(r, b)[i])
  {
  }

  /** Everything the follow-up may deliver comes after everything on this page. */
  lemma LaterKeysAreLarger(r: Request, b: Batch, i: nat, key: Key)
    requires ValidFor(r, b) && i < |PageKeys(r, b)| && (b.exhausted ==> b.nextResumeAfter.Some?)
    requires Inside(NextRequest(r, b), key)
    ensures Less(PageKeys(r, b)[i], key)
  {
    var ks := PageKeys(r, b);
    var last := |ks| - 1;
    CursorIsLastKey(r, b);
    LessOrGeq(ks[last], key);
    if i < last {
      ClimbingIsAscending(ks, i, last);
      LessTransitive(ks[i], ks[last], key);
    }
  }

  lemma FollowUpIsNarrower(r: Request, b: Batch, key: Key)
    requires ValidFor(r, b) && Inside(NextRequest(r, b), key)
    ensures Inside(r, key)
  {
    if b.nextResumeAfter.Some? && r.resumeAfter.Some? {
      CursorIsInside(r, b);
      LessOrGeq(r.resumeAfter.value, b.nextResumeAfter.value);
      LessOrGeq(b.nextResumeAfter.value, key);
      LessTransitive(r.resumeAfter.value, b.nextResumeAfter.value, key);
      LessOrGeq(r.resumeAfter.value, key);
    }
  }

  lemma {:induction false} DeliveredInside(r: Request, pages: seq<Batch>, key: Key)
    requires IsChain(r, pages) && key in Delivered(r, pages)
    ensures Inside(r, key)
    decreases |pages|
  {
    var here, next := PageKeys(r, pages[0]), NextRequest(r, pages[0]);
    if key in here {
      var i :| 0 <= i < |here| && here[i] == key;
      PageKeysInside(r, pages[0], i);
    } else {
      SameMode(r, next, pages[1..]);
      DeliveredInside(next, pages[1..], key);
      FollowUpIsNarrower(r, pages[0], key);
    }
  }

  lemma {:induction false} SameMode(r: Request, q: Request, pages: seq<Batch>)
    requires q.intentOnly == r.intentOnly
    ensures Delivered(q, pages) == Delivered(r, pages)
    decreases |pages|
  {
    if pages != [] {
      SameMode(r, q, pages[1..]);
    }
  }

  /**
   * Over any chain of accepted pages the delivered keys are strictly increasing across page
   * boundaries, so nothing is delivered twice, and all lie inside the first request's bounds.
   */
  lemma {:induction false} ChainDeliversInOrder(r: Request, pages: seq<Batch>)
    requires IsChain(r, pages) && ContinuesFromCursors(pages)
    ensures Ascends(Delivered(r, pages))
    ensures forall key | key in Delivered(r, pages) :: Inside(r, key)
    decreases |pages|
  {
    forall key | key in Delivered(r, pages) ensures Inside(r, key) {
      DeliveredInside(r, pages, key);
    }
    if pages != [] {
      var b, rest, next := pages[0], pages[1..], NextRequest(r, pages[0]);
      var here, later := PageKeys(r, b), Delivered(r, rest);
      SameMode(r, next, rest);
      ChainDeliversInOrder(next, rest);
      forall i, j | 0 <= i < j < |here + later| ensures Less((here + later)[i], (here + later)[j]) {
        if j < |here| {
          ClimbingIsAscending(here, i, j);
        } else if i < |here| {
          assert rest != [];
          DeliveredInside(next, rest, later[j - |here|]);
          LaterKeysAreLarger(r, b, i, later[j - |here|]);
        } else {
          assert Less(later[i - |here|], later[j - |here|]);
        }
      }
    }
  }

  // ---------- size limits ----------

  lemma RowsLengthAdds(a: seq<ScanRow>, row: ScanRow)
    ensures RowsLength(a + [row]) == RowsLength(a) + |row.key| + |row.row|
  {
    if a == [] {
      assert a + [row] == [row];
    } else {
      assert (a + [row])[1..] == a[1..] + [row];
      RowsLengthAdds(a[1..], row);
    }
  }

  lemma IntentsLengthAdds(a: seq<Intent>, intent: Intent)
    ensures IntentsLength(a + [intent]) == IntentsLength(a) + |intent.key| + intent.lockLength
  {
    if a == [] {
      assert a + [intent] == [intent];
    } else {
      assert (a + [intent])[1..] == a[1..] + [intent];
      IntentsLengthAdds(a[1..], intent);
    }
  }

  /** The windows-of-two check decides the order of the whole list. */
  lemma ClimbsIff(ks: seq<Key>)
    ensures Climbs(ks) <==> Ascends(ks)
  {
    if Climbs(ks) {
      forall i, j | 0 <= i < j < |ks| ensures Less(ks[i], ks[j]) {
        ClimbingIsAscending(ks, i, j);
      }
    }
    if Ascends(ks) {
      forall i | 0 <= i < |ks| - 1 ensures !Leq(ks[i + 1], ks[i]) {
        LessOrGeq(ks[i], ks[i + 1]);
      }
    }
  }

  lemma RowBatchIff(rows: seq<ScanRow>, b: Batch)
    requires rows != [] && b.rows == rows && b.intents == [] && b.nextResumeAfter == Some(rows[|rows| - 1].key)
    ensures ValidBatch(b) <==> Ascends(RowKeys(rows))
  {
    ClimbsIff(RowKeys(rows));
  }

  /**
   * A page of rows that publishes its last key is accepted by a read exactly when the rows ascend
   * inside the request and stay within its limits, the limits themselves included.
   */
  lemma RowPageAcceptedIff(r: Request, rows: seq<ScanRow>, exhausted: bool)
    requires ValidRequest(r) && !r.intentOnly && rows != []
    ensures ValidFor(r, Batch(rows, [], Some(rows[|rows| - 1].key), exhausted))
       <==> && Ascends(RowKeys(rows))
            && (forall i | 0 <= i < |rows| :: Inside(r, rows[i].key))
            && |rows| <= r.maxRows
            && RowsLength(rows) <= r.maxBytes
  {
    var b := Batch(rows, [], Some(rows[|rows| - 1].key), exhausted);
    RowBatchIff(rows, b);
    assert IntentModeAgrees(r, b) && IntentsLength(b.intents) == 0;
  }

  lemma IntentBatchIff(intents: seq<Intent>, b: Batch)
    requires intents != [] && forall i | 0 <= i < |intents| :: intents[i].key != [] && intents[i].lockValid
    requires b == Batch([], intents, Some(intents[|intents| - 1].key), false)
    ensures ValidBatch(b) <==> Ascends(IntentKeys(intents))
  {
    ClimbsIff(IntentKeys(intents));
  }

  /** The same for a page of well-formed locks in an enumeration of intents. */
  lemma IntentPageAcceptedIff(r: Request, intents: seq<Intent>)
    requires ValidRequest(r) && r.intentOnly && intents != []
    requires forall i | 0 <= i < |intents| :: intents[i].key != [] && intents[i].lockValid
    ensures ValidFor(r, Batch([], intents, Some(intents[|intents| - 1].key), false))
       <==> && Ascends(IntentKeys(intents))
            && (forall i | 0 <= i < |intents| :: Inside(r, intents[i].key))
            && |intents| <= r.maxRows
            && IntentsLength(intents) <= r.maxBytes
  {
    var b := Batch([], intents, Some(intents[|intents| - 1].key), false);
    IntentBatchIff(intents, b);
    assert IntentModeAgrees(r, b) && RowsLength(b.rows) == 0;
  }

  /** The limits a request may ask for: up to 65536 rows and 8 MiB, never zero. */
  lemma LimitsAreExact(r: Request, rows: U32, bytes: U32)
    requires ValidRequest(r)
    ensures ValidRequest(r.(maxRows := rows, maxBytes := bytes)) <==> 1 <= rows <= 65536 && 1 <= bytes <= 8388608
  {
  }

  /** An empty page ends the scan, and says nothing else. */
  lemma EmptyPageAcceptedIff(r: Request, b: Batch)
    requires ValidRequest(r) && b.rows == [] && b.intents == []
    ensures ValidFor(r, b) <==> b.exhausted && b.nextResumeAfter.None?
  {
  }

  /** What the request's bounds mean: at or after the start, before the end, after the cursor. */
  lemma InsideIff(r: Request, key: Key)
    ensures Inside(r, key) <==> && (r.startKey.Some? ==> Leq(r.startKey.value, key))
                                && (r.endKey.Some? ==> Less(key, r.endKey.value))
                                && (r.resumeAfter.Some? ==> Less(r.resumeAfter.value, key))
  {
    if r.startKey.Some? {
      LessOrGeq(key, r.startKey.value);
    }
    if r.endKey.Some? {
      LessOrGeq(key, r.endKey.value);
    }
    if r.resumeAfter.Some? {
      LessOrGeq(r.resumeAfter.value, key);
    }
  }
}
