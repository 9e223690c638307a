/** The ingest path: code resolution, the readings table, the latest-value cache and the alert queue,
    and how the cache and the open alerts agree in the end. */
module Ingest {
  import opened Positions
  import opened Wrappers
  import opened Data
  import opened Alerts
  import opened AlertRuns
  import opened AlertTasks

  // ---------------------------------------------------------------- code resolution

  /** One row of the join of devices, sensors and channels. */
  datatype CodeRow = CodeRow(deviceCode: string, channelCode: string, channelId: int, projectId: int)

  datatype Target = Target(channelId: int, projectId: int)

  type CodeMap = map<(string, string), Target>

  function DeviceCodes(readings: seq<ReadingIn>): set<string> {
    set r | r in readings :: r.deviceCode
  }

  /** The comprehension over the rows of the devices asked for; of several rows with the same codes,
      as two sensors of one device may have, the last one counts. */
  function CodeMapOf(rows: seq<CodeRow>, devices: set<string>): CodeMap
    decreases |rows|
  {
    if rows == [] then map[]
    else
      var row := rows[|rows| - 1];
      var before := CodeMapOf(rows[..|rows| - 1], devices);
      if row.deviceCode in devices
      then before[(row.deviceCode, row.channelCode) := Target(row.channelId, row.projectId)]
      else before
  }

  function ResolveCodeMap(rows: seq<CodeRow>, readings: seq<ReadingIn>): CodeMap {
    CodeMapOf(rows, DeviceCodes(readings))
  }

  ghost predicate IsLastRow(rows: seq<CodeRow>, i: int, d: string, c: string) {
    && 0 <= i < |rows| && rows[i].deviceCode == d && rows[i].channelCode == c
    && forall j :: i < j < |rows| ==> rows[j].deviceCode != d || rows[j].channelCode != c
  }

  /** Looking a reading up finds the target of the last row with its codes, and nothing if there is none. */
  lemma {:induction false} LookupFindsLastRow(rows: seq<CodeRow>, devices: set<string>, d: string, c: string)
    requires d in devices
    ensures (d, c) in CodeMapOf(rows, devices) <==> exists i :: IsLastRow(rows, i, d, c)
    ensures forall i :: IsLastRow(rows, i, d, c) ==>
              CodeMapOf(rows, devices)[(d, c)] == Target(rows[i].channelId, rows[i].projectId)
    decreases |rows|
  {
    if rows != [] {
      var n := |rows| - 1;
      LookupFindsLastRow(rows[..n], devices, d, c);
      if rows[n].deviceCode == d && rows[n].channelCode == c {
        assert IsLastRow(rows, n, d, c);
      } else {
        forall i ensures IsLastRow(rows, i, d, c) <==> IsLastRow(rows[..n], i, d, c) {
          LastRowBefore(rows, i, d, c);
        }
      }
    }
  }

  lemma LastRowBefore(rows: seq<CodeRow>, i: int, d: string, c: string)
    requires rows != []
    requires rows[|rows| - 1].deviceCode != d || rows[|rows| - 1].channelCode != c
    ensures IsLastRow(rows, i, d, c) <==> IsLastRow(rows[..|rows| - 1], i, d, c)
  {
    var n := |rows| - 1;
    assert forall j :: 0 <= j < n ==> rows[..n][j] == rows[j];
  }

  // ---------------------------------------------------------------- what a batch does

  datatype Accepted = Accepted(reading: ReadingIn, channelId: int, projectId: int)

  /** The readings whose codes are known, in input order. */
  function Accept(m: CodeMap, readings: seq<ReadingIn>): (accepted: seq<Accepted>)
    ensures |accepted| <= |readings|
  {
    if readings == [] then []
    else
      var key := (readings[0].deviceCode, readings[0].channelCode);
      (if key in m then [Accepted(readings[0], m[key].channelId, m[key].projectId)] else []) + Accept(m, readings[1..])
  }

  /** Primary key of the readings table. */
  type Key = (int, int)

  datatype Stored = Stored(value: real, quality: Quality)

  type ReadingTable = map<Key, Stored>

  function KeyOf(a: Accepted): Key { (a.reading.timestamp, a.channelId) }

  predicate FreshKeys(table: ReadingTable, accepted: seq<Accepted>) {
    && (forall i :: 0 <= i < |accepted| ==> KeyOf(accepted[i]) !in table)
    && (forall i, j :: 0 <= i < j < |accepted| ==> KeyOf(accepted[i]) != KeyOf(accepted[j]))
  }

  function Copied(table: ReadingTable, accepted: seq<Accepted>): ReadingTable
    decreases |accepted|
  {
    if accepted == [] then table
    else
      var a := accepted[0];
      Copied(table[KeyOf(a) := Stored(a.reading.value, a.reading.quality)], accepted[1..])
  }

  datatype Latest = Latest(
    channelId: int, deviceCode: string, channelCode: string,
    value: real, unit: string, quality: Quality, timestamp: int)

  function LatestOf(a: Accepted): Latest {
    var r := a.reading;
    Latest(a.channelId, r.deviceCode, r.channelCode, r.value, r.unit, r.quality, r.timestamp)
  }

  function Published(cache: map<int, Latest>, accepted: seq<Accepted>): map<int, Latest>
    decreases |accepted|
  {
    if accepted == [] then cache
    else Published(cache[accepted[0].channelId := LatestOf(accepted[0])], accepted[1..])
  }

  function AlertPayload(accepted: seq<Accepted>): (rs: seq<Reading>)
    ensures |rs| == |accepted|
  {
    if accepted == [] then []
    else [Reading(Some(accepted[0].channelId), Some(accepted[0].reading.value), accepted[0].reading.timestamp)]
         + AlertPayload(accepted[1..])
  }

  datatype Error = UniqueViolation

  /** Everything ingest writes to: the table, the cache, and the batches sent to the alert check. */
  datatype Store = Store(table: ReadingTable, cache: map<int, Latest>, dispatched: seq<seq<Reading>>)

  /** What the outside world decides about one call: the joined rows, how many of the cache writes took effect
      before Redis failed, if it did, and whether the alert check could be queued. */
  datatype World = World(rows: seq<CodeRow>, written: nat, brokerUp: bool)

  function AcceptedIn(w: World, readings: seq<ReadingIn>): seq<Accepted> {
    Accept(ResolveCodeMap(w.rows, readings), readings)
  }

  /** batch_ingest: all or nothing towards the table; failures of Redis and of the broker are swallowed. */
  function Ingested(s: Store, w: World, readings: seq<ReadingIn>): (Store, Result<nat, Error>) {
    var accepted := AcceptedIn(w, readings);
    if accepted == [] then (s, Success(0))
    else if !FreshKeys(s.table, accepted) then (s, Failure(UniqueViolation))
    else
      var n := if w.written < |accepted| then w.written else |accepted|;
      (Store(Copied(s.table, accepted), Published(s.cache, accepted[..n]),
             if w.brokerUp then s.dispatched + [AlertPayload(accepted)] else s.dispatched),
       Success(|accepted|))
  }

  class DataService {
    var table: ReadingTable
    var cache: map<int, Latest>
    var dispatched: seq<seq<Reading>>

    ghost function State(): Store
      reads this
    {
      Store(table, cache, dispatched)
    }

    constructor ()
      ensures State() == Store(map[], map[], [])
    {
      table, cache, dispatched := map[], map[], [];
    }

    /** Also counts the readings dropped for unknown codes, as the log line does. */
    method BatchIngest(w: World, readings: seq<ReadingIn>) returns (r: Result<nat, Error>, skipped: nat)
      modifies this
      ensures (State(), r) == Ingested(old(State()), w, readings)
      ensures skipped + |AcceptedIn(w, readings)| == |readings|
    {
      hide Copied, Published, AlertPayload, CodeMapOf, FreshKeys;
      skipped := 0;
      if readings == [] {
        return Success(0), 0;
      }
      var codeMap := ResolveCodeMap(w.rows, readings);
      var accepted: seq<Accepted> := [];
      for i := 0 to |readings|
        invariant accepted + Accept(codeMap, readings[i..]) == Accept(codeMap, readings)
        invariant skipped + |accepted| == i
        invariant State() == old(State())
      {
        var reading := readings[i];
        var key := (reading.deviceCode, reading.channelCode);
        assert readings[i..][1..] == readings[i + 1..];
        if key !in codeMap {
          skipped := skipped + 1;
          continue;
        }
        accepted := accepted + [Accepted(reading, codeMap[key].channelId, codeMap[key].projectId)];
      }
      assert readings[|readings|..] == [];
      assert accepted == AcceptedIn(w, readings);
      if accepted == [] {
        return Success(0), skipped;
      }
      if !FreshKeys(table, accepted) {
        return Failure(UniqueViolation), skipped;
      }
      table := Copied(table, accepted);
      PublishRealtime(w, accepted);
      if w.brokerUp {
        dispatched := dispatched + [AlertPayload(accepted)];
      }
      return Success(|accepted|), skipped;
    }

    method PublishRealtime(w: World, accepted: seq<Accepted>)
      modifies `cache
      ensures var n := if w.written < |accepted| then w.written else |accepted|;
              cache == Published(old(cache), accepted[..n])
    {
      var n := if w.written < |accepted| then w.written else |accepted|;
      var effective := accepted[..n];
      for i := 0 to n
        invariant Published(cache, effective[i..]) == Published(old(cache), effective)
      {
        assert effective[i..][1..] == effective[i + 1..];
        var r := effective[i].reading;
        cache := cache[effective[i].channelId := Latest(
          effective[i].channelId, r.deviceCode, r.channelCode, r.value, r.unit, r.quality, r.timestamp)];
      }
    }
  }

  // ---------------------------------------------------------------- accepting keeps order and loses nothing known

  predicate Known(m: CodeMap, r: ReadingIn) { (r.deviceCode, r.channelCode) in m }

  function Resolved(m: CodeMap, r: ReadingIn): Accepted
    requires Known(m, r)
  {
    var target := m[(r.deviceCode, r.channelCode)];
    Accepted(r, target.channelId, target.projectId)
  }

  lemma AcceptCons(m: CodeMap, readings: seq<ReadingIn>)
    requires readings != []
    ensures Accept(m, readings)
         == (if Known(m, readings[0]) then [Resolved(m, readings[0])] else []) + Accept(m, readings[1..])
  {}

  lemma AcceptNothing(m: CodeMap)
    ensures Accept(m, []) == []
  {}

  /** The accepted readings are the input readings with known codes, each once, in input order. */
  lemma {:induction false} AcceptIsFilter(m: CodeMap, readings: seq<ReadingIn>) returns (at: seq<nat>)
    ensures |at| == |Accept(m, readings)| && Ascending(at, |readings|)
    ensures forall i: nat :: i in at <==> i < |readings| && Known(m, readings[i])
    ensures forall k :: 0 <= k < |at| ==>
              Known(m, readings[at[k]]) && Accept(m, readings)[k] == Resolved(m, readings[at[k]])
  {
    hide Accept, Known, Resolved;
    if readings == [] {
      AcceptNothing(m);
      at := [];
    } else {
      AcceptCons(m, readings);
      var rest := AcceptIsFilter(m, readings[1..]);
      at := InFront(Known(m, readings[0]), rest);
      InFrontAscends(Known(m, readings[0]), rest, |readings| - 1);
    }
  }

  lemma {:induction false} CopiedAdds(table: ReadingTable, accepted: seq<Accepted>)
    requires FreshKeys(table, accepted)
    ensures |Copied(table, accepted)| == |table| + |accepted|
    ensures forall k :: k in table ==> k in Copied(table, accepted) && Copied(table, accepted)[k] == table[k]
    ensures forall i :: 0 <= i < |accepted| ==>
              var k := KeyOf(accepted[i]);
              k in Copied(table, accepted)
              && Copied(table, accepted)[k] == Stored(accepted[i].reading.value, accepted[i].reading.quality)
    decreases |accepted|
  {
    if accepted != [] {
      var a := accepted[0];
      var t1 := table[KeyOf(a) := Stored(a.reading.value, a.reading.quality)];
      assert forall i :: 0 <= i < |accepted[1..]| ==> accepted[1..][i] == accepted[i + 1];
      CopiedAdds(t1, accepted[1..]);
      forall i | 0 <= i < |accepted|
        ensures KeyOf(accepted[i]) in Copied(table, accepted)
        ensures Copied(table, accepted)[KeyOf(accepted[i])]
             == Stored(accepted[i].reading.value, accepted[i].reading.quality) {
        if i > 0 {
          assert accepted[1..][i - 1] == accepted[i];
        } else {
          assert KeyOf(a) in t1;
        }
      }
    }
  }

  /** A successful call stores exactly what it says it wrote, next to everything stored before; a failed one
      changes nothing, and one fails exactly when the primary key of the table stands in the way. */
  lemma WriteCount(s: Store, w: World, readings: seq<ReadingIn>)
    ensures var (s', r) := Ingested(s, w, readings);
            && (r.Failure? <==> !FreshKeys(s.table, AcceptedIn(w, readings)))
            && (r.Failure? ==> s' == s)
            && (r.Success? ==> r.value == |AcceptedIn(w, readings)| && |s'.table| == |s.table| + r.value)
            && (forall k :: k in s.table ==> k in s'.table && s'.table[k] == s.table[k])
  {
    var accepted := AcceptedIn(w, readings);
    if FreshKeys(s.table, accepted) {
      CopiedAdds(s.table, accepted);
    }
  }

  /** Two readings of one channel with one timestamp reject the whole batch they come in. */
  lemma SameInstantRejectsBatch(s: Store, w: World, readings: seq<ReadingIn>, i: nat, j: nat)
    requires i < j < |readings|
    requires readings[i].deviceCode == readings[j].deviceCode && readings[i].channelCode == readings[j].channelCode
    requires readings[i].timestamp == readings[j].timestamp
    requires (readings[i].deviceCode, readings[i].channelCode) in ResolveCodeMap(w.rows, readings)
    ensures Ingested(s, w, readings) == (s, Failure(UniqueViolation))
  {
    var m := ResolveCodeMap(w.rows, readings);
    var at := AcceptIsFilter(m, readings);
    var accepted := Accept(m, readings);
    assert Known(m, readings[i]) && Known(m, readings[j]);
    var a :| 0 <= a < |at| && at[a] == i;
    var b :| 0 <= b < |at| && at[b] == j;
    assert KeyOf(accepted[a]) == KeyOf(accepted[b]);
  }

  // ---------------------------------------------------------------- one call, on the readings and the joined rows

  /** The reading goes to this channel: the last joined row that carries both its codes names it. */
  ghost predicate GoesTo(rows: seq<CodeRow>, r: ReadingIn, channelId: int) {
    exists i :: IsLastRow(rows, i, r.deviceCode, r.channelCode) && rows[i].channelId == channelId
  }

  lemma GoesToIff(rows: seq<CodeRow>, readings: seq<ReadingIn>, i: nat, channelId: int)
    requires i < |readings|
    ensures var m := ResolveCodeMap(rows, readings);
            GoesTo(rows, readings[i], channelId) <==>
            Known(m, readings[i]) && Resolved(m, readings[i]).channelId == channelId
  {
    hide CodeMapOf, IsLastRow;
    var r := readings[i];
    assert r in readings && r.deviceCode in DeviceCodes(readings);
    LookupFindsLastRow(rows, DeviceCodes(readings), r.deviceCode, r.channelCode);
  }

  /** One accepted reading after the other: which they are, and where each goes. */
  lemma AcceptedOnFields(w: World, readings: seq<ReadingIn>) returns (at: seq<nat>)
    ensures var accepted := AcceptedIn(w, readings);
            && |at| == |accepted| && Ascending(at, |readings|)
            && (forall i: nat :: i in at <==> i < |readings| && exists c :: GoesTo(w.rows, readings[i], c))
            && (forall k :: 0 <= k < |at| ==> accepted[k].reading == readings[at[k]])
            && (forall k, c :: 0 <= k < |at| ==>
                  (GoesTo(w.rows, readings[at[k]], c) <==> c == accepted[k].channelId))
  {
    hide Accept, ResolveCodeMap, GoesTo, Known;
    var m := ResolveCodeMap(w.rows, readings);
    at := AcceptIsFilter(m, readings);
    forall i: nat ensures i in at <==> i < |readings| && exists c :: GoesTo(w.rows, readings[i], c) {
      if i < |readings| {
        forall c ensures GoesTo(w.rows, readings[i], c) <==>
                         Known(m, readings[i]) && Resolved(m, readings[i]).channelId == c {
          GoesToIff(w.rows, readings, i, c);
        }
        if Known(m, readings[i]) {
          assert GoesTo(w.rows, readings[i], Resolved(m, readings[i]).channelId);
        }
      }
    }
    forall k, c | 0 <= k < |at|
      ensures GoesTo(w.rows, readings[at[k]], c) <==> c == AcceptedIn(w, readings)[k].channelId {
      GoesToIff(w.rows, readings, at[k], c);
    }
  }

  /** Two different readings of the batch are of one channel and one instant. */
  ghost predicate SameInstant(rows: seq<CodeRow>, readings: seq<ReadingIn>) {
    exists i, j, c :: 0 <= i < j < |readings| && readings[i].timestamp == readings[j].timestamp
                   && GoesTo(rows, readings[i], c) && GoesTo(rows, readings[j], c)
  }

  /** A reading of the batch is of a channel and an instant that the table has. */
  ghost predicate StoredBefore(table: ReadingTable, rows: seq<CodeRow>, readings: seq<ReadingIn>) {
    exists i, c :: 0 <= i < |readings| && GoesTo(rows, readings[i], c) && (readings[i].timestamp, c) in table
  }

  lemma KeysTaken(s: Store, w: World, readings: seq<ReadingIn>)
    requires !FreshKeys(s.table, AcceptedIn(w, readings))
    ensures SameInstant(w.rows, readings) || StoredBefore(s.table, w.rows, readings)
  {
    hide AcceptedIn, GoesTo;
    var accepted := AcceptedIn(w, readings);
    var at := AcceptedOnFields(w, readings);
    if i :| 0 <= i < |accepted| && KeyOf(accepted[i]) in s.table {
      assert GoesTo(w.rows, readings[at[i]], accepted[i].channelId);
    } else {
      var i, j :| 0 <= i < j < |accepted| && KeyOf(accepted[i]) == KeyOf(accepted[j]);
      assert GoesTo(w.rows, readings[at[i]], accepted[i].channelId);
      assert GoesTo(w.rows, readings[at[j]], accepted[i].channelId);
    }
  }

  lemma SameInstantTaken(s: Store, w: World, readings: seq<ReadingIn>)
    requires SameInstant(w.rows, readings)
    ensures !FreshKeys(s.table, AcceptedIn(w, readings))
  {
    hide AcceptedIn, GoesTo;
    var accepted := AcceptedIn(w, readings);
    var at := AcceptedOnFields(w, readings);
    var i: nat, j: nat, c :| i < j < |readings| && readings[i].timestamp == readings[j].timestamp
                          && GoesTo(w.rows, readings[i], c) && GoesTo(w.rows, readings[j], c);
    assert i in at && j in at;
    var k :| 0 <= k < |at| && at[k] == i;
    var l :| 0 <= l < |at| && at[l] == j;
    assert KeyOf(accepted[k]) == KeyOf(accepted[l]);
  }

  lemma StoredTaken(s: Store, w: World, readings: seq<ReadingIn>)
    requires StoredBefore(s.table, w.rows, readings)
    ensures !FreshKeys(s.table, AcceptedIn(w, readings))
  {
    hide AcceptedIn, GoesTo;
    var accepted := AcceptedIn(w, readings);
    var at := AcceptedOnFields(w, readings);
    var i: nat, c :| i < |readings| && GoesTo(w.rows, readings[i], c) && (readings[i].timestamp, c) in s.table;
    assert i in at;
    var k :| 0 <= k < |at| && at[k] == i;
    assert KeyOf(accepted[k]) in s.table;
  }

  /** Exactly when a call fails, and then it changes nothing. */
  lemma FailsIff(s: Store, w: World, readings: seq<ReadingIn>)
    ensures Ingested(s, w, readings).1.Failure? <==>
            SameInstant(w.rows, readings) || StoredBefore(s.table, w.rows, readings)
    ensures Ingested(s, w, readings).1.Failure? ==> Ingested(s, w, readings) == (s, Failure(UniqueViolation))
  {
    WriteCount(s, w, readings);
    hide AcceptedIn, FreshKeys, SameInstant, StoredBefore;
    if !FreshKeys(s.table, AcceptedIn(w, readings)) {
      KeysTaken(s, w, readings);
    }
    if SameInstant(w.rows, readings) {
      SameInstantTaken(s, w, readings);
    }
    if StoredBefore(s.table, w.rows, readings) {
      StoredTaken(s, w, readings);
    }
  }

  lemma {:induction false} CopiedOnly(table: ReadingTable, accepted: seq<Accepted>)
    ensures forall k :: k in Copied(table, accepted) ==>
              k in table || exists i :: 0 <= i < |accepted| && KeyOf(accepted[i]) == k
    decreases |accepted|
  {
    if accepted != [] {
      var a := accepted[0];
      CopiedOnly(table[KeyOf(a) := Stored(a.reading.value, a.reading.quality)], accepted[1..]);
      assert forall i :: 0 <= i < |accepted[1..]| ==> accepted[1..][i] == accepted[i + 1];
    }
  }

  /** After a successful call the table has, next to all it had, each reading that goes to a channel under its instant
      and channel, with its value and quality, and nothing else. */
  lemma TableOnFields(s: Store, w: World, readings: seq<ReadingIn>)
    requires Ingested(s, w, readings).1.Success?
    ensures var table := Ingested(s, w, readings).0.table;
            && (forall k :: k in s.table ==> k in table && table[k] == s.table[k])
            && (forall i, c :: 0 <= i < |readings| && GoesTo(w.rows, readings[i], c) ==>
                  && (readings[i].timestamp, c) in table
                  && table[(readings[i].timestamp, c)] == Stored(readings[i].value, readings[i].quality))
            && (forall k :: k in table && k !in s.table ==>
                  exists i :: 0 <= i < |readings| && readings[i].timestamp == k.0 && GoesTo(w.rows, readings[i], k.1))
            && |table| == |s.table| + Ingested(s, w, readings).1.value
  {
    hide AcceptedIn, GoesTo;
    var accepted := AcceptedIn(w, readings);
    var at := AcceptedOnFields(w, readings);
    var table := Ingested(s, w, readings).0.table;
    WriteCount(s, w, readings);
    CopiedAdds(s.table, accepted);
    CopiedOnly(s.table, accepted);
    assert table == Copied(s.table, accepted);
    forall i: nat, c | i < |readings| && GoesTo(w.rows, readings[i], c)
      ensures && (readings[i].timestamp, c) in table
              && table[(readings[i].timestamp, c)] == Stored(readings[i].value, readings[i].quality) {
      assert i in at;
      var k :| 0 <= k < |at| && at[k] == i;
      assert KeyOf(accepted[k]) == (readings[i].timestamp, c);
    }
    forall key | key in table && key !in s.table
      ensures exists i :: 0 <= i < |readings| && readings[i].timestamp == key.0
                       && GoesTo(w.rows, readings[i], key.1) {
      var k :| 0 <= k < |accepted| && KeyOf(accepted[k]) == key;
      assert GoesTo(w.rows, readings[at[k]], accepted[k].channelId);
    }
  }

  lemma {:induction false} PayloadAt(accepted: seq<Accepted>, k: nat)
    requires k < |accepted|
    ensures AlertPayload(accepted)[k] ==
            Reading(Some(accepted[k].channelId), Some(accepted[k].reading.value), accepted[k].reading.timestamp)
  {
    if k > 0 { PayloadAt(accepted[1..], k - 1); }
  }

  /** The cached value of the channel is the reading, field by field. */
  predicate Shows(cache: map<int, Latest>, c: int, r: ReadingIn) {
    && c in cache
    && cache[c] == Latest(c, r.deviceCode, r.channelCode, r.value, r.unit, r.quality, r.timestamp)
  }

  lemma {:induction false} PublishedOnFields(cache: map<int, Latest>, accepted: seq<Accepted>, c: int)
    ensures var after := Published(cache, accepted);
            && (forall k :: 0 <= k < |accepted| && accepted[k].channelId == c
                            && (forall l :: k < l < |accepted| ==> accepted[l].channelId != c) ==>
                  Shows(after, c, accepted[k].reading))
            && ((forall k :: 0 <= k < |accepted| ==> accepted[k].channelId != c) ==>
                  (c in after <==> c in cache) && (c in after ==> after[c] == cache[c]))
    decreases |accepted|
  {
    if accepted != [] {
      var rest := accepted[1..];
      assert forall k :: 0 <= k < |rest| ==> rest[k] == accepted[k + 1];
      PublishedOnFields(cache[accepted[0].channelId := LatestOf(accepted[0])], rest, c);
      assert forall k :: 0 < k < |accepted| ==> accepted[k] == rest[k - 1];
    }
  }

  /** The positions of the readings that go to some channel, in input order. */
  ghost predicate Accepts(w: World, readings: seq<ReadingIn>, at: seq<nat>) {
    && Ascending(at, |readings|)
    && forall i: nat :: i in at <==> i < |readings| && exists c :: GoesTo(w.rows, readings[i], c)
  }

  /** What a successful call sends to the alert check: one batch of all these readings, each with its channel, value and
      timestamp, unless there are none or the broker is down. */
  lemma SentOnFields(s: Store, w: World, readings: seq<ReadingIn>) returns (at: seq<nat>)
    requires Ingested(s, w, readings).1.Success?
    ensures Accepts(w, readings, at) && Ingested(s, w, readings).1.value == |at|
    ensures var sent := Ingested(s, w, readings).0.dispatched;
            if at == [] || !w.brokerUp then sent == s.dispatched
            else
              && |sent| == |s.dispatched| + 1 && sent[..|s.dispatched|] == s.dispatched
              && |sent[|s.dispatched|]| == |at|
              && forall k :: 0 <= k < |at| ==>
                   var r := sent[|s.dispatched|][k];
                   && r.channelId.Some? && GoesTo(w.rows, readings[at[k]], r.channelId.value)
                   && r.value == Some(readings[at[k]].value) && r.timestamp == readings[at[k]].timestamp
  {
    hide AcceptedIn, GoesTo, Published, AlertPayload, FreshKeys, Copied;
    var accepted := AcceptedIn(w, readings);
    at := AcceptedOnFields(w, readings);
    forall k: nat | k < |accepted|
      ensures AlertPayload(accepted)[k] ==
              Reading(Some(accepted[k].channelId), Some(accepted[k].reading.value), accepted[k].reading.timestamp) {
      PayloadAt(accepted, k);
    }
  }

  /** Of the first n of these readings, the k-th is the last one that goes to the channel. */
  ghost predicate LastTo(w: World, readings: seq<ReadingIn>, at: seq<nat>, n: nat, c: int, k: nat) {
    && k < n <= |at| && at[k] < |readings| && GoesTo(w.rows, readings[at[k]], c)
    && forall l :: k < l < n && at[l] < |readings| ==> !GoesTo(w.rows, readings[at[l]], c)
  }

  /** What it leaves in the cache: as far as the writes took effect, the last of these readings of each channel, field
      by field, and for other channels what was there. */
  lemma CachedOnFields(s: Store, w: World, readings: seq<ReadingIn>, c: int) returns (at: seq<nat>)
    requires Ingested(s, w, readings).1.Success?
    ensures Accepts(w, readings, at)
    ensures var cache := Ingested(s, w, readings).0.cache;
            var n := if w.written < |at| then w.written else |at|;
            && (forall k: nat :: LastTo(w, readings, at, n, c, k) ==> Shows(cache, c, readings[at[k]]))
            && ((forall k :: 0 <= k < n ==> !GoesTo(w.rows, readings[at[k]], c)) ==>
                  (c in cache <==> c in s.cache) && (c in cache ==> cache[c] == s.cache[c]))
  {
    hide AcceptedIn, GoesTo, Published, AlertPayload, FreshKeys, Copied, Shows;
    var accepted := AcceptedIn(w, readings);
    at := AcceptedOnFields(w, readings);
    var n := if w.written < |at| then w.written else |at|;
    var effective := accepted[..n];
    assert forall k :: 0 <= k < n ==> effective[k] == accepted[k];
    PublishedOnFields(s.cache, effective, c);
    PublishNothing(s.cache);
    forall k: nat | LastTo(w, readings, at, n, c, k) ensures effective[k].channelId == c {
      assert GoesTo(w.rows, readings[at[k]], c);
    }
  }

  // ---------------------------------------------------------------- runs

  datatype Call = Call(world: World, readings: seq<ReadingIn>)

  function IngestedAll(s: Store, calls: seq<Call>): Store
    decreases |calls|
  {
    if calls == [] then s else IngestedAll(Ingested(s, calls[0].world, calls[0].readings).0, calls[1..])
  }

  /** What the calls of a run accepted, in arrival order; a failed call accepts nothing. */
  function AcceptedAll(s: Store, calls: seq<Call>): seq<Accepted>
    decreases |calls|
  {
    if calls == [] then []
    else
      var (s', r) := Ingested(s, calls[0].world, calls[0].readings);
      (if r.Success? then AcceptedIn(calls[0].world, calls[0].readings) else []) + AcceptedAll(s', calls[1..])
  }

  /** In every call the cache writes all took effect and the alert check was queued. */
  predicate Healthy(calls: seq<Call>) {
    forall i :: 0 <= i < |calls| ==> calls[i].world.brokerUp && calls[i].world.written >= |calls[i].readings|
  }

  function LastAccepted(accepted: seq<Accepted>, channelId: int): (last: Option<Accepted>)
    ensures last.Some? ==> last.value.channelId == channelId
    decreases |accepted|
  {
    if accepted == [] then None
    else
      var a := accepted[|accepted| - 1];
      if a.channelId == channelId then Some(a) else LastAccepted(accepted[..|accepted| - 1], channelId)
  }

  lemma {:induction false} PublishedConcat(cache: map<int, Latest>, xs: seq<Accepted>, ys: seq<Accepted>)
    ensures Published(cache, xs + ys) == Published(Published(cache, xs), ys)
    decreases |xs|
  {
    if xs == [] {
      assert xs + ys == ys;
    } else {
      assert (xs + ys)[1..] == xs[1..] + ys;
      PublishedConcat(cache[xs[0].channelId := LatestOf(xs[0])], xs[1..], ys);
    }
  }

  lemma PublishNothing(cache: map<int, Latest>)
    ensures Published(cache, []) == cache
  {}

  lemma {:induction false} PublishedIsLast(accepted: seq<Accepted>, channelId: int)
    ensures var cache := Published(map[], accepted);
            var last := LastAccepted(accepted, channelId);
            && (channelId in cache <==> last.Some?)
            && (last.Some? ==> cache[channelId] == LatestOf(last.value))
    decreases |accepted|
  {
    if accepted != [] {
      var n := |accepted| - 1;
      var a := accepted[n];
      PublishedIsLast(accepted[..n], channelId);
      assert accepted == accepted[..n] + [a];
      PublishedConcat(map[], accepted[..n], [a]);
      assert [a][1..] == [];
      var before := Published(map[], accepted[..n]);
      assert Published(before, [a]) == Published(before[a.channelId := LatestOf(a)], []);
    }
  }

  /** What a healthy call does to the cache and to the queue of alert batches. */
  lemma CallEffect(s: Store, w: World, readings: seq<ReadingIn>)
    requires w.brokerUp && w.written >= |readings|
    ensures var (s', r) := Ingested(s, w, readings);
            var accepted := if r.Success? then AcceptedIn(w, readings) else [];
            && s'.cache == Published(s.cache, accepted)
            && Joined(s'.dispatched) == Joined(s.dispatched) + AlertPayload(accepted)
  {
    var accepted := AcceptedIn(w, readings);
    assert accepted[..|accepted|] == accepted;
    JoinedSnoc(s.dispatched, AlertPayload(accepted));
  }

  lemma {:induction false} CacheOfRun(s: Store, calls: seq<Call>)
    requires Healthy(calls)
    ensures IngestedAll(s, calls).cache == Published(s.cache, AcceptedAll(s, calls))
    decreases |calls|
  {
    hide Ingested, AcceptedIn, Published;
    if calls == [] {
      assert Published(s.cache, []) == s.cache by { PublishNothing(s.cache); }
    } else {
      var (s', r) := Ingested(s, calls[0].world, calls[0].readings);
      var accepted := AcceptedIn(calls[0].world, calls[0].readings);
      CallEffect(s, calls[0].world, calls[0].readings);
      CacheOfRun(s', calls[1..]);
      PublishedConcat(s.cache, if r.Success? then accepted else [], AcceptedAll(s', calls[1..]));
    }
  }

  /** Over any run of calls, the cached value of each channel is its last accepted reading in arrival order,
      and a channel without an accepted reading has none. */
  lemma CacheIsLastAccepted(calls: seq<Call>, channelId: int)
    requires Healthy(calls)
    ensures var start := Store(map[], map[], []);
            var cache := IngestedAll(start, calls).cache;
            var last := LastAccepted(AcceptedAll(start, calls), channelId);
            && (channelId in cache <==> last.Some?)
            && (last.Some? ==> cache[channelId] == LatestOf(last.value))
  {
    var start := Store(map[], map[], []);
    CacheOfRun(start, calls);
    PublishedIsLast(AcceptedAll(start, calls), channelId);
  }

  // ---------------------------------------------------------------- the cache against the open alerts

  function Joined(batches: seq<seq<Reading>>): seq<Reading> {
    if batches == [] then [] else batches[0] + Joined(batches[1..])
  }

  lemma {:induction false} JoinedSnoc(batches: seq<seq<Reading>>, last: seq<Reading>)
    ensures Joined(batches + [last]) == Joined(batches) + last
  {
    if batches == [] {
      assert Joined([last]) == last + Joined([]);
    } else {
      assert (batches + [last])[1..] == batches[1..] + [last];
      JoinedSnoc(batches[1..], last);
    }
  }

  lemma {:induction false} AlertPayloadConcat(xs: seq<Accepted>, ys: seq<Accepted>)
    ensures AlertPayload(xs + ys) == AlertPayload(xs) + AlertPayload(ys)
  {
    if xs == [] {
      assert xs + ys == ys;
    } else {
      assert (xs + ys)[1..] == xs[1..] + ys;
      AlertPayloadConcat(xs[1..], ys);
    }
  }

  /** The alert check is sent what was accepted, in order. */
  lemma {:induction false} DispatchedIsAccepted(s: Store, calls: seq<Call>)
    requires Healthy(calls)
    ensures Joined(IngestedAll(s, calls).dispatched) == Joined(s.dispatched) + AlertPayload(AcceptedAll(s, calls))
    decreases |calls|
  {
    hide Ingested, AcceptedIn, Joined;
    if calls != [] {
      var (s', r) := Ingested(s, calls[0].world, calls[0].readings);
      var accepted := if r.Success? then AcceptedIn(calls[0].world, calls[0].readings) else [];
      CallEffect(s, calls[0].world, calls[0].readings);
      DispatchedIsAccepted(s', calls[1..]);
      AlertPayloadConcat(accepted, AcceptedAll(s', calls[1..]));
    }
  }

  /** The batches processed one after the other. */
  ghost predicate BatchesLand(t: Table, meta: Meta, batches: seq<seq<Reading>>, ids: seq<seq<seq<nat>>>)
    decreases |batches|
  {
    if batches == [] then ids == []
    else
      && ids != []
      && AllLand(t, meta, batches[0], ids[0])
      && BatchesLand(ProcessedAll(t, meta, batches[0], ids[0]), meta, batches[1..], ids[1..])
  }

  ghost function ProcessedBatches(t: Table, meta: Meta, batches: seq<seq<Reading>>, ids: seq<seq<seq<nat>>>): Table
    requires BatchesLand(t, meta, batches, ids)
    decreases |batches|
  {
    if batches == [] then t
    else ProcessedBatches(ProcessedAll(t, meta, batches[0], ids[0]), meta, batches[1..], ids[1..])
  }

  lemma {:induction false} LastCountedConcat(meta: Meta, rs: seq<Reading>, qs: seq<Reading>, channelId: int)
    ensures LastCounted(meta, rs + qs, channelId)
         == if LastCounted(meta, qs, channelId).Some? then LastCounted(meta, qs, channelId)
            else LastCounted(meta, rs, channelId)
    decreases |qs|
  {
    if qs == [] {
      assert rs + qs == rs;
    } else {
      var n := |qs| - 1;
      assert (rs + qs)[..|rs| + n] == rs + qs[..n];
      LastCountedConcat(meta, rs, qs[..n], channelId);
    }
  }

  lemma {:induction false} BatchesForgetHistory(t: Table, meta: Meta, batches: seq<seq<Reading>>,
                                                ids: seq<seq<seq<nat>>>, ch: int)
    requires TableInv(t) && BatchesLand(t, meta, batches, ids)
    ensures var last := LastCounted(meta, Joined(batches), ch);
            var open := OpenLevels(ProcessedBatches(t, meta, batches, ids), ch);
            && (last.Some? ==> Counts(meta, last.value) && open == Levels(EventsFor(meta, last.value)))
            && (last.None? ==> open == OpenLevels(t, ch))
    decreases |batches|
  {
    if batches != [] {
      var t1 := ProcessedAll(t, meta, batches[0], ids[0]);
      OpenLevelsForgetHistory(t, meta, batches[0], ids[0], ch);
      BatchRefinesDetector(t, meta, batches[0], ids[0], ch, "");
      BatchesForgetHistory(t1, meta, batches[1..], ids[1..], ch);
      LastCountedConcat(meta, batches[0], Joined(batches[1..]), ch);
    }
  }

  lemma {:induction false} LastCountedIsLastAccepted(meta: Meta, accepted: seq<Accepted>, channelId: int)
    requires channelId in meta && meta[channelId].projectId.Some? && meta[channelId].rules != []
    ensures var last := LastAccepted(accepted, channelId);
            LastCounted(meta, AlertPayload(accepted), channelId) ==
            if last.Some? then Some(AlertPayload([last.value])[0]) else None
    decreases |accepted|
  {
    if accepted != [] {
      var n := |accepted| - 1;
      var a := accepted[n];
      assert accepted == accepted[..n] + [a];
      AlertPayloadConcat(accepted[..n], [a]);
      var rs := AlertPayload(accepted);
      assert rs == AlertPayload(accepted[..n]) + AlertPayload([a]);
      assert rs[n] == AlertPayload([a])[0] && rs[..n] == AlertPayload(accepted[..n]);
      LastCountedIsLastAccepted(meta, accepted[..n], channelId);
    }
  }

  lemma NothingOpen(channelId: int)
    ensures OpenLevels(map[], channelId) == {} && Joined([]) == []
  {}

  /** End to end: once the queued alert batches have been processed in order, with nobody acknowledging meanwhile,
      the levels open on a channel that has rules are exactly those its cached value triggers. */
  lemma CacheAgreesWithAlerts(calls: seq<Call>, meta: Meta, ids: seq<seq<seq<nat>>>, channelId: int)
    requires Healthy(calls)
    requires channelId in meta && meta[channelId].projectId.Some? && meta[channelId].rules != []
    requires BatchesLand(map[], meta, IngestedAll(Store(map[], map[], []), calls).dispatched, ids)
    ensures var s := IngestedAll(Store(map[], map[], []), calls);
            OpenLevels(ProcessedBatches(map[], meta, s.dispatched, ids), channelId) ==
            if channelId in s.cache then Levels(Events(s.cache[channelId].value, meta[channelId].rules)) else {}
  {
    hide IngestedAll, AcceptedAll, ProcessedBatches, BatchesLand, OpenLevels, Joined, LastCounted;
    var start := Store(map[], map[], []);
    var s := IngestedAll(start, calls);
    var accepted := AcceptedAll(start, calls);
    EmptyTableInv();
    CacheIsLastAccepted(calls, channelId);
    DispatchedIsAccepted(start, calls);
    NothingOpen(channelId);
    assert Joined(s.dispatched) == AlertPayload(accepted);
    BatchesForgetHistory(map[], meta, s.dispatched, ids, channelId);
    LastCountedIsLastAccepted(meta, accepted, channelId);
  }
}
