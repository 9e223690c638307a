/** From the bytes a device sends to the alerts that are open: what the consumer hands over, what ingest caches
    and what the alert check leaves open, put together. */
module EndToEnd {
  import opened Wrappers
  import opened Crc
  import opened Data
  import opened Decoding
  import opened DtuServer
  import opened Alerts
  import opened AlertTasks
  import opened Ingest

  function Untag(q: seq<Queued>): (rs: seq<ReadingIn>)
    ensures |rs| == |q|
  {
    if q == [] then [] else [q[0].reading] + Untag(q[1..])
  }

  /** One ingest call for each batch of the consumer, all against the same device configuration. */
  predicate CallsFor(calls: seq<Call>, batches: seq<seq<Queued>>, rows: seq<CodeRow>) {
    && |calls| == |batches|
    && forall i :: 0 <= i < |calls| ==> calls[i].readings == Untag(batches[i]) && calls[i].world.rows == rows
  }

  predicate AllSucceed(s: Store, calls: seq<Call>)
    decreases |calls|
  {
    calls == [] ||
    (Ingested(s, calls[0].world, calls[0].readings).1.Success?
     && AllSucceed(Ingested(s, calls[0].world, calls[0].readings).0, calls[1..]))
  }

  // ---------------------------------------------------------------- one code map for all batches

  lemma {:induction false} CodeMapAgrees(rows: seq<CodeRow>, devices: set<string>, more: set<string>,
                                         d: string, c: string)
    requires d in devices && d in more
    ensures var m, m' := CodeMapOf(rows, devices), CodeMapOf(rows, more);
            ((d, c) in m <==> (d, c) in m') && ((d, c) in m ==> m[(d, c)] == m'[(d, c)])
    decreases |rows|
  {
    if rows != [] { CodeMapAgrees(rows[..|rows| - 1], devices, more, d, c); }
  }

  lemma {:induction false} AcceptAgrees(rows: seq<CodeRow>, devices: set<string>, more: set<string>, rs: seq<ReadingIn>)
    requires forall r :: r in rs ==> r.deviceCode in devices && r.deviceCode in more
    ensures Accept(CodeMapOf(rows, devices), rs) == Accept(CodeMapOf(rows, more), rs)
    decreases |rs|
  {
    if rs != [] {
      CodeMapAgrees(rows, devices, more, rs[0].deviceCode, rs[0].channelCode);
      AcceptAgrees(rows, devices, more, rs[1..]);
    }
  }

  lemma {:induction false} AcceptConcat(m: CodeMap, rs: seq<ReadingIn>, qs: seq<ReadingIn>)
    ensures Accept(m, rs + qs) == Accept(m, rs) + Accept(m, qs)
  {
    if rs == [] {
      assert rs + qs == qs;
    } else {
      assert (rs + qs)[1..] == rs[1..] + qs;
      AcceptConcat(m, rs[1..], qs);
    }
  }

  lemma {:induction false} UntagConcat(p: seq<Queued>, q: seq<Queued>)
    ensures Untag(p + q) == Untag(p) + Untag(q)
  {
    if p == [] {
      assert p + q == q;
    } else {
      assert (p + q)[1..] == p[1..] + q;
      UntagConcat(p[1..], q);
    }
  }

  /** What a run of successful calls accepts is what the readings handed over contain of known codes. */
  lemma {:induction false} AcceptedOfBatches(s: Store, calls: seq<Call>, batches: seq<seq<Queued>>,
                                             rows: seq<CodeRow>, devices: set<string>)
    requires CallsFor(calls, batches, rows) && AllSucceed(s, calls)
    requires forall r :: r in Untag(Concat(batches)) ==> r.deviceCode in devices
    ensures AcceptedAll(s, calls) == Accept(CodeMapOf(rows, devices), Untag(Concat(batches)))
    decreases |calls|
  {
    hide Ingested;
    if calls != [] {
      var rs := Untag(batches[0]);
      UntagConcat(batches[0], Concat(batches[1..]));
      AcceptAgrees(rows, DeviceCodes(rs), devices, rs);
      AcceptedOfBatches(Ingested(s, calls[0].world, calls[0].readings).0, calls[1..], batches[1..], rows, devices);
      AcceptConcat(CodeMapOf(rows, devices), rs, Untag(Concat(batches[1..])));
    }
  }

  // ---------------------------------------------------------------- the last reading of a channel

  predicate Feeds(m: CodeMap, r: ReadingIn, channelId: int) {
    Known(m, r) && m[(r.deviceCode, r.channelCode)].channelId == channelId
  }

  /** The value of the last reading that the codes send to the channel. */
  function LastValue(m: CodeMap, rs: seq<ReadingIn>, channelId: int): Option<real>
    decreases |rs|
  {
    if rs == [] then None
    else
      var later := LastValue(m, rs[1..], channelId);
      if later.Some? then later
      else if Feeds(m, rs[0], channelId) then Some(rs[0].value) else None
  }

  lemma {:induction false} LastAcceptedCons(a: Accepted, rest: seq<Accepted>, channelId: int)
    ensures LastAccepted([a] + rest, channelId)
         == if LastAccepted(rest, channelId).Some? then LastAccepted(rest, channelId)
            else if a.channelId == channelId then Some(a) else None
    decreases |rest|
  {
    var all := [a] + rest;
    if rest == [] {
      assert all[..0] == [];
      assert LastAccepted([], channelId) == None;
    } else {
      var n := |rest| - 1;
      assert all[..n + 1] == [a] + rest[..n];
      LastAcceptedCons(a, rest[..n], channelId);
    }
  }

  lemma {:induction false} LastAcceptedValue(m: CodeMap, rs: seq<ReadingIn>, channelId: int)
    ensures var last := LastAccepted(Accept(m, rs), channelId);
            LastValue(m, rs, channelId) == if last.Some? then Some(last.value.reading.value) else None
    decreases |rs|
  {
    if rs != [] {
      LastAcceptedValue(m, rs[1..], channelId);
      if Known(m, rs[0]) {
        LastAcceptedCons(Resolved(m, rs[0]), Accept(m, rs[1..]), channelId);
      } else {
        assert [] + Accept(m, rs[1..]) == Accept(m, rs[1..]);
      }
    }
  }

  /** Only the given connection sends readings of the channel. */
  predicate OnlySource(m: CodeMap, q: seq<Queued>, channelId: int, conn: nat) {
    forall i :: 0 <= i < |q| && Feeds(m, q[i].reading, channelId) ==> q[i].conn == conn
  }

  lemma {:induction false} LastValueOnConn(m: CodeMap, q: seq<Queued>, channelId: int, conn: nat)
    requires OnlySource(m, q, channelId, conn)
    ensures LastValue(m, Untag(q), channelId) == LastValue(m, OnConn(q, conn), channelId)
    decreases |q|
  {
    if q != [] {
      assert forall i :: 0 <= i < |q[1..]| ==> q[1..][i] == q[i + 1];
      LastValueOnConn(m, q[1..], channelId, conn);
      assert Untag(q)[1..] == Untag(q[1..]);
      if q[0].conn == conn {
        var first := q[0].reading.(timestamp := 0);
        assert OnConn(q, conn) == [first] + OnConn(q[1..], conn);
        assert OnConn(q, conn)[1..] == OnConn(q[1..], conn);
        assert Feeds(m, first, channelId) <==> Feeds(m, q[0].reading, channelId);
      } else {
        assert [] + OnConn(q[1..], conn) == OnConn(q[1..], conn);
      }
    }
  }

  // ---------------------------------------------------------------- two registers under one channel code

  lemma {:induction false} ToReadingInsAt(rs: seq<RawReading>, i: nat)
    requires i < |rs|
    ensures ToReadingIns(rs)[i] == ToReadingIn(rs[i])
  {
    if i > 0 { ToReadingInsAt(rs[1..], i - 1); }
  }

  lemma SharedReadings(a: Adapter, frame: Bytes, ts: int, i: nat, j: nat) returns (k: nat, l: nat)
    requires Concerns(a, frame) && i < j < |a.registers|
    requires Fits(a.registers[i], |DataOf(frame)| / 2) && Fits(a.registers[j], |DataOf(frame)| / 2)
    requires a.registers[i].channelCode == a.registers[j].channelCode
    ensures var rs := ToReadingIns(DecodeFrame(a, frame, ts));
            && k < l < |rs| && rs[k].deviceCode == rs[l].deviceCode == a.deviceCode
            && rs[k].channelCode == rs[l].channelCode == a.registers[i].channelCode
            && rs[k].timestamp == rs[l].timestamp == ts
  {
    hide GetRegisters, Served, ReadingsFor, DataOf, Fits, ToReadingIns;
    var regs := GetRegisters(DataOf(frame));
    var rs := DecodeFrame(a, frame, ts);
    k, l := ServedInOrder(a.registers, i, j, |regs|);
    ReadingsAreServed(a, a.registers, regs, ts);
    ToReadingInsAt(rs, k);
    ToReadingInsAt(rs, l);
  }

  /** The readings of a response that covers two configured entries with one channel code stand in each other's way:
      they carry one timestamp, so no batch that holds them is stored. */
  lemma SharedCodeRejectsBatch(s: Store, w: World, a: Adapter, frame: Bytes, regs: Registers, ts: int, i: nat, j: nat,
                               before: seq<ReadingIn>, after: seq<ReadingIn>)
    requires RegistersOf(frame, regs) && frame[0] as int == a.slaveId && frame[1] == 3
    requires i < j < |a.registers| && Covered(a.registers[i], |regs|) && Covered(a.registers[j], |regs|)
    requires a.registers[i].channelCode == a.registers[j].channelCode
    requires var batch := before + ToReadingIns(DecodeFrame(a, frame, ts)) + after;
             (a.deviceCode, a.registers[i].channelCode) in ResolveCodeMap(w.rows, batch)
    ensures var batch := before + ToReadingIns(DecodeFrame(a, frame, ts)) + after;
            Ingested(s, w, batch) == (s, Failure(UniqueViolation))
  {
    ResponseCovers(a, frame, regs, i);
    ResponseCovers(a, frame, regs, j);
    hide Ingested, ResolveCodeMap, DecodeFrame, Concerns, DataOf, Fits, Covered, RegistersOf, ToReadingIns;
    var rs := ToReadingIns(DecodeFrame(a, frame, ts));
    var k, l := SharedReadings(a, frame, ts, i, j);
    var batch := before + rs + after;
    assert batch[|before| + k] == rs[k] && batch[|before| + l] == rs[l];
    SameInstantRejectsBatch(s, w, batch, |before| + k, |before| + l);
  }

  lemma ResponseCovers(a: Adapter, frame: Bytes, regs: Registers, i: nat)
    requires RegistersOf(frame, regs) && frame[0] as int == a.slaveId && frame[1] == 3
    requires i < |a.registers| && Covered(a.registers[i], |regs|)
    ensures Concerns(a, frame) && Fits(a.registers[i], |DataOf(frame)| / 2)
  {
    ConcernsOnBytes(a, frame);
    RegistersOnBytes(frame);
    FitsIfCovered(a.registers[i], |regs|);
  }

  // ---------------------------------------------------------------- bytes to alerts

  /** A device's bytes decide its alerts. Take a consumer that has handed over all the readings of its connections,
      in whatever batches; let every batch be ingested, and every alert batch be processed in order with nobody
      acknowledging. Then for a channel with rules that is fed by one connection, the cached value is the value of the
      last reading in that connection's byte stream for the channel, and the open levels are exactly those which that
      value triggers; a channel the stream says nothing about has no cached value and no open alert. The clock, the
      cut into chunks and batches, the other connections and the earlier history play no part. */
  lemma BytesDecideAlerts(batches: seq<seq<Queued>>, conn: nat, a: Adapter, stream: Bytes,
                          calls: seq<Call>, rows: seq<CodeRow>, devices: set<string>,
                          meta: Meta, ids: seq<seq<seq<nat>>>, channelId: int)
    requires OnConn(Concat(batches), conn) == Meaning(a, stream)
    requires CallsFor(calls, batches, rows) && Healthy(calls)
    requires AllSucceed(Store(map[], map[], []), calls)
    requires forall r :: r in Untag(Concat(batches)) ==> r.deviceCode in devices
    requires OnlySource(CodeMapOf(rows, devices), Concat(batches), channelId, conn)
    requires channelId in meta && meta[channelId].projectId.Some? && meta[channelId].rules != []
    requires BatchesLand(map[], meta, IngestedAll(Store(map[], map[], []), calls).dispatched, ids)
    ensures var s := IngestedAll(Store(map[], map[], []), calls);
            var last := LastValue(CodeMapOf(rows, devices), Meaning(a, stream), channelId);
            var open := OpenLevels(ProcessedBatches(map[], meta, s.dispatched, ids), channelId);
            if last.Some? then
              && channelId in s.cache && s.cache[channelId].value == last.value
              && open == Levels(Events(last.value, meta[channelId].rules))
            else channelId !in s.cache && open == {}
  {
    hide Meaning, IngestedAll, AcceptedAll, OnConn, OpenLevels, ProcessedBatches, BatchesLand, LastValue, Accept;
    hide AllSucceed;
    var m := CodeMapOf(rows, devices);
    var start := Store(map[], map[], []);
    AcceptedOfBatches(start, calls, batches, rows, devices);
    LastAcceptedValue(m, Untag(Concat(batches)), channelId);
    LastValueOnConn(m, Concat(batches), channelId, conn);
    CacheIsLastAccepted(calls, channelId);
    CacheAgreesWithAlerts(calls, meta, ids, channelId);
  }
}
