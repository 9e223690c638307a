/** What the server and its consumer come to from an empty server, told by the events alone. */
module DtuRuns {
  import opened Crc
  import opened Framing
  import opened Decoding
  import opened Data
  import opened DtuServer

  function NewServer(): Server { Server(map[], [], false, [], [], [], map[]) }

  // ---------------------------------------------------------------- connections, streams, stopping

  /** Event k is where the connection comes up: it is accepted there, not before, and nobody has asked to stop yet. */
  ghost predicate ComesUp(events: seq<Event>, conn: nat, k: nat) {
    && k < |events| && events[k].Accepted? && events[k].conn == conn
    && forall l :: 0 <= l < k ==> !events[l].StopRequested? && !(events[l].Accepted? && events[l].conn == conn)
  }

  ghost predicate StopAsked(events: seq<Event>) {
    exists k :: 0 <= k < |events| && events[k].StopRequested?
  }

  lemma {:induction false} FirstAccepted(events: seq<Event>, conn: nat, n: nat) returns (k: nat)
    requires !StopAsked(events) && n < |events| && events[n].Accepted? && events[n].conn == conn
    ensures k <= n && ComesUp(events, conn, k)
    decreases n
  {
    if l :| 0 <= l < n && events[l].Accepted? && events[l].conn == conn {
      k := FirstAccepted(events, conn, l);
    } else {
      k := n;
    }
  }

  lemma ComesUpSnoc(events: seq<Event>, conn: nat)
    requires events != []
    ensures var n := |events| - 1;
            && (forall k: nat :: k < n ==> (ComesUp(events, conn, k) <==> ComesUp(events[..n], conn, k)))
            && (ComesUp(events, conn, n) <==>
                  && events[n].Accepted? && events[n].conn == conn
                  && !StopAsked(events[..n]) && !exists k: nat :: ComesUp(events[..n], conn, k))
            && (StopAsked(events) <==> StopAsked(events[..n]) || events[n].StopRequested?)
  {
    var n := |events| - 1;
    var before := events[..n];
    assert forall l :: 0 <= l < n ==> before[l] == events[l];
    if !StopAsked(before) && !exists k: nat :: ComesUp(before, conn, k) {
      forall l | 0 <= l < n ensures !(events[l].Accepted? && events[l].conn == conn) {
        if before[l].Accepted? && before[l].conn == conn {
          var k := FirstAccepted(before, conn, l);
        }
      }
    }
    if StopAsked(before) {
      var k :| 0 <= k < n && before[k].StopRequested?;
      assert events[k].StopRequested?;
    }
  }

  lemma {:induction false} OnlyOnce(events: seq<Event>, conn: nat, k: nat, l: nat)
    requires ComesUp(events, conn, k) && ComesUp(events, conn, l)
    ensures k == l
  {}

  /** The bytes delivered grow with every chunk on the connection, by the chunk, and with nothing else. */
  lemma DeliveredSnoc(events: seq<Event>, e: Event, conn: nat)
    ensures Delivered(events + [e], conn)
         == Delivered(events, conn) + if e.Received? && e.conn == conn then e.chunk else []
  {
    DeliveredConcat(events, [e], conn);
    assert Delivered([e], conn) == ChunkOf(e, conn) + Delivered([], conn);
  }

  ghost predicate ConnectionTold(events: seq<Event>, s: Server, conn: nat) {
    && (conn in s.connections <==> exists k: nat :: ComesUp(events, conn, k))
    && (conn in s.connections <==> conn in s.streams)
    && forall k: nat :: ComesUp(events, conn, k) ==>
         && Connected(s, conn) && s.connections[conn].adapter == events[k].adapter
         && s.streams[conn] == Delivered(events[k..], conn)
  }

  lemma NothingTold(conn: nat)
    ensures ConnectionTold([], NewServer(), conn)
  {}

  lemma OtherEvents(events: seq<Event>, s: Server, e: Event, conn: nat)
    requires ConnectionTold(events, s, conn)
    requires !(e.Accepted? && e.conn == conn && conn !in s.connections && !s.stopping)
    requires s.stopping <==> StopAsked(events)
    ensures ConnectionTold(events + [e], Happened(s, e), conn)
  {
    hide Split, DecodeAll, Tag, Delivered, ComesUp;
    var more := events + [e];
    assert more[..|events|] == events;
    ComesUpSnoc(more, conn);
    forall k: nat ensures ComesUp(more, conn, k) ==> k < |more| && more[k].Accepted? && more[k].conn == conn {
      UpIsThere(more, conn, k);
    }
    forall k: nat | ComesUp(more, conn, k)
      ensures Connected(Happened(s, e), conn)
      ensures Happened(s, e).connections[conn].adapter == more[k].adapter
      ensures Happened(s, e).streams[conn] == Delivered(more[k..], conn) {
      assert k != |events|;
      assert more[k..] == events[k..] + [e];
      DeliveredSnoc(events[k..], e, conn);
    }
    forall k: nat | ComesUp(events, conn, k) ensures ComesUp(more, conn, k) {
      UpIsThere(events, conn, k);
    }
  }

  lemma UpIsThere(events: seq<Event>, conn: nat, k: nat)
    ensures ComesUp(events, conn, k) ==> k < |events| && events[k].Accepted? && events[k].conn == conn
  {}

  lemma NewConnection(events: seq<Event>, s: Server, adapter: Adapter, conn: nat)
    requires ConnectionTold(events, s, conn) && conn !in s.connections && !s.stopping && !StopAsked(events)
    ensures ConnectionTold(events + [Accepted(conn, adapter)], Happened(s, Accepted(conn, adapter)), conn)
  {
    hide Delivered, ComesUp;
    var n := |events|;
    var more := events + [Accepted(conn, adapter)];
    assert more[..n] == events;
    ComesUpSnoc(more, conn);
    assert ComesUp(more, conn, n);
    forall k: nat | ComesUp(more, conn, k) ensures k == n {
      OnlyOnce(more, conn, k, n);
    }
    assert more[n..] == [] + [Accepted(conn, adapter)];
    DeliveredSnoc([], Accepted(conn, adapter), conn);
    assert Delivered([], conn) == [] by { NoBytes(conn); }
  }

  lemma NoBytes(conn: nat)
    ensures Delivered([], conn) == []
  {}

  /** After any events on a new server: it is stopping exactly if somebody asked for it; a connection is there exactly
      if it came up, with the adapter it came up with, and its stream is every chunk delivered on it since, in order. */
  lemma {:induction false} ServerOfEvents(events: seq<Event>, conn: nat)
    ensures var s := AllHappened(NewServer(), events);
            && (s.stopping <==> StopAsked(events))
            && ConnectionTold(events, s, conn)
    decreases |events|
  {
    hide Happened, ConnectionTold, ComesUp, StopAsked;
    if events == [] {
      NothingTold(conn);
      NobodyAsked();
    } else {
      var n := |events| - 1;
      var s, e := AllHappened(NewServer(), events[..n]), events[n];
      ServerOfEvents(events[..n], conn);
      AllHappenedSnoc(NewServer(), events, n);
      assert events[..n + 1] == events && events == events[..n] + [e];
      ComesUpSnoc(events, conn);
      StopsWhenAsked(s, e);
      if e.Accepted? && e.conn == conn && conn !in s.connections && !s.stopping {
        NewConnection(events[..n], s, e.adapter, conn);
      } else {
        OtherEvents(events[..n], s, e, conn);
      }
    }
  }

  lemma NobodyAsked()
    ensures !StopAsked([])
  {}

  lemma StopsWhenAsked(s: Server, e: Event)
    ensures Happened(s, e).stopping <==> s.stopping || e.StopRequested?
  {}

  // ---------------------------------------------------------------- what is queued, field by field

  /** Queued readings are the decoded ones under their connection, with their own codes, timestamp, value and unit; an
      unknown quality counts as good. */
  lemma {:induction false} QueuedOnFields(conn: nat, rs: seq<RawReading>, i: nat)
    requires i < |rs|
    ensures Tag(conn, rs)[i] ==
            Queued(conn, ReadingIn(rs[i].deviceCode, rs[i].channelCode, rs[i].timestamp, rs[i].value, rs[i].unit,
                                   if rs[i].quality == "bad" then Bad
                                   else if rs[i].quality == "uncertain" then Uncertain else Good))
  {
    if i > 0 { QueuedOnFields(conn, rs[1..], i - 1); }
  }

  /** So are the readings of a stream's meaning, except that those carry no clock readings. */
  lemma {:induction false} MeaningOnFields(rs: seq<RawReading>, i: nat)
    requires i < |rs|
    ensures ToReadingIns(rs)[i] ==
            ReadingIn(rs[i].deviceCode, rs[i].channelCode, rs[i].timestamp, rs[i].value, rs[i].unit,
                      if rs[i].quality == "bad" then Bad
                      else if rs[i].quality == "uncertain" then Uncertain else Good)
  {
    if i > 0 { MeaningOnFields(rs[1..], i - 1); }
  }

  /** A chunk on a connection that is up: the frames of its buffer and the chunk are decoded under its adapter and go to
      the end of the queue, and what the splitter leaves over is the new buffer. Nothing else of the server changes, and
      a chunk on any other connection changes nothing. */
  lemma ChunkOnFields(s: Server, conn: nat, chunk: Bytes, clock: Clock)
    requires Shares(s)
    ensures var s' := Happened(s, Received(conn, chunk, clock));
            if conn !in s.connections then s' == s
            else
              var c := s.connections[conn];
              var split := Split(c.buffer + chunk);
              var readings := DecodeAll(c.adapter, split.frames, clock);
              && s'.queue == s.queue + Tag(conn, readings) && s'.enqueued == s.enqueued + Tag(conn, readings)
              && s'.connections == s.connections[conn := Connection(c.adapter, split.rest)]
              && conn in s.streams && s'.streams == s.streams[conn := s.streams[conn] + chunk]
              && s'.stopping == s.stopping && s'.attempted == s.attempted && s'.batch == s.batch
  {
    hide Split, DecodeAll, Tag;
  }

  // ---------------------------------------------------------------- the consumer's steps, field by field

  /** One await of a consumer that has not left. While it waits, the events happen. If it was waiting for an item, and
      its time is not over and there is one, it takes the first into its batch. With time left and the batch not full it
      goes on collecting; otherwise it hands over what it has. With nothing to hand over, or after handing over, the
      round ends, and it leaves exactly when it is told to stop and the queue is empty. */
  lemma StepOnFields(batchSize: nat, r: Run, turn: Turn)
    requires !r.phase.Exited?
    ensures var s := if turn.Expired? then r.server else AllHappened(r.server, turn.events);
            var r' := Step(batchSize, r, turn);
            var ended := Run(s, if s.stopping && s.queue == [] then Exited else Collecting);
            if r.phase.Ingesting? then r' == ended
            else if turn.Waited? && !turn.timedOut && s.queue != [] then
              var batch := s.batch + [s.queue[0]];
              r' == if |batch| < batchSize then Run(s.(queue := s.queue[1..], batch := batch), Collecting)
                    else Run(s.(queue := s.queue[1..], attempted := s.attempted + [batch], batch := []), Ingesting)
            else
              r' == if s.batch != [] then Run(s.(attempted := s.attempted + [s.batch], batch := []), Ingesting)
                    else ended
  {
    hide AllHappened;
    NothingHappened(r.server);
  }

  // ---------------------------------------------------------------- any schedule from a new server

  /** Two servers agree on everything but the consumer's own: queue, batch and what has been handed over. */
  ghost predicate SameWorld(s: Server, s': Server) {
    && s.connections == s'.connections && s.streams == s'.streams
    && s.stopping == s'.stopping && s.enqueued == s'.enqueued
  }

  lemma {:induction false} EventsSameWorld(s: Server, s': Server, events: seq<Event>)
    requires SameWorld(s, s')
    ensures SameWorld(AllHappened(s, events), AllHappened(s', events))
    decreases |events|
  {
    hide Split, DecodeAll, Tag;
    if events != [] {
      EventsSameWorld(Happened(s, events[0]), Happened(s', events[0]), events[1..]);
    }
  }

  lemma {:induction false} AllHappenedConcat(s: Server, xs: seq<Event>, ys: seq<Event>)
    ensures AllHappened(s, xs + ys) == AllHappened(AllHappened(s, xs), ys)
    decreases |xs|
  {
    hide Happened;
    if xs == [] {
      assert xs + ys == ys;
    } else {
      assert (xs + ys)[1..] == xs[1..] + ys;
      AllHappenedConcat(Happened(s, xs[0]), xs[1..], ys);
    }
  }

  lemma StepSameWorld(batchSize: nat, r: Run, turn: Turn, s: Server)
    requires SameWorld(r.server, s) && !r.phase.Exited?
    ensures SameWorld(Step(batchSize, r, turn).server, AllHappened(s, EventsOf(turn)))
  {
    EventsSameWorld(r.server, s, EventsOf(turn));
    NothingHappened(r.server);
    NothingHappened(s);
    hide AllHappened;
  }

  lemma {:induction false} StepsSameWorld(batchSize: nat, r: Run, turns: seq<Turn>, s: Server)
    requires SameWorld(r.server, s)
    requires forall i :: 0 <= i < |turns| ==> !Steps(batchSize, r, turns[..i]).phase.Exited?
    ensures SameWorld(Steps(batchSize, r, turns).server, AllHappened(s, EventsIn(turns)))
    decreases |turns|
  {
    hide Step, SameWorld, EventsOf, AllHappened;
    if turns == [] {
      NothingHappened(s);
    } else {
      var r1 := Step(batchSize, r, turns[0]);
      assert turns[..0] == [] && Steps(batchSize, r, turns[..0]) == r;
      StepSameWorld(batchSize, r, turns[0], s);
      forall i | 0 <= i < |turns[1..]| ensures !Steps(batchSize, r1, turns[1..][..i]).phase.Exited? {
        assert turns[..i + 1][1..] == turns[1..][..i];
        assert Steps(batchSize, r, turns[..i + 1]) == Steps(batchSize, r1, turns[1..][..i]);
      }
      StepsSameWorld(batchSize, r1, turns[1..], AllHappened(s, EventsOf(turns[0])));
      AllHappenedConcat(s, EventsOf(turns[0]), EventsIn(turns[1..]));
    }
  }

  lemma NewServerOk(batchSize: nat)
    requires batchSize >= 1
    ensures Ok(batchSize, Run(NewServer(), Collecting))
  {}

  /** Wherever a consumer of a new server has got to over a schedule, the events of the turns it used tell the server:
      who is connected under which adapter, and that each connection's readings, queued in this order, are the meaning
      of exactly the bytes delivered on it since it came up. */
  lemma ScheduleTellsServer(batchSize: nat, turns: seq<Turn>, used: nat, r: Run, conn: nat)
    requires batchSize >= 1 && GotTo(batchSize, Run(NewServer(), Collecting), turns, used, r)
    ensures var events := EventsIn(turns[..used]);
            && (r.server.stopping <==> StopAsked(events))
            && (conn in r.server.connections <==> exists k: nat :: ComesUp(events, conn, k))
            && (conn !in r.server.connections ==> OnConn(r.server.enqueued, conn) == [])
            && forall k: nat :: ComesUp(events, conn, k) ==>
                 && Connected(r.server, conn) && r.server.connections[conn].adapter == events[k].adapter
                 && r.server.streams[conn] == Delivered(events[k..], conn)
                 && OnConn(r.server.enqueued, conn) == Meaning(events[k].adapter, Delivered(events[k..], conn))
  {
    hide Step, Steps, AllHappened, Delivered, EventsIn, ComesUp, StopAsked, Meaning, OnConn, Conserved;
    var start := Run(NewServer(), Collecting);
    var events := EventsIn(turns[..used]);
    forall i | 0 <= i < used ensures !Steps(batchSize, start, turns[..used][..i]).phase.Exited? {
      assert turns[..used][..i] == turns[..i];
    }
    NewServerOk(batchSize);
    StepsKeepOk(batchSize, start, turns[..used]);
    StepsSameWorld(batchSize, start, turns[..used], NewServer());
    ServerOfEvents(events, conn);
  }

  // ---------------------------------------------------------------- stopping

  /** How many undisturbed awaits a consumer that has been told to stop needs at most. */
  function StepsToGo(r: Run): nat {
    match r.phase
    case Exited => 0
    case Ingesting => 3 * |r.server.queue| + 2
    case Collecting => 3 * |r.server.queue| + if r.server.batch == [] then 1 else 3
  }

  /** A wait in which nothing happens and whose time is not over. */
  predicate Quiet(turn: Turn) { turn == Waited([], false) }

  lemma QuietStep(batchSize: nat, r: Run, turn: Turn)
    requires Ok(batchSize, r) && r.server.stopping && !r.phase.Exited? && Quiet(turn)
    ensures var r' := Step(batchSize, r, turn);
            StepsToGo(r') < StepsToGo(r) && r'.server.stopping && r'.server.enqueued == r.server.enqueued
  {
    NothingHappened(r.server);
    StepOnFields(batchSize, r, turn);
    hide Step, AllHappened, Conserved, Shares;
  }

  /** Stopping drains the queue: once told to stop, a consumer that is left to itself leaves, however much is queued,
      and then everything that was ever queued has been handed over. */
  lemma {:induction false} StopDrains(batchSize: nat, r: Run, turns: seq<Turn>)
    requires Ok(batchSize, r) && r.server.stopping
    requires |turns| >= StepsToGo(r) && forall i :: 0 <= i < |turns| ==> Quiet(turns[i])
    ensures var end := Steps(batchSize, r, turns);
            && end.phase.Exited? && end.server.enqueued == r.server.enqueued
            && Concat(end.server.attempted) == r.server.enqueued
    decreases |turns|
  {
    hide Step, Quiet, Concat, Conserved, Shares;
    if r.phase.Exited? {
      StaysOut(batchSize, r, turns);
      HandedOver(batchSize, r);
    } else {
      QuietStep(batchSize, r, turns[0]);
      StepKeepsOk(batchSize, r, turns[0]);
      StopDrains(batchSize, Step(batchSize, r, turns[0]), turns[1..]);
    }
  }

  lemma {:induction false} StaysOut(batchSize: nat, r: Run, turns: seq<Turn>)
    requires r.phase.Exited?
    ensures Steps(batchSize, r, turns) == r
    decreases |turns|
  {
    if turns != [] { StaysOut(batchSize, r, turns[1..]); }
  }
}
