/** The alert check: a fold over readings that closes what no longer triggers and triggers what does.

    Underneath sits a plain edge detector per channel and level; the theorems here say that the table refines it. */
module AlertTasks {
  import opened Positions
  import opened Wrappers
  import opened Alerts
  import opened AlertRuns

  /** One element of the check's payload. */
  datatype Reading = Reading(channelId: Option<int>, value: Option<real>, timestamp: int)

  /** What the check loads about a channel: its rules and the project of its device. */
  datatype ChannelMeta = ChannelMeta(rules: seq<Rule>, projectId: Option<int>)

  type Meta = map<int, ChannelMeta>

  /** A reading the check acts on. */
  predicate Counts(meta: Meta, r: Reading) {
    && r.channelId.Some? && r.value.Some?
    && r.channelId.value in meta
    && meta[r.channelId.value].projectId.Some?
    && meta[r.channelId.value].rules != []
  }

  function EventsFor(meta: Meta, r: Reading): seq<TriggerEvent>
    requires Counts(meta, r)
  {
    Events(r.value.value, meta[r.channelId.value].rules)
  }

  function OpenLevels(t: Table, channelId: int): set<string> {
    set id | id in t && IsOpen(t[id], channelId, t[id].level) :: t[id].level
  }

  // ---------------------------------------------------------------- the check as a function of the table

  ghost predicate TriggersLand(t: Table, channelId: int, events: seq<TriggerEvent>, ts: int, ids: seq<nat>)
    decreases |events|
  {
    if events == [] then ids == []
    else
      && ids != []
      && LandsOn(t, channelId, events[0], ts, ids[0])
      && TriggersLand(Triggered(t, channelId, events[0], ts, ids[0]), channelId, events[1..], ts, ids[1..])
  }

  ghost function TriggeredAll(t: Table, channelId: int, events: seq<TriggerEvent>, ts: int, ids: seq<nat>): Table
    requires TriggersLand(t, channelId, events, ts, ids)
    decreases |events|
  {
    if events == [] then t
    else TriggeredAll(Triggered(t, channelId, events[0], ts, ids[0]), channelId, events[1..], ts, ids[1..])
  }

  /** The table once the levels that no longer trigger have been closed. */
  function Settled(t: Table, meta: Meta, r: Reading): Table
    requires Counts(meta, r)
  {
    var ch := r.channelId.value;
    ClosedAll(t, ch, OpenLevels(t, ch) - Levels(EventsFor(meta, r)), r.timestamp)
  }

  /** ids are the rows a reading's triggers land on. */
  ghost predicate Lands(t: Table, meta: Meta, r: Reading, ids: seq<nat>) {
    if Counts(meta, r) then
      TriggersLand(Settled(t, meta, r), r.channelId.value, EventsFor(meta, r), r.timestamp, ids)
    else ids == []
  }

  ghost function Processed(t: Table, meta: Meta, r: Reading, ids: seq<nat>): Table
    requires Lands(t, meta, r, ids)
  {
    if Counts(meta, r) then
      TriggeredAll(Settled(t, meta, r), r.channelId.value, EventsFor(meta, r), r.timestamp, ids)
    else t
  }

  ghost predicate AllLand(t: Table, meta: Meta, rs: seq<Reading>, ids: seq<seq<nat>>)
    decreases |rs|
  {
    if rs == [] then ids == []
    else
      && ids != []
      && Lands(t, meta, rs[0], ids[0])
      && AllLand(Processed(t, meta, rs[0], ids[0]), meta, rs[1..], ids[1..])
  }

  ghost function ProcessedAll(t: Table, meta: Meta, rs: seq<Reading>, ids: seq<seq<nat>>): Table
    requires AllLand(t, meta, rs, ids)
    decreases |rs|
  {
    if rs == [] then t
    else ProcessedAll(Processed(t, meta, rs[0], ids[0]), meta, rs[1..], ids[1..])
  }

  // ---------------------------------------------------------------- what the table shows of a channel and level

  /** An open alert, seen from outside. */
  datatype Open = Open(since: int, value: real, threshold: real)

  ghost function Seen(t: Table, channelId: int, level: string): Option<Open> {
    var ids := OpenIds(t, channelId, level);
    if ids == {} then None
    else var id :| id in ids; Some(Open(t[id].startedAt, t[id].value, t[id].threshold))
  }

  lemma SeenAt(t: Table, channelId: int, level: string, id: nat)
    requires TableInv(t) && id in OpenIds(t, channelId, level)
    ensures Seen(t, channelId, level) == Some(Open(t[id].startedAt, t[id].value, t[id].threshold))
  {
    OpenIdsUnique(t, channelId, level);
  }

  lemma SeenSame(t: Table, t': Table, channelId: int, level: string)
    requires TableInv(t) && TableInv(t')
    requires OpenIds(t, channelId, level) == OpenIds(t', channelId, level)
    requires forall id :: id in OpenIds(t, channelId, level) ==> t[id] == t'[id]
    ensures Seen(t, channelId, level) == Seen(t', channelId, level)
  {
    if OpenIds(t, channelId, level) != {} {
      var id :| id in OpenIds(t, channelId, level);
      SeenAt(t, channelId, level, id);
      SeenAt(t', channelId, level, id);
    }
  }

  lemma OpenLevelsSeen(t: Table, channelId: int, level: string)
    ensures level in OpenLevels(t, channelId) <==> Seen(t, channelId, level).Some?
  {
    if level in OpenLevels(t, channelId) {
      var id :| id in t && IsOpen(t[id], channelId, t[id].level) && t[id].level == level;
      assert id in OpenIds(t, channelId, level);
    }
    if Seen(t, channelId, level).Some? {
      var id :| id in OpenIds(t, channelId, level);
      assert id in t && IsOpen(t[id], channelId, t[id].level) && t[id].level == level;
    }
  }

  /** A trigger opens its level, or keeps it open since when it was, with the event's value and threshold. */
  lemma TriggerSeen(t: Table, channelId: int, e: TriggerEvent, ts: int, id: nat, ch: int, level: string)
    requires TableInv(t) && LandsOn(t, channelId, e, ts, id)
    ensures var t' := Triggered(t, channelId, e, ts, id);
            var before := Seen(t, ch, level);
            && TableInv(t')
            && Seen(t', ch, level) ==
               if ch == channelId && level == e.level
               then Some(Open(if before.Some? then before.value.since else ts, e.value, e.threshold))
               else before
  {
    var t' := Triggered(t, channelId, e, ts, id);
    StepKeepsInv(t, Trigger(channelId, e, ts, id));
    if ch == channelId && level == e.level {
      assert id in OpenIds(t', ch, level);
      SeenAt(t', ch, level, id);
      if OpenIds(t, ch, level) != {} {
        SeenAt(t, ch, level, id);
      }
    } else {
      assert OpenIds(t, ch, level) == OpenIds(t', ch, level);
      SeenSame(t, t', ch, level);
    }
  }

  /** Closing levels of a channel ends what was seen there and touches nothing else. */
  lemma CloseSeen(t: Table, channelId: int, levels: set<string>, ts: int, ch: int, level: string)
    requires TableInv(t)
    ensures var t' := ClosedAll(t, channelId, levels, ts);
            && TableInv(t')
            && Seen(t', ch, level) == if ch == channelId && level in levels then None else Seen(t, ch, level)
  {
    var t' := ClosedAll(t, channelId, levels, ts);
    if ch == channelId && level in levels {
      assert OpenIds(t', ch, level) == {};
    } else {
      assert OpenIds(t', ch, level) == OpenIds(t, ch, level);
      SeenSame(t, t', ch, level);
    }
  }

  // ---------------------------------------------------------------- the edge detector

  /** The threshold of the last event at a level. */
  function LastThreshold(events: seq<TriggerEvent>, level: string): real
    requires level in Levels(events)
    decreases |events|
  {
    var n := |events| - 1;
    if events[n].level == level then events[n].threshold
    else
      assert forall e :: e in events <==> e == events[n] || e in events[..n];
      LastThreshold(events[..n], level)
  }

  /** The detector for one level: it is on while the value triggers, since the reading that turned it on. */
  function Detect(o: Option<Open>, events: seq<TriggerEvent>, value: real, ts: int, level: string): Option<Open> {
    if level in Levels(events)
    then Some(Open(if o.Some? then o.value.since else ts, value, LastThreshold(events, level)))
    else None
  }

  function DetectReading(o: Option<Open>, meta: Meta, r: Reading, channelId: int, level: string): Option<Open> {
    if Counts(meta, r) && r.channelId.value == channelId
    then Detect(o, EventsFor(meta, r), r.value.value, r.timestamp, level)
    else o
  }

  function DetectAll(o: Option<Open>, meta: Meta, rs: seq<Reading>, channelId: int, level: string): Option<Open>
    decreases |rs|
  {
    if rs == [] then o
    else DetectAll(DetectReading(o, meta, rs[0], channelId, level), meta, rs[1..], channelId, level)
  }

  lemma {:induction false} TriggersSeen(t: Table, channelId: int, events: seq<TriggerEvent>, ts: int, ids: seq<nat>,
                                        value: real, ch: int, level: string)
    requires TableInv(t) && TriggersLand(t, channelId, events, ts, ids)
    requires forall e :: e in events ==> e.value == value
    ensures var t' := TriggeredAll(t, channelId, events, ts, ids);
            var before := Seen(t, ch, level);
            && TableInv(t')
            && Seen(t', ch, level) ==
               if ch == channelId && level in Levels(events) then Detect(before, events, value, ts, level) else before
    decreases |events|
  {
    if events != [] {
      TriggerSeen(t, channelId, events[0], ts, ids[0], ch, level);
      var t1 := Triggered(t, channelId, events[0], ts, ids[0]);
      TriggersSeen(t1, channelId, events[1..], ts, ids[1..], value, ch, level);
      LevelsCons(events);
      if level in Levels(events) {
        LastThresholdCons(events, level);
      }
    }
  }

  lemma LevelsCons(events: seq<TriggerEvent>)
    requires events != []
    ensures Levels(events) == {events[0].level} + Levels(events[1..])
  {
    assert forall e :: e in events <==> e == events[0] || e in events[1..];
  }

  lemma {:induction false} LastThresholdCons(events: seq<TriggerEvent>, level: string)
    requires events != [] && level in Levels(events)
    ensures LastThreshold(events, level)
         == if level in Levels(events[1..]) then LastThreshold(events[1..], level) else events[0].threshold
    decreases |events|
  {
    var n := |events| - 1;
    LevelsCons(events);
    if n > 0 {
      assert events[1..][..n - 1] == events[..n][1..];
      assert events[1..][n - 1] == events[n];
      if events[n].level == level {
        assert events[n] in events[1..];
      } else {
        assert forall e :: e in events <==> e == events[n] || e in events[..n];
        LastThresholdCons(events[..n], level);
        assert forall e :: e in events[1..] <==> e == events[n] || e in events[..n][1..];
      }
    }
  }

  lemma {:induction false} EventsCarryValue(value: real, rules: seq<Rule>)
    ensures forall e :: e in Events(value, rules) ==> e.value == value
  {
    if rules != [] { EventsCarryValue(value, rules[1..]); }
  }

  /** One reading moves the table as it moves the detectors: for every channel and level, what the table shows
      afterwards is what the detector says of what it showed before. */
  lemma ReadingRefinesDetector(t: Table, meta: Meta, r: Reading, ids: seq<nat>, ch: int, level: string)
    requires TableInv(t) && Lands(t, meta, r, ids)
    ensures TableInv(Processed(t, meta, r, ids))
    ensures Seen(Processed(t, meta, r, ids), ch, level) == DetectReading(Seen(t, ch, level), meta, r, ch, level)
  {
    if Counts(meta, r) {
      var c := r.channelId.value;
      var events := EventsFor(meta, r);
      EventsCarryValue(r.value.value, meta[c].rules);
      CloseSeen(t, c, OpenLevels(t, c) - Levels(events), r.timestamp, ch, level);
      TriggersSeen(Settled(t, meta, r), c, events, r.timestamp, ids, r.value.value, ch, level);
      OpenLevelsSeen(t, c, level);
    }
  }

  /** So does any sequence of readings: an open alert has been open since the reading at which its level last
      started to trigger, and shows the latest value and the threshold of the last rule that fired. */
  lemma {:induction false} BatchRefinesDetector(t: Table, meta: Meta, rs: seq<Reading>, ids: seq<seq<nat>>,
                                                ch: int, level: string)
    requires TableInv(t) && AllLand(t, meta, rs, ids)
    ensures TableInv(ProcessedAll(t, meta, rs, ids))
    ensures Seen(ProcessedAll(t, meta, rs, ids), ch, level) == DetectAll(Seen(t, ch, level), meta, rs, ch, level)
    decreases |rs|
  {
    if rs != [] {
      ReadingRefinesDetector(t, meta, rs[0], ids[0], ch, level);
      BatchRefinesDetector(Processed(t, meta, rs[0], ids[0]), meta, rs[1..], ids[1..], ch, level);
    }
  }

  // ---------------------------------------------------------------- one reading, on its fields and the rules'

  /** Some unresolved row of this channel and level. */
  ghost predicate Active(t: Table, channelId: int, level: string) {
    exists id :: Unresolved(t, channelId, level, id)
  }

  lemma SeenOnFields(t: Table, channelId: int, level: string)
    requires TableInv(t)
    ensures Seen(t, channelId, level).Some? <==> Active(t, channelId, level)
    ensures forall id :: Unresolved(t, channelId, level, id) ==>
              Seen(t, channelId, level) == Some(Open(t[id].startedAt, t[id].value, t[id].threshold))
  {
    SetsOfRows(t, channelId, level, 0);
    forall id | Unresolved(t, channelId, level, id)
      ensures Seen(t, channelId, level) == Some(Open(t[id].startedAt, t[id].value, t[id].threshold)) {
      SeenAt(t, channelId, level, id);
    }
  }

  /** The reading names a channel of a project that has rules, and carries a value; anything else is skipped. */
  predicate Relevant(meta: Meta, r: Reading) {
    r.channelId.Some? && r.value.Some? && r.channelId.value in meta &&
    var m := meta[r.channelId.value];
    m.projectId.Some? && |m.rules| > 0
  }

  /** Rule k is the last one of the level whose threshold the value has crossed. */
  ghost predicate LastCrossed(rules: seq<Rule>, v: real, level: string, k: nat) {
    && k < |rules| && rules[k].level == Some(level) && Crossed(rules[k], v)
    && forall l :: k < l < |rules| && rules[l].level == Some(level) ==> !Crossed(rules[l], v)
  }

  lemma {:induction false} LastThresholdOnFields(rules: seq<Rule>, v: real, level: string)
    ensures level in Levels(Events(v, rules)) <==> exists k: nat :: LastCrossed(rules, v, level, k)
    ensures forall k: nat :: LastCrossed(rules, v, level, k) && level in Levels(Events(v, rules)) ==>
              rules[k].threshold == Some(LastThreshold(Events(v, rules), level))
    decreases |rules|
  {
    hide Crossed, Fires, LastThreshold, LastCrossed;
    if rules == [] {
      NoneCrossed(v, level);
    } else {
      var rest := rules[1..];
      LastThresholdOnFields(rest, v, level);
      EventsCons(v, rules);
      FiresIfCrossed(rules[0], v);
      LastCrossedCons(rules, v, level);
      LastCrossedTail(rules, v, level);
      if Fires(rules[0], v) {
        assert Events(v, rules)[1..] == Events(v, rest);
        LevelsCons(Events(v, rules));
        if level in Levels(Events(v, rules)) {
          LastThresholdCons(Events(v, rules), level);
        }
      } else {
        assert [] + Events(v, rest) == Events(v, rest);
      }
      CrossedIsHere(rules, v, level);
      forall k: nat | LastCrossed(rules, v, level, k) && level in Levels(Events(v, rules))
        ensures rules[k].threshold == Some(LastThreshold(Events(v, rules), level)) {
        if k > 0 {
          assert LastCrossed(rest, v, level, k - 1);
        }
      }
    }
  }

  lemma NoneCrossed(v: real, level: string)
    ensures Levels(Events(v, [])) == {} && forall k: nat :: !LastCrossed([], v, level, k)
  {}

  lemma CrossedIsHere(rules: seq<Rule>, v: real, level: string)
    ensures forall k: nat :: LastCrossed(rules, v, level, k) ==>
              k < |rules| && rules[k].level == Some(level) && Crossed(rules[k], v)
  {}

  lemma LastCrossedTail(rules: seq<Rule>, v: real, level: string)
    requires rules != []
    ensures (exists k: nat :: LastCrossed(rules, v, level, k)) <==>
            LastCrossed(rules, v, level, 0) || exists k: nat :: LastCrossed(rules[1..], v, level, k)
  {
    hide LastCrossed;
    LastCrossedCons(rules, v, level);
    if k: nat :| LastCrossed(rules, v, level, k) {
      assert k > 0 ==> LastCrossed(rules[1..], v, level, k - 1);
    }
    if k: nat :| LastCrossed(rules[1..], v, level, k) {
      assert LastCrossed(rules, v, level, k + 1);
    }
  }

  lemma LastCrossedCons(rules: seq<Rule>, v: real, level: string)
    requires rules != []
    ensures forall k: nat :: LastCrossed(rules, v, level, k + 1) <==> LastCrossed(rules[1..], v, level, k)
    ensures LastCrossed(rules, v, level, 0) <==>
            && rules[0].level == Some(level) && Crossed(rules[0], v)
            && !exists k: nat :: LastCrossed(rules[1..], v, level, k)
  {
    hide Crossed;
    var rest := rules[1..];
    assert forall k :: 0 <= k < |rest| ==> rest[k] == rules[k + 1];
    forall k: nat ensures LastCrossed(rules, v, level, k + 1) <==> LastCrossed(rest, v, level, k) {
      assert forall l :: k + 1 < l < |rules| ==> rules[l] == rest[l - 1];
    }
    SomeLast(rest, v, level);
    assert forall l :: 0 < l < |rules| ==> rules[l] == rest[l - 1];
  }

  lemma {:induction false} SomeLast(rules: seq<Rule>, v: real, level: string)
    ensures (exists k: nat :: LastCrossed(rules, v, level, k)) <==>
            exists l :: 0 <= l < |rules| && rules[l].level == Some(level) && Crossed(rules[l], v)
    decreases |rules|
  {
    hide Crossed;
    if rules != [] {
      var n := |rules| - 1;
      SomeLast(rules[..n], v, level);
      if rules[n].level == Some(level) && Crossed(rules[n], v) {
        assert LastCrossed(rules, v, level, n);
      } else {
        forall k: nat ensures LastCrossed(rules, v, level, k) <==> LastCrossed(rules[..n], v, level, k) {
          if k < n {
            assert forall l :: 0 <= l < n ==> rules[..n][l] == rules[l];
          }
        }
      }
    }
  }

  /** What one reading does to the alerts. A reading that is not relevant changes nothing, and no other channel is ever
      touched. After a relevant one the channel's open levels are those of the rules whose thresholds its value has
      crossed; the alert open there shows the value and the threshold of the last such rule, and has been open since it
      was before the reading, or since the reading; an alert of any other level has ended at the reading. */
  lemma ReadingOnFields(t: Table, meta: Meta, r: Reading, ids: seq<nat>, level: string)
    requires TableInv(t) && Lands(t, meta, r, ids)
    ensures !Relevant(meta, r) ==> Processed(t, meta, r, ids) == t
    ensures Relevant(meta, r) ==>
              var t' := Processed(t, meta, r, ids);
              var c, v, rules := r.channelId.value, r.value.value, meta[r.channelId.value].rules;
              && (Active(t', c, level) <==>
                    exists rule :: rule in rules && rule.level == Some(level) && Crossed(rule, v))
              && (forall id :: Unresolved(t', c, level, id) ==>
                    && t'[id].value == v
                    && (exists k: nat :: LastCrossed(rules, v, level, k)
                                      && rules[k].threshold == Some(t'[id].threshold))
                    && (!Active(t, c, level) ==> t'[id].startedAt == r.timestamp)
                    && forall i :: Unresolved(t, c, level, i) ==> t'[id].startedAt == t[i].startedAt)
  {
    hide Processed, Lands, TableInv, Crossed, Unresolved, Active, LastCrossed, LastThreshold, Seen;
    ReadingRefinesDetector(t, meta, r, ids, if r.channelId.Some? then r.channelId.value else 0, level);
    if Relevant(meta, r) {
      var t' := Processed(t, meta, r, ids);
      var c, v, rules := r.channelId.value, r.value.value, meta[r.channelId.value].rules;
      SeenOnFields(t, c, level);
      SeenOnFields(t', c, level);
      LastThresholdOnFields(rules, v, level);
      SomeLast(rules, v, level);
    } else {
      SkippedReading(t, meta, r, ids);
    }
  }

  lemma SkippedReading(t: Table, meta: Meta, r: Reading, ids: seq<nat>)
    requires Lands(t, meta, r, ids) && !Relevant(meta, r)
    ensures Processed(t, meta, r, ids) == t
  {}

  lemma {:induction false} TriggersTouch(t: Table, channelId: int, events: seq<TriggerEvent>, ts: int,
                                         ids: seq<nat>)
    requires TableInv(t) && TriggersLand(t, channelId, events, ts, ids)
    ensures var t' := TriggeredAll(t, channelId, events, ts, ids);
            forall id :: id in t && (t[id].channelId != channelId || t[id].level !in Levels(events)) ==>
              id in t' && t'[id] == t[id]
    decreases |events|
  {
    hide Triggered, LandsOn, TableInv;
    if events != [] {
      var e := events[0];
      var t1 := Triggered(t, channelId, e, ts, ids[0]);
      StepKeepsInv(t, Trigger(channelId, e, ts, ids[0]));
      TriggerOnFields(t, channelId, e, ts, ids[0]);
      LandsOnFields(t, channelId, e, ts, ids[0]);
      LevelsCons(events);
      TriggersTouch(t1, channelId, events[1..], ts, ids[1..]);
    }
  }

  /** And the rows it does not concern: those of other channels stay as they are, and so do those of the channel whose
      level no rule raises, except that an open one ends at the reading. */
  lemma ReadingLeaves(t: Table, meta: Meta, r: Reading, ids: seq<nat>, id: nat)
    requires TableInv(t) && Lands(t, meta, r, ids) && Relevant(meta, r) && id in t
    ensures id in Processed(t, meta, r, ids)
    ensures var c, v, rules := r.channelId.value, r.value.value, meta[r.channelId.value].rules;
            var raised := exists rule :: rule in rules && rule.level == Some(t[id].level) && Crossed(rule, v);
            && (t[id].channelId != c ==> Processed(t, meta, r, ids)[id] == t[id])
            && (t[id].channelId == c && !raised ==>
                  Processed(t, meta, r, ids)[id] ==
                  if t[id].isResolved then t[id] else t[id].(isResolved := true, endedAt := Some(r.timestamp)))
  {
    hide TableInv, TriggersLand, TriggeredAll, Crossed, LastThreshold;
    var c, v, rules := r.channelId.value, r.value.value, meta[r.channelId.value].rules;
    var stale := OpenLevels(t, c) - Levels(EventsFor(meta, r));
    CloseSeen(t, c, stale, r.timestamp, c, "");
    TriggersTouch(Settled(t, meta, r), c, EventsFor(meta, r), r.timestamp, ids);
    LastThresholdOnFields(rules, v, t[id].level);
    SomeLast(rules, v, t[id].level);
    TriggersPersist(Settled(t, meta, r), c, EventsFor(meta, r), r.timestamp, ids);
  }

  lemma {:induction false} TriggersPersist(t: Table, channelId: int, events: seq<TriggerEvent>, ts: int,
                                           ids: seq<nat>)
    requires TriggersLand(t, channelId, events, ts, ids)
    ensures t.Keys <= TriggeredAll(t, channelId, events, ts, ids).Keys
    decreases |events|
  {
    hide LandsOn, Triggered;
    if events != [] {
      TriggerOnFields(t, channelId, events[0], ts, ids[0]);
      TriggersPersist(Triggered(t, channelId, events[0], ts, ids[0]), channelId, events[1..], ts, ids[1..]);
    }
  }

  // ---------------------------------------------------------------- what is published and notified

  /** What a trigger reports: the alert it landed on, and whether that is a new occurrence. */
  datatype Raise = Raise(
    alertId: nat, channelId: int, level: string, value: real, threshold: real, created: bool, startedAt: int)

  ghost function RaiseOf(t: Table, channelId: int, e: TriggerEvent, ts: int, id: nat): Raise
    requires LandsOn(t, channelId, e, ts, id)
  {
    Raise(id, channelId, e.level, e.value, e.threshold, OpenIds(t, channelId, e.level) == {},
          Triggered(t, channelId, e, ts, id)[id].startedAt)
  }

  ghost function RaisedBy(t: Table, channelId: int, events: seq<TriggerEvent>, ts: int, ids: seq<nat>): (rs: seq<Raise>)
    requires TriggersLand(t, channelId, events, ts, ids)
    ensures |rs| == |events|
    decreases |events|
  {
    if events == [] then []
    else [RaiseOf(t, channelId, events[0], ts, ids[0])]
         + RaisedBy(Triggered(t, channelId, events[0], ts, ids[0]), channelId, events[1..], ts, ids[1..])
  }

  ghost function Raised(t: Table, meta: Meta, r: Reading, ids: seq<nat>): seq<Raise>
    requires Lands(t, meta, r, ids)
  {
    if Counts(meta, r) then
      RaisedBy(Settled(t, meta, r), r.channelId.value, EventsFor(meta, r), r.timestamp, ids)
    else []
  }

  ghost function RaisedAll(t: Table, meta: Meta, rs: seq<Reading>, ids: seq<seq<nat>>): seq<Raise>
    requires AllLand(t, meta, rs, ids)
    decreases |rs|
  {
    if rs == [] then []
    else Raised(t, meta, rs[0], ids[0])
         + RaisedAll(Processed(t, meta, rs[0], ids[0]), meta, rs[1..], ids[1..])
  }

  lemma RaiseStart(t: Table, channelId: int, e: TriggerEvent, ts: int, id: nat)
    requires TableInv(t) && LandsOn(t, channelId, e, ts, id)
    ensures RaiseOf(t, channelId, e, ts, id).startedAt ==
            var before := Seen(t, channelId, e.level); if before.Some? then before.value.since else ts
    ensures RaiseOf(t, channelId, e, ts, id).created <==> Seen(t, channelId, e.level).None?
  {
    if OpenIds(t, channelId, e.level) != {} {
      SeenAt(t, channelId, e.level, id);
    }
  }

  lemma {:induction false} TriggersKeepOpen(t: Table, channelId: int, events: seq<TriggerEvent>, ts: int,
                                            ids: seq<nat>, ch: int, level: string, id: nat)
    requires TriggersLand(t, channelId, events, ts, ids) && Unresolved(t, ch, level, id)
    ensures Unresolved(TriggeredAll(t, channelId, events, ts, ids), ch, level, id)
    decreases |events|
  {
    hide Triggered, LandsOn;
    if events != [] {
      TriggerOnFields(t, channelId, events[0], ts, ids[0]);
      TriggersKeepOpen(Triggered(t, channelId, events[0], ts, ids[0]), channelId, events[1..], ts, ids[1..],
                       ch, level, id);
    }
  }

  lemma OpensRow(t: Table, channelId: int, e: TriggerEvent, ts: int, id: nat)
    requires LandsOn(t, channelId, e, ts, id)
    ensures Unresolved(Triggered(t, channelId, e, ts, id), channelId, e.level, id)
  {}

  lemma {:induction false} CreatedWhen(t: Table, channelId: int, events: seq<TriggerEvent>, ts: int, ids: seq<nat>,
                                       i: nat)
    requires TableInv(t) && TriggersLand(t, channelId, events, ts, ids) && i < |events|
    ensures var raise := RaisedBy(t, channelId, events, ts, ids)[i];
            && Unresolved(TriggeredAll(t, channelId, events, ts, ids), channelId, raise.level, raise.alertId)
            && raise.channelId == channelId && raise.level == events[i].level
            && raise.value == events[i].value && raise.threshold == events[i].threshold
            && (raise.created <==> Seen(t, channelId, raise.level).None? && raise.level !in Levels(events[..i]))
            && raise.startedAt == (var before := Seen(t, channelId, raise.level);
                                   if before.Some? then before.value.since else ts)
    decreases |events|
  {
    hide LandsOn, Triggered, TableInv, OpenIds, Unresolved;
    if i == 0 {
      RaiseStart(t, channelId, events[0], ts, ids[0]);
      OpensRow(t, channelId, events[0], ts, ids[0]);
      TriggersKeepOpen(Triggered(t, channelId, events[0], ts, ids[0]), channelId, events[1..], ts, ids[1..],
                       channelId, events[0].level, ids[0]);
    } else {
      var e := events[0];
      TriggerSeen(t, channelId, e, ts, ids[0], channelId, events[i].level);
      CreatedWhen(Triggered(t, channelId, e, ts, ids[0]), channelId, events[1..], ts, ids[1..], i - 1);
      LevelsCons(events[..i]);
      assert events[..i][1..] == events[1..][..i - 1];
    }
  }

  /** Edge detection: the i-th trigger of a reading is a new occurrence exactly when its level was not open before
      the reading and no earlier trigger of the same reading has the level. It reports the alert that is open after
      the reading, the event's value and threshold, and the alert's start: its old one if the level was open before,
      and otherwise the reading. */
  lemma CreatedIsRisingEdge(t: Table, meta: Meta, r: Reading, ids: seq<nat>, i: nat)
    requires TableInv(t) && Lands(t, meta, r, ids) && Counts(meta, r) && i < |EventsFor(meta, r)|
    ensures |Raised(t, meta, r, ids)| == |EventsFor(meta, r)|
    ensures var events := EventsFor(meta, r);
            var raise := Raised(t, meta, r, ids)[i];
            && Unresolved(Processed(t, meta, r, ids), r.channelId.value, raise.level, raise.alertId)
            && raise.channelId == r.channelId.value && raise.level == events[i].level
            && raise.value == r.value.value && raise.threshold == events[i].threshold
            && (raise.created <==>
                  raise.level !in OpenLevels(t, r.channelId.value) && raise.level !in Levels(events[..i]))
            && raise.startedAt == (var before := Seen(t, r.channelId.value, raise.level);
                                   if before.Some? then before.value.since else r.timestamp)
  {
    var c := r.channelId.value;
    var events := EventsFor(meta, r);
    var level := events[i].level;
    assert events[i] in events && level in Levels(events);
    CloseSeen(t, c, OpenLevels(t, c) - Levels(events), r.timestamp, c, level);
    CreatedWhen(Settled(t, meta, r), c, events, r.timestamp, ids, i);
    OpenLevelsSeen(t, c, level);
    EventsCarryValue(r.value.value, meta[c].rules);
  }

  /** A reading reports one trigger for each event of a relevant reading, and none otherwise. */
  lemma ReportsOnFields(t: Table, meta: Meta, r: Reading, ids: seq<nat>)
    requires Lands(t, meta, r, ids)
    ensures |Raised(t, meta, r, ids)|
         == if Relevant(meta, r) then |Events(r.value.value, meta[r.channelId.value].rules)| else 0
  {}

  // ---------------------------------------------------------------- counting notifications

  function CreatedCount(rs: seq<Raise>, channelId: int, level: string): nat {
    if rs == [] then 0
    else (if rs[0].created && rs[0].channelId == channelId && rs[0].level == level then 1 else 0)
         + CreatedCount(rs[1..], channelId, level)
  }

  lemma {:induction false} CreatedCountConcat(rs: seq<Raise>, qs: seq<Raise>, channelId: int, level: string)
    ensures CreatedCount(rs + qs, channelId, level)
         == CreatedCount(rs, channelId, level) + CreatedCount(qs, channelId, level)
  {
    if rs == [] {
      assert rs + qs == qs;
    } else {
      assert (rs + qs)[1..] == rs[1..] + qs;
      CreatedCountConcat(rs[1..], qs, channelId, level);
    }
  }

  lemma {:induction false} CreatedByTriggers(t: Table, channelId: int, events: seq<TriggerEvent>, ts: int,
                                             ids: seq<nat>, ch: int, level: string)
    requires TableInv(t) && TriggersLand(t, channelId, events, ts, ids)
    ensures CreatedCount(RaisedBy(t, channelId, events, ts, ids), ch, level)
         == if ch == channelId && level in Levels(events) && Seen(t, ch, level).None? then 1 else 0
    decreases |events|
  {
    if events != [] {
      TriggerSeen(t, channelId, events[0], ts, ids[0], ch, level);
      var t1 := Triggered(t, channelId, events[0], ts, ids[0]);
      CreatedByTriggers(t1, channelId, events[1..], ts, ids[1..], ch, level);
      LevelsCons(events);
    }
  }

  predicate TriggersLevel(meta: Meta, r: Reading, channelId: int, level: string) {
    Counts(meta, r) && r.channelId.value == channelId && level in Levels(EventsFor(meta, r))
  }

  /** How often the level goes from off to on along the channel's readings. */
  function RisingEdges(on: bool, meta: Meta, rs: seq<Reading>, channelId: int, level: string): nat
    decreases |rs|
  {
    if rs == [] then 0
    else if Counts(meta, rs[0]) && rs[0].channelId.value == channelId then
      var now := TriggersLevel(meta, rs[0], channelId, level);
      (if now && !on then 1 else 0) + RisingEdges(now, meta, rs[1..], channelId, level)
    else RisingEdges(on, meta, rs[1..], channelId, level)
  }

  /** Notifications count rising edges: over any readings, a channel and level are notified once for each time
      the level starts to trigger, however many rules share it and whatever rows the alerts land on. */
  lemma {:induction false} NotificationsCountRisingEdges(t: Table, meta: Meta, rs: seq<Reading>, ids: seq<seq<nat>>,
                                                         ch: int, level: string)
    requires TableInv(t) && AllLand(t, meta, rs, ids)
    ensures CreatedCount(RaisedAll(t, meta, rs, ids), ch, level)
         == RisingEdges(Seen(t, ch, level).Some?, meta, rs, ch, level)
    decreases |rs|
  {
    if rs != [] {
      var r := rs[0];
      var t1 := Processed(t, meta, r, ids[0]);
      ReadingRefinesDetector(t, meta, r, ids[0], ch, level);
      NotificationsCountRisingEdges(t1, meta, rs[1..], ids[1..], ch, level);
      CreatedCountConcat(Raised(t, meta, r, ids[0]), RaisedAll(t1, meta, rs[1..], ids[1..]), ch, level);
      if Counts(meta, r) {
        var c := r.channelId.value;
        CloseSeen(t, c, OpenLevels(t, c) - Levels(EventsFor(meta, r)), r.timestamp, ch, level);
        CreatedByTriggers(Settled(t, meta, r), c, EventsFor(meta, r), r.timestamp, ids[0], ch, level);
      }
    }
  }

  // ---------------------------------------------------------------- memorylessness

  /** The last reading of a channel that the check acts on. */
  function LastCounted(meta: Meta, rs: seq<Reading>, channelId: int): Option<Reading>
    decreases |rs|
  {
    if rs == [] then None
    else
      var r := rs[|rs| - 1];
      if Counts(meta, r) && r.channelId.value == channelId then Some(r)
      else LastCounted(meta, rs[..|rs| - 1], channelId)
  }

  lemma {:induction false} LastCountedCons(meta: Meta, rs: seq<Reading>, channelId: int)
    requires rs != []
    ensures LastCounted(meta, rs, channelId)
         == if LastCounted(meta, rs[1..], channelId).Some? then LastCounted(meta, rs[1..], channelId)
            else if Counts(meta, rs[0]) && rs[0].channelId.value == channelId then Some(rs[0]) else None
    decreases |rs|
  {
    var n := |rs| - 1;
    if n == 0 {
      assert rs[..0] == [] && rs[1..] == [];
      assert LastCounted(meta, rs[..0], channelId) == None;
    } else {
      assert rs[1..][n - 1] == rs[n];
      assert rs[1..][..n - 1] == rs[..n][1..];
      LastCountedCons(meta, rs[..n], channelId);
    }
  }

  lemma {:induction false} LastCountedCounts(meta: Meta, rs: seq<Reading>, channelId: int)
    ensures var last := LastCounted(meta, rs, channelId);
            last.Some? ==> Counts(meta, last.value) && last.value.channelId.value == channelId
    decreases |rs|
  {
    if rs != [] { LastCountedCounts(meta, rs[..|rs| - 1], channelId); }
  }

  lemma {:induction false} DetectorForgets(o: Option<Open>, meta: Meta, rs: seq<Reading>, channelId: int, level: string)
    ensures var last := LastCounted(meta, rs, channelId);
            DetectAll(o, meta, rs, channelId, level).Some? <==>
            if last.Some? then TriggersLevel(meta, last.value, channelId, level) else o.Some?
    decreases |rs|
  {
    if rs != [] {
      LastCountedCons(meta, rs, channelId);
      LastCountedCounts(meta, rs[1..], channelId);
      DetectorForgets(DetectReading(o, meta, rs[0], channelId, level), meta, rs[1..], channelId, level);
    }
  }

  /** Memoryless: after any readings, the levels open on a channel are those its last counted reading triggers,
      whatever the table held before; without such a reading nothing has changed. */
  lemma OpenLevelsForgetHistory(t: Table, meta: Meta, rs: seq<Reading>, ids: seq<seq<nat>>, ch: int)
    requires TableInv(t) && AllLand(t, meta, rs, ids)
    ensures var last := LastCounted(meta, rs, ch);
            var open := OpenLevels(ProcessedAll(t, meta, rs, ids), ch);
            && (last.Some? ==> Counts(meta, last.value) && open == Levels(EventsFor(meta, last.value)))
            && (last.None? ==> open == OpenLevels(t, ch))
  {
    var last := LastCounted(meta, rs, ch);
    var t' := ProcessedAll(t, meta, rs, ids);
    LastCountedCounts(meta, rs, ch);
    forall level ensures level in OpenLevels(t', ch) <==>
                         if last.Some? then TriggersLevel(meta, last.value, ch, level) else level in OpenLevels(t, ch) {
      BatchRefinesDetector(t, meta, rs, ids, ch, level);
      DetectorForgets(Seen(t, ch, level), meta, rs, ch, level);
      OpenLevelsSeen(t, ch, level);
      OpenLevelsSeen(t', ch, level);
    }
  }

  // ---------------------------------------------------------------- crash and retry

  /** A state in which a run over rs may be cut short: some readings done, then some of the next one's levels
      closed, or all of them closed and some of its triggers done. Each close and trigger commits on its own. */
  ghost predicate CutShort(t: Table, meta: Meta, rs: seq<Reading>, ids: seq<seq<nat>>, cut: Table)
    requires AllLand(t, meta, rs, ids)
    decreases |rs|
  {
    || cut == t
    || (rs != [] && CutInside(t, meta, rs[0], ids[0], cut))
    || (rs != [] && CutShort(Processed(t, meta, rs[0], ids[0]), meta, rs[1..], ids[1..], cut))
  }

  ghost predicate CutInside(t: Table, meta: Meta, r: Reading, ids: seq<nat>, cut: Table)
    requires Lands(t, meta, r, ids)
  {
    && Counts(meta, r)
    && (|| CutWhileClosing(t, meta, r, cut)
        || CutWhileTriggering(Settled(t, meta, r), r.channelId.value, EventsFor(meta, r), r.timestamp, ids, cut))
  }

  ghost predicate CutWhileClosing(t: Table, meta: Meta, r: Reading, cut: Table)
    requires Counts(meta, r)
  {
    var ch := r.channelId.value;
    exists levels :: levels <= OpenLevels(t, ch) - Levels(EventsFor(meta, r))
                  && cut == ClosedAll(t, ch, levels, r.timestamp)
  }

  ghost predicate CutWhileTriggering(t: Table, channelId: int, events: seq<TriggerEvent>, ts: int, ids: seq<nat>,
                                     cut: Table)
    requires TriggersLand(t, channelId, events, ts, ids)
    decreases |events|
  {
    || cut == t
    || (events != [] &&
        var t1 := Triggered(t, channelId, events[0], ts, ids[0]);
        CutWhileTriggering(t1, channelId, events[1..], ts, ids[1..], cut))
  }

  /** When the alert seen started, if there is one. */
  function Since(o: Option<Open>): Option<int> {
    if o.Some? then Some(o.value.since) else None
  }

  lemma {:induction false} CutTriggeringSeen(t: Table, channelId: int, events: seq<TriggerEvent>, ts: int,
                                             ids: seq<nat>, cut: Table, ch: int, level: string)
    requires TableInv(t) && TriggersLand(t, channelId, events, ts, ids)
    requires CutWhileTriggering(t, channelId, events, ts, ids, cut)
    ensures TableInv(cut)
    ensures var before := Seen(t, ch, level);
            || Seen(cut, ch, level) == before
            || (ch == channelId && level in Levels(events)
                && Since(Seen(cut, ch, level)) == Some(if before.Some? then before.value.since else ts))
    decreases |events|
  {
    if cut != t {
      var t1 := Triggered(t, channelId, events[0], ts, ids[0]);
      TriggerSeen(t, channelId, events[0], ts, ids[0], ch, level);
      CutTriggeringSeen(t1, channelId, events[1..], ts, ids[1..], cut, ch, level);
      LevelsCons(events);
    }
  }

  /** Cut inside a reading, the table shows an alert open since it was before the reading, or since it will be after. */
  lemma CutInsideSeen(t: Table, meta: Meta, r: Reading, ids: seq<nat>, cut: Table, ch: int, level: string)
    requires TableInv(t) && Lands(t, meta, r, ids) && CutInside(t, meta, r, ids, cut)
    ensures TableInv(cut)
    ensures r.channelId.value != ch ==> Seen(cut, ch, level) == Seen(t, ch, level)
    ensures var before := Seen(t, ch, level);
            || Since(Seen(cut, ch, level)) == Since(before)
            || Since(Seen(cut, ch, level)) == Since(DetectReading(before, meta, r, ch, level))
  {
    hide TableInv, ClosedAll, TriggersLand, CutWhileTriggering, Seen;
    var c := r.channelId.value;
    var stale := OpenLevels(t, c) - Levels(EventsFor(meta, r));
    if CutWhileClosing(t, meta, r, cut) {
      var levels :| levels <= stale && cut == ClosedAll(t, c, levels, r.timestamp);
      CloseSeen(t, c, levels, r.timestamp, ch, level);
    } else {
      CloseSeen(t, c, stale, r.timestamp, ch, level);
      CutTriggeringSeen(Settled(t, meta, r), c, EventsFor(meta, r), r.timestamp, ids, cut, ch, level);
    }
  }

  /** Cut anywhere, it shows one open since it is in a whole run over some of the readings. */
  lemma {:induction false} CutShortSeen(t: Table, meta: Meta, rs: seq<Reading>, ids: seq<seq<nat>>, cut: Table,
                                        ch: int, level: string)
    returns (k: nat)
    requires TableInv(t) && AllLand(t, meta, rs, ids) && CutShort(t, meta, rs, ids, cut)
    ensures TableInv(cut) && k <= |rs|
    ensures Since(Seen(cut, ch, level)) == Since(DetectAll(Seen(t, ch, level), meta, rs[..k], ch, level))
    ensures LastCounted(meta, rs, ch).None? ==> Seen(cut, ch, level) == Seen(t, ch, level)
    decreases |rs|
  {
    hide TableInv, Lands, Processed, CutInside, Seen, DetectReading;
    var o := Seen(t, ch, level);
    k := 0;
    assert rs[..0] == [];
    if cut != t {
      var r := rs[0];
      var o1 := DetectReading(o, meta, r, ch, level);
      LastCountedCons(meta, rs, ch);
      if CutInside(t, meta, r, ids[0], cut) {
        CutInsideCounts(t, meta, r, ids[0], cut);
        CutInsideSeen(t, meta, r, ids[0], cut, ch, level);
        if Since(Seen(cut, ch, level)) != Since(o) {
          k := 1;
          assert rs[..1][1..] == [] && DetectAll(o1, meta, [], ch, level) == o1;
        }
      } else {
        ReadingRefinesDetector(t, meta, r, ids[0], ch, level);
        k := CutShortSeen(Processed(t, meta, r, ids[0]), meta, rs[1..], ids[1..], cut, ch, level);
        assert rs[..k + 1][1..] == rs[1..][..k];
        NotMine(o, meta, r, ch, level);
        k := k + 1;
      }
    }
  }

  lemma CutInsideCounts(t: Table, meta: Meta, r: Reading, ids: seq<nat>, cut: Table)
    requires Lands(t, meta, r, ids) && CutInside(t, meta, r, ids, cut)
    ensures Counts(meta, r)
  {}

  lemma NotMine(o: Option<Open>, meta: Meta, r: Reading, channelId: int, level: string)
    ensures !(Counts(meta, r) && r.channelId.value == channelId) ==> DetectReading(o, meta, r, channelId, level) == o
  {}

  /** Every counted reading of the channel triggers the level. */
  ghost predicate NeverOff(meta: Meta, rs: seq<Reading>, channelId: int, level: string) {
    forall k :: 0 <= k < |rs| && Counts(meta, rs[k]) && rs[k].channelId.value == channelId ==>
      TriggersLevel(meta, rs[k], channelId, level)
  }

  lemma NeverOffCons(meta: Meta, rs: seq<Reading>, channelId: int, level: string)
    requires rs != []
    ensures NeverOff(meta, rs, channelId, level) <==>
            && NeverOff(meta, rs[1..], channelId, level)
            && (Counts(meta, rs[0]) && rs[0].channelId.value == channelId ==>
                  TriggersLevel(meta, rs[0], channelId, level))
  {
    assert forall k :: 0 <= k < |rs[1..]| ==> rs[1..][k] == rs[k + 1];
    assert forall k :: 0 < k < |rs| ==> rs[k] == rs[1..][k - 1];
  }

  /** All that the detector takes over from before is the start of an alert that no reading has ended. */
  lemma {:induction false} DetectorForm(o: Option<Open>, meta: Meta, rs: seq<Reading>, channelId: int, level: string)
    ensures var alone := DetectAll(None, meta, rs, channelId, level);
            DetectAll(o, meta, rs, channelId, level) ==
            if o.Some? && NeverOff(meta, rs, channelId, level) then
              if alone.Some? then Some(alone.value.(since := o.value.since)) else o
            else alone
    decreases |rs|
  {
    hide NeverOff;
    if rs == [] {
      NothingTurnsOff(meta, channelId, level);
    } else {
      NeverOffCons(meta, rs, channelId, level);
      DetectorForm(DetectReading(o, meta, rs[0], channelId, level), meta, rs[1..], channelId, level);
      DetectorForm(DetectReading(None, meta, rs[0], channelId, level), meta, rs[1..], channelId, level);
    }
  }

  lemma NothingTurnsOff(meta: Meta, channelId: int, level: string)
    ensures NeverOff(meta, [], channelId, level)
  {}

  lemma {:induction false} DetectConcat(o: Option<Open>, meta: Meta, rs: seq<Reading>, qs: seq<Reading>,
                                        channelId: int, level: string)
    ensures DetectAll(o, meta, rs + qs, channelId, level)
         == DetectAll(DetectAll(o, meta, rs, channelId, level), meta, qs, channelId, level)
    decreases |rs|
  {
    if rs == [] {
      assert rs + qs == qs;
    } else {
      assert (rs + qs)[1..] == rs[1..] + qs;
      DetectConcat(DetectReading(o, meta, rs[0], channelId, level), meta, rs[1..], qs, channelId, level);
    }
  }

  /** Starting the readings over from where a run over some of them had got to changes nothing about the outcome. */
  lemma DetectorRestarts(o: Option<Open>, o': Option<Open>, meta: Meta, rs: seq<Reading>, k: nat,
                         channelId: int, level: string)
    requires k <= |rs| && Since(o') == Since(DetectAll(o, meta, rs[..k], channelId, level))
    requires LastCounted(meta, rs, channelId).None? ==> o' == o
    ensures DetectAll(o', meta, rs, channelId, level) == DetectAll(o, meta, rs, channelId, level)
  {
    var head, tail := rs[..k], rs[k..];
    assert rs == head + tail;
    DetectConcat(None, meta, head, tail, channelId, level);
    DetectorForm(o, meta, rs, channelId, level);
    DetectorForm(o', meta, rs, channelId, level);
    DetectorForm(o, meta, head, channelId, level);
    DetectorForm(DetectAll(None, meta, head, channelId, level), meta, tail, channelId, level);
    DetectorForgets(None, meta, rs, channelId, level);
    LastCountedCounts(meta, rs, channelId);
    NeverOffSplit(meta, head, tail, channelId, level);
    if NeverOff(meta, rs, channelId, level) && LastCounted(meta, rs, channelId).Some? {
      LastTriggers(meta, rs, channelId, level);
    }
  }

  lemma NeverOffSplit(meta: Meta, rs: seq<Reading>, qs: seq<Reading>, channelId: int, level: string)
    ensures NeverOff(meta, rs + qs, channelId, level) ==>
              NeverOff(meta, rs, channelId, level) && NeverOff(meta, qs, channelId, level)
  {
    assert forall k :: 0 <= k < |rs| ==> rs[k] == (rs + qs)[k];
    assert forall k :: 0 <= k < |qs| ==> qs[k] == (rs + qs)[|rs| + k];
  }

  lemma {:induction false} LastTriggers(meta: Meta, rs: seq<Reading>, channelId: int, level: string)
    requires NeverOff(meta, rs, channelId, level) && LastCounted(meta, rs, channelId).Some?
    ensures TriggersLevel(meta, LastCounted(meta, rs, channelId).value, channelId, level)
    decreases |rs|
  {
    var n := |rs| - 1;
    if !(Counts(meta, rs[n]) && rs[n].channelId.value == channelId) {
      LastTriggers(meta, rs[..n], channelId, level);
    }
  }

  /** Two tables from which a run over the readings ends up showing the same. */
  ghost predicate SameOutcome(t: Table, t': Table, meta: Meta, rs: seq<Reading>) {
    forall ch, level ::
      DetectAll(Seen(t, ch, level), meta, rs, ch, level) == DetectAll(Seen(t', ch, level), meta, rs, ch, level)
  }

  lemma CutShortSameOutcome(t: Table, meta: Meta, rs: seq<Reading>, ids: seq<seq<nat>>, cut: Table)
    requires TableInv(t) && AllLand(t, meta, rs, ids) && CutShort(t, meta, rs, ids, cut)
    ensures TableInv(cut) && SameOutcome(t, cut, meta, rs)
  {
    hide TableInv, CutShort, Seen, DetectAll;
    var somewhere := CutShortSeen(t, meta, rs, ids, cut, 0, "");
    forall ch, level
      ensures DetectAll(Seen(t, ch, level), meta, rs, ch, level) == DetectAll(Seen(cut, ch, level), meta, rs, ch, level)
    {
      var k := CutShortSeen(t, meta, rs, ids, cut, ch, level);
      DetectorRestarts(Seen(t, ch, level), Seen(cut, ch, level), meta, rs, k, ch, level);
    }
  }

  /** The two tables show the same alerts: on every channel and level, the same open since when, with the same value and
      threshold. In particular the same levels are open. */
  ghost predicate ShowSame(t: Table, t': Table) {
    && (forall ch, level :: Seen(t, ch, level) == Seen(t', ch, level))
    && (forall ch :: OpenLevels(t, ch) == OpenLevels(t', ch))
  }

  lemma SameOutcomeShows(t: Table, t': Table, meta: Meta, rs: seq<Reading>, ids: seq<seq<nat>>, ids': seq<seq<nat>>)
    requires TableInv(t) && TableInv(t') && SameOutcome(t, t', meta, rs)
    requires AllLand(t, meta, rs, ids) && AllLand(t', meta, rs, ids')
    ensures ShowSame(ProcessedAll(t, meta, rs, ids), ProcessedAll(t', meta, rs, ids'))
  {
    hide TableInv, AllLand, Seen, DetectAll, OpenLevels;
    var end, end' := ProcessedAll(t, meta, rs, ids), ProcessedAll(t', meta, rs, ids');
    forall ch, level ensures Seen(end, ch, level) == Seen(end', ch, level) {
      BatchRefinesDetector(t, meta, rs, ids, ch, level);
      BatchRefinesDetector(t', meta, rs, ids', ch, level);
    }
    forall ch ensures OpenLevels(end, ch) == OpenLevels(end', ch) {
      forall level ensures level in OpenLevels(end, ch) <==> level in OpenLevels(end', ch) {
        OpenLevelsSeen(end, ch, level);
        OpenLevelsSeen(end', ch, level);
      }
    }
  }

  /** A check that crashes anywhere inside a batch and is retried from the start leaves the same alerts to see as one
      undisturbed run: open on the same channels and levels, since the same time, with the same value and threshold. */
  lemma RetrySettles(t: Table, meta: Meta, rs: seq<Reading>, ids: seq<seq<nat>>, cut: Table, retry: seq<seq<nat>>)
    requires TableInv(t) && AllLand(t, meta, rs, ids) && CutShort(t, meta, rs, ids, cut)
    requires AllLand(cut, meta, rs, retry)
    ensures TableInv(cut)
    ensures ShowSame(ProcessedAll(cut, meta, rs, retry), ProcessedAll(t, meta, rs, ids))
  {
    hide TableInv, AllLand, CutShort, ProcessedAll, SameOutcome, ShowSame;
    CutShortSameOutcome(t, meta, rs, ids, cut);
    SameOutcomeShows(t, cut, meta, rs, ids, retry);
    ShowSameSymmetric(ProcessedAll(t, meta, rs, ids), ProcessedAll(cut, meta, rs, retry));
  }

  lemma ShowSameSymmetric(t: Table, t': Table)
    requires ShowSame(t, t')
    ensures ShowSame(t', t)
  {}

  /** Attempt after attempt at the same batch, each cut short somewhere. */
  ghost predicate Attempts(t: Table, meta: Meta, rs: seq<Reading>, runs: seq<seq<seq<nat>>>, cuts: seq<Table>)
    decreases |cuts|
  {
    if cuts == [] then runs == []
    else
      && runs != []
      && AllLand(t, meta, rs, runs[0]) && CutShort(t, meta, rs, runs[0], cuts[0])
      && Attempts(cuts[0], meta, rs, runs[1..], cuts[1..])
  }

  lemma {:induction false} AttemptsSameOutcome(t: Table, meta: Meta, rs: seq<Reading>, runs: seq<seq<seq<nat>>>,
                                               cuts: seq<Table>)
    requires TableInv(t) && Attempts(t, meta, rs, runs, cuts)
    ensures var last := if cuts == [] then t else cuts[|cuts| - 1];
            TableInv(last) && SameOutcome(t, last, meta, rs)
    decreases |cuts|
  {
    hide TableInv, AllLand, CutShort, Seen, DetectAll;
    if cuts != [] {
      CutShortSameOutcome(t, meta, rs, runs[0], cuts[0]);
      AttemptsSameOutcome(cuts[0], meta, rs, runs[1..], cuts[1..]);
    }
  }

  /** However often a batch is cut short and retried, the attempt that completes leaves the same alerts to see as one
      undisturbed run. */
  lemma RetriesSettle(t: Table, meta: Meta, rs: seq<Reading>, ids: seq<seq<nat>>,
                      runs: seq<seq<seq<nat>>>, cuts: seq<Table>, retry: seq<seq<nat>>)
    requires TableInv(t) && AllLand(t, meta, rs, ids) && Attempts(t, meta, rs, runs, cuts)
    requires AllLand(if cuts == [] then t else cuts[|cuts| - 1], meta, rs, retry)
    ensures var last := if cuts == [] then t else cuts[|cuts| - 1];
            ShowSame(ProcessedAll(last, meta, rs, retry), ProcessedAll(t, meta, rs, ids))
  {
    hide TableInv, AllLand, Attempts, ProcessedAll, SameOutcome, ShowSame;
    var last := if cuts == [] then t else cuts[|cuts| - 1];
    AttemptsSameOutcome(t, meta, rs, runs, cuts);
    SameOutcomeShows(t, last, meta, rs, ids, retry);
    ShowSameSymmetric(ProcessedAll(t, meta, rs, ids), ProcessedAll(last, meta, rs, retry));
  }

  // ---------------------------------------------------------------- where a run of triggering readings began

  lemma {:induction false} DetectSnoc(o: Option<Open>, meta: Meta, rs: seq<Reading>, channelId: int, level: string)
    requires rs != []
    ensures var n := |rs| - 1;
            DetectAll(o, meta, rs, channelId, level) ==
            DetectReading(DetectAll(o, meta, rs[..n], channelId, level), meta, rs[n], channelId, level)
    decreases |rs|
  {
    var n := |rs| - 1;
    if n > 0 {
      assert rs[1..][..n - 1] == rs[..n][1..];
      assert rs[1..][n - 1] == rs[n];
      DetectSnoc(DetectReading(o, meta, rs[0], channelId, level), meta, rs[1..], channelId, level);
    } else {
      assert rs[..0] == [] && rs[1..] == [];
    }
  }

  /** What an open alert's start means: it is the timestamp of a reading that triggered the level when it was off,
      and every counted reading of the channel since has triggered it; or the level was on all along. */
  lemma {:induction false} StartIsRisingEdge(o: Option<Open>, meta: Meta, rs: seq<Reading>,
                                             channelId: int, level: string)
    returns (i: int)
    requires DetectAll(o, meta, rs, channelId, level).Some?
    ensures -1 <= i < |rs|
    ensures forall k :: i < k < |rs| && Counts(meta, rs[k]) && rs[k].channelId.value == channelId ==>
              TriggersLevel(meta, rs[k], channelId, level)
    ensures var since := DetectAll(o, meta, rs, channelId, level).value.since;
            if i >= 0 then
              && since == rs[i].timestamp
              && TriggersLevel(meta, rs[i], channelId, level)
              && DetectAll(o, meta, rs[..i], channelId, level).None?
            else o.Some? && since == o.value.since
    decreases |rs|
  {
    if rs == [] {
      i := -1;
    } else {
      var n := |rs| - 1;
      DetectSnoc(o, meta, rs, channelId, level);
      if DetectAll(o, meta, rs[..n], channelId, level).None? {
        i := n;
      } else {
        i := StartIsRisingEdge(o, meta, rs[..n], channelId, level);
        assert i >= 0 ==> rs[..n][..i] == rs[..i];
        forall k | i < k < |rs| && Counts(meta, rs[k]) && rs[k].channelId.value == channelId
          ensures TriggersLevel(meta, rs[k], channelId, level) {
          assert k < n ==> rs[..n][k] == rs[k];
        }
      }
    }
  }

  lemma {:induction false} LandPrefix(t: Table, meta: Meta, rs: seq<Reading>, ids: seq<seq<nat>>, i: nat)
    requires AllLand(t, meta, rs, ids) && i <= |rs|
    ensures |ids| == |rs| && AllLand(t, meta, rs[..i], ids[..i])
    decreases |rs|
  {
    hide Lands, Processed;
    if rs != [] {
      if i == 0 {
        LandPrefix(Processed(t, meta, rs[0], ids[0]), meta, rs[1..], ids[1..], 0);
      } else {
        LandPrefix(Processed(t, meta, rs[0], ids[0]), meta, rs[1..], ids[1..], i - 1);
        assert rs[..i][1..] == rs[1..][..i - 1] && ids[..i][1..] == ids[1..][..i - 1];
      }
    }
  }

  /** Reading i triggers the level while no row is open there. */
  ghost predicate OpensAt(t: Table, meta: Meta, rs: seq<Reading>, ids: seq<seq<nat>>, ch: int, level: string, i: nat) {
    && i < |rs| && i < |ids| && AllLand(t, meta, rs[..i], ids[..i])
    && OpenIds(ProcessedAll(t, meta, rs[..i], ids[..i]), ch, level) == {}
    && TriggersLevel(meta, rs[i], ch, level)
  }

  /** The same of the alert table: the row open on a channel and level after any readings carries as its start the
      timestamp of a reading that triggered the level when no row was open there, or the start of the row that was
      open before all of them; and every counted reading of the channel since has triggered the level. */
  lemma AlertStartIsRisingEdge(t: Table, meta: Meta, rs: seq<Reading>, ids: seq<seq<nat>>, ch: int, level: string,
                               id: nat)
    returns (i: int)
    requires TableInv(t) && AllLand(t, meta, rs, ids) && id in OpenIds(ProcessedAll(t, meta, rs, ids), ch, level)
    ensures -1 <= i < |rs| && NeverOff(meta, rs[i + 1..], ch, level)
    ensures var start := Some(ProcessedAll(t, meta, rs, ids)[id].startedAt);
            if i >= 0 then start == Some(rs[i].timestamp) && OpensAt(t, meta, rs, ids, ch, level, i)
            else start == Since(Seen(t, ch, level))
  {
    hide TableInv, DetectAll, TriggersLevel, Counts, AllLand, ProcessedAll, Seen;
    LandPrefix(t, meta, rs, ids, 0);
    BatchRefinesDetector(t, meta, rs, ids, ch, level);
    SeenAt(ProcessedAll(t, meta, rs, ids), ch, level, id);
    i := StartIsRisingEdge(Seen(t, ch, level), meta, rs, ch, level);
    var later := rs[i + 1..];
    assert forall k :: 0 <= k < |later| ==> later[k] == rs[i + 1 + k];
    if i >= 0 {
      LandPrefix(t, meta, rs, ids, i);
      BatchRefinesDetector(t, meta, rs[..i], ids[..i], ch, level);
      NothingSeen(ProcessedAll(t, meta, rs[..i], ids[..i]), ch, level);
    }
  }

  lemma NothingSeen(t: Table, ch: int, level: string)
    ensures Seen(t, ch, level).None? <==> OpenIds(t, ch, level) == {}
  {}

  // ---------------------------------------------------------------- the check itself

  /** _process_readings: for each reading, close what no longer triggers, then trigger what does. The table must be
      one that runs can reach, as every table is that only these operations have changed. */
  method ProcessReadings(table: AlertTable, meta: Meta, readings: seq<Reading>)
    returns (raised: seq<Raise>, ghost ids: seq<seq<nat>>)
    requires table.Valid() && TableInv(table.rows)
    modifies table
    ensures table.Valid() && TableInv(table.rows)
    ensures AllLand(old(table.rows), meta, readings, ids)
    ensures table.rows == ProcessedAll(old(table.rows), meta, readings, ids)
    ensures raised == RaisedAll(old(table.rows), meta, readings, ids)
  {
    raised, ids := [], [];
    ghost var start := table.rows;
    for i := 0 to |readings|
      invariant table.Valid() && TableInv(table.rows)
      invariant AllLand(start, meta, readings[..i], ids)
      invariant table.rows == ProcessedAll(start, meta, readings[..i], ids)
      invariant raised == RaisedAll(start, meta, readings[..i], ids)
    {
      var more; ghost var landed;
      more, landed := ProcessReading(table, meta, readings[i]);
      LandSnoc(start, meta, readings[..i], ids, readings[i], landed);
      assert readings[..i + 1] == readings[..i] + [readings[i]];
      raised, ids := raised + more, ids + [landed];
    }
    assert readings[..|readings|] == readings;
  }

  lemma {:induction false} LandSnoc(t: Table, meta: Meta, rs: seq<Reading>, ids: seq<seq<nat>>,
                                    r: Reading, last: seq<nat>)
    requires AllLand(t, meta, rs, ids) && Lands(ProcessedAll(t, meta, rs, ids), meta, r, last)
    ensures AllLand(t, meta, rs + [r], ids + [last])
    ensures ProcessedAll(t, meta, rs + [r], ids + [last]) == Processed(ProcessedAll(t, meta, rs, ids), meta, r, last)
    ensures RaisedAll(t, meta, rs + [r], ids + [last])
         == RaisedAll(t, meta, rs, ids) + Raised(ProcessedAll(t, meta, rs, ids), meta, r, last)
    decreases |rs|
  {
    hide Lands, Processed, Raised;
    if rs == [] {
      assert ([r])[1..] == [] && ([last])[1..] == [];
      var t' := Processed(t, meta, r, last);
      assert AllLand(t', meta, [], []) && ProcessedAll(t', meta, [], []) == t';
      assert [] + [r] == [r] && [] + [last] == [last];
    } else {
      assert (rs + [r])[1..] == rs[1..] + [r];
      assert (ids + [last])[1..] == ids[1..] + [last];
      LandSnoc(Processed(t, meta, rs[0], ids[0]), meta, rs[1..], ids[1..], r, last);
    }
  }

  method ProcessReading(table: AlertTable, meta: Meta, r: Reading) returns (raised: seq<Raise>, ghost ids: seq<nat>)
    requires table.Valid() && TableInv(table.rows)
    modifies table
    ensures table.Valid() && TableInv(table.rows)
    ensures Lands(old(table.rows), meta, r, ids)
    ensures table.rows == Processed(old(table.rows), meta, r, ids)
    ensures raised == Raised(old(table.rows), meta, r, ids)
  {
    raised, ids := [], [];
    if !Counts(meta, r) {
      return;
    }
    var ch := r.channelId.value;
    var events := EvaluateThresholds(r.value.value, meta[ch].rules);
    CloseStale(table, ch, OpenLevels(table.rows, ch) - Levels(events), r.timestamp);
    raised, ids := TriggerEach(table, ch, events, r.timestamp);
  }

  method CloseStale(table: AlertTable, channelId: int, levels: set<string>, ts: int)
    requires table.Valid() && TableInv(table.rows)
    modifies table
    ensures table.Valid() && TableInv(table.rows)
    ensures table.rows == ClosedAll(old(table.rows), channelId, levels, ts)
  {
    hide TableInv, ClosedAll, OpenIds;
    ghost var start := table.rows;
    var left := levels;
    CloseNone(start, channelId, ts);
    assert levels - left == {};
    while left != {}
      invariant left <= levels
      invariant table.Valid() && TableInv(table.rows)
      invariant table.rows == ClosedAll(start, channelId, levels - left, ts)
      decreases left
    {
      var level :| level in left;
      OpenIdsUnique(table.rows, channelId, level);
      StepKeepsInv(table.rows, Close(channelId, level, ts));
      var r := table.CloseOpenAlerts(channelId, level, ts);
      CloseOneMore(start, channelId, levels - left, level, ts);
      assert levels - (left - {level}) == levels - left + {level};
      left := left - {level};
    }
    assert levels - {} == levels;
  }

  lemma CloseNone(t: Table, channelId: int, ts: int)
    ensures ClosedAll(t, channelId, {}, ts) == t
  {}

  lemma CloseOneMore(t: Table, channelId: int, levels: set<string>, level: string, ts: int)
    requires level !in levels
    ensures ClosedAll(ClosedAll(t, channelId, levels, ts), channelId, {level}, ts)
         == ClosedAll(t, channelId, levels + {level}, ts)
  {}

  method TriggerEach(table: AlertTable, channelId: int, events: seq<TriggerEvent>, ts: int)
    returns (raised: seq<Raise>, ghost ids: seq<nat>)
    requires table.Valid() && TableInv(table.rows)
    modifies table
    ensures table.Valid() && TableInv(table.rows)
    ensures TriggersLand(old(table.rows), channelId, events, ts, ids)
    ensures table.rows == TriggeredAll(old(table.rows), channelId, events, ts, ids)
    ensures raised == RaisedBy(old(table.rows), channelId, events, ts, ids)
  {
    hide TableInv, LandsOn, Triggered, OpenIds;
    raised, ids := [], [];
    ghost var start := table.rows;
    for i := 0 to |events|
      invariant table.Valid() && TableInv(table.rows)
      invariant TriggersLand(start, channelId, events[..i], ts, ids)
      invariant table.rows == TriggeredAll(start, channelId, events[..i], ts, ids)
      invariant raised == RaisedBy(start, channelId, events[..i], ts, ids)
    {
      var e := events[i];
      ghost var before := table.rows;
      OpenIdsUnique(before, channelId, e.level);
      var r := table.TriggerAlert(channelId, e, ts);
      var (id, created) := r.value;
      StepKeepsInv(before, Trigger(channelId, e, ts, id));
      TriggersSnoc(start, channelId, events[..i], ts, ids, e, id);
      RaiseAt(before, channelId, e, ts, id);
      assert events[..i + 1] == events[..i] + [e];
      raised := raised + [Raise(id, channelId, e.level, e.value, e.threshold, created, table.rows[id].startedAt)];
      ids := ids + [id];
    }
    assert events[..|events|] == events;
  }

  lemma RaiseAt(t: Table, channelId: int, e: TriggerEvent, ts: int, id: nat)
    requires LandsOn(t, channelId, e, ts, id)
    ensures id in Triggered(t, channelId, e, ts, id)
    ensures RaiseOf(t, channelId, e, ts, id)
         == Raise(id, channelId, e.level, e.value, e.threshold, OpenIds(t, channelId, e.level) == {},
                  Triggered(t, channelId, e, ts, id)[id].startedAt)
  {}

  lemma {:induction false} TriggersSnoc(t: Table, channelId: int, events: seq<TriggerEvent>, ts: int, ids: seq<nat>,
                                        e: TriggerEvent, id: nat)
    requires TriggersLand(t, channelId, events, ts, ids)
    requires LandsOn(TriggeredAll(t, channelId, events, ts, ids), channelId, e, ts, id)
    ensures TriggersLand(t, channelId, events + [e], ts, ids + [id])
    ensures TriggeredAll(t, channelId, events + [e], ts, ids + [id])
         == Triggered(TriggeredAll(t, channelId, events, ts, ids), channelId, e, ts, id)
    ensures RaisedBy(t, channelId, events + [e], ts, ids + [id])
         == RaisedBy(t, channelId, events, ts, ids)
            + [RaiseOf(TriggeredAll(t, channelId, events, ts, ids), channelId, e, ts, id)]
    decreases |events|
  {
    if events == [] {
      assert ([e])[1..] == [] && ([id])[1..] == [];
      var t' := Triggered(t, channelId, e, ts, id);
      assert TriggersLand(t', channelId, [], ts, []) && TriggeredAll(t', channelId, [], ts, []) == t';
      assert [] + [e] == [e] && [] + [id] == [id];
    } else {
      assert (events + [e])[1..] == events[1..] + [e];
      assert (ids + [id])[1..] == ids[1..] + [id];
      TriggersSnoc(Triggered(t, channelId, events[0], ts, ids[0]), channelId, events[1..], ts, ids[1..], e, id);
    }
  }
}
