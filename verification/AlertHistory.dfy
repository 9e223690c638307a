/** A batch of readings is a run of the elementary steps, so what holds of every run holds of the alert check. */
module AlertHistory {
  import opened Wrappers
  import opened Alerts
  import opened AlertRuns
  import opened AlertTasks

  lemma {:induction false} RunConcat(t: Table, steps: seq<Step>, more: seq<Step>)
    requires IsRun(t, steps) && IsRun(After(t, steps), more)
    ensures IsRun(t, steps + more) && After(t, steps + more) == After(After(t, steps), more)
    decreases |steps|
  {
    if steps == [] {
      assert steps + more == more;
    } else {
      assert (steps + more)[1..] == steps[1..] + more;
      RunConcat(Next(t, steps[0]), steps[1..], more);
    }
  }

  /** All steps are triggers and closes of one channel at one time. */
  predicate AllAt(steps: seq<Step>, channelId: int, ts: int) {
    forall i :: 0 <= i < |steps| ==>
      match steps[i]
      case Trigger(ch, _, time, _) => ch == channelId && time == ts
      case Close(ch, _, time) => ch == channelId && time == ts
      case Acknowledge(_, _, _) => false
  }

  lemma {:induction false} TriggersAreSteps(t: Table, channelId: int, events: seq<TriggerEvent>, ts: int, ids: seq<nat>)
    returns (steps: seq<Step>)
    requires TriggersLand(t, channelId, events, ts, ids)
    ensures IsRun(t, steps) && After(t, steps) == TriggeredAll(t, channelId, events, ts, ids)
    ensures AllAt(steps, channelId, ts)
    ensures forall i :: 0 <= i < |steps| ==> steps[i].Trigger? && steps[i].event in events
    decreases |events|
  {
    hide LandsOn, Triggered;
    if events == [] {
      steps := [];
    } else {
      var first := Trigger(channelId, events[0], ts, ids[0]);
      var t1 := Triggered(t, channelId, events[0], ts, ids[0]);
      var rest := TriggersAreSteps(t1, channelId, events[1..], ts, ids[1..]);
      steps := [first] + rest;
      assert steps[1..] == rest;
    }
  }

  lemma {:induction false} ClosesAreSteps(t: Table, channelId: int, levels: set<string>, ts: int)
    returns (steps: seq<Step>)
    requires TableInv(t)
    ensures IsRun(t, steps) && After(t, steps) == ClosedAll(t, channelId, levels, ts)
    ensures AllAt(steps, channelId, ts)
    ensures forall i :: 0 <= i < |steps| ==> steps[i].Close? && steps[i].level in levels
    decreases |levels|
  {
    hide ClosedAll, TableInv;
    if levels == {} {
      steps := [];
      CloseNone(t, channelId, ts);
    } else {
      var level :| level in levels;
      var first := Close(channelId, level, ts);
      var t1 := ClosedAll(t, channelId, {level}, ts);
      OpenIdsUnique(t, channelId, level);
      StepKeepsInv(t, first);
      var rest := ClosesAreSteps(t1, channelId, levels - {level}, ts);
      steps := [first] + rest;
      assert steps[1..] == rest;
      CloseOthers(t, channelId, levels - {level}, level, ts);
      assert levels - {level} + {level} == levels;
    }
  }

  lemma CloseOthers(t: Table, channelId: int, levels: set<string>, level: string, ts: int)
    requires level !in levels
    ensures ClosedAll(ClosedAll(t, channelId, {level}, ts), channelId, levels, ts)
         == ClosedAll(t, channelId, levels + {level}, ts)
  {}

  // ---------------------------------------------------------------- one reading

  /** The levels a reading's triggers find nothing open on are each opened by one of them, and only once. */
  lemma {:induction false} OpenHasNoBirths(t: Table, steps: seq<Step>, channelId: int, level: string)
    requires TableInv(t) && IsRun(t, steps) && OpenIds(t, channelId, level) != {}
    requires forall i :: 0 <= i < |steps| ==> steps[i].Trigger?
    ensures Births(t, steps, channelId, level) == []
    decreases |steps|
  {
    if steps != [] {
      StepKeepsInv(t, steps[0]);
      TriggerKeepsOpen(t, steps[0], channelId, level);
      OpenHasNoBirths(Next(t, steps[0]), steps[1..], channelId, level);
    }
  }

  lemma TriggerKeepsOpen(t: Table, s: Step, channelId: int, level: string)
    requires TableInv(t) && Enabled(t, s) && s.Trigger?
    requires OpenIds(t, channelId, level) != {} || CreatesRow(t, s, channelId, level)
    ensures OpenIds(Next(t, s), channelId, level) != {}
    ensures OpenIds(t, channelId, level) != {} ==> !CreatesRow(t, s, channelId, level)
  {
    if OpenIds(t, channelId, level) != {} {
      var id :| id in OpenIds(t, channelId, level);
      assert id in OpenIds(Next(t, s), channelId, level);
    } else {
      assert s.id in OpenIds(Next(t, s), channelId, level);
    }
  }

  lemma {:induction false} TriggersBirthOnce(t: Table, steps: seq<Step>, channelId: int, level: string)
    requires TableInv(t) && IsRun(t, steps)
    requires forall i :: 0 <= i < |steps| ==> steps[i].Trigger?
    ensures |Births(t, steps, channelId, level)| <= 1
    decreases |steps|
  {
    hide Next, Enabled, TableInv, OpenIds, CreatesRow;
    if steps != [] {
      StepKeepsInv(t, steps[0]);
      if CreatesRow(t, steps[0], channelId, level) {
        TriggerKeepsOpen(t, steps[0], channelId, level);
        OpenHasNoBirths(Next(t, steps[0]), steps[1..], channelId, level);
      } else {
        TriggersBirthOnce(Next(t, steps[0]), steps[1..], channelId, level);
      }
    }
  }

  lemma {:induction false} ClosesBirthNothing(t: Table, steps: seq<Step>, more: seq<Step>,
                                              channelId: int, level: string)
    requires IsRun(t, steps + more) && IsRun(t, steps) && IsRun(After(t, steps), more)
    requires forall i :: 0 <= i < |steps| ==> steps[i].Close?
    ensures Births(t, steps + more, channelId, level) == Births(After(t, steps), more, channelId, level)
    decreases |steps|
  {
    hide Next, Enabled;
    if steps == [] {
      assert steps + more == more;
    } else {
      assert (steps + more)[1..] == steps[1..] + more;
      ClosesBirthNothing(Next(t, steps[0]), steps[1..], more, channelId, level);
    }
  }

  lemma {:induction false} BirthsAt(t: Table, steps: seq<Step>, ch: int, ts: int, channelId: int, level: string)
    requires IsRun(t, steps) && AllAt(steps, ch, ts)
    ensures forall b :: b in Births(t, steps, channelId, level) ==> b.time == ts && ch == channelId
    decreases |steps|
  {
    if steps != [] {
      BirthsAt(Next(t, steps[0]), steps[1..], ch, ts, channelId, level);
    }
  }

  /** The levels that the reading closes. */
  function Stale(t: Table, meta: Meta, r: Reading): set<string>
    requires Counts(meta, r)
  {
    OpenLevels(t, r.channelId.value) - Levels(EventsFor(meta, r))
  }

  lemma ReadingIsRun(t: Table, meta: Meta, r: Reading, ids: seq<nat>, channelId: int, level: string)
    returns (steps: seq<Step>)
    requires TableInv(t) && Lands(t, meta, r, ids) && Counts(meta, r)
    ensures IsRun(t, steps) && After(t, steps) == Processed(t, meta, r, ids)
    ensures AllAt(steps, r.channelId.value, r.timestamp)
    ensures forall i :: 0 <= i < |steps| && steps[i].Trigger? ==> steps[i].event in EventsFor(meta, r)
    ensures forall i :: 0 <= i < |steps| && steps[i].Close? ==> steps[i].level in Stale(t, meta, r)
    ensures |Births(t, steps, channelId, level)| <= 1
  {
    hide TableInv, ClosedAll, TriggersLand, TriggeredAll, Births;
    var ch := r.channelId.value;
    var closes := ClosesAreSteps(t, ch, Stale(t, meta, r), r.timestamp);
    RunKeepsInv(t, closes);
    var triggers := TriggersAreSteps(Settled(t, meta, r), ch, EventsFor(meta, r), r.timestamp, ids);
    RunConcat(t, closes, triggers);
    steps := closes + triggers;
    ClosesBirthNothing(t, closes, triggers, channelId, level);
    TriggersBirthOnce(After(t, closes), triggers, channelId, level);
  }

  // ---------------------------------------------------------------- joining runs

  lemma {:induction false} BirthsConcat(t: Table, steps: seq<Step>, more: seq<Step>, channelId: int, level: string)
    requires IsRun(t, steps) && IsRun(After(t, steps), more) && IsRun(t, steps + more)
    ensures Births(t, steps + more, channelId, level)
         == Births(t, steps, channelId, level) + Births(After(t, steps), more, channelId, level)
    decreases |steps|
  {
    hide Next, Enabled;
    if steps == [] {
      assert steps + more == more;
    } else {
      assert (steps + more)[1..] == steps[1..] + more;
      BirthsConcat(Next(t, steps[0]), steps[1..], more, channelId, level);
    }
  }

  lemma {:induction false} NoEarlyEndConcat(t: Table, steps: seq<Step>, more: seq<Step>, channelId: int, level: string,
                                            last: Option<Birth>)
    requires IsRun(t, steps) && IsRun(After(t, steps), more) && IsRun(t, steps + more)
    requires NoEarlyEnd(t, steps, channelId, level, last)
    requires NoEarlyEnd(After(t, steps), more, channelId, level, LastBirth(t, steps, channelId, level, last))
    ensures NoEarlyEnd(t, steps + more, channelId, level, last)
    decreases |steps|
  {
    hide Next, Enabled;
    if steps == [] {
      assert steps + more == more;
    } else {
      assert (steps + more)[1..] == steps[1..] + more;
      LastBirthStep(t, steps, channelId, level, last);
      NoEarlyEndConcat(Next(t, steps[0]), steps[1..], more, channelId, level,
                       NewLast(t, steps[0], channelId, level, last));
    }
  }

  /** Steps of one channel at one time end no row early that was created by then. */
  lemma {:induction false} NoEarlyEndAt(t: Table, steps: seq<Step>, ch: int, ts: int, channelId: int, level: string,
                                        last: Option<Birth>)
    requires IsRun(t, steps) && AllAt(steps, ch, ts)
    requires last.Some? ==> HasRow(t, channelId, level, last.value.id)
    requires last.Some? && (exists i :: 0 <= i < |steps| && steps[i] == Close(channelId, level, ts)) ==>
               ts >= last.value.time
    ensures NoEarlyEnd(t, steps, channelId, level, last)
    ensures var newest := LastBirth(t, steps, channelId, level, last);
            newest.Some? ==> HasRow(After(t, steps), channelId, level, newest.value.id)
    decreases |steps|
  {
    hide Next, Enabled;
    if steps != [] {
      var s := steps[0];
      StepPersists(t, s);
      if CreatesRow(t, s, channelId, level) {
        BirthStartsLife(t, s, channelId, level);
      }
      LastBirthStep(t, steps, channelId, level, last);
      assert forall i :: 0 <= i < |steps[1..]| ==> steps[1..][i] == steps[i + 1];
      NoEarlyEndAt(Next(t, s), steps[1..], ch, ts, channelId, level, NewLast(t, s, channelId, level, last));
    }
  }

  // ---------------------------------------------------------------- many readings

  /** Every complete rule of the channel at this level asks for a window of at least the given seconds. */
  predicate RulesWindows(meta: Meta, channelId: int, level: string, seconds: int) {
    channelId in meta ==>
      forall rule :: rule in meta[channelId].rules && Complete(rule) && rule.level == Some(level) ==>
        EventOf(rule, 0.0).suppressSeconds >= seconds
  }

  lemma EventWindow(meta: Meta, r: Reading, level: string, seconds: int, e: TriggerEvent)
    requires Counts(meta, r) && RulesWindows(meta, r.channelId.value, level, seconds)
    requires e in EventsFor(meta, r) && e.level == level
    ensures e.suppressSeconds >= seconds
  {
    var rules := meta[r.channelId.value].rules;
    EventsExactly(r.value.value, rules, e);
    var rule :| rule in rules && Fires(rule, r.value.value) && e == EventOf(rule, r.value.value);
    assert EventOf(rule, 0.0).suppressSeconds == e.suppressSeconds;
  }

  /** The reading adds a row to those of the channel and level. */
  ghost predicate AddsRow(t: Table, meta: Meta, r: Reading, ids: seq<nat>, channelId: int, level: string)
    requires Lands(t, meta, r, ids)
  {
    RowsOf(Processed(t, meta, r, ids), channelId, level) != RowsOf(t, channelId, level)
  }

  /** The timestamps of the readings that add a row to those of the channel and level. */
  ghost function BirthTimes(t: Table, meta: Meta, rs: seq<Reading>, ids: seq<seq<nat>>, channelId: int, level: string)
    : seq<int>
    requires AllLand(t, meta, rs, ids)
    decreases |rs|
  {
    if rs == [] then []
    else (if AddsRow(t, meta, rs[0], ids[0], channelId, level) then [rs[0].timestamp] else [])
         + BirthTimes(Processed(t, meta, rs[0], ids[0]), meta, rs[1..], ids[1..], channelId, level)
  }

  /** The reading ends an alert of the channel and level: it is open, and the reading does not trigger it. */
  predicate ClosesLevel(t: Table, meta: Meta, r: Reading, channelId: int, level: string) {
    Counts(meta, r) && r.channelId.value == channelId && level in Stale(t, meta, r)
  }

  /** No reading ends an alert of the channel and level with a timestamp before the newest row was added. */
  ghost predicate NoLateEnd(t: Table, meta: Meta, rs: seq<Reading>, ids: seq<seq<nat>>, channelId: int, level: string,
                            newest: Option<int>)
    requires AllLand(t, meta, rs, ids)
    decreases |rs|
  {
    if rs == [] then true
    else
      && (newest.Some? && ClosesLevel(t, meta, rs[0], channelId, level) ==> rs[0].timestamp >= newest.value)
      && NoLateEnd(Processed(t, meta, rs[0], ids[0]), meta, rs[1..], ids[1..], channelId, level,
                   if AddsRow(t, meta, rs[0], ids[0], channelId, level) then Some(rs[0].timestamp) else newest)
  }

  function Times(births: seq<Birth>): (times: seq<int>)
    ensures |times| == |births| && forall i :: 0 <= i < |births| ==> times[i] == births[i].time
  {
    if births == [] then [] else [births[0].time] + Times(births[1..])
  }

  lemma TimesConcat(xs: seq<Birth>, ys: seq<Birth>)
    ensures Times(xs + ys) == Times(xs) + Times(ys)
  {}

  function TimeOfBirth(last: Option<Birth>): Option<int> {
    if last.Some? then Some(last.value.time) else None
  }

  /** What the steps of one reading create is what the table shows of it. */
  lemma ReadingBirths(t: Table, steps: seq<Step>, r: Reading, ch: int, channelId: int, level: string,
                      last: Option<Birth>)
    requires IsRun(t, steps) && AllAt(steps, ch, r.timestamp) && |Births(t, steps, channelId, level)| <= 1
    ensures var adds := RowsOf(After(t, steps), channelId, level) != RowsOf(t, channelId, level);
            && Times(Births(t, steps, channelId, level)) == (if adds then [r.timestamp] else [])
            && TimeOfBirth(LastBirth(t, steps, channelId, level, last))
               == (if adds then Some(r.timestamp) else TimeOfBirth(last))
  {
    var births := Births(t, steps, channelId, level);
    BirthsCountRows(t, steps, channelId, level);
    BirthsAt(t, steps, ch, r.timestamp, channelId, level);
    hide Births, RowsOf;
    if births != [] {
      assert births[0] in births && births[0].id in IdsOf(births);
      OldRows(t, channelId, level);
    }
  }

  lemma OldRows(t: Table, channelId: int, level: string)
    ensures RowsOf(t, channelId, level) <= t.Keys
  {}

  /** Processing readings is a run of elementary steps: it ends in the same table, creates what the table shows to
      be added, has windows as long as the rules ask for, and ends no row early if no reading does. */
  lemma {:induction false} BatchIsRun(t: Table, meta: Meta, rs: seq<Reading>, ids: seq<seq<nat>>,
                                      channelId: int, level: string, seconds: int, last: Option<Birth>)
    returns (steps: seq<Step>)
    requires TableInv(t) && AllLand(t, meta, rs, ids)
    requires last.Some? ==> HasRow(t, channelId, level, last.value.id)
    ensures IsRun(t, steps) && After(t, steps) == ProcessedAll(t, meta, rs, ids)
    ensures Times(Births(t, steps, channelId, level)) == BirthTimes(t, meta, rs, ids, channelId, level)
    ensures RulesWindows(meta, channelId, level, seconds) ==> WindowsAtLeast(steps, channelId, level, seconds)
    ensures NoLateEnd(t, meta, rs, ids, channelId, level, TimeOfBirth(last)) ==>
              NoEarlyEnd(t, steps, channelId, level, last)
    decreases |rs|
  {
    hide TableInv, Lands, Processed, Births, LastBirth, RowsOf, HasRow, TimeOfBirth, RulesWindows, Times;
    if rs == [] {
      steps := [];
      EmptyRun(t, channelId, level);
    } else if !Counts(meta, rs[0]) {
      NotCounted(t, meta, rs[0], ids[0]);
      steps := BatchIsRun(t, meta, rs[1..], ids[1..], channelId, level, seconds, last);
    } else {
      var r := rs[0];
      var ch := r.channelId.value;
      var t1 := Processed(t, meta, r, ids[0]);
      var head := ReadingIsRun(t, meta, r, ids[0], channelId, level);
      RunKeepsInv(t, head);
      ReadingBirths(t, head, r, ch, channelId, level, last);
      var last1 := LastBirth(t, head, channelId, level, last);
      NewestIsARow(t, head, channelId, level, last);
      var tail := BatchIsRun(t1, meta, rs[1..], ids[1..], channelId, level, seconds, last1);
      RunConcat(t, head, tail);
      steps := head + tail;
      BirthsConcat(t, head, tail, channelId, level);
      TimesConcat(Births(t, head, channelId, level), Births(t1, tail, channelId, level));
      if RulesWindows(meta, channelId, level, seconds) {
        forall i | 0 <= i < |head| && TriggersOn(head[i], channelId, level)
          ensures head[i].event.suppressSeconds >= seconds {
          EventWindow(meta, r, level, seconds, head[i].event);
        }
      }
      if NoLateEnd(t, meta, rs, ids, channelId, level, TimeOfBirth(last)) {
        LateEnd(t, meta, r, head, channelId, level, last);
        NoEarlyEndAt(t, head, ch, r.timestamp, channelId, level, last);
        NoEarlyEndConcat(t, head, tail, channelId, level, last);
      }
    }
  }

  lemma EmptyRun(t: Table, channelId: int, level: string)
    ensures IsRun(t, []) && After(t, []) == t && Births(t, [], channelId, level) == [] && Times([]) == []
  {}

  lemma NewestIsARow(t: Table, steps: seq<Step>, channelId: int, level: string, last: Option<Birth>)
    requires IsRun(t, steps)
    requires last.Some? ==> HasRow(t, channelId, level, last.value.id)
    ensures var newest := LastBirth(t, steps, channelId, level, last);
            newest.Some? ==> HasRow(After(t, steps), channelId, level, newest.value.id)
  {
    hide Births, RowsOf, HasRow, IdsOf;
    var births := Births(t, steps, channelId, level);
    var newest := LastBirth(t, steps, channelId, level, last);
    BirthsCountRows(t, steps, channelId, level);
    LastIsOne(births);
    if newest.Some? {
      IsRow(After(t, steps), channelId, level, newest.value.id);
      IsRow(t, channelId, level, newest.value.id);
    }
  }

  lemma LastIsOne(births: seq<Birth>)
    ensures births != [] ==> births[|births| - 1].id in IdsOf(births)
  {
    assert births != [] ==> births[|births| - 1] in births;
  }

  lemma IsRow(t: Table, channelId: int, level: string, id: nat)
    ensures HasRow(t, channelId, level, id) <==> id in RowsOf(t, channelId, level)
  {}

  lemma LateEnd(t: Table, meta: Meta, r: Reading, steps: seq<Step>, channelId: int, level: string, last: Option<Birth>)
    requires Counts(meta, r) && AllAt(steps, r.channelId.value, r.timestamp)
    requires forall i :: 0 <= i < |steps| && steps[i].Close? ==> steps[i].level in Stale(t, meta, r)
    requires TimeOfBirth(last).Some? && ClosesLevel(t, meta, r, channelId, level) ==>
               r.timestamp >= TimeOfBirth(last).value
    ensures last.Some? && (exists i :: 0 <= i < |steps| && steps[i] == Close(channelId, level, r.timestamp)) ==>
              r.timestamp >= last.value.time
  {}

  lemma NotCounted(t: Table, meta: Meta, r: Reading, ids: seq<nat>)
    requires Lands(t, meta, r, ids) && !Counts(meta, r)
    ensures Processed(t, meta, r, ids) == t
  {}

  /** The rows that a batch adds to those of a channel and level, one at most for each reading. */
  lemma BirthTimesCountRows(t: Table, meta: Meta, rs: seq<Reading>, ids: seq<seq<nat>>, channelId: int, level: string)
    requires TableInv(t) && AllLand(t, meta, rs, ids)
    ensures |RowsOf(ProcessedAll(t, meta, rs, ids), channelId, level)|
         == |RowsOf(t, channelId, level)| + |BirthTimes(t, meta, rs, ids, channelId, level)|
  {
    var steps := BatchIsRun(t, meta, rs, ids, channelId, level, 0, None);
    BirthsCountRows(t, steps, channelId, level);
    OldRows(t, channelId, level);
    var rows, more := RowsOf(t, channelId, level), IdsOf(Births(t, steps, channelId, level));
    assert rows !! more;
    assert |rows + more| == |rows| + |more|;
  }

  /** Suppression, seen from the alert check: if all rules of a channel at a level ask for at least the given window and
      no reading ends an alert there before its newest row was created, any two rows it adds there are added by
      readings more than the window apart. */
  lemma ProcessingSuppresses(t: Table, meta: Meta, rs: seq<Reading>, ids: seq<seq<nat>>,
                             channelId: int, level: string, seconds: int, i: nat, j: nat)
    requires TableInv(t) && AllLand(t, meta, rs, ids) && seconds > 0
    requires RulesWindows(meta, channelId, level, seconds) && NoLateEnd(t, meta, rs, ids, channelId, level, None)
    requires i < j < |BirthTimes(t, meta, rs, ids, channelId, level)|
    ensures var times := BirthTimes(t, meta, rs, ids, channelId, level);
            InWindows(times[j] - times[i], seconds * SECOND, j - i)
  {
    hide *;
    NoBirthYet();
    var steps := BatchIsRun(t, meta, rs, ids, channelId, level, seconds, None);
    NoEarlyEndKeepsAlive(t, steps, channelId, level, None);
    SuppressionSeparates(t, steps, channelId, level, seconds, i, j);
  }

  lemma NoBirthYet()
    ensures TimeOfBirth(None) == None
  {}

  /** The counted readings of a channel carry timestamps that never go back. */
  predicate TimesInOrder(meta: Meta, rs: seq<Reading>, channelId: int, now: int)
    decreases |rs|
  {
    if rs == [] then true
    else if Counts(meta, rs[0]) && rs[0].channelId.value == channelId then
      rs[0].timestamp >= now && TimesInOrder(meta, rs[1..], channelId, rs[0].timestamp)
    else TimesInOrder(meta, rs[1..], channelId, now)
  }

  /** In particular readings that come in order end nothing late. */
  lemma {:induction false} OrderedReadingsEndNothingLate(t: Table, meta: Meta, rs: seq<Reading>, ids: seq<seq<nat>>,
                                                         channelId: int, level: string, now: int, newest: Option<int>)
    requires TableInv(t) && AllLand(t, meta, rs, ids) && TimesInOrder(meta, rs, channelId, now)
    requires newest.Some? ==> newest.value <= now
    ensures NoLateEnd(t, meta, rs, ids, channelId, level, newest)
    decreases |rs|
  {
    hide TableInv, Lands, Processed, RowsOf, Stale;
    if rs != [] {
      var r := rs[0];
      var t1 := Processed(t, meta, r, ids[0]);
      ReadingRefinesDetector(t, meta, r, ids[0], channelId, level);
      OtherReadingsAddNothing(t, meta, r, ids[0], channelId, level);
      var mine := Counts(meta, r) && r.channelId.value == channelId;
      var adds := AddsRow(t, meta, r, ids[0], channelId, level);
      OrderedReadingsEndNothingLate(t1, meta, rs[1..], ids[1..], channelId, level, if mine then r.timestamp else now,
                                    if adds then Some(r.timestamp) else newest);
    }
  }

  lemma OtherReadingsAddNothing(t: Table, meta: Meta, r: Reading, ids: seq<nat>, channelId: int, level: string)
    requires TableInv(t) && Lands(t, meta, r, ids)
    ensures AddsRow(t, meta, r, ids, channelId, level) ==> Counts(meta, r) && r.channelId.value == channelId
  {
    hide TableInv, Lands, Processed, RowsOf;
    if !Counts(meta, r) {
      NotCounted(t, meta, r, ids);
    } else {
      var ch := r.channelId.value;
      var steps := ReadingIsRun(t, meta, r, ids, channelId, level);
      var births := Births(t, steps, channelId, level);
      BirthsCountRows(t, steps, channelId, level);
      BirthsAt(t, steps, ch, r.timestamp, channelId, level);
      assert births == [] || births[0] in births;
    }
  }
}
