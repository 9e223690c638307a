/** What every run of triggers, recoveries and acknowledgements keeps, and how far apart alerts are created. */
module AlertRuns {
  import opened Wrappers
  import opened Alerts

  // ---------------------------------------------------------------- the table invariant

  ghost predicate TableInv(t: Table) {
    && (forall id :: id in t ==> t[id].id == id)
    && (forall id :: id in t ==> (t[id].isResolved <==> t[id].endedAt.Some?))
    && (forall i, j :: i in t && j in t && IsOpen(t[i], t[j].channelId, t[j].level) && !t[j].isResolved ==> i == j)
  }

  lemma OpenIdsUnique(t: Table, channelId: int, level: string)
    requires TableInv(t)
    ensures AtMostOne(OpenIds(t, channelId, level))
  {}

  lemma StepKeepsInv(t: Table, s: Step)
    requires TableInv(t) && Enabled(t, s)
    ensures TableInv(Next(t, s))
  {
    match s
    case Trigger(ch, e, ts, id) =>
      assert OpenIds(t, ch, e.level) == {} || id in OpenIds(t, ch, e.level);
      assert forall j :: j in t && IsOpen(t[j], ch, e.level) ==> j in OpenIds(t, ch, e.level);
    case Close(ch, level, ts) =>
    case Acknowledge(id, now, user) =>
  }

  /** Rows never disappear, and never change their id, channel or level. */
  ghost predicate Persists(t: Table, t': Table) {
    forall id :: id in t ==>
      id in t' && t'[id].id == t[id].id && t'[id].channelId == t[id].channelId && t'[id].level == t[id].level
  }

  lemma StepPersists(t: Table, s: Step)
    requires Enabled(t, s)
    ensures Persists(t, Next(t, s))
  {}

  /** In every state a run reaches, each channel and level has at most one open row, and a row is resolved
      exactly when its end is set; and no run changes what a row is about. */
  lemma {:induction false} RunKeepsInv(t: Table, steps: seq<Step>)
    requires TableInv(t) && IsRun(t, steps)
    ensures TableInv(After(t, steps)) && Persists(t, After(t, steps))
    decreases |steps|
  {
    if steps != [] {
      StepKeepsInv(t, steps[0]);
      StepPersists(t, steps[0]);
      RunKeepsInv(Next(t, steps[0]), steps[1..]);
    }
  }

  lemma EmptyTableInv()
    ensures TableInv(map[])
  {}

  /** Under the invariant no lookup finds two rows, and every trigger has a row to land on. */
  lemma TriggerAlwaysLands(t: Table, channelId: int, e: TriggerEvent, ts: int) returns (id: nat)
    requires TableInv(t)
    ensures LandsOn(t, channelId, e, ts, id)
  {
    OpenIdsUnique(t, channelId, e.level);
    match BranchOf(t, channelId, e, ts)
    case Update =>
      id :| id in OpenIds(t, channelId, e.level);
    case Reopen =>
      id := SomeLatest(t, RecentIds(t, channelId, e.level, WindowStart(e, ts)));
    case Insert =>
      id := NewId(t.Keys);
  }

  /** So whatever has happened since the table was empty, neither triggering nor closing can raise
      for finding several open alerts. */
  lemma LookupsNeverFail(steps: seq<Step>, channelId: int, e: TriggerEvent, ts: int) returns (id: nat)
    requires IsRun(map[], steps)
    ensures var t := After(map[], steps);
            && BranchOf(t, channelId, e, ts) != Ambiguous
            && Enabled(t, Trigger(channelId, e, ts, id))
            && Enabled(t, Close(channelId, e.level, ts))
  {
    EmptyTableInv();
    RunKeepsInv(map[], steps);
    OpenIdsUnique(After(map[], steps), channelId, e.level);
    id := TriggerAlwaysLands(After(map[], steps), channelId, e, ts);
  }

  lemma {:induction false} SomeLatest(t: Table, ids: set<nat>) returns (id: nat)
    requires ids != {} && forall i :: i in ids ==> i in t && t[i].endedAt.Some?
    ensures IsLatest(t, ids, id)
    decreases |ids|
  {
    var first :| first in ids;
    var rest := ids - {first};
    assert forall i :: i in ids <==> i == first || i in rest;
    if rest == {} {
      id := first;
    } else {
      var best := SomeLatest(t, rest);
      id := if t[best].endedAt.value >= t[first].endedAt.value then best else first;
    }
  }

  lemma {:induction false} NewId(ids: set<nat>) returns (id: nat)
    ensures forall i :: i in ids ==> i < id
    decreases |ids|
  {
    if ids == {} {
      id := 0;
    } else {
      var first :| first in ids;
      var rest := ids - {first};
      assert forall i :: i in ids <==> i == first || i in rest;
      var above := NewId(rest);
      id := if first < above then above else first + 1;
    }
  }

  // ---------------------------------------------------------------- who resolved a row

  predicate Acknowledges(s: Step, id: nat) { s.Acknowledge? && s.id == id }

  /** The user who last acknowledged the row in a run, if any did. */
  function LastResolver(before: Option<int>, steps: seq<Step>, id: nat): Option<int>
    decreases |steps|
  {
    if steps == [] then before
    else LastResolver(if Acknowledges(steps[0], id) then Some(steps[0].user) else before,
                      steps[1..], id)
  }

  lemma {:induction false} NobodyResolved(before: Option<int>, steps: seq<Step>, id: nat)
    ensures LastResolver(before, steps, id).None? <==>
            before.None? && forall i :: 0 <= i < |steps| ==> !Acknowledges(steps[i], id)
    decreases |steps|
  {
    if steps != [] {
      NobodyResolved(if Acknowledges(steps[0], id) then Some(steps[0].user) else before, steps[1..], id);
      assert forall i :: 0 <= i < |steps[1..]| ==> steps[1..][i] == steps[i + 1];
      assert forall i :: 0 < i < |steps| ==> steps[i] == steps[1..][i - 1];
    }
  }

  lemma {:induction false} ResolverOfRun(t: Table, steps: seq<Step>, id: nat)
    requires IsRun(t, steps) && id in After(t, steps)
    ensures After(t, steps)[id].resolvedBy
         == LastResolver(if id in t then t[id].resolvedBy else None, steps, id)
    decreases |steps|
  {
    if steps != [] {
      ResolverOfRun(Next(t, steps[0]), steps[1..], id);
    }
  }

  /** resolved_by is the last acknowledgement of the row in its whole life, across reopening and automatic
      recovery; for a row that a run creates, it is empty exactly when no step of the run acknowledged it. */
  lemma ResolverIsLastAcknowledgement(t: Table, steps: seq<Step>, id: nat)
    requires IsRun(t, steps) && id in After(t, steps)
    ensures After(t, steps)[id].resolvedBy
         == LastResolver(if id in t then t[id].resolvedBy else None, steps, id)
    ensures After(t, steps)[id].resolvedBy.None? <==>
            && (id in t ==> t[id].resolvedBy.None?)
            && forall i :: 0 <= i < |steps| ==> !Acknowledges(steps[i], id)
  {
    ResolverOfRun(t, steps, id);
    NobodyResolved(if id in t then t[id].resolvedBy else None, steps, id);
  }

  /** The alert documentation says that a row that recovered by itself has no resolver. It can have one:
      a row acknowledged, reopened within its window and then recovered keeps the acknowledging user. */
  lemma RecoveredRowCanHaveResolver(channelId: int, user: int)
    ensures var e := TriggerEvent("warning", 0.5, "gt", 1.0, None, 60);
            var steps := [Trigger(channelId, e, 0, 7), Acknowledge(7, SECOND, user),
                          Trigger(channelId, e, 2 * SECOND, 7), Close(channelId, "warning", 3 * SECOND)];
            && IsRun(map[], steps)
            && 7 in After(map[], steps)
            && After(map[], steps)[7].endedAt == Some(3 * SECOND)
            && After(map[], steps)[7].resolvedBy == Some(user)
  {
    var e := TriggerEvent("warning", 0.5, "gt", 1.0, None, 60);
    var s1, s2 := Trigger(channelId, e, 0, 7), Acknowledge(7, SECOND, user);
    var s3, s4 := Trigger(channelId, e, 2 * SECOND, 7), Close(channelId, "warning", 3 * SECOND);
    var t0: Table := map[];
    assert OpenIds(t0, channelId, "warning") == {} && RecentIds(t0, channelId, "warning", -60 * SECOND) == {};
    var t1 := Next(t0, s1);
    var t2 := Next(t1, s2);
    assert OpenIds(t2, channelId, "warning") == {};
    assert RecentIds(t2, channelId, "warning", -58 * SECOND) == {7};
    assert LandsOn(t2, channelId, e, 2 * SECOND, 7);
    var t3 := Next(t2, s3);
    assert OpenIds(t3, channelId, "warning") == {7};
    var t4 := Next(t3, s4);
    assert [s1, s2, s3, s4][1..] == [s2, s3, s4];
    assert [s2, s3, s4][1..] == [s3, s4];
    assert [s3, s4][1..] == [s4];
    assert [s4][1..] == [];
    assert IsRun(t4, []) && After(t4, []) == t4;
    assert IsRun(t3, [s4]) && After(t3, [s4]) == t4;
    assert IsRun(t2, [s3, s4]) && After(t2, [s3, s4]) == t4;
    assert IsRun(t1, [s2, s3, s4]) && After(t1, [s2, s3, s4]) == t4;
  }

  // ---------------------------------------------------------------- suppression

  function TimeOf(s: Step): int {
    match s
    case Trigger(_, _, ts, _) => ts
    case Close(_, _, ts) => ts
    case Acknowledge(_, now, _) => now
  }

  predicate TriggersOn(s: Step, channelId: int, level: string) {
    s.Trigger? && s.channelId == channelId && s.event.level == level
  }

  /** Every trigger of this channel and level has a window of at least the given seconds. */
  ghost predicate WindowsAtLeast(steps: seq<Step>, channelId: int, level: string, seconds: int) {
    forall i :: 0 <= i < |steps| && TriggersOn(steps[i], channelId, level) ==>
      steps[i].event.suppressSeconds >= seconds
  }

  predicate CreatesRow(t: Table, s: Step, channelId: int, level: string) {
    TriggersOn(s, channelId, level) && s.id !in t
  }

  /** The creation of a row. */
  datatype Birth = Birth(id: nat, time: int)

  /** The rows of this channel and level that a run creates, in order. */
  ghost function Births(t: Table, steps: seq<Step>, channelId: int, level: string): seq<Birth>
    requires IsRun(t, steps)
    decreases |steps|
  {
    if steps == [] then []
    else (if CreatesRow(t, steps[0], channelId, level) then [Birth(steps[0].id, steps[0].ts)] else [])
         + Births(Next(t, steps[0]), steps[1..], channelId, level)
  }

  function RowsOf(t: Table, channelId: int, level: string): set<nat> {
    set id | id in t && t[id].channelId == channelId && t[id].level == level
  }

  function IdsOf(births: seq<Birth>): set<nat> {
    set b | b in births :: b.id
  }

  /** The new rows are the old ones and the born ones, which are new under their ids and born once each. */
  ghost predicate Born(rows: set<nat>, rows': set<nat>, keys: set<nat>, births: seq<Birth>) {
    rows' == rows + IdsOf(births) && keys !! IdsOf(births) && |IdsOf(births)| == |births|
  }

  lemma NoneBorn(rows: set<nat>, keys: set<nat>)
    ensures Born(rows, rows, keys, [])
  {
    assert IdsOf([]) == {};
  }

  lemma OneMoreBorn(rows: set<nat>, rows': set<nat>, keys: set<nat>, keys': set<nat>, b: Birth, births: seq<Birth>)
    requires keys <= keys' && b.id !in keys && b.id in keys' && Born(rows + {b.id}, rows', keys', births)
    ensures Born(rows, rows', keys, [b] + births)
  {
    var more := IdsOf(births);
    assert forall x :: x in [b] + births <==> x == b || x in births;
    assert IdsOf([b] + births) == {b.id} + more;
    assert b.id !in more;
    assert rows + {b.id} + more == rows + ({b.id} + more);
  }

  lemma FewerKeys(rows: set<nat>, rows': set<nat>, keys: set<nat>, keys': set<nat>, births: seq<Birth>)
    requires keys <= keys' && Born(rows, rows', keys', births)
    ensures Born(rows, rows', keys, births)
  {}

  lemma StepKeepsRows(t: Table, s: Step, channelId: int, level: string)
    requires Enabled(t, s)
    ensures RowsOf(Next(t, s), channelId, level)
         == RowsOf(t, channelId, level) + if CreatesRow(t, s, channelId, level) then {s.id} else {}
    ensures t.Keys <= Next(t, s).Keys
    ensures CreatesRow(t, s, channelId, level) ==> s.id in Next(t, s)
  {
    StepPersists(t, s);
    if CreatesRow(t, s, channelId, level) {
      assert Next(t, s) == t[s.id := NewAlert(s.id, channelId, s.event, s.ts)];
    } else {
      forall id | id in Next(t, s) && id !in t
        ensures Next(t, s)[id].channelId != channelId || Next(t, s)[id].level != level {
        assert s.Trigger? && s.id == id;
      }
    }
  }

  /** Births miss nothing and invent nothing: a run adds exactly the born rows to those of the channel and level, and
      each of them once. */
  lemma {:induction false} BirthsCountRows(t: Table, steps: seq<Step>, channelId: int, level: string)
    requires IsRun(t, steps)
    ensures Born(RowsOf(t, channelId, level), RowsOf(After(t, steps), channelId, level), t.Keys,
                 Births(t, steps, channelId, level))
    decreases |steps|
  {
    hide Next, Enabled, RowsOf, Born;
    var rows := RowsOf(t, channelId, level);
    if steps == [] {
      NoneBorn(rows, t.Keys);
    } else {
      var s := steps[0];
      var end := RowsOf(After(t, steps), channelId, level);
      var rest := Births(Next(t, s), steps[1..], channelId, level);
      StepKeepsRows(t, s, channelId, level);
      BirthsCountRows(Next(t, s), steps[1..], channelId, level);
      if CreatesRow(t, s, channelId, level) {
        OneMoreBorn(rows, end, t.Keys, Next(t, s).Keys, Birth(s.id, s.ts), rest);
      } else {
        assert rows + {} == rows && [] + rest == rest;
        FewerKeys(rows, end, t.Keys, Next(t, s).Keys, rest);
      }
    }
  }

  /** Some row of this channel and level is open, or ended no earlier than the given time. */
  ghost predicate LivedUntil(t: Table, channelId: int, level: string, time: int) {
    exists id :: id in t && t[id].channelId == channelId && t[id].level == level
              && (t[id].isResolved ==> t[id].endedAt.Some? && t[id].endedAt.value >= time)
  }

  lemma BirthNeedsDistance(t: Table, s: Step, channelId: int, level: string, time: int, seconds: int)
    requires TableInv(t) && Enabled(t, s) && CreatesRow(t, s, channelId, level)
    requires s.event.suppressSeconds >= seconds > 0
    requires LivedUntil(t, channelId, level, time)
    ensures s.ts - time > seconds * SECOND
  {
    var id :| id in t && t[id].channelId == channelId && t[id].level == level
           && (t[id].isResolved ==> t[id].endedAt.Some? && t[id].endedAt.value >= time);
    assert id !in OpenIds(t, channelId, level);
    assert id !in RecentIds(t, channelId, level, WindowStart(s.event, s.ts));
  }

  /** Whatever trigger with a window of at least the given seconds next creates a row of this channel and level does so
      more than the window after the given time. */
  ghost predicate NextIsSeparated(t: Table, channelId: int, level: string, seconds: int, time: int) {
    forall s :: Enabled(t, s) && CreatesRow(t, s, channelId, level) && s.event.suppressSeconds >= seconds ==>
      s.ts - time > seconds * SECOND
  }

  /** What suppression rests on, at one moment: exactly as long as a row of the channel and level has lived until some
      time is the next row created more than the window after that time. */
  lemma NextIsSeparatedIff(t: Table, channelId: int, level: string, seconds: int, time: int)
    requires TableInv(t) && seconds > 0
    ensures NextIsSeparated(t, channelId, level, seconds, time) <==> LivedUntil(t, channelId, level, time)
  {
    if LivedUntil(t, channelId, level, time) {
      forall s | Enabled(t, s) && CreatesRow(t, s, channelId, level) && s.event.suppressSeconds >= seconds
        ensures s.ts - time > seconds * SECOND {
        BirthNeedsDistance(t, s, channelId, level, time, seconds);
      }
    } else {
      var e := TriggerEvent(level, 0.0, "gt", 1.0, None, seconds);
      var id := NewId(t.Keys);
      var s := Trigger(channelId, e, time + seconds * SECOND, id);
      assert OpenIds(t, channelId, level) == {};
      assert WindowStart(e, s.ts) == time;
      assert RecentIds(t, channelId, level, time) == {};
      assert Enabled(t, s) && CreatesRow(t, s, channelId, level);
    }
  }

  ghost function NewLast(t: Table, s: Step, channelId: int, level: string, last: Option<Birth>): Option<Birth> {
    if CreatesRow(t, s, channelId, level) then Some(Birth(s.id, s.ts)) else last
  }

  /** The row of this channel and level that was created last, if one was: last, or a later one of the run. */
  ghost function LastBirth(t: Table, steps: seq<Step>, channelId: int, level: string, last: Option<Birth>)
    : Option<Birth>
    requires IsRun(t, steps)
  {
    var births := Births(t, steps, channelId, level);
    if births == [] then last else Some(births[|births| - 1])
  }

  lemma LastBirthStep(t: Table, steps: seq<Step>, channelId: int, level: string, last: Option<Birth>)
    requires IsRun(t, steps) && steps != []
    ensures LastBirth(t, steps, channelId, level, last) ==
            LastBirth(Next(t, steps[0]), steps[1..], channelId, level, NewLast(t, steps[0], channelId, level, last))
  {}

  /** At every moment of the run, some row of the channel and level is open or ended no earlier than the last one
      was created. */
  ghost predicate KeepsAlive(t: Table, steps: seq<Step>, channelId: int, level: string, last: Option<Birth>)
    requires IsRun(t, steps)
    decreases |steps|
  {
    && (last.Some? ==> LivedUntil(t, channelId, level, last.value.time))
    && (steps != [] ==>
          KeepsAlive(Next(t, steps[0]), steps[1..], channelId, level, NewLast(t, steps[0], channelId, level, last)))
  }

  /** After the run, the next row will be created more than the window after the last one. */
  ghost predicate SeparatesAfter(t: Table, steps: seq<Step>, channelId: int, level: string, seconds: int,
                                 last: Option<Birth>)
  {
    IsRun(t, steps) &&
    var newest := LastBirth(t, steps, channelId, level, last);
    newest.Some? ==> NextIsSeparated(After(t, steps), channelId, level, seconds, newest.value.time)
  }

  /** When suppression works: at every moment of a run the next row is sure to be created more than the window after
      the last one if and only if at every moment some row has lived until the last creation. */
  lemma {:induction false} SuppressionWorksIff(t: Table, steps: seq<Step>, channelId: int, level: string, seconds: int,
                                               last: Option<Birth>)
    requires TableInv(t) && IsRun(t, steps) && seconds > 0
    ensures KeepsAlive(t, steps, channelId, level, last) <==>
            forall k :: 0 <= k <= |steps| ==> SeparatesAfter(t, steps[..k], channelId, level, seconds, last)
    decreases |steps|
  {
    hide Next, Enabled, NextIsSeparated, LivedUntil, TableInv;
    if last.Some? {
      NextIsSeparatedIff(t, channelId, level, seconds, last.value.time);
    }
    assert steps[..0] == [];
    if steps != [] {
      var t1 := Next(t, steps[0]);
      var last1 := NewLast(t, steps[0], channelId, level, last);
      StepKeepsInv(t, steps[0]);
      SuppressionWorksIff(t1, steps[1..], channelId, level, seconds, last1);
      forall k | 0 < k <= |steps|
        ensures SeparatesAfter(t, steps[..k], channelId, level, seconds, last)
           <==> SeparatesAfter(t1, steps[1..][..k - 1], channelId, level, seconds, last1) {
        assert steps[..k][1..] == steps[1..][..k - 1];
        if IsRun(t, steps[..k]) {
          LastBirthStep(t, steps[..k], channelId, level, last);
        }
      }
      forall k | 0 <= k <= |steps[1..]|
        ensures SeparatesAfter(t1, steps[1..][..k], channelId, level, seconds, last1)
           <==> SeparatesAfter(t, steps[..k + 1], channelId, level, seconds, last) {
        assert steps[..k + 1][1..] == steps[1..][..k];
      }
    }
  }

  ghost predicate Spaced(births: seq<Birth>, gap: int) {
    forall i :: 0 <= i < |births| - 1 ==> births[i + 1].time - births[i].time > gap
  }

  lemma SpacedCons(first: Birth, births: seq<Birth>, gap: int)
    requires Spaced(births, gap) && births != [] && births[0].time - first.time > gap
    ensures Spaced([first] + births, gap)
  {}

  lemma {:induction false} BirthsSpaced(t: Table, steps: seq<Step>, channelId: int, level: string,
                                        seconds: int, last: Option<Birth>)
    requires TableInv(t) && IsRun(t, steps) && KeepsAlive(t, steps, channelId, level, last)
    requires WindowsAtLeast(steps, channelId, level, seconds) && seconds > 0
    ensures Spaced((if last.Some? then [last.value] else []) + Births(t, steps, channelId, level), seconds * SECOND)
    decreases |steps|
  {
    hide Next, Enabled, LivedUntil, TableInv;
    if steps != [] {
      var s := steps[0];
      var before := if last.Some? then [last.value] else [];
      var rest := Births(Next(t, s), steps[1..], channelId, level);
      StepKeepsInv(t, s);
      BirthsSpaced(Next(t, s), steps[1..], channelId, level, seconds, NewLast(t, s, channelId, level, last));
      if CreatesRow(t, s, channelId, level) {
        var born := Birth(s.id, s.ts);
        assert before + ([born] + rest) == before + [born] + rest;
        if last.Some? {
          BirthNeedsDistance(t, s, channelId, level, last.value.time, seconds);
          SpacedCons(last.value, [born] + rest, seconds * SECOND);
        }
      } else {
        assert [] + rest == rest;
      }
    }
  }

  lemma {:induction false} SpacedSpan(births: seq<Birth>, gap: int, i: nat, j: nat)
    requires Spaced(births, gap) && i < j < |births|
    ensures births[j].time - births[i].time > (j - i) * gap
    decreases j
  {
    if j > i + 1 {
      SpacedSpan(births, gap, i, j - 1);
      assert (j - i) * gap == (j - 1 - i) * gap + gap;
    }
  }

  /** A span of more than n windows, for n + 1 creations: span / window + 1 of them at most. */
  predicate InWindows(span: int, window: int, n: nat) {
    window > 0 && span > n * window && (n > 0 ==> span > window) && n + 1 <= span / window + 1
  }

  /** Suppression: with windows of at least the given seconds, in a run that at every moment has a row that lived until
      the last creation, two rows of the same channel and level are created more than the window apart, so a span
      holds at most span / window + 1. */
  lemma SuppressionSeparates(t: Table, steps: seq<Step>, channelId: int, level: string, seconds: int, i: nat, j: nat)
    requires TableInv(t) && IsRun(t, steps) && KeepsAlive(t, steps, channelId, level, None)
    requires WindowsAtLeast(steps, channelId, level, seconds) && seconds > 0
    requires i < j < |Births(t, steps, channelId, level)|
    ensures var births := Births(t, steps, channelId, level);
            InWindows(births[j].time - births[i].time, seconds * SECOND, j - i)
  {
    hide *;
    var births := Births(t, steps, channelId, level);
    PositiveGap(seconds);
    BirthsSpaced(t, steps, channelId, level, seconds, None);
    assert [] + births == births;
    SpanHolds(births, seconds * SECOND, i, j);
  }

  lemma PositiveGap(seconds: int)
    requires seconds > 0
    ensures seconds * SECOND > 0
  {}

  lemma SpanHolds(births: seq<Birth>, gap: int, i: nat, j: nat)
    requires Spaced(births, gap) && gap > 0 && i < j < |births|
    ensures InWindows(births[j].time - births[i].time, gap, j - i)
  {
    SpacedSpan(births, gap, i, j);
    AtMostQuotient(j - i, gap, births[j].time - births[i].time);
    AtLeastOnce(j - i, gap);
  }

  lemma AtLeastOnce(n: nat, gap: int)
    requires n > 0 && gap > 0
    ensures n * gap >= gap
  {}

  lemma AtMostQuotient(n: nat, gap: int, span: int)
    requires gap > 0 && n * gap <= span
    ensures n <= span / gap
  {
    var q := span / gap;
    assert span == q * gap + span % gap;
    assert (q + 1) * gap == q * gap + gap;
    if n > q {
      MulMonotone(q + 1, n, gap);
    }
  }

  lemma MulMonotone(a: int, b: int, gap: int)
    requires a <= b && gap > 0
    ensures a * gap <= b * gap
  {}

  // ---------------------------------------------------------------- what is enough for suppression to work

  /** The step closes or acknowledges this row. */
  predicate Ends(t: Table, s: Step, id: nat) {
    match s
    case Trigger(_, _, _, _) => false
    case Close(ch, level, _) => id in t && IsOpen(t[id], ch, level)
    case Acknowledge(i, _, _) => i == id
  }

  /** No step ends the newest row of the channel and level before that row was created. */
  ghost predicate NoEarlyEnd(t: Table, steps: seq<Step>, channelId: int, level: string, last: Option<Birth>)
    requires IsRun(t, steps)
    decreases |steps|
  {
    if steps == [] then true
    else
      && (last.Some? && Ends(t, steps[0], last.value.id) ==> TimeOf(steps[0]) >= last.value.time)
      && NoEarlyEnd(Next(t, steps[0]), steps[1..], channelId, level, NewLast(t, steps[0], channelId, level, last))
  }

  predicate HasRow(t: Table, channelId: int, level: string, id: nat) {
    id in t && t[id].channelId == channelId && t[id].level == level
  }

  ghost predicate RowLives(t: Table, channelId: int, level: string, b: Birth) {
    && HasRow(t, channelId, level, b.id)
    && (t[b.id].isResolved ==> t[b.id].endedAt.Some? && t[b.id].endedAt.value >= b.time)
  }

  lemma StepKeepsLife(t: Table, s: Step, channelId: int, level: string, b: Birth)
    requires TableInv(t) && Enabled(t, s) && RowLives(t, channelId, level, b)
    requires Ends(t, s, b.id) ==> TimeOf(s) >= b.time
    ensures RowLives(Next(t, s), channelId, level, b)
  {
    StepPersists(t, s);
  }

  lemma BirthStartsLife(t: Table, s: Step, channelId: int, level: string)
    requires Enabled(t, s) && CreatesRow(t, s, channelId, level)
    ensures RowLives(Next(t, s), channelId, level, Birth(s.id, s.ts))
  {}

  /** A caller's guard: it is enough that no close or acknowledgement ends the newest row before its creation. */
  lemma {:induction false} NoEarlyEndKeepsAlive(t: Table, steps: seq<Step>, channelId: int, level: string,
                                                last: Option<Birth>)
    requires TableInv(t) && IsRun(t, steps) && NoEarlyEnd(t, steps, channelId, level, last)
    requires last.Some? ==> RowLives(t, channelId, level, last.value)
    ensures KeepsAlive(t, steps, channelId, level, last)
    decreases |steps|
  {
    hide Next, Enabled, TableInv;
    if steps != [] {
      var s := steps[0];
      StepKeepsInv(t, s);
      if CreatesRow(t, s, channelId, level) {
        BirthStartsLife(t, s, channelId, level);
      } else if last.Some? {
        StepKeepsLife(t, s, channelId, level, last.value);
      }
      NoEarlyEndKeepsAlive(Next(t, s), steps[1..], channelId, level, NewLast(t, s, channelId, level, last));
    }
  }

  ghost predicate Touches(t: Table, s: Step, channelId: int) {
    match s
    case Trigger(ch, _, _, _) => ch == channelId
    case Close(ch, _, _) => ch == channelId
    case Acknowledge(id, _, _) => id in t && t[id].channelId == channelId
  }

  /** The steps on a channel come with times that never go back, the acknowledging clock included. */
  ghost predicate InOrder(t: Table, steps: seq<Step>, channelId: int, now: int)
    requires IsRun(t, steps)
    decreases |steps|
  {
    if steps == [] then true
    else if Touches(t, steps[0], channelId) then
      TimeOf(steps[0]) >= now && InOrder(Next(t, steps[0]), steps[1..], channelId, TimeOf(steps[0]))
    else InOrder(Next(t, steps[0]), steps[1..], channelId, now)
  }

  lemma {:induction false} InOrderEndsNothingEarly(t: Table, steps: seq<Step>, channelId: int, level: string, now: int,
                                                   last: Option<Birth>)
    requires IsRun(t, steps) && InOrder(t, steps, channelId, now)
    requires last.Some? ==> HasRow(t, channelId, level, last.value.id) && last.value.time <= now
    ensures NoEarlyEnd(t, steps, channelId, level, last)
    decreases |steps|
  {
    hide Next, Enabled;
    if steps != [] {
      var s := steps[0];
      StepPersists(t, s);
      StepKeepsRows(t, s, channelId, level);
      if CreatesRow(t, s, channelId, level) {
        BirthStartsLife(t, s, channelId, level);
      }
      InOrderEndsNothingEarly(Next(t, s), steps[1..], channelId, level,
                              if Touches(t, s, channelId) then TimeOf(s) else now,
                              NewLast(t, s, channelId, level, last));
    }
  }

  /** In particular suppression works as long as times do not go back. */
  lemma OrderedRunKeepsAlive(t: Table, steps: seq<Step>, channelId: int, level: string, now: int)
    requires TableInv(t) && IsRun(t, steps) && InOrder(t, steps, channelId, now)
    ensures KeepsAlive(t, steps, channelId, level, None)
  {
    InOrderEndsNothingEarly(t, steps, channelId, level, now, None);
    NoEarlyEndKeepsAlive(t, steps, channelId, level, None);
  }

  /** Without that suppression fails: a late reading that closes an alert before its creation lets two rows be created
      at the same instant. */
  lemma LateReadingDefeatsSuppression(channelId: int)
    ensures var e := TriggerEvent("warning", 0.5, "gt", 1.0, None, 60);
            var steps := [Trigger(channelId, e, 100 * SECOND, 1), Close(channelId, "warning", 10 * SECOND),
                          Trigger(channelId, e, 100 * SECOND, 2)];
            && IsRun(map[], steps)
            && Births(map[], steps, channelId, "warning") == [Birth(1, 100 * SECOND), Birth(2, 100 * SECOND)]
            && !KeepsAlive(map[], steps, channelId, "warning", None)
  {
    var e := TriggerEvent("warning", 0.5, "gt", 1.0, None, 60);
    var s1, s2 := Trigger(channelId, e, 100 * SECOND, 1), Close(channelId, "warning", 10 * SECOND);
    var s3 := Trigger(channelId, e, 100 * SECOND, 2);
    var t0: Table := map[];
    assert OpenIds(t0, channelId, "warning") == {} && RecentIds(t0, channelId, "warning", 40 * SECOND) == {};
    var t1 := Next(t0, s1);
    assert OpenIds(t1, channelId, "warning") == {1};
    var t2 := Next(t1, s2);
    assert OpenIds(t2, channelId, "warning") == {} && RecentIds(t2, channelId, "warning", 40 * SECOND) == {};
    assert [s1, s2, s3][1..] == [s2, s3];
    assert [s2, s3][1..] == [s3];
    assert [s3][1..] == [];
    var t3 := Next(t2, s3);
    assert IsRun(t3, []) && Births(t3, [], channelId, "warning") == [];
    assert IsRun(t2, [s3]) && Births(t2, [s3], channelId, "warning") == [Birth(2, 100 * SECOND)];
    assert IsRun(t1, [s2, s3]) && Births(t1, [s2, s3], channelId, "warning") == [Birth(2, 100 * SECOND)];
    assert !KeepsAlive(t2, [s3], channelId, "warning", Some(Birth(1, 100 * SECOND)));
  }
}
