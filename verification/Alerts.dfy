/** The alert table and the operations that change it: threshold evaluation, trigger with its suppression window,
    automatic recovery, and acknowledgement.

    Times are in microseconds. The database answers some queries with a row of its own choice among equals and
    hands out new ids; that choice is part of each step, and every claim is for all choices. */
module Alerts {
  import opened Positions
  import opened Wrappers

  const SECOND := 1_000_000

  // ---------------------------------------------------------------- rules

  /** One stored rule; the keys a rule dictionary may lack are optional. */
  datatype Rule = Rule(
    operator: Option<string>, threshold: Option<real>, level: Option<string>,
    message: Option<string>, suppressSeconds: Option<int>)

  datatype TriggerEvent = TriggerEvent(
    level: string, threshold: real, operator: string, value: real,
    message: Option<string>, suppressSeconds: int)

  predicate KnownOperator(op: string) {
    op in {"gt", "lt", "ge", "le", "eq", "ne"}
  }

  predicate Holds(op: string, v: real, t: real)
    requires KnownOperator(op)
  {
    if op == "gt" then v > t
    else if op == "lt" then v < t
    else if op == "ge" then v >= t
    else if op == "le" then v <= t
    else if op == "eq" then v == t
    else v != t
  }

  /** The six operators as one order: exactly one of gt, eq and lt holds, the other three are their complements,
      and gt goes on holding as the value grows. */
  lemma OperatorsFormAnOrder(v: real, t: real, larger: real)
    requires larger >= v
    ensures Holds("ge", v, t) <==> !Holds("lt", v, t)
    ensures Holds("le", v, t) <==> !Holds("gt", v, t)
    ensures Holds("ne", v, t) <==> !Holds("eq", v, t)
    ensures Holds("eq", v, t) <==> Holds("ge", v, t) && Holds("le", v, t)
    ensures !(Holds("gt", v, t) && Holds("lt", v, t)) && !Holds("gt", t, t)
    ensures Holds("gt", v, t) ==> Holds("gt", larger, t)
  {}

  predicate Complete(rule: Rule) {
    rule.operator.Some? && KnownOperator(rule.operator.value) && rule.threshold.Some? && rule.level.Some?
  }

  predicate Fires(rule: Rule, value: real) {
    Complete(rule) && Holds(rule.operator.value, value, rule.threshold.value)
  }

  function EventOf(rule: Rule, value: real): TriggerEvent
    requires Complete(rule)
  {
    TriggerEvent(rule.level.value, rule.threshold.value, rule.operator.value, value, rule.message,
                 if rule.suppressSeconds.Some? then rule.suppressSeconds.value else 60)
  }

  function Events(value: real, rules: seq<Rule>): seq<TriggerEvent> {
    if rules == [] then []
    else (if Fires(rules[0], value) then [EventOf(rules[0], value)] else []) + Events(value, rules[1..])
  }

  function Levels(events: seq<TriggerEvent>): set<string> {
    set e | e in events :: e.level
  }

  lemma {:induction false} EventsSnoc(value: real, rules: seq<Rule>, n: nat)
    requires n < |rules|
    ensures Fires(rules[n], value) ==>
              Events(value, rules[..n + 1]) == Events(value, rules[..n]) + [EventOf(rules[n], value)]
    ensures !Fires(rules[n], value) ==> Events(value, rules[..n + 1]) == Events(value, rules[..n])
    decreases n
  {
    if n == 0 {
      assert rules[..1][1..] == [];
    } else {
      assert rules[..n + 1][1..] == rules[1..][..n];
      assert rules[..n][1..] == rules[1..][..n - 1];
      EventsSnoc(value, rules[1..], n - 1);
    }
  }

  method EvaluateThresholds(value: real, rules: seq<Rule>) returns (events: seq<TriggerEvent>)
    ensures events == Events(value, rules)
  {
    events := [];
    for i := 0 to |rules|
      invariant events == Events(value, rules[..i])
    {
      var rule := rules[i];
      EventsSnoc(value, rules, i);
      if !Complete(rule) {
        continue;
      }
      if Holds(rule.operator.value, value, rule.threshold.value) {
        var suppress := if rule.suppressSeconds.Some? then rule.suppressSeconds.value else 60;
        events := events + [TriggerEvent(rule.level.value, rule.threshold.value, rule.operator.value, value,
                                         rule.message, suppress)];
      }
    }
    assert rules[..|rules|] == rules;
  }

  /** An event is raised exactly for the rules that are complete and whose comparison holds. */
  lemma {:induction false} EventsExactly(value: real, rules: seq<Rule>, e: TriggerEvent)
    ensures e in Events(value, rules) <==>
            exists rule :: rule in rules && Fires(rule, value) && e == EventOf(rule, value)
  {
    if rules != [] {
      EventsExactly(value, rules[1..], e);
      assert forall rule :: rule in rules <==> rule == rules[0] || rule in rules[1..];
    }
  }

  /** The rule is complete, and the value stands to its threshold as its operator says. */
  predicate Crossed(rule: Rule, v: real) {
    rule.level.Some? && rule.threshold.Some? &&
    var t := rule.threshold.value;
    || (rule.operator == Some("gt") && v > t) || (rule.operator == Some("lt") && v < t)
    || (rule.operator == Some("ge") && v >= t) || (rule.operator == Some("le") && v <= t)
    || (rule.operator == Some("eq") && v == t) || (rule.operator == Some("ne") && v != t)
  }

  lemma FiresIfCrossed(rule: Rule, v: real)
    ensures Fires(rule, v) <==> Crossed(rule, v)
    ensures Crossed(rule, v) ==> rule.operator.Some?
  {}

  /** The events are those of the rules whose threshold the value has crossed, one for each and in rule order, with the
      rule's own level, threshold, operator and message, the value, and the rule's window, or 60 seconds without one. */
  lemma {:induction false} EventsOnFields(v: real, rules: seq<Rule>) returns (at: seq<nat>)
    ensures Ascending(at, |rules|) && |at| == |Events(v, rules)|
    ensures forall i: nat :: i in at <==> i < |rules| && Crossed(rules[i], v)
    ensures forall k :: 0 <= k < |at| ==>
              var rule := rules[at[k]];
              && rule.level.Some? && rule.threshold.Some? && rule.operator.Some?
              && Events(v, rules)[k] == TriggerEvent(
                rule.level.value, rule.threshold.value, rule.operator.value, v, rule.message,
                if rule.suppressSeconds.Some? then rule.suppressSeconds.value else 60)
  {
    hide Fires, Crossed;
    if rules == [] {
      at := [];
    } else {
      var rest := EventsOnFields(v, rules[1..]);
      FiresIfCrossed(rules[0], v);
      at := InFront(Fires(rules[0], v), rest);
      InFrontAscends(Fires(rules[0], v), rest, |rules| - 1);
      EventsCons(v, rules);
      CrossedIsComplete(rules, v);
    }
  }

  lemma CrossedIsComplete(rules: seq<Rule>, v: real)
    ensures forall i :: 0 <= i < |rules| && Crossed(rules[i], v) ==>
              rules[i].level.Some? && rules[i].threshold.Some? && rules[i].operator.Some?
  {}

  lemma EventsCons(v: real, rules: seq<Rule>)
    requires rules != []
    ensures Fires(rules[0], v) ==> Complete(rules[0])
    ensures Events(v, rules)
         == (if Fires(rules[0], v) then [EventOf(rules[0], v)] else []) + Events(v, rules[1..])
  {}

  /** So an event is raised exactly when some rule carries its fields and its threshold has been crossed. */
  lemma RaisedExactly(v: real, rules: seq<Rule>, e: TriggerEvent)
    ensures e in Events(v, rules) <==>
            && e.value == v
            && (|| (e.operator == "gt" && v > e.threshold) || (e.operator == "lt" && v < e.threshold)
                || (e.operator == "ge" && v >= e.threshold) || (e.operator == "le" && v <= e.threshold)
                || (e.operator == "eq" && v == e.threshold) || (e.operator == "ne" && v != e.threshold))
            && exists rule :: rule in rules
                           && rule.level == Some(e.level) && rule.threshold == Some(e.threshold)
                           && rule.operator == Some(e.operator) && rule.message == e.message
                           && e.suppressSeconds == if rule.suppressSeconds.Some? then rule.suppressSeconds.value else 60
  {
    EventsExactly(v, rules, e);
    forall rule | rule in rules && rule.level == Some(e.level) && rule.threshold == Some(e.threshold)
                  && rule.operator == Some(e.operator)
      ensures Fires(rule, v) <==> Crossed(rule, v) {
      FiresIfCrossed(rule, v);
    }
  }

  /** Rules that only ask for more rank their levels: whatever a value triggers, a larger value triggers too. */
  lemma LevelsRise(rules: seq<Rule>, v: real, larger: real)
    requires larger >= v
    requires forall rule :: rule in rules && Complete(rule) ==> rule.operator.value in {"gt", "ge"}
    ensures Levels(Events(v, rules)) <= Levels(Events(larger, rules))
  {
    forall e | e in Events(v, rules) ensures e.level in Levels(Events(larger, rules)) {
      EventsExactly(v, rules, e);
      var rule :| rule in rules && Fires(rule, v) && e == EventOf(rule, v);
      OperatorsFormAnOrder(v, rule.threshold.value, larger);
      EventsExactly(larger, rules, EventOf(rule, larger));
    }
  }

  // ---------------------------------------------------------------- the table

  /** The text of an alert: the rule's own message, or one made up from operator and threshold. */
  datatype Message = Own(text: string) | Default(operator: string, threshold: real)

  datatype Alert = Alert(
    id: nat, channelId: int, level: string, message: Message, value: real, threshold: real,
    startedAt: int, endedAt: Option<int>, isResolved: bool, resolvedBy: Option<int>)

  type Table = map<nat, Alert>

  predicate IsOpen(a: Alert, channelId: int, level: string) {
    a.channelId == channelId && a.level == level && !a.isResolved
  }

  function OpenIds(t: Table, channelId: int, level: string): set<nat> {
    set id | id in t && IsOpen(t[id], channelId, level)
  }

  /** Resolved rows of this channel and level that ended at or after the given time. */
  function RecentIds(t: Table, channelId: int, level: string, since: int): set<nat> {
    set id | id in t && t[id].channelId == channelId && t[id].level == level && t[id].isResolved
             && t[id].endedAt.Some? && t[id].endedAt.value >= since
  }

  /** scalar_one_or_none raises when a query finds two rows. */
  ghost predicate AtMostOne(ids: set<nat>) {
    forall i, j :: i in ids && j in ids ==> i == j
  }

  /** A row that may come first when rows are ordered by ended_at, latest first. */
  ghost predicate IsLatest(t: Table, ids: set<nat>, id: nat)
    requires forall i :: i in ids ==> i in t && t[i].endedAt.Some?
  {
    id in ids && forall j :: j in ids ==> t[j].endedAt.value <= t[id].endedAt.value
  }

  // ---------------------------------------------------------------- steps

  datatype Branch = Ambiguous | Update | Reopen | Insert

  function WindowStart(e: TriggerEvent, ts: int): int { ts - e.suppressSeconds * SECOND }

  ghost function BranchOf(t: Table, channelId: int, e: TriggerEvent, ts: int): Branch {
    var open := OpenIds(t, channelId, e.level);
    if !AtMostOne(open) then Ambiguous
    else if open != {} then Update
    else if e.suppressSeconds > 0 && RecentIds(t, channelId, e.level, WindowStart(e, ts)) != {} then Reopen
    else Insert
  }

  /** The row a trigger lands on: the open one, a latest recent one, or a new id. */
  ghost predicate LandsOn(t: Table, channelId: int, e: TriggerEvent, ts: int, id: nat) {
    match BranchOf(t, channelId, e, ts)
    case Ambiguous => false
    case Update => id in OpenIds(t, channelId, e.level)
    case Reopen => IsLatest(t, RecentIds(t, channelId, e.level, WindowStart(e, ts)), id)
    case Insert => id !in t
  }

  /** An empty message counts as none when an alert is created. */
  function NewMessage(e: TriggerEvent): Message {
    if e.message.Some? && e.message.value != "" then Own(e.message.value) else Default(e.operator, e.threshold)
  }

  function NewAlert(id: nat, channelId: int, e: TriggerEvent, ts: int): Alert {
    Alert(id, channelId, e.level, NewMessage(e), e.value, e.threshold, ts, None, false, None)
  }

  function Updated(a: Alert, e: TriggerEvent): Alert {
    a.(value := e.value, threshold := e.threshold)
  }

  function Reopened(a: Alert, e: TriggerEvent, ts: int): Alert {
    a.(isResolved := false, endedAt := None, startedAt := ts, value := e.value, threshold := e.threshold,
       message := if e.message.Some? then Own(e.message.value) else a.message)
  }

  ghost function Triggered(t: Table, channelId: int, e: TriggerEvent, ts: int, id: nat): Table
    requires LandsOn(t, channelId, e, ts, id)
  {
    match BranchOf(t, channelId, e, ts)
    case Update => t[id := Updated(t[id], e)]
    case Reopen => t[id := Reopened(t[id], e, ts)]
    case _ => t[id := NewAlert(id, channelId, e, ts)]
  }

  function Recovered(a: Alert, ts: int): Alert {
    a.(endedAt := Some(ts), isResolved := true)
  }

  /** The open rows of a channel on the given levels, closed. */
  function ClosedAll(t: Table, channelId: int, levels: set<string>, ts: int): Table {
    map id | id in t :: if IsOpen(t[id], channelId, t[id].level) && t[id].level in levels
                        then Recovered(t[id], ts) else t[id]
  }

  function Acknowledged(a: Alert, now: int, user: int): Alert {
    a.(isResolved := true, endedAt := if a.endedAt.Some? then a.endedAt else Some(now), resolvedBy := Some(user))
  }

  /** Every change to the table is one of these. */
  datatype Step =
    | Trigger(channelId: int, event: TriggerEvent, ts: int, id: nat)
    | Close(channelId: int, level: string, ts: int)
    | Acknowledge(id: nat, now: int, user: int)

  ghost predicate Enabled(t: Table, s: Step) {
    match s
    case Trigger(ch, e, ts, id) => LandsOn(t, ch, e, ts, id)
    case Close(ch, level, _) => AtMostOne(OpenIds(t, ch, level))
    case Acknowledge(id, _, _) => id in t && !t[id].isResolved
  }

  ghost function Next(t: Table, s: Step): Table
    requires Enabled(t, s)
  {
    match s
    case Trigger(ch, e, ts, id) => Triggered(t, ch, e, ts, id)
    case Close(ch, level, ts) => ClosedAll(t, ch, {level}, ts)
    case Acknowledge(id, now, user) => t[id := Acknowledged(t[id], now, user)]
  }

  ghost predicate IsRun(t: Table, steps: seq<Step>)
    decreases |steps|
  {
    steps == [] || (Enabled(t, steps[0]) && IsRun(Next(t, steps[0]), steps[1..]))
  }

  ghost function After(t: Table, steps: seq<Step>): Table
    requires IsRun(t, steps)
    decreases |steps|
  {
    if steps == [] then t else After(Next(t, steps[0]), steps[1..])
  }

  // ---------------------------------------------------------------- the steps, on the rows' fields

  ghost predicate Unresolved(t: Table, channelId: int, level: string, id: nat) {
    id in t && t[id].channelId == channelId && t[id].level == level && !t[id].isResolved
  }

  ghost predicate EndedSince(t: Table, channelId: int, level: string, time: int, id: nat) {
    && id in t && t[id].channelId == channelId && t[id].level == level
    && t[id].isResolved && t[id].endedAt.Some? && t[id].endedAt.value >= time
  }

  lemma SetsOfRows(t: Table, channelId: int, level: string, time: int)
    ensures forall id :: id in OpenIds(t, channelId, level) <==> Unresolved(t, channelId, level, id)
    ensures forall id :: id in RecentIds(t, channelId, level, time) <==> EndedSince(t, channelId, level, time, id)
    ensures OpenIds(t, channelId, level) != {} <==> exists id :: Unresolved(t, channelId, level, id)
    ensures RecentIds(t, channelId, level, time) != {} <==> exists id :: EndedSince(t, channelId, level, time, id)
  {
    if OpenIds(t, channelId, level) != {} {
      var id :| id in OpenIds(t, channelId, level);
    }
    if RecentIds(t, channelId, level, time) != {} {
      var id :| id in RecentIds(t, channelId, level, time);
    }
  }

  /** Where a trigger lands: on the one unresolved row of its channel and level; without one, and with a window, on a
      row that ended within the window and that no such row ended after; otherwise on a new id. */
  lemma LandsOnFields(t: Table, ch: int, e: TriggerEvent, ts: int, id: nat)
    ensures LandsOn(t, ch, e, ts, id) <==>
            var since := ts - e.suppressSeconds * 1_000_000;
            && (forall i, j :: Unresolved(t, ch, e.level, i) && Unresolved(t, ch, e.level, j) ==> i == j)
            && if exists i :: Unresolved(t, ch, e.level, i) then Unresolved(t, ch, e.level, id)
               else if e.suppressSeconds > 0 && exists i :: EndedSince(t, ch, e.level, since, i) then
                 && EndedSince(t, ch, e.level, since, id)
                 && forall j :: EndedSince(t, ch, e.level, since, j) ==> t[j].endedAt.value <= t[id].endedAt.value
               else id !in t
  {
    hide Unresolved, EndedSince, OpenIds, RecentIds;
    var since := ts - e.suppressSeconds * 1_000_000;
    SetsOfRows(t, ch, e.level, since);
    EndedHave(t, ch, e.level, since);
  }

  lemma EndedHave(t: Table, ch: int, level: string, time: int)
    ensures forall j :: EndedSince(t, ch, level, time, j) ==> j in t && t[j].endedAt.Some?
  {}

  /** What it does there, and that no other row changes. */
  lemma TriggerOnFields(t: Table, ch: int, e: TriggerEvent, ts: int, id: nat)
    requires LandsOn(t, ch, e, ts, id)
    ensures var t' := Triggered(t, ch, e, ts, id);
            && t'.Keys == t.Keys + {id} && (forall j :: j in t && j != id ==> t'[j] == t[j])
            && (id in t && !t[id].isResolved ==> t'[id] == t[id].(value := e.value, threshold := e.threshold))
            && (id in t && t[id].isResolved ==>
                  t'[id] == t[id].(isResolved := false, endedAt := None, startedAt := ts,
                                   value := e.value, threshold := e.threshold,
                                   message := if e.message.Some? then Own(e.message.value) else t[id].message))
            && (id !in t ==>
                  t'[id] == Alert(id, ch, e.level,
                                  if e.message.Some? && e.message.value != "" then Own(e.message.value)
                                  else Default(e.operator, e.threshold),
                                  e.value, e.threshold, ts, None, false, None))
  {}

  /** Closing ends the unresolved rows of the channel and level at the given time, and changes nothing else. */
  lemma CloseOnFields(t: Table, ch: int, level: string, ts: int)
    ensures var t' := ClosedAll(t, ch, {level}, ts);
            && t'.Keys == t.Keys
            && forall id :: id in t ==>
                 t'[id] == if Unresolved(t, ch, level, id) then t[id].(endedAt := Some(ts), isResolved := true)
                           else t[id]
  {}

  /** Acknowledging is for rows that are not resolved; it resolves the row for the user and keeps an end it has. */
  lemma AcknowledgeOnFields(t: Table, id: nat, now: int, user: int)
    ensures Enabled(t, Acknowledge(id, now, user)) <==> id in t && !t[id].isResolved
    ensures id in t && !t[id].isResolved ==>
              Next(t, Acknowledge(id, now, user)) ==
              t[id := t[id].(isResolved := true, resolvedBy := Some(user),
                             endedAt := if t[id].endedAt.Some? then t[id].endedAt else Some(now))]
  {}

  // ---------------------------------------------------------------- the operations

  datatype Error = MultipleResultsFound | AlertNotFound | AlertAlreadyResolved

  class AlertTable {
    var rows: Table
    var nextId: nat

    /** What the database itself sees to: rows are found under their ids, and new ids are new. */
    ghost predicate Valid()
      reads this
    {
      && (forall id :: id in rows ==> rows[id].id == id)
      && (forall id :: id in rows ==> id < nextId)
    }

    constructor ()
      ensures Valid() && rows == map[]
    {
      rows, nextId := map[], 0;
    }

    method OneOrNone(ids: set<nat>) returns (r: Result<Option<nat>, Error>)
      ensures r.Failure? <==> !AtMostOne(ids)
      ensures r.Failure? ==> r.error == MultipleResultsFound
      ensures r.Success? ==> match r.value case None => ids == {} case Some(id) => ids == {id}
    {
      if ids == {} {
        return Success(None);
      }
      var id :| id in ids;
      if ids == {id} {
        return Success(Some(id));
      }
      assert ids == {id} + (ids - {id});
      ghost var other :| other in ids - {id};
      return Failure(MultipleResultsFound);
    }

    method LatestOf(ids: set<nat>) returns (latest: nat)
      requires ids != {}
      requires forall i :: i in ids ==> i in rows && rows[i].endedAt.Some?
      ensures IsLatest(rows, ids, latest)
    {
      latest :| latest in ids;
      var rest := ids - {latest};
      while rest != {}
        invariant rest <= ids && latest in ids
        invariant forall j :: j in ids - rest ==> rows[j].endedAt.value <= rows[latest].endedAt.value
        decreases rest
      {
        var id :| id in rest;
        if rows[id].endedAt.value > rows[latest].endedAt.value {
          latest := id;
        }
        rest := rest - {id};
      }
    }

    method TriggerAlert(channelId: int, e: TriggerEvent, ts: int) returns (r: Result<(nat, bool), Error>)
      requires Valid()
      modifies this
      ensures Valid()
      ensures r.Failure? <==> BranchOf(old(rows), channelId, e, ts) == Ambiguous
      ensures r.Failure? ==> rows == old(rows) && r.error == MultipleResultsFound
      ensures r.Success? ==>
                && LandsOn(old(rows), channelId, e, ts, r.value.0)
                && rows == Triggered(old(rows), channelId, e, ts, r.value.0)
                && r.value.1 == (OpenIds(old(rows), channelId, e.level) == {})
    {
      var open := OneOrNone(OpenIds(rows, channelId, e.level));
      if open.Failure? {
        return Failure(open.error);
      }
      if open.value.Some? {
        var id := open.value.value;
        rows := rows[id := rows[id].(value := e.value, threshold := e.threshold)];
        return Success((id, false));
      }
      if e.suppressSeconds > 0 {
        var recent := RecentIds(rows, channelId, e.level, WindowStart(e, ts));
        if recent != {} {
          var id := LatestOf(recent);
          var row := rows[id].(isResolved := false, endedAt := None, startedAt := ts);
          row := row.(value := e.value, threshold := e.threshold);
          if e.message.Some? {
            row := row.(message := Own(e.message.value));
          }
          rows := rows[id := row];
          return Success((id, true));
        }
      }
      var message := if e.message.Some? && e.message.value != "" then Own(e.message.value)
                     else Default(e.operator, e.threshold);
      var id := nextId;
      var row := Alert(id, channelId, e.level, message, e.value, e.threshold, ts, None, false, None);
      rows, nextId := rows[id := row], nextId + 1;
      return Success((id, true));
    }

    method CloseOpenAlerts(channelId: int, level: string, ts: int) returns (r: Result<Option<nat>, Error>)
      requires Valid()
      modifies this
      ensures Valid()
      ensures r.Failure? <==> !AtMostOne(OpenIds(old(rows), channelId, level))
      ensures r.Failure? ==> rows == old(rows) && r.error == MultipleResultsFound
      ensures r.Success? ==> rows == ClosedAll(old(rows), channelId, {level}, ts)
      ensures r.Success? ==> match r.value
                case None => OpenIds(old(rows), channelId, level) == {} && rows == old(rows)
                case Some(id) => OpenIds(old(rows), channelId, level) == {id}
    {
      ghost var open := OpenIds(rows, channelId, level);
      r := OneOrNone(OpenIds(rows, channelId, level));
      if r.Success? && r.value.Some? {
        var id := r.value.value;
        assert forall i :: i in rows && IsOpen(rows[i], channelId, level) <==> i in open;
        rows := rows[id := rows[id].(endedAt := Some(ts), isResolved := true)];
      } else if r.Success? {
        assert forall i :: i in rows && IsOpen(rows[i], channelId, level) <==> i in open;
        assert rows == ClosedAll(rows, channelId, {level}, ts);
      }
    }

    method AcknowledgeAlert(id: nat, now: int, user: int) returns (r: Result<Alert, Error>)
      requires Valid()
      modifies this
      ensures Valid()
      ensures r.Success? <==> Enabled(old(rows), Acknowledge(id, now, user))
      ensures r.Success? ==> rows == Next(old(rows), Acknowledge(id, now, user)) && r.value == rows[id]
      ensures r.Failure? ==> rows == old(rows)
      ensures r.Failure? ==> r.error == if id in old(rows) then AlertAlreadyResolved else AlertNotFound
    {
      if id !in rows {
        return Failure(AlertNotFound);
      }
      if rows[id].isResolved {
        return Failure(AlertAlreadyResolved);
      }
      var row := rows[id].(isResolved := true);
      if row.endedAt.None? {
        row := row.(endedAt := Some(now));
      }
      rows := rows[id := row.(resolvedBy := Some(user))];
      return Success(rows[id]);
    }
  }
}
