/** What every run of the draft repository keeps: its correction log is the whole history. */
module CorrectionLog {
  import opened Base
  import opened Drafts

  datatype Event =
    | SaveEvent(app: Uuid, section: Section, fields: seq<Field>, expected: Option<nat>, source: Source)
    | LockEvent(app: Uuid)
    | ReopenEvent(app: Uuid, section: Section)

  function Step(s: Store, e: Event): Store {
    match e
    case SaveEvent(app, section, fields, expected, source) => AfterSave(s, app, section, fields, expected, source)
    case LockEvent(app) => AfterLock(s, app)
    case ReopenEvent(app, section) => AfterReopen(s, app, section)
  }

  function Run(events: seq<Event>): Store {
    if events == [] then EMPTY else Step(Run(events[..|events| - 1]), events[|events| - 1])
  }

  predicate SavesTo(s: Store, e: Event, app: Uuid, section: Section) {
    e.SaveEvent? && e.app == app && e.section == section
    && SaveError(s, app, section, e.expected, e.source).None?
  }

  /** How many saves of this section the run accepted. */
  function SaveCount(events: seq<Event>, app: Uuid, section: Section): nat {
    if events == [] then 0
    else
      var prior := events[..|events| - 1];
      SaveCount(prior, app, section) +
      if SavesTo(Run(prior), events[|events| - 1], app, section) then 1 else 0
  }

  /** The values obtained by applying, in order, the logged changes of one section to an empty draft. */
  function Replay(log: seq<Correction>, app: Uuid, section: Section): Values {
    if log == [] then map[]
    else
      var m := Replay(log[..|log| - 1], app, section);
      var c := log[|log| - 1];
      if c.app == app && c.section == section then m[c.field := c.after] else m
  }

  /** Every entry records the value it replaced, and a real change. */
  ghost predicate Truthful(log: seq<Correction>) {
    forall i :: 0 <= i < |log| ==>
      && log[i].before == Get(Replay(log[..i], log[i].app, log[i].section), log[i].field)
      && log[i].before != log[i].after
  }

  lemma ReplayAppend(log: seq<Correction>, c: Correction, a: Uuid, s: Section)
    ensures Replay(log + [c], a, s) ==
            (if c.app == a && c.section == s then Replay(log, a, s)[c.field := c.after] else Replay(log, a, s))
  {
    assert (log + [c])[..|log|] == log;
  }

  lemma {:induction false} ReplayChanges(
    log: seq<Correction>, app: Uuid, section: Section, values: Values, fields: seq<Field>, source: Source,
    a: Uuid, s: Section)
    requires Replay(log, app, section) == values
    ensures Replay(log + Changes(app, section, values, fields, source), a, s)
            == (if app == a && section == s then Merged(values, fields) else Replay(log, a, s))
    decreases |fields|
  {
    var all := log + Changes(app, section, values, fields, source);
    if fields == [] {
      assert all == log;
    } else {
      var n := |fields| - 1;
      ReplayChanges(log, app, section, values, fields[..n], source, a, s);
      var mid := log + Changes(app, section, values, fields[..n], source);
      var before := Get(Merged(values, fields[..n]), fields[n].name);
      if before == fields[n].value {
        assert all == mid;
      } else {
        var c := Correction(app, section, fields[n].name, before, fields[n].value, source);
        assert all == mid + [c];
        ReplayAppend(mid, c, a, s);
      }
    }
  }

  lemma {:induction false} TruthfulChanges(
    log: seq<Correction>, app: Uuid, section: Section, values: Values, fields: seq<Field>, source: Source)
    requires Truthful(log) && Replay(log, app, section) == values
    ensures Truthful(log + Changes(app, section, values, fields, source))
    decreases |fields|
  {
    var all := log + Changes(app, section, values, fields, source);
    if fields == [] {
      assert all == log;
    } else {
      var n := |fields| - 1;
      TruthfulChanges(log, app, section, values, fields[..n], source);
      ReplayChanges(log, app, section, values, fields[..n], source, app, section);
      var mid := log + Changes(app, section, values, fields[..n], source);
      if |all| == |mid| {
        assert all == mid;
      } else {
        forall i | 0 <= i < |all|
          ensures all[i].before == Get(Replay(all[..i], all[i].app, all[i].section), all[i].field)
          ensures all[i].before != all[i].after
        {
          assert i < |mid| ==> all[..i] == mid[..i] && all[i] == mid[i];
          assert i == |mid| ==> all[..i] == mid;
        }
      }
    }
  }

  /** The log is the complete and truthful history of every draft. */
  lemma {:induction false} CorrectionLogIsComplete(events: seq<Event>)
    ensures var s := Run(events);
      && Truthful(s.corrections)
      && (forall app: Uuid, section :: Replay(s.corrections, app, section) == ValuesOf(s, app, section))
  {
    if events != [] {
      CorrectionLogIsComplete(events[..|events| - 1]);
      var s := Run(events[..|events| - 1]);
      var e := events[|events| - 1];
      if e.SaveEvent? && SavesTo(s, e, e.app, e.section) {
        var values := ValuesOf(s, e.app, e.section);
        TruthfulChanges(s.corrections, e.app, e.section, values, e.fields, e.source);
        forall a: Uuid, sec: Section {
          ReplayChanges(s.corrections, e.app, e.section, values, e.fields, e.source, a, sec);
        }
      }
    }
  }

  /** A row version counts the accepted saves, so any save based on an earlier version is refused unchanged. */
  lemma {:induction false} RowVersionCountsSaves(events: seq<Event>, app: Uuid, section: Section)
    ensures RowOf(Run(events), app, section) == SaveCount(events, app, section)
    ensures (app, section) in Run(events).drafts <==> SaveCount(events, app, section) > 0
  {
    if events != [] {
      RowVersionCountsSaves(events[..|events| - 1], app, section);
    }
  }

  /** Of two saves prepared from one version, the second is refused and changes nothing, whatever ran in between. */
  lemma {:induction false} StaleSaveChangesNothing(
    before: seq<Event>, first: Event, between: seq<Event>, app: Uuid, section: Section,
    fields: seq<Field>, source: Source)
    requires SavesTo(Run(before), first, app, section)
    ensures var s := Run(before + [first] + between);
      && SaveError(s, app, section, first.expected, source).Some?
      && AfterSave(s, app, section, fields, first.expected, source) == s
  {
    RowGrows(before, first, between, app, section);
  }

  lemma {:induction false} RowGrows(before: seq<Event>, first: Event, between: seq<Event>, app: Uuid, section: Section)
    requires SavesTo(Run(before), first, app, section)
    ensures RowOf(Run(before + [first] + between), app, section) > RowOf(Run(before), app, section)
    ensures (app, section) in Run(before + [first] + between).drafts
    decreases |between|
  {
    var events := before + [first] + between;
    if between == [] {
      assert events[..|events| - 1] == before;
    } else {
      var prior := between[..|between| - 1];
      assert events[..|events| - 1] == before + [first] + prior;
      RowGrows(before, first, prior, app, section);
    }
  }

  // ------------------------------------------------------------------
  // What a section holds and when it may be saved, read off the events
  // ------------------------------------------------------------------

  /** The value of the last of the fields with this name. */
  function LastValue(fields: seq<Field>, name: string, otherwise: Value): Value {
    if fields == [] then otherwise
    else if fields[|fields| - 1].name == name then fields[|fields| - 1].value
    else LastValue(fields[..|fields| - 1], name, otherwise)
  }

  /** What the accepted saves of the section last wrote into the field. */
  function Written(events: seq<Event>, app: Uuid, section: Section, name: string): Value {
    if events == [] then Null
    else
      var prior, e := events[..|events| - 1], events[|events| - 1];
      if SavesTo(Run(prior), e, app, section) then LastValue(e.fields, name, Written(prior, app, section, name))
      else Written(prior, app, section, name)
  }

  lemma {:induction false} MergedIsLastValue(values: Values, fields: seq<Field>, name: string)
    ensures Get(Merged(values, fields), name) == LastValue(fields, name, Get(values, name))
  {
    if fields != [] { MergedIsLastValue(values, fields[..|fields| - 1], name); }
  }

  /** After any run a field has the value last written into it by an accepted save. */
  lemma {:induction false} FieldsHoldWhatWasWritten(events: seq<Event>, app: Uuid, section: Section, name: string)
    ensures Get(ValuesOf(Run(events), app, section), name) == Written(events, app, section, name)
  {
    if events != [] {
      var prior, e := events[..|events| - 1], events[|events| - 1];
      FieldsHoldWhatWasWritten(prior, app, section, name);
      if SavesTo(Run(prior), e, app, section) { MergedIsLastValue(ValuesOf(Run(prior), app, section), e.fields, name); }
    }
  }

  /** The application has not been locked since the section was last reopened, or at all. */
  predicate OpenFor(events: seq<Event>, app: Uuid, section: Section) {
    events == []
    || var prior, e := events[..|events| - 1], events[|events| - 1];
       if e == LockEvent(app) then false else e == ReopenEvent(app, section) || OpenFor(prior, app, section)
  }

  lemma {:induction false} OpenForStored(events: seq<Event>, app: Uuid, section: Section)
    ensures var s := Run(events);
            OpenFor(events, app, section) <==> app !in s.locked || section in ReopenedSections(s, app)
    ensures app !in Run(events).locked ==> ReopenedSections(Run(events), app) == {}
  {
    if events != [] { OpenForStored(events[..|events| - 1], app, section); }
  }

  /** After any run a save is accepted exactly from a known source, into an open section, on the number of saves so far. */
  lemma SaveAcceptedIff(events: seq<Event>, app: Uuid, section: Section, expected: Option<nat>, source: Source)
    ensures var saves := SaveCount(events, app, section);
      SaveError(Run(events), app, section, expected, source) ==
      if source.OtherSource? then Some(InvalidSource)
      else if !OpenFor(events, app, section) then Some(SectionLocked)
      else if expected == (if saves == 0 then None else Some(saves)) then None
      else Some(VersionConflict)
  {
    OpenForStored(events, app, section);
    RowVersionCountsSaves(events, app, section);
  }
}
