/** Optimistic, provenance-preserving section drafts (app/applicant/drafts.py). */
module Drafts {
  import opened Base

  datatype Section =
    | Identity
    | Employment
    | Qualifications
    | Publications
    | Contribution
    | OtherSection(name: string)

  /** A stored field value; `Null` is Python's None, which `dict.get` also gives for a missing field. */
  datatype Value = Null | Data(token: nat)

  type Values = map<string, Value>

  datatype Field = Field(name: string, value: Value)

  datatype Source = Applicant | Administrator | OtherSource(name: string)

  type Key = (Uuid, Section)

  datatype Snapshot = Snapshot(app: Uuid, section: Section, values: Values, rowVersion: nat)

  datatype Correction = Correction(
    app: Uuid, section: Section, field: string, before: Value, after: Value, source: Source)

  datatype DraftError = InvalidSource | SectionLocked | VersionConflict | NotLocked

  datatype Store = Store(
    drafts: map<Key, Snapshot>,
    locked: set<Uuid>,
    reopened: map<Uuid, set<Section>>,
    corrections: seq<Correction>)

  const EMPTY := Store(map[], {}, map[], [])

  // ------------------------------------------------------------------
  // What one step does, as functions of the store
  // ------------------------------------------------------------------

  function Get(values: Values, name: string): Value {
    if name in values then values[name] else Null
  }

  function LoadFrom(s: Store, app: Uuid, section: Section): Option<Snapshot> {
    if (app, section) in s.drafts then Some(s.drafts[(app, section)]) else None
  }

  function ValuesOf(s: Store, app: Uuid, section: Section): Values {
    if (app, section) in s.drafts then s.drafts[(app, section)].values else map[]
  }

  function RowOf(s: Store, app: Uuid, section: Section): nat {
    if (app, section) in s.drafts then s.drafts[(app, section)].rowVersion else 0
  }

  function ReopenedSections(s: Store, app: Uuid): set<Section> {
    if app in s.reopened then s.reopened[app] else {}
  }

  /** The section's values once the submitted fields are applied in order. */
  function Merged(values: Values, fields: seq<Field>): Values {
    if fields == [] then values
    else
      var m := Merged(values, fields[..|fields| - 1]);
      var f := fields[|fields| - 1];
      if Get(m, f.name) != f.value then m[f.name := f.value] else m
  }

  /** The corrections those fields amount to. */
  function Changes(app: Uuid, section: Section, values: Values, fields: seq<Field>, source: Source): seq<Correction> {
    if fields == [] then []
    else
      var prior := fields[..|fields| - 1];
      var f := fields[|fields| - 1];
      var before := Get(Merged(values, prior), f.name);
      Changes(app, section, values, prior, source) +
      (if before != f.value then [Correction(app, section, f.name, before, f.value, source)] else [])
  }

  function SaveError(s: Store, app: Uuid, section: Section, expected: Option<nat>, source: Source): Option<DraftError> {
    if source.OtherSource? then Some(InvalidSource)
    else if app in s.locked && section !in ReopenedSections(s, app) then Some(SectionLocked)
    else if expected != (if (app, section) in s.drafts then Some(RowOf(s, app, section)) else None) then
      Some(VersionConflict)
    else None
  }

  function Saved(s: Store, app: Uuid, section: Section, fields: seq<Field>): Snapshot {
    Snapshot(app, section, Merged(ValuesOf(s, app, section), fields), RowOf(s, app, section) + 1)
  }

  function AfterSave(s: Store, app: Uuid, section: Section, fields: seq<Field>, expected: Option<nat>, source: Source): Store {
    if SaveError(s, app, section, expected, source).Some? then s
    else s.(drafts := s.drafts[(app, section) := Saved(s, app, section, fields)],
            corrections := s.corrections + Changes(app, section, ValuesOf(s, app, section), fields, source))
  }

  function AfterLock(s: Store, app: Uuid): Store {
    s.(locked := s.locked + {app}, reopened := s.reopened - {app})
  }

  function AfterReopen(s: Store, app: Uuid, section: Section): Store {
    if app !in s.locked then s
    else s.(reopened := s.reopened[app := ReopenedSections(s, app) + {section}])
  }

  lemma OneMoreField(app: Uuid, section: Section, base: Values, fields: seq<Field>, i: nat, source: Source)
    requires i < |fields|
    ensures var m := Merged(base, fields[..i]);
            var before := Get(m, fields[i].name);
            var changed := before != fields[i].value;
      && Merged(base, fields[..i + 1]) == (if changed then m[fields[i].name := fields[i].value] else m)
      && Changes(app, section, base, fields[..i + 1], source)
         == Changes(app, section, base, fields[..i], source)
            + (if changed then [Correction(app, section, fields[i].name, before, fields[i].value, source)] else [])
  {
    assert fields[..i + 1][..i] == fields[..i];
  }

  // ------------------------------------------------------------------
  // The repository
  // ------------------------------------------------------------------

  class InMemoryDraftRepository {
    var drafts: map<Key, Snapshot>
    var locked: set<Uuid>
    var reopened: map<Uuid, set<Section>>
    var corrections: seq<Correction>

    ghost function View(): Store
      reads this
    {
      Store(drafts, locked, reopened, corrections)
    }

    constructor ()
      ensures View() == EMPTY
    {
      drafts, locked, reopened, corrections := map[], {}, map[], [];
    }

    method Load(app: Uuid, section: Section) returns (r: Option<Snapshot>)
      ensures r == LoadFrom(View(), app, section)
    {
      r := if (app, section) in drafts then Some(drafts[(app, section)]) else None;
    }

    /** Merge the fields one by one, noting each that changes. */
    method Merge(app: Uuid, section: Section, base: Values, fields: seq<Field>, source: Source)
      returns (merged: Values, changes: seq<Correction>)
      ensures merged == Merged(base, fields) && changes == Changes(app, section, base, fields, source)
    {
      merged, changes := base, [];
      for i := 0 to |fields|
        invariant merged == Merged(base, fields[..i])
        invariant changes == Changes(app, section, base, fields[..i], source)
      {
        var before := if fields[i].name in merged then merged[fields[i].name] else Null;
        OneMoreField(app, section, base, fields, i, source);
        if before != fields[i].value {
          changes := changes + [Correction(app, section, fields[i].name, before, fields[i].value, source)];
          merged := merged[fields[i].name := fields[i].value];
        }
      }
      assert fields[..|fields|] == fields;
    }

    method Save(app: Uuid, section: Section, fields: seq<Field>, expected: Option<nat>, source: Source)
      returns (r: Result<Snapshot, DraftError>)
      modifies this
      ensures View() == AfterSave(old(View()), app, section, fields, expected, source)
      ensures r == match SaveError(old(View()), app, section, expected, source)
                   case Some(e) => Err(e)
                   case None => Ok(Saved(old(View()), app, section, fields))
    {
      var refusal := Refusal(app, section, expected, source);
      if refusal.Some? {
        return Err(refusal.value);
      }
      var snapshot, changes := Prepare(app, section, fields, source);
      Put(snapshot, changes);
      return Ok(snapshot);
    }

    /** The three refusals, in their order. */
    method Refusal(app: Uuid, section: Section, expected: Option<nat>, source: Source) returns (e: Option<DraftError>)
      ensures e == SaveError(View(), app, section, expected, source)
    {
      if source.OtherSource? {
        return Some(InvalidSource);
      }
      if app in locked && section !in (if app in reopened then reopened[app] else {}) {
        return Some(SectionLocked);
      }
      var current := Load(app, section);
      var actual := if current.Some? then Some(current.value.rowVersion) else None;
      return if expected != actual then Some(VersionConflict) else None;
    }

    /** The snapshot one version on, and the corrections it amounts to. */
    method Prepare(app: Uuid, section: Section, fields: seq<Field>, source: Source) returns (snapshot: Snapshot, changes: seq<Correction>)
      ensures snapshot == Saved(View(), app, section, fields)
      ensures changes == Changes(app, section, ValuesOf(View(), app, section), fields, source)
    {
      var current := Load(app, section);
      var base := if current.Some? then current.value.values else map[];
      var merged;
      merged, changes := Merge(app, section, base, fields, source);
      snapshot := Snapshot(app, section, merged, (if current.Some? then current.value.rowVersion else 0) + 1);
    }

    method Put(snapshot: Snapshot, changes: seq<Correction>)
      modifies this`drafts, this`corrections
      ensures drafts == old(drafts)[(snapshot.app, snapshot.section) := snapshot] && corrections == old(corrections) + changes
    {
      drafts := drafts[(snapshot.app, snapshot.section) := snapshot];
      corrections := corrections + changes;
    }

    method Lock(app: Uuid)
      modifies this
      ensures View() == AfterLock(old(View()), app)
    {
      locked := locked + {app};
      reopened := reopened - {app};
    }

    method Reopen(app: Uuid, section: Section) returns (r: Result<(), DraftError>)
      modifies this
      ensures View() == AfterReopen(old(View()), app, section)
      ensures r == if app in old(locked) then Ok(()) else Err(NotLocked)
    {
      if app !in locked {
        return Err(NotLocked);
      }
      var already := if app in reopened then reopened[app] else {};
      reopened := reopened[app := already + {section}];
      return Ok(());
    }
  }
}
