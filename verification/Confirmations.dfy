/** Section confirmations bound to canonical content (app/applicant/confirmations.py). */
module Confirmations {
  import opened Base
  import opened Drafts

  /** SHA-256 of the canonical JSON of a section, taken as injective. */
  datatype ContentHash = ContentHash(content: Values)

  datatype SectionConfirmation = SectionConfirmation(app: Uuid, section: Section, rowVersion: nat, hash: ContentHash)

  type Confirmed = map<Key, SectionConfirmation>

  datatype ConfirmError = ScopeMismatch

  /** The row version is a parameter of the hash function but not part of what is hashed. */
  function CanonicalHash(values: Values, rowVersion: nat): ContentHash {
    ContentHash(values)
  }

  predicate IsCurrent(c: Confirmed, app: Uuid, section: Section, snapshot: Snapshot) {
    (app, section) in c && c[(app, section)].hash == CanonicalHash(snapshot.values, snapshot.rowVersion)
  }

  predicate InScope(app: Uuid, section: Section, snapshot: Snapshot) {
    snapshot.app == app && snapshot.section == section
  }

  function AfterConfirm(c: Confirmed, app: Uuid, section: Section, snapshot: Snapshot): Confirmed {
    if !InScope(app, section, snapshot) then c
    else c[(app, section) := SectionConfirmation(app, section, snapshot.rowVersion,
                                                 CanonicalHash(snapshot.values, snapshot.rowVersion))]
  }

  function AfterInvalidate(c: Confirmed, app: Uuid, section: Section): Confirmed {
    c - {(app, section)}
  }

  class SectionConfirmationService {
    var confirmations: Confirmed

    constructor ()
      ensures confirmations == map[]
    {
      confirmations := map[];
    }

    method Confirm(app: Uuid, section: Section, snapshot: Snapshot)
      returns (r: Result<SectionConfirmation, ConfirmError>)
      modifies this
      ensures confirmations == AfterConfirm(old(confirmations), app, section, snapshot)
      ensures r == if InScope(app, section, snapshot) then Ok(confirmations[(app, section)]) else Err(ScopeMismatch)
    {
      if snapshot.app != app || snapshot.section != section {
        return Err(ScopeMismatch);
      }
      var confirmation := SectionConfirmation(
        app, section, snapshot.rowVersion, CanonicalHash(snapshot.values, snapshot.rowVersion));
      confirmations := confirmations[(app, section) := confirmation];
      return Ok(confirmation);
    }

    method Current(app: Uuid, section: Section) returns (r: Option<SectionConfirmation>)
      ensures r == if (app, section) in confirmations then Some(confirmations[(app, section)]) else None
    {
      r := if (app, section) in confirmations then Some(confirmations[(app, section)]) else None;
    }

    method CheckCurrent(app: Uuid, section: Section, snapshot: Snapshot) returns (r: bool)
      ensures r == IsCurrent(confirmations, app, section, snapshot)
    {
      var current := Current(app, section);
      r := current.Some? && current.value.hash == CanonicalHash(snapshot.values, snapshot.rowVersion);
    }

    method Invalidate(app: Uuid, section: Section)
      modifies this
      ensures confirmations == AfterInvalidate(old(confirmations), app, section)
    {
      confirmations := confirmations - {(app, section)};
    }
  }

  /** The fields of one save, as the entries of a dictionary, have different names. */
  ghost predicate DistinctNames(fields: seq<Field>) {
    forall i, j :: 0 <= i < j < |fields| ==> fields[i].name != fields[j].name
  }

  /**
   * An accepted autosave raises the row version, and a confirmed section stays confirmed exactly if the save left the
   * values as they were; as the saved fields have different names, that is if it logged no correction.
   */
  lemma AutosaveKeepsConfirmationIffUnchanged(
    s: Store, c: Confirmed, app: Uuid, section: Section, fields: seq<Field>, expected: Option<nat>, source: Source)
    requires SaveError(s, app, section, expected, source).None?
    requires LoadFrom(s, app, section).Some? && IsCurrent(c, app, section, s.drafts[(app, section)])
    ensures var s' := AfterSave(s, app, section, fields, expected, source);
      && s'.drafts[(app, section)].rowVersion > s.drafts[(app, section)].rowVersion
      && (IsCurrent(c, app, section, s'.drafts[(app, section)])
          <==> s'.drafts[(app, section)].values == s.drafts[(app, section)].values)
      && (DistinctNames(fields) ==>
            (IsCurrent(c, app, section, s'.drafts[(app, section)]) <==> s'.corrections == s.corrections))
  {
    if DistinctNames(fields) { UnchangedIffNothingLogged(app, section, s.drafts[(app, section)].values, fields, source); }
  }

  /** A field that is not among those saved keeps its value. */
  lemma {:induction false} OthersKeepTheirValue(values: Values, fields: seq<Field>, name: string)
    requires forall i :: 0 <= i < |fields| ==> fields[i].name != name
    ensures Get(Merged(values, fields), name) == Get(values, name)
  {
    if fields != [] { OthersKeepTheirValue(values, fields[..|fields| - 1], name); }
  }

  /** Merging fields of different names changes nothing exactly if no correction is logged. */
  lemma {:induction false} UnchangedIffNothingLogged(app: Uuid, section: Section, values: Values, fields: seq<Field>, source: Source)
    requires DistinctNames(fields)
    ensures Changes(app, section, values, fields, source) == [] <==> Merged(values, fields) == values
  {
    if fields != [] {
      var prior, f := fields[..|fields| - 1], fields[|fields| - 1];
      UnchangedIffNothingLogged(app, section, values, prior, source);
      OthersKeepTheirValue(values, prior, f.name);
      if Get(values, f.name) != f.value {
        assert Get(Merged(values, fields), f.name) == f.value;
      } else {
        assert Merged(values, fields) == Merged(values, prior);
      }
    }
  }
}
