/** A whole reconciliation: the repairs, then the candidates (app/importer/publication_reconciliation.py). */
module ManifestRun {
  import opened Base
  import opened Manifest
  import opened Reconciliation
  import opened Conservation
  import opened Decisions
  import opened Deduplication

  /** A repair may set a work aside, and changes nothing else about it. */
  ghost predicate Repaired(v: Work, w: Work) {
    w == v.(review := w.review) && (w.review == v.review || w.review.disposition == Some(REJECTED))
  }

  ghost predicate RepairedWorks(v: seq<Work>, w: seq<Work>) {
    |w| == |v| && forall i :: 0 <= i < |v| ==> Repaired(v[i], w[i])
  }

  method RepairWorks(env: Environment, works: seq<Work>) returns (repaired: seq<Work>, touched: set<string>)
    ensures Repairs(env, works, repaired) && RepairedWorks(works, repaired)
  {
    var repair := new Repair(env, works);
    repair.QuarantineEmpty();
    assert repair.works == AllQuarantined(works);
    repair.Deduplicate();
    repaired, touched := repair.works, repair.touched;
    DeduplicatedKeeps(env, AllQuarantined(works), repaired);
    forall i | 0 <= i < |works| ensures Repaired(works[i], repaired[i]) {
      assert AllQuarantined(works)[i] == Quarantined(works[i]);
    }
  }

  lemma {:induction false} RepairKeepsReferences(v: seq<Work>, w: seq<Work>)
    requires RepairedWorks(v, w)
    ensures References(v) == References(w)
  {
    if v != [] {
      var n := |v| - 1;
      assert Repaired(v[n], w[n]);
      assert forall i :: 0 <= i < n ==> v[..n][i] == v[i] && w[..n][i] == w[i];
      RepairKeepsReferences(v[..n], w[..n]);
    }
  }

  lemma RepairStaysConsistent(d: Document, works: seq<Work>, touched: set<string>)
    requires Consistent(d) && RepairedWorks(d.works, works)
    ensures Consistent(d.(works := works, touched := touched))
  {
    forall o | o in d.occurrences ensures Carried(works, o) {
      var k :| 0 <= k < |d.works| && d.works[k].id == o.workId && d.works[k].folder == o.folder && o.id in d.works[k].occurrenceIds;
      assert Repaired(d.works[k], works[k]);
    }
    forall k, id | 0 <= k < |works| && id in works[k].occurrenceIds ensures HasOccurrence(d.(works := works, touched := touched), id) {
      assert Repaired(d.works[k], works[k]);
      assert HasOccurrence(d, id);
    }
  }

  /** No result at all when some applicant is unknown; otherwise nothing of the manifest is lost and the balances hold. */
  method ReconcileManifest(env: Environment, applicants: map<string, string>, base: Document, cs: seq<Candidate>)
    returns (result: Option<Document>)
    requires base.audit == []
    ensures result.Some? <==> forall c :: c in cs ==> c.applicant in applicants
    ensures result.Some? ==> exists repaired: Document ::
              && Repairs(env, base.works, repaired.works) && RepairedWorks(base.works, repaired.works)
              && repaired == base.(works := repaired.works, touched := repaired.touched)
              && Reaches(env, applicants, repaired, cs, result.value) && Conserves(repaired, result.value)
    ensures result.Some? ==>
              && |result.value.statuses| - 3 * |result.value.works| == |base.statuses| - 3 * |base.works|
              && References(result.value.works) - |result.value.occurrences| == References(base.works) - |base.occurrences|
              && AuditsEach([], cs, result.value.audit) && AuditTrue(result.value, 0)
              && (Consistent(base) ==> Consistent(result.value))
  {
    var works, touched := RepairWorks(env, base.works);
    var reconciler := new Reconciler(env, applicants, works, base.occurrences, base.statuses, touched);
    ghost var repaired := reconciler.View();
    var ok := reconciler.Reconcile(cs);
    if !ok { return None; }
    result := Some(Document(reconciler.works, reconciler.occurrences, reconciler.statuses, reconciler.touched, reconciler.audit));
    RunConserves(env, applicants, repaired, cs, result.value);
    RunAuditIsTrue(env, applicants, repaired, cs, result.value);
    RepairKeepsReferences(base.works, works);
    if Consistent(base) {
      RepairStaysConsistent(base, works, touched);
      RunStaysConsistent(env, applicants, repaired, cs, result.value);
    }
  }
}
