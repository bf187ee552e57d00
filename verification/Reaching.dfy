/** Runs that show that the guarded states of the workflow do occur. */
module Reaching {
  import opened Base
  import opened Drafts
  import opened Finalize
  import opened Workflow
  import opened Submission
  import opened Resubmission
  import ObjectTypes
  import D = Documents

  /** The first `k` sections of application 0 saved once and confirmed, next to the documents given. */
  ghost predicate Prepared(s: System, k: nat, docs: D.Registry) {
    && k <= 5
    && s.core.docs == docs && s.core.finals == [] && s.core.drafts.locked == {}
    && (forall j :: 0 <= j < k ==> SectionReady(s.core, 0, REQUIRED_SECTIONS[j]))
    && (forall j :: k <= j < 5 ==> (0, REQUIRED_SECTIONS[j]) !in s.core.drafts.drafts)
  }

  function FirstSave(k: nat): Action
    requires k < 5
  {
    SaveSection(0, REQUIRED_SECTIONS[k], [], None, Applicant)
  }

  function FirstConfirm(k: nat): Action
    requires k < 5
  {
    ConfirmSection(0, REQUIRED_SECTIONS[k], 1, true)
  }

  lemma OneMoreSection(s: System, k: nat, docs: D.Registry)
    requires k < 5 && Prepared(s, k, docs)
    ensures Prepared(Step(Step(s, FirstSave(k)), FirstConfirm(k)), k + 1, docs)
  {
    var section := REQUIRED_SECTIONS[k];
    var s1 := Step(s, FirstSave(k));
    assert (0, section) in s1.core.drafts.drafts && s1.core.drafts.drafts[(0, section)].rowVersion == 1;
    var s2 := Step(s1, FirstConfirm(k));
    assert SectionReady(s2.core, 0, section);
    forall j | 0 <= j < k ensures SectionReady(s2.core, 0, REQUIRED_SECTIONS[j]) {
      assert SectionReady(s.core, 0, REQUIRED_SECTIONS[j]) && REQUIRED_SECTIONS[j] != section;
    }
  }

  lemma RunOneMore(events: seq<Action>, e: Action)
    ensures Run(events + [e]) == Step(Run(events), e)
  {
    assert (events + [e])[..|events|] == events;
  }

  lemma {:induction false} PreparedRun(start: seq<Action>, k: nat) returns (events: seq<Action>)
    requires k <= 5 && Prepared(Run(start), 0, Run(start).core.docs)
    ensures Prepared(Run(events), k, Run(start).core.docs)
  {
    if k == 0 {
      events := start;
    } else {
      var before := PreparedRun(start, k - 1);
      OneMoreSection(Run(before), k - 1, Run(start).core.docs);
      var saved := before + [FirstSave(k - 1)];
      events := saved + [FirstConfirm(k - 1)];
      RunOneMore(before, FirstSave(k - 1));
      RunOneMore(saved, FirstConfirm(k - 1));
    }
  }

  lemma PreparedIsReady(s: System, docs: D.Registry)
    requires Prepared(s, 5, docs)
    requires forall id :: id in docs.order && Listed(docs, 0, id) ==> !SlotUnresolved(docs, docs.slots[id])
    ensures Ready(s.core, 0)
  {
    ReadySections(s.core, 0, 5);
    ReadyDocuments(docs, 0, docs.order);
    assert REQUIRED_SECTIONS[..5] == REQUIRED_SECTIONS;
  }

  /** Some run submits an application, and some run goes on to leave a half-done reopening behind. */
  lemma SubmissionAndHalfDoneStepAreReachable() returns (events: seq<Action>)
    ensures var c := Run(events).core;
      && Active(c.finals, 0).Some?
      && AfterReopenSlot(c, 0, 0, "reason", "actor", ADMINISTRATOR_GROUP, 0) != c
      && ReopenSlotResult(c, 0, 0, "reason", "actor", ADMINISTRATOR_GROUP).Err?
  {
    var before := PreparedRun([], 5);
    var s := Run(before);
    PreparedIsReady(s, D.EMPTY);
    events := before + [Submit(0, 0)];
    RunOneMore(before, Submit(0, 0));
    var c := Run(events).core;
    assert c.finals == [Confirmation(s.core, 0, s.next, 0)];
    assert !Listed(c.docs, 0, 0);
    ReopenSlotHalfDoneIff(c, 0, 0, "reason", "actor", ADMINISTRATOR_GROUP, 0);
  }

  // ------------------------------------------------------------------
  // A second confirmation beside the first
  // ------------------------------------------------------------------

  const SPEC := D.SlotSpec("CV", "CV", true, true, D.ApplicantVisible, D.OtherType("CV"), false)

  /** The slot of application 0 in the course of the run. */
  function SlotAt(mode: D.UploadMode, row: nat, active: Option<Uuid>, document: Option<Uuid>): D.Slot {
    D.Slot(0, 0, "CV", "CV", true, true, D.ApplicantVisible, D.OtherType("CV"), false, mode, row, active, document)
  }

  /** One slot, its versions in the order of registration, and nothing but documents dealt with so far. */
  ghost predicate Stage(s: System, slot: D.Slot, versions: seq<Uuid>, next: Uuid) {
    && s.core.docs.order == [0] && s.core.docs.slots == map[0 := slot] && s.core.docs.slotVersions == map[0 := versions]
    && (forall v :: v in s.core.docs.versions <==> v in versions)
    && s.next == next && s.core.drafts == Drafts.EMPTY && s.core.finals == [] && s.core.confirmed == map[]
  }

  /** The version is of the slot and not a recommendation. */
  ghost predicate VersionAt(s: System, vid: Uuid, status: D.Status) {
    && vid in s.core.docs.versions && s.core.docs.versions[vid].slot == 0 && s.core.docs.versions[vid].status == status
    && !D.IsRecommendation(s.core.docs.versions[vid])
  }

  lemma CvIsSafe(mode: D.UploadMode, row: nat, active: Option<Uuid>, document: Option<Uuid>)
    ensures D.SafeApplicantSlot(SlotAt(mode, row, active, document)) && !D.AddRefused(SPEC)
  {
  }

  function Reopen(): Action {
    Decide(D.OpenSlot(0, 0, D.Replacement, "actor", "reason"))
  }

  lemma Reopened(s: System, row: nat, document: Option<Uuid>, versions: seq<Uuid>, next: Uuid)
    requires Stage(s, SlotAt(D.Closed, row, None, document), versions, next)
    ensures Stage(Step(s, Reopen()), SlotAt(D.Replacement, row + 1, None, document), versions, next)
    ensures Step(s, Reopen()).core.docs.versions == s.core.docs.versions
  {
    CvIsSafe(D.Closed, row, None, document);
  }

  lemma Begun(s: System, row: nat, document: Option<Uuid>, versions: seq<Uuid>, next: Uuid)
    requires Stage(s, SlotAt(D.Replacement, row, None, document), versions, next)
    ensures var s' := Step(s, BeginUpload(0, 0, row));
      && s'.core == s.core && s'.next == next + 3 && next in s'.tickets
      && s'.tickets[next] == D.Ticket(SlotAt(D.Replacement, row, None, document), row, next,
                                      if document.Some? then document.value else next + 2, next + 1)
  {
    CvIsSafe(D.Replacement, row, None, document);
  }

  lemma Registered(s: System, t: D.Ticket, row: nat, document: Option<Uuid>, versions: seq<Uuid>, next: Uuid,
                   record: ObjectTypes.StoredObjectRecord)
    requires Stage(s, SlotAt(D.Replacement, row, None, document), versions, next)
    requires t.slot == SlotAt(D.Replacement, row, None, document) && t.expected == row && t.version !in versions
    requires t.version in s.tickets && s.tickets[t.version] == t
    ensures var s' := Step(s, RegisterUpload(t.version, record, "cv.pdf"));
      && Stage(s', SlotAt(D.Closed, row + 1, None, Some(t.document)), versions + [t.version], next)
      && VersionAt(s', t.version, D.Pending)
      && forall v :: v in versions ==> s'.core.docs.versions[v] == s.core.docs.versions[v]
  {
    CvIsSafe(D.Replacement, row, None, document);
    assert D.Registrable(s.core.docs, t);
  }

  /** Open the slot and upload into it: the new version is pending and the slot closed again. */
  lemma Uploaded(s: System, row: nat, document: Option<Uuid>, versions: seq<Uuid>, next: Uuid, record: ObjectTypes.StoredObjectRecord)
    returns (events: seq<Action>)
    requires Stage(s, SlotAt(D.Closed, row, None, document), versions, next) && next !in versions
    ensures var s' := RunFrom(s, events);
      && Stage(s', SlotAt(D.Closed, row + 2, None, Some(if document.Some? then document.value else next + 2)), versions + [next], next + 3)
      && VersionAt(s', next, D.Pending)
      && forall v :: v in versions ==> s'.core.docs.versions[v] == s.core.docs.versions[v]
  {
    var e2, e3 := BeginUpload(0, 0, row + 1), RegisterUpload(next, record, "cv.pdf");
    Reopened(s, row, document, versions, next);
    var s1 := Step(s, Reopen());
    Begun(s1, row + 1, document, versions, next);
    var s2 := Step(s1, e2);
    Registered(s2, s2.tickets[next], row + 1, document, versions, next + 3, record);
    events := [Reopen(), e2, e3];
    ThreeSteps(s, Reopen(), e2, e3);
  }

  lemma ThreeSteps(s: System, e1: Action, e2: Action, e3: Action)
    ensures RunFrom(s, [e1, e2, e3]) == Step(Step(Step(s, e1), e2), e3)
  {
    assert [e1, e2, e3][..2] == [e1, e2] && [e1, e2][..1] == [e1] && [e1][..0] == [];
    assert RunFrom(s, []) == s && RunFrom(s, [e1]) == Step(s, e1);
    assert RunFrom(s, [e1, e2]) == Step(Step(s, e1), e2);
  }

  lemma {:induction false} RunOfSum(s: System, a: seq<Action>, b: seq<Action>)
    ensures RunFrom(s, a + b) == RunFrom(RunFrom(s, a), b)
    decreases |b|
  {
    if b == [] {
      assert a + b == a;
    } else {
      assert (a + b)[..|a + b| - 1] == a + b[..|b| - 1];
      RunOfSum(s, a, b[..|b| - 1]);
    }
  }

  lemma SlotAdded()
    ensures Stage(Step(INITIAL, AddSlot(0, SPEC)), SlotAt(D.Closed, 1, None, None), [], 1)
  {
    CvIsSafe(D.Closed, 1, None, None);
    var s := Step(INITIAL, AddSlot(0, SPEC));
    assert s.core.docs == D.AfterAdd(D.EMPTY, 0, 0, SPEC);
    assert s.core.docs.order == [] + [0] == [0];
    assert s.core.docs.slots == map[0 := D.NewSlot(0, 0, SPEC)];
    assert s.core.docs.slotVersions == map[0 := []];
  }

  lemma OneVersion(record: ObjectTypes.StoredObjectRecord) returns (events: seq<Action>)
    ensures Stage(Run(events), SlotAt(D.Closed, 3, None, Some(3)), [1], 4) && VersionAt(Run(events), 1, D.Pending)
  {
    var added := [] + [AddSlot(0, SPEC)];
    RunOneMore([], AddSlot(0, SPEC));
    SlotAdded();
    var more := Uploaded(Run(added), 1, None, [], 1, record);
    RunOfSum(INITIAL, added, more);
    assert [] + [1] == [1];
    events := added + more;
  }

  lemma BothPending(record: ObjectTypes.StoredObjectRecord) returns (events: seq<Action>)
    ensures var s := Run(events);
      Stage(s, SlotAt(D.Closed, 5, None, Some(3)), [1, 4], 7) && VersionAt(s, 1, D.Pending) && VersionAt(s, 4, D.Pending)
  {
    var one := OneVersion(record);
    var more := Uploaded(Run(one), 3, Some(3), [1], 4, record);
    RunOfSum(INITIAL, one, more);
    assert [1] + [4] == [1, 4] && 1 in [1];
    events := one + more;
  }

  /** Two uploads for one slot, of which the second is accepted and the first still pending. */
  lemma TwoVersions(record: ObjectTypes.StoredObjectRecord) returns (events: seq<Action>)
    ensures var s := Run(events);
      && Stage(s, SlotAt(D.Closed, 6, Some(4), Some(3)), [1, 4], 7)
      && VersionAt(s, 1, D.Pending) && VersionAt(s, 4, D.Accepted)
  {
    var two := BothPending(record);
    SecondAccepted(Run(two));
    events := two + [Decide(D.Accept(4, "actor"))];
    RunOneMore(two, Decide(D.Accept(4, "actor")));
  }

  lemma SecondAccepted(s: System)
    requires Stage(s, SlotAt(D.Closed, 5, None, Some(3)), [1, 4], 7) && VersionAt(s, 1, D.Pending) && VersionAt(s, 4, D.Pending)
    ensures var s' := Step(s, Decide(D.Accept(4, "actor")));
      Stage(s', SlotAt(D.Closed, 6, Some(4), Some(3)), [1, 4], 7) && VersionAt(s', 1, D.Pending) && VersionAt(s', 4, D.Accepted)
  {
  }

  lemma TwoVersionsAreSettled(docs: D.Registry, row: nat, active: Uuid)
    requires docs.order == [0] && docs.slots == map[0 := SlotAt(D.Closed, row, Some(active), Some(3))]
    requires docs.slotVersions == map[0 := [1, 4]] && active in {1, 4}
    requires forall v :: v in {active, 4} ==> v in docs.versions && docs.versions[v].slot == 0 && docs.versions[v].status == D.Accepted
    ensures forall id :: id in docs.order && Listed(docs, 0, id) ==> !SlotUnresolved(docs, docs.slots[id])
  {
  }

  /** The older version accepted after a submission: the application is ready again, with another manifest. */
  lemma OlderVersionAccepted(s: System)
    requires Stage5(s) && VersionAt(s, 1, D.Pending) && VersionAt(s, 4, D.Accepted)
    ensures var s' := Step(s, AcceptOlder());
      && Ready(s'.core, 0) && s'.core.finals == s.core.finals
      && Effective(s, AcceptOlder(), 0)
  {
    var s' := Step(s, AcceptOlder());
    ReadySections(s.core, 0, 5);
    ReadySections(s'.core, 0, 5);
    assert REQUIRED_SECTIONS[..5] == REQUIRED_SECTIONS;
    forall k | 0 <= k < 5 ensures SectionReady(s'.core, 0, REQUIRED_SECTIONS[k]) { assert SectionReady(s.core, 0, REQUIRED_SECTIONS[k]); }
    TwoVersionsAreSettled(s'.core.docs, 7, 1);
    ReadyDocuments(s'.core.docs, 0, s'.core.docs.order);
  }

  /** Ready with the second version active. */
  ghost predicate Stage5(s: System) {
    && s.core.docs.order == [0] && s.core.docs.slots == map[0 := SlotAt(D.Closed, 6, Some(4), Some(3))]
    && s.core.docs.slotVersions == map[0 := [1, 4]]
    && forall k :: 0 <= k < 5 ==> SectionReady(s.core, 0, REQUIRED_SECTIONS[k])
  }

  /** Some run leaves an application with two confirmations that nothing superseded. */
  lemma TwoActiveConfirmationsAreReachable(record: ObjectTypes.StoredObjectRecord) returns (events: seq<Action>)
    ensures var finals := Run(events).core.finals;
      && |finals| == 2 && finals[0].app == finals[1].app == 0 && finals[0].id != finals[1].id
      && !finals[0].superseded && !finals[1].superseded
  {
    var documents := TwoVersions(record);
    var before := PreparedRun(documents, 5);
    var s := Run(before);
    TwoVersionsAreSettled(s.core.docs, 6, 4);
    PreparedIsReady(s, s.core.docs);
    Reachable(before);
    BothStand(s);
    events := before + [Submit(0, 0)] + [AcceptOlder()] + [Submit(0, 0)];
    RunOneMore(before, Submit(0, 0));
    RunOneMore(before + [Submit(0, 0)], AcceptOlder());
    RunOneMore(before + [Submit(0, 0)] + [AcceptOlder()], Submit(0, 0));
  }

  lemma BothStand(s: System)
    requires Inv(s) && Ready(s.core, 0) && s.core.finals == []
    requires Stage5(s) && VersionAt(s, 1, D.Pending) && VersionAt(s, 4, D.Accepted)
    ensures var finals := Step(Step(Step(s, Submit(0, 0)), AcceptOlder()), Submit(0, 0)).core.finals;
      && |finals| == 2 && finals[0].app == finals[1].app == 0 && finals[0].id != finals[1].id
      && !finals[0].superseded && !finals[1].superseded
  {
    var s1 := Step(s, Submit(0, 0));
    FirstSubmission(s);
    assert forall k :: 0 <= k < 5 ==> SectionReady(s1.core, 0, REQUIRED_SECTIONS[k]) == SectionReady(s.core, 0, REQUIRED_SECTIONS[k]);
    OlderVersionAccepted(s1);
    SecondSubmission(s, s1, Step(s1, AcceptOlder()));
  }

  function AcceptOlder(): Action {
    Decide(D.Accept(1, "actor"))
  }

  lemma FirstSubmission(s: System)
    requires Ready(s.core, 0) && s.core.finals == []
    ensures var s1 := Step(s, Submit(0, 0));
      s1.core.finals == [Confirmation(s.core, 0, s.next, 0)] && s1.core.docs == s.core.docs && s1.core.confirmed == s.core.confirmed
      && s1.core.drafts.drafts == s.core.drafts.drafts
  {
  }

  /** Submitting again after the older version was accepted appends a confirmation and supersedes none. */
  lemma SecondSubmission(s: System, s1: System, s2: System)
    requires Inv(s) && Ready(s.core, 0) && s.core.finals == []
    requires s1 == Step(s, Submit(0, 0)) && s2 == Step(s1, AcceptOlder())
    requires Effective(s1, AcceptOlder(), 0) && Ready(s2.core, 0) && s2.core.finals == s1.core.finals
    ensures Step(s2, Submit(0, 0)).core.finals == [Confirmation(s.core, 0, s.next, 0), Confirmation(s2.core, 0, s2.next, 0)]
    ensures s.next != s2.next
  {
    FirstSubmission(s);
    var i := SubmitLeavesStanding(s, 0, 0);
    var final := s1.core.finals[0];
    StepKeepsInv(s, Submit(0, 0));
    StepKeepsInv(s1, AcceptOlder());
    EffectiveLapses(s1, AcceptOlder(), 0, final, 0);
    LapsedAppends(s2, final);
  }

  lemma LapsedAppends(s: System, final: FinalConfirmation)
    requires Inv(s) && Ready(s.core, 0) && Lapsed(s, 0, final, 0)
    requires s.core.finals == [final]
    ensures Step(s, Submit(0, 0)).core.finals == s.core.finals + [Confirmation(s.core, 0, s.next, 0)] && final.id != s.next
  {
    LapsedIsNotReturned(s, 0, 0, final, 0);
    assert Active(s.core.finals, 0) == if final.superseded then None else Some(final);
  }
}
