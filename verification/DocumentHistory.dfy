/** What every run keeps of document slots and versions, with uploads racing each other and the administrators. */
module DocumentHistory {
  import opened Base
  import opened Workflow
  import opened Submission
  import opened Finalize
  import opened SlotRules
  import D = Documents

  /**
   * However a run goes on, no slot or version disappears, a version's content and number stay, a decided version stays
   * as decided, and a slot differs from before only at a higher row version.
   */
  lemma {:induction false} HistoryOnlyGrows(s: System, events: seq<Action>)
    requires Inv(s)
    ensures D.Forward(s.core.docs, RunFrom(s, events).core.docs)
    decreases |events|
  {
    if events == [] {
      D.StandingStill(s.core.docs);
    } else {
      var prior := RunFrom(s, events[..|events| - 1]);
      HistoryOnlyGrows(s, events[..|events| - 1]);
      RunKeepsInv(s, events[..|events| - 1]);
      DocumentsMoveOn(prior, events[|events| - 1]);
      D.ForwardTrans(s.core.docs, prior.core.docs, RunFrom(s, events).core.docs);
    }
  }

  /** In every reachable state versions are numbered 1..n and the active pointer names an accepted, visible version. */
  lemma SlotsAreConsistent(events: seq<Action>, id: Uuid)
    requires id in Run(events).core.docs.slots
    ensures var docs := Run(events).core.docs;
      && id in docs.slotVersions
      && (forall i :: 0 <= i < |docs.slotVersions[id]| ==>
            && docs.slotVersions[id][i] in docs.versions
            && docs.versions[docs.slotVersions[id][i]].slot == id
            && docs.versions[docs.slotVersions[id][i]].number == i + 1)
      && (docs.slots[id].active.Some? ==>
            && docs.slots[id].active.value in docs.versions
            && var v := docs.versions[docs.slots[id].active.value];
               v.slot == id && v.status == D.Accepted && v.classification == D.ApplicantVisible)
      && (docs.slots[id].active.Some? ==> D.SafeApplicantSlot(docs.slots[id]))
  {
    Reachable(events);
    assert D.SlotOk(Run(events).core.docs, id);
  }

  ghost predicate Registers(s: System, e: Action) {
    e.RegisterUpload? && e.ticket in s.tickets && D.Registrable(s.core.docs, s.tickets[e.ticket])
  }

  /** Of the uploads that began at one row version of a slot, at most one registers, in any interleaving. */
  lemma AtMostOneUploadRegisters(before: seq<Action>, first: Action, between: seq<Action>, second: Action)
    requires Registers(Run(before), first)
    requires Registers(RunFrom(Step(Run(before), first), between), second)
    ensures var t1 := Run(before).tickets[first.ticket];
            var t2 := RunFrom(Step(Run(before), first), between).tickets[second.ticket];
            !(t1.slot.id == t2.slot.id && t1.expected == t2.expected)
  {
    var s := Run(before);
    Reachable(before);
    StepKeepsInv(s, first);
    assert D.SlotOk(s.core.docs, s.tickets[first.ticket].slot.id);
    HistoryOnlyGrows(Step(s, first), between);
  }

  // ------------------------------------------------------------------
  // The state of a slot, read off the events
  // ------------------------------------------------------------------

  /** What the successful operations on a slot came to: its mode, active version and document, and how many there were. */
  datatype Story = Absent | Story(mode: D.UploadMode, active: Option<Uuid>, document: Option<Uuid>, changes: nat)

  function StoryAfterDecision(docs: D.Registry, story: Story, d: D.Decision, id: Uuid): Story
    requires story.Story?
  {
    match d
    case OpenSlot(_, slot, mode, _, _) => if slot == id then story.(mode := mode, changes := story.changes + 1) else story
    case Accept(version, _) =>
      if version in docs.versions && docs.versions[version].slot == id
      then story.(active := Some(version), changes := story.changes + 1) else story
    case Reject(_, _, _) => story
    case Restore(slot, version, _) => if slot == id then story.(active := Some(version), changes := story.changes + 1) else story
  }

  ghost function NextStory(s: System, story: Story, e: Action, id: Uuid): Story {
    if e.AddSlot? && s.next == id && !D.AddRefused(e.spec) then Story(D.Closed, None, None, 0)
    else if story.Absent? then Absent
    else if e.Decide? && D.DecisionError(s.core.docs, e.decision).None? then StoryAfterDecision(s.core.docs, story, e.decision, id)
    else if e.ReopenSlot? && e.slot == id && ReopenSlotResult(s.core, e.app, id, e.reason, e.actor, e.group).Ok? then
      story.(mode := D.Replacement, changes := story.changes + 1)
    else if Registers(s, e) && s.tickets[e.ticket].slot.id == id then
      story.(mode := D.Closed, document := Some(s.tickets[e.ticket].document), changes := story.changes + 1)
    else story
  }

  ghost function StoryOf(events: seq<Action>, id: Uuid): Story {
    if events == [] then Absent
    else var n := |events| - 1; NextStory(Run(events[..n]), StoryOf(events[..n], id), events[n], id)
  }

  ghost predicate Told(docs: D.Registry, story: Story, id: Uuid) {
    && (id in docs.slots <==> story.Story?)
    && (story.Story? ==>
          && docs.slots[id].mode == story.mode && docs.slots[id].active == story.active
          && docs.slots[id].document == story.document && docs.slots[id].rowVersion == 1 + story.changes)
  }

  lemma StepTells(s: System, story: Story, e: Action, id: Uuid)
    requires Inv(s) && Told(s.core.docs, story, id)
    ensures Told(Step(s, e).core.docs, NextStory(s, story, e, id), id)
  {
    var docs := s.core.docs;
    if e.Decide? {
      assert Step(s, e).core.docs == D.AfterDecision(docs, e.decision);
      if D.DecisionError(docs, e.decision).None? {
        if story.Story? { DecisionTells(docs, story, e.decision, id); }
        D.DecisionKeepsKeys(docs, e.decision);
      } else {
        RefusedDecision(docs, e.decision);
      }
    } else if e.RegisterUpload? {
      RegistrationTells(s, story, e, id);
    } else if e.ReopenSlot? {
      ReopeningIs(s.core, e);
    } else if e.AddSlot? {
      AddEffect(docs, s.next, e.app, e.spec);
    } else {
      OtherStepsKeepDocuments(s, e);
    }
  }

  lemma RefusedDecision(docs: D.Registry, d: D.Decision)
    requires D.DecisionError(docs, d).Some?
    ensures D.AfterDecision(docs, d) == docs
  {
  }

  /** A reopening of a slot opens that slot for a replacement or leaves the documents alone. */
  lemma ReopeningIs(c: Core, e: Action)
    requires e.ReopenSlot?
    ensures var docs' := AfterReopenSlot(c, e.app, e.slot, e.reason, e.actor, e.group, e.now).docs;
      if ReopenSlotResult(c, e.app, e.slot, e.reason, e.actor, e.group).Ok? then
        && e.slot in c.docs.slots
        && docs' == c.docs.(slots := c.docs.slots[
             e.slot := c.docs.slots[e.slot].(mode := D.Replacement, rowVersion := c.docs.slots[e.slot].rowVersion + 1)])
      else docs' == c.docs
  {
  }

  lemma DecisionTells(docs: D.Registry, story: Story, d: D.Decision, id: Uuid)
    requires D.Valid(docs) && Told(docs, story, id) && story.Story? && D.DecisionError(docs, d).None?
    ensures Told(D.AfterDecision(docs, d), StoryAfterDecision(docs, story, d, id), id)
  {
    DecisionEffect(docs, d);
  }

  lemma RegistrationTells(s: System, story: Story, e: Action, id: Uuid)
    requires Inv(s) && Told(s.core.docs, story, id) && e.RegisterUpload?
    ensures Told(Step(s, e).core.docs, NextStory(s, story, e, id), id)
  {
    if e.ticket in s.tickets {
      var t := s.tickets[e.ticket];
      RegistrationEffect(s.core.docs, t, e.record, e.name);
      UploadAllowedIff(s.core.docs, t.slot.app, t.slot.id, t.expected);
      assert Step(s, e).core.docs == D.AfterRegister(s.core.docs, t, e.record, e.name);
    }
  }

  /**
   * In every reachable state the active version of a slot is that of its last successful acceptance or restoration, its
   * mode is that of its last opening unless an upload has registered since, and its row version counts its changes.
   */
  lemma {:induction false} SlotsTellTheirStory(events: seq<Action>, id: Uuid)
    ensures Told(Run(events).core.docs, StoryOf(events, id), id)
  {
    if events != [] {
      var n := |events| - 1;
      SlotsTellTheirStory(events[..n], id);
      Reachable(events[..n]);
      StepTells(Run(events[..n]), StoryOf(events[..n], id), events[n], id);
    }
  }
}
