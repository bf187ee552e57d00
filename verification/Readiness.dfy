/**
 * The readiness gate (app/main.py, ReadinessGate): requests share a bounded semaphore for blocking probe workers, which
 * go on running after the request that started them has given up.
 */
module Readiness {
  import opened Base
  /** A worker holds its permit until its completion callback has run. */
  datatype Worker = NotStarted | Running | Finished(ok: bool) | Released(ok: bool)

  datatype Request = Waiting | Awaiting | Answered(ready: bool)

  /** One call of `is_ready`, with how often it took a permit and how often one was given back for it. */
  datatype Call = Call(request: Request, worker: Worker, acquired: nat, released: nat)

  /** `overReleased` records that the bounded semaphore would have raised. */
  datatype Gate = Gate(max: nat, free: nat, calls: map<nat, Call>, overReleased: bool)

  function New(max: nat): Gate {
    Gate(max, max, map[], false)
  }

  /** Everything that can happen, in any order. */
  datatype Event =
    | Arrive(id: nat)
    | GiveUpWaiting(id: nat)
    | AcquireTooLate(id: nat)
    | AcquireAndStart(id: nat)
    | ProbesEnd(id: nat, sqlOk: bool, storageOk: bool)
    | CompletionCallback(id: nat)
    | GiveUpAwaiting(id: nat)
    | SeeResult(id: nat)

  function Release(g: Gate): Gate {
    if g.free >= g.max then g.(overReleased := true) else g.(free := g.free + 1)
  }

  function Put(g: Gate, id: nat, c: Call): Gate {
    g.(calls := g.calls[id := c])
  }

  function Step(g: Gate, e: Event): Gate {
    if e.Arrive? then
      if e.id in g.calls then g else Put(g, e.id, Call(Waiting, NotStarted, 0, 0))
    else if e.id !in g.calls then g
    else
      var c := g.calls[e.id];
      match e
      case Arrive(_) => g
      case GiveUpWaiting(id) => if c.request.Waiting? then Put(g, id, c.(request := Answered(false))) else g
      case AcquireTooLate(id) =>
        if c.request.Waiting? && g.free > 0
        then Put(Release(g.(free := g.free - 1)), id, c.(request := Answered(false), acquired := c.acquired + 1, released := c.released + 1))
        else g
      case AcquireAndStart(id) =>
        if c.request.Waiting? && g.free > 0
        then Put(g.(free := g.free - 1), id, Call(Awaiting, Running, c.acquired + 1, c.released))
        else g
      case ProbesEnd(id, sqlOk, storageOk) =>
        // The storage probe runs only after the SQL probe has returned; either error ends the worker.
        if c.worker.Running? then Put(g, id, c.(worker := Finished(sqlOk && storageOk))) else g
      case CompletionCallback(id) =>
        if c.worker.Finished? then Put(Release(g), id, c.(worker := Released(c.worker.ok), released := c.released + 1)) else g
      case GiveUpAwaiting(id) => if c.request.Awaiting? then Put(g, id, c.(request := Answered(false))) else g
      case SeeResult(id) =>
        if c.request.Awaiting? && (c.worker.Finished? || c.worker.Released?)
        then Put(g, id, c.(request := Answered(c.worker.ok))) else g
  }

  function Run(max: nat, events: seq<Event>): Gate {
    if events == [] then New(max) else Step(Run(max, events[..|events| - 1]), events[|events| - 1])
  }

  predicate Holds(c: Call) {
    c.worker.Running? || c.worker.Finished?
  }

  ghost function Holders(g: Gate): set<nat> {
    set id | id in g.calls && Holds(g.calls[id])
  }

  /** The calls whose probe worker is running. */
  ghost function Probing(g: Gate): set<nat> {
    set id | id in g.calls && g.calls[id].worker.Running?
  }

  ghost predicate CallOk(c: Call) {
    && c.acquired == c.released + (if Holds(c) then 1 else 0)
    && c.acquired <= 1
    && (c.request.Waiting? ==> c.worker.NotStarted? && c.acquired == 0)
    && (c.request.Awaiting? ==> !c.worker.NotStarted?)
    && (c.request == Answered(true) ==> c.worker == Finished(true) || c.worker == Released(true))
  }

  ghost predicate Inv(g: Gate) {
    && g.free + |Holders(g)| == g.max
    && !g.overReleased
    && forall id :: id in g.calls ==> CallOk(g.calls[id])
  }

  lemma HoldersAfter(g: Gate, g': Gate, id: nat, c: Call)
    requires g'.calls == g.calls[id := c]
    ensures Holds(c) ==> Holders(g') == Holders(g) + {id}
    ensures !Holds(c) ==> Holders(g') == Holders(g) - {id}
  {
  }

  lemma SizeAfter(s: set<nat>, id: nat)
    ensures id in s ==> s + {id} == s && |s - {id}| == |s| - 1
    ensures id !in s ==> |s + {id}| == |s| + 1 && s - {id} == s
  {
  }

  lemma StepKeepsInv(g: Gate, e: Event)
    requires Inv(g)
    ensures Inv(Step(g, e)) && Step(g, e).max == g.max
  {
    var g' := Step(g, e);
    if g' != g {
      HoldersAfter(g, g', e.id, g'.calls[e.id]);
      SizeAfter(Holders(g), e.id);
      CallStaysOk(g, e);
      PermitsBalance(g, e);
    }
  }

  lemma CallStaysOk(g: Gate, e: Event)
    requires Inv(g)
    ensures forall id :: id in Step(g, e).calls ==> CallOk(Step(g, e).calls[id])
  {
  }

  lemma PermitsBalance(g: Gate, e: Event)
    requires Inv(g) && Step(g, e) != g
    ensures var g' := Step(g, e); var c' := g'.calls[e.id];
      && e.id in g'.calls && g'.calls == g.calls[e.id := c'] && !g'.overReleased && g'.max == g.max
      && g'.free + (if Holds(c') then 1 else 0) == g.free + (if e.id in Holders(g) then 1 else 0)
  {
    if e.id in Holders(g) { SizeAfter(Holders(g), e.id); }
  }

  lemma {:induction false} Always(max: nat, events: seq<Event>)
    ensures Inv(Run(max, events)) && Run(max, events).max == max
  {
    if events == [] {
      assert Holders(New(max)) == {};
    } else {
      Always(max, events[..|events| - 1]);
      StepKeepsInv(Run(max, events[..|events| - 1]), events[|events| - 1]);
    }
  }

  /**
   * In every interleaving free and held permits add up, the semaphore is never released too often, no call takes more
   * than one permit, and a call has given back what it took except while its worker runs or awaits its callback.
   */
  lemma PermitsAreConserved(max: nat, events: seq<Event>)
    ensures var g := Run(max, events);
      && g.free + |Holders(g)| == max && !g.overReleased
      && (forall id :: id in g.calls ==>
            && g.calls[id].acquired <= 1
            && g.calls[id].released == g.calls[id].acquired - (if id in Holders(g) then 1 else 0))
  {
    Always(max, events);
  }

  /** Never more than `max` probe workers run, timed-out requests included. */
  lemma WorkersAreBounded(max: nat, events: seq<Event>)
    ensures var g := Run(max, events);
            |Probing(g)| <= max
  {
    Always(max, events);
    var g := Run(max, events);
    SubsetSize(Probing(g), Holders(g));
  }

  /** This event ended the call's worker with both probes returning normally. */
  predicate BothProbesReturned(g: Gate, e: Event, id: nat) {
    e == ProbesEnd(id, true, true) && id in g.calls && g.calls[id].worker.Running?
  }

  /** The gate reports ready only if both probes of that very call returned without error. */
  lemma ReadyMeansBothProbesReturned(max: nat, events: seq<Event>, id: nat)
    requires AnsweredReady(Run(max, events), id)
    ensures exists i: nat :: Returned(max, events, id, i)
  {
    Always(max, events);
    WentWellIff(max, events, id);
  }

  /** The call looks at its worker's result while it still waits for it. */
  predicate Looks(g: Gate, e: Event, id: nat) {
    e == SeeResult(id) && id in g.calls && g.calls[id].request.Awaiting?
  }

  predicate WentWell(g: Gate, id: nat) {
    id in g.calls && (g.calls[id].worker == Finished(true) || g.calls[id].worker == Released(true))
  }

  predicate AnsweredReady(g: Gate, id: nat) {
    id in g.calls && g.calls[id].request == Answered(true)
  }

  lemma StepGoesWell(g: Gate, e: Event, id: nat)
    requires Inv(g)
    ensures WentWell(Step(g, e), id) <==> WentWell(g, id) || BothProbesReturned(g, e, id)
  {
  }

  lemma StepAnswersReady(g: Gate, e: Event, id: nat)
    requires Inv(g)
    ensures AnsweredReady(Step(g, e), id) <==> AnsweredReady(g, id) || (Looks(g, e, id) && WentWell(g, id))
  {
  }

  ghost predicate Returned(max: nat, events: seq<Event>, id: nat, i: nat) {
    i < |events| && BothProbesReturned(Run(max, events[..i]), events[i], id)
  }

  lemma ReturnedLonger(max: nat, events: seq<Event>, id: nat, i: nat)
    requires i + 1 < |events|
    ensures Returned(max, events, id, i) <==> Returned(max, events[..|events| - 1], id, i)
  {
    assert events[..|events| - 1][..i] == events[..i];
  }

  lemma {:induction false} WentWellIff(max: nat, events: seq<Event>, id: nat)
    ensures WentWell(Run(max, events), id) <==> exists i: nat :: Returned(max, events, id, i)
  {
    if events != [] {
      var n := |events| - 1;
      WentWellIff(max, events[..n], id);
      Always(max, events[..n]);
      StepGoesWell(Run(max, events[..n]), events[n], id);
      forall i: nat | i < n ensures Returned(max, events, id, i) <==> Returned(max, events[..n], id, i) { ReturnedLonger(max, events, id, i); }
      assert Returned(max, events, id, n) <==> BothProbesReturned(Run(max, events[..n]), events[n], id);
    }
  }

  /** The call looked at this point, while it still waited, and both its probes had returned before. */
  ghost predicate LooksAfter(max: nat, events: seq<Event>, id: nat, j: nat) {
    && j < |events| && Looks(Run(max, events[..j]), events[j], id)
    && exists i: nat :: Returned(max, events[..j], id, i)
  }

  lemma LooksLonger(max: nat, events: seq<Event>, id: nat, j: nat)
    requires j + 1 < |events|
    ensures LooksAfter(max, events, id, j) <==> LooksAfter(max, events[..|events| - 1], id, j)
  {
    assert events[..|events| - 1][..j] == events[..j];
  }

  /** A call answers that the service is ready exactly if it looked, while it still waited, after both its probes had returned. */
  lemma {:induction false} ReadyIff(max: nat, events: seq<Event>, id: nat)
    ensures AnsweredReady(Run(max, events), id) <==> exists j: nat :: LooksAfter(max, events, id, j)
  {
    if events != [] {
      var n := |events| - 1;
      ReadyIff(max, events[..n], id);
      Always(max, events[..n]);
      WentWellIff(max, events[..n], id);
      StepAnswersReady(Run(max, events[..n]), events[n], id);
      forall j: nat | j < n ensures LooksAfter(max, events, id, j) <==> LooksAfter(max, events[..n], id, j) { LooksLonger(max, events, id, j); }
      assert LooksAfter(max, events, id, n) <==> Looks(Run(max, events[..n]), events[n], id) && WentWell(Run(max, events[..n]), id);
    }
  }
}
