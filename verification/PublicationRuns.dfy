/**
 * Runs of the Crossref lookup cache (app/applicant/publications.py): one thread after another, and the two locked
 * sections of many lookups in any interleaving, while callers edit the answers they hold.
 */
module PublicationRuns {
  import opened Base
  import opened PublicationLookup

  datatype Service = Service(cacheSize: nat, normalize: string -> Option<string>, crossref: string -> Result<Content, Failure>)

  /** The answer without any cache. */
  function Uncached(s: Service, raw: string): Result<Content, Failure> {
    match s.normalize(raw)
    case None => Err(InvalidDoi)
    case Some(doi) => s.crossref(doi)
  }

  /** The identifiers among those asked for that resolve, in order. */
  function Resolved(s: Service, asked: seq<string>): seq<string> {
    if asked == [] then [] else Resolved(s, asked[..|asked| - 1]) + ResolvedOf(s, asked[|asked| - 1])
  }

  function ResolvedOf(s: Service, raw: string): seq<string> {
    if Uncached(s, raw).Ok? then [s.normalize(raw).value] else []
  }

  /** The keys after a lookup that was answered. */
  function OrderAfter(s: Service, order: seq<string>, raw: string): seq<string> {
    if Uncached(s, raw).Ok? then Used(order, s.normalize(raw).value, s.cacheSize) else order
  }

  /** Every answer is the uncached one, and the keys are the newest of those that resolved. */
  ghost predicate Recorded(s: Service, asked: seq<string>, said: seq<Result<Content, Failure>>, order: seq<string>) {
    && |said| == |asked|
    && (forall k :: 0 <= k < |asked| ==> said[k] == Uncached(s, asked[k]))
    && order == Keys(Resolved(s, asked), s.cacheSize)
  }

  lemma RecordedMore(s: Service, asked: seq<string>, said: seq<Result<Content, Failure>>, order: seq<string>, raw: string)
    requires Recorded(s, asked, said, order)
    ensures Recorded(s, asked + [raw], said + [Uncached(s, raw)], OrderAfter(s, order, raw))
  {
    var uses, more := Resolved(s, asked), ResolvedOf(s, raw);
    assert (asked + [raw])[..|asked|] == asked;
    assert Resolved(s, asked + [raw]) == uses + more;
    if more == [] {
      assert uses + [] == uses;
    } else {
      assert (uses + more)[..|uses|] == uses;
    }
  }

  lemma NothingRecorded(s: Service)
    ensures Recorded(s, [], [], [])
  {
  }

  lemma RecordedMeans(s: Service, asked: seq<string>, said: seq<Result<Content, Failure>>, order: seq<string>)
    requires Recorded(s, asked, said, order) && s.cacheSize >= 1
    ensures order == Newest(Recency(Resolved(s, asked)), s.cacheSize)
  {
    KeysAreTheMostRecent(Resolved(s, asked), s.cacheSize);
  }

  // ------------------------------------------------------------------
  // One lookup after another
  // ------------------------------------------------------------------

  /** Each lookup answers as if there were no cache, whose keys at the end are the newest of those that resolved. */
  method LookupAll(s: Service, raws: seq<string>) returns (said: seq<Result<Content, Failure>>, order: seq<string>)
    requires 1 <= s.cacheSize <= 2048
    ensures |said| == |raws| && forall k :: 0 <= k < |raws| ==> said[k] == Uncached(s, raws[k])
    ensures order == Newest(Recency(Resolved(s, raws)), s.cacheSize)
  {
    var lookup := new CrossrefPublicationLookup(s.cacheSize, s.normalize, s.crossref);
    said := [];
    NothingRecorded(s);
    for k := 0 to |raws|
      invariant lookup.Valid() && fresh(lookup.Repr) && ServiceOf(lookup) == s
      invariant Recorded(s, raws[..k], said, lookup.order)
    {
      RecordedMore(s, raws[..k], said, lookup.order, raws[k]);
      var answer := Ask(lookup, raws[k]);
      said := said + [answer];
      assert raws[..k + 1] == raws[..k] + [raws[k]];
    }
    assert raws[..|raws|] == raws;
    order := lookup.order;
    RecordedMeans(s, raws, said, order);
  }

  function ServiceOf(lookup: CrossrefPublicationLookup): Service {
    Service(lookup.cacheSize, lookup.normalize, lookup.crossref)
  }

  method Ask(lookup: CrossrefPublicationLookup, raw: string) returns (said: Result<Content, Failure>)
    requires lookup.Valid()
    modifies lookup
    ensures lookup.Valid() && fresh(lookup.Repr - old(lookup.Repr))
    ensures said == Uncached(ServiceOf(lookup), raw) && lookup.order == OrderAfter(ServiceOf(lookup), old(lookup.order), raw)
  {
    var r := lookup.Lookup(raw);
    match r
    case Ok(answer) => said := Ok(answer.Says());
    case Err(e) => said := Err(e);
  }

  // ------------------------------------------------------------------
  // Many threads
  // ------------------------------------------------------------------

  /** A lookup between its two locked sections: asking the network, or with an answer of its own to store. */
  datatype Call = Asking(raw: string, doi: string) | Answered(raw: string, doi: string, metadata: Metadata, authors: Authors)

  datatype Answer = Answer(metadata: Metadata, authors: Authors)

  function ObjectsOf(call: Call): set<object> {
    if call.Answered? then {call.metadata, call.authors} else {}
  }

  /** No two lookups share an object they have yet to store, and all these are among the unstored. */
  ghost predicate Separate(calls: map<nat, Call>, unstored: set<object>) {
    && (forall t :: t in calls ==> ObjectsOf(calls[t]) <= unstored)
    && forall t, u :: t in calls && u in calls && t != u ==> ObjectsOf(calls[t]) !! ObjectsOf(calls[u])
  }

  lemma SeparateAfterStore(calls: map<nat, Call>, unstored: set<object>, thread: nat)
    requires Separate(calls, unstored) && thread in calls
    ensures Separate(calls - {thread}, unstored - ObjectsOf(calls[thread]))
  {
  }

  lemma SeparateAfterFetch(calls: map<nat, Call>, unstored: set<object>, thread: nat, call: Call)
    requires Separate(calls, unstored) && ObjectsOf(call) !! unstored
    ensures Separate(calls[thread := call], unstored + ObjectsOf(call))
  {
  }

  /** What a thread may do next; a caller may edit the last answer of its thread at any time. */
  datatype Event =
    | Begin(thread: nat, raw: string)
    | Fetch(thread: nat)
    | Store(thread: nat)
    | Edit(thread: nat, fields: map<string, string>, authors: seq<string>)

  /** What `_metadata` makes of the network's answer. */
  method NewMetadata(content: Content) returns (metadata: Metadata)
    ensures fresh(metadata) && fresh(metadata.authors) && metadata.Says() == content
  {
    var authors := new Authors(content.authors);
    metadata := new Metadata(content.fields, authors);
  }

  // What a schedule comes to, without objects.

  /** A lookup under way: what it was asked, and whether the network has answered. */
  datatype Turn = Turn(raw: string, answered: bool)

  datatype Trace = Trace(turns: map<nat, Turn>, asked: seq<string>, said: seq<Result<Content, Failure>>, order: seq<string>)

  function Told(s: Service, t: Trace, raw: string): Trace {
    t.(asked := t.asked + [raw], said := t.said + [Uncached(s, raw)], order := OrderAfter(s, t.order, raw))
  }

  function AfterBegin(s: Service, t: Trace, thread: nat, raw: string): Trace {
    if s.normalize(raw).None? || s.normalize(raw).value in t.order then Told(s, t, raw)
    else t.(turns := t.turns[thread := Turn(raw, false)])
  }

  function AfterFetch(s: Service, t: Trace, thread: nat): Trace
    requires thread in t.turns
  {
    var raw := t.turns[thread].raw;
    if Uncached(s, raw).Ok? then t.(turns := t.turns[thread := Turn(raw, true)])
    else Told(s, t.(turns := t.turns - {thread}), raw)
  }

  function AfterStore(s: Service, t: Trace, thread: nat): Trace
    requires thread in t.turns
  {
    Told(s, t.(turns := t.turns - {thread}), t.turns[thread].raw)
  }

  /** An event that is not the thread's turn does nothing, and edits of answers never matter. */
  function After(s: Service, t: Trace, e: Event): Trace {
    match e
    case Begin(thread, raw) => if thread !in t.turns then AfterBegin(s, t, thread, raw) else t
    case Fetch(thread) => if thread in t.turns && !t.turns[thread].answered then AfterFetch(s, t, thread) else t
    case Store(thread) => if thread in t.turns && t.turns[thread].answered then AfterStore(s, t, thread) else t
    case Edit(_, _, _) => t
  }

  function AfterAll(s: Service, events: seq<Event>): Trace {
    if events == [] then Trace(map[], [], [], [])
    else After(s, AfterAll(s, events[..|events| - 1]), events[|events| - 1])
  }

  /** What every schedule keeps: uncached answers, and the newest keys by their last locked section. */
  lemma {:induction false} ScheduleIsRecorded(s: Service, events: seq<Event>)
    ensures var t := AfterAll(s, events); Recorded(s, t.asked, t.said, t.order)
  {
    if events == [] {
      NothingRecorded(s);
    } else {
      var t, e := AfterAll(s, events[..|events| - 1]), events[|events| - 1];
      ScheduleIsRecorded(s, events[..|events| - 1]);
      var raw := if e.Begin? then e.raw else if e.thread in t.turns then t.turns[e.thread].raw else "";
      RecordedMore(s, t.asked, t.said, t.order, raw);
    }
  }

  function TurnOf(call: Call): Turn {
    Turn(call.raw, call.Answered?)
  }

  function TurnsOf(calls: map<nat, Call>): map<nat, Turn> {
    map t | t in calls :: TurnOf(calls[t])
  }

  lemma TurnsAfterChange(calls: map<nat, Call>, thread: nat, call: Call)
    ensures TurnsOf(calls[thread := call]) == TurnsOf(calls)[thread := TurnOf(call)]
    ensures TurnsOf(calls - {thread}) == TurnsOf(calls) - {thread}
  {
  }

  class Threads {
    const lookup: CrossrefPublicationLookup
    var calls: map<nat, Call>
    var answers: map<nat, Answer>
    /** What was asked and what was said, in the order of the answers. */
    var asked: seq<string>
    var said: seq<Result<Content, Failure>>
    /** The objects of answers not yet stored, and of those given to callers. */
    ghost var unstored: set<object>
    ghost var given: set<object>

    ghost predicate Valid()
      reads this, lookup, lookup.Repr, unstored, given
    {
      lookup.Valid() && Apart() && Separate(calls, unstored) && Fetched(calls) && Held()
    }

    ghost function View(): Trace
      reads this, lookup
    {
      Trace(TurnsOf(calls), asked, said, lookup.order)
    }

    /** The cache, the answers not yet stored and those given away share no object. */
    ghost predicate Apart()
      reads this`unstored, this`given, lookup
    {
      && this !in lookup.Repr + unstored + given && lookup !in unstored + given
      && lookup.Repr !! unstored && lookup.Repr !! given && unstored !! given
    }

    /** Every lookup under way has what the network answered for its identifier. */
    ghost predicate Fetched(calls: map<nat, Call>)
      reads this`unstored, unstored
    {
      forall t :: t in calls ==> CallOk(calls[t])
    }

    ghost predicate CallOk(call: Call)
      reads this`unstored, unstored
    {
      && lookup.normalize(call.raw) == Some(call.doi)
      && (call.Answered? ==>
            && call.metadata in unstored && call.authors in unstored && call.metadata.authors == call.authors
            && lookup.crossref(call.doi) == Ok(Content(call.metadata.fields, call.authors.items)))
    }

    ghost predicate Held()
      reads this`answers, this`given, given
    {
      forall t :: t in answers ==>
        answers[t].metadata in given && answers[t].authors in given && answers[t].metadata.authors == answers[t].authors
    }

    constructor (lookup: CrossrefPublicationLookup)
      requires lookup.Valid() && lookup.order == []
      ensures Valid() && this.lookup == lookup && unstored == {} && given == {}
      ensures View() == Trace(map[], [], [], [])
    {
      this.lookup := lookup;
      calls, answers, asked, said, unstored, given := map[], map[], [], [], {}, {};
    }

    /** Record what a lookup said. */
    method Say(raw: string, answer: Result<Content, Failure>)
      modifies this`asked, this`said
      ensures asked == old(asked) + [raw] && said == old(said) + [answer]
    {
      asked, said := asked + [raw], said + [answer];
    }

    /** Hand an answer to the caller, in objects of its own. */
    method Give(thread: nat, answer: Metadata)
      requires Apart() && Held() && {answer, answer.authors} !! lookup.Repr + unstored + {this, lookup}
      modifies this`answers, this`given
      ensures Apart() && Held() && given == old(given) + {answer, answer.authors}
    {
      answers := answers[thread := Answer(answer, answer.authors)];
      given := given + {answer, answer.authors};
    }

    /** Normalisation and the first locked section; without a hit the thread goes on to ask the network. */
    method BeginLookup(thread: nat, raw: string)
      requires Valid() && thread !in calls
      modifies this, lookup
      ensures Valid() && lookup.Repr == old(lookup.Repr) && unstored == old(unstored) && fresh(given - old(given))
      ensures View() == AfterBegin(ServiceOf(lookup), old(View()), thread, raw)
    {
      var normalized := lookup.normalize(raw);
      if normalized.None? {
        Say(raw, Err(InvalidDoi));
        return;
      }
      var hit := FirstSection(thread, raw, normalized.value);
      if !hit { Await(thread, raw, normalized.value); }
    }

    method FirstSection(thread: nat, raw: string, doi: string) returns (hit: bool)
      requires lookup.Valid() && Apart() && Held()
      modifies this`answers, this`given, this`asked, this`said, lookup
      ensures lookup.Valid() && lookup.Repr == old(lookup.Repr) && Apart() && Held() && fresh(given - old(given))
      ensures hit == (doi in old(lookup.order))
      ensures asked == old(asked) + (if hit then [raw] else []) && said == old(said) + if hit then [lookup.crossref(doi)] else []
      ensures lookup.order == if hit then Used(old(lookup.order), doi, lookup.cacheSize) else old(lookup.order)
    {
      var cached := lookup.Check(doi);
      hit := cached.Some?;
      if hit {
        assert {cached.value, cached.value.authors} !! lookup.Repr + unstored + {this, lookup};
        Give(thread, cached.value);
        Say(raw, Ok(cached.value.Says()));
      }
    }

    method Await(thread: nat, raw: string, doi: string)
      requires Separate(calls, unstored) && Fetched(calls) && thread !in calls && lookup.normalize(raw) == Some(doi)
      modifies this`calls
      ensures TurnsOf(calls) == TurnsOf(old(calls))[thread := Turn(raw, false)] && Separate(calls, unstored) && Fetched(calls)
    {
      var call := Asking(raw, doi);
      SeparateAfterFetch(calls, unstored, thread, call);
      TurnsAfterChange(calls, thread, call);
      assert unstored + {} == unstored;
      forall t | t in calls ensures CallOk(calls[t]) {}
      calls := calls[thread := call];
    }

    /** Outside the lock: the network answers, or fails and the lookup with it. */
    method FetchAnswer(thread: nat)
      requires Valid() && thread in calls && calls[thread].Asking?
      modifies this
      ensures Valid() && lookup.Repr == old(lookup.Repr) && fresh(unstored - old(unstored)) && given == old(given)
      ensures View() == AfterFetch(ServiceOf(lookup), old(View()), thread)
    {
      var call := calls[thread];
      assert CallOk(call);
      match lookup.crossref(call.doi) {
        case Err(e) =>
          Remove(thread);
          Say(call.raw, Err(e));
        case Ok(content) => Receive(thread, content);
      }
    }

    /** The network's answer, in new objects that are the thread's own. */
    method Receive(thread: nat, content: Content)
      requires Apart() && Separate(calls, unstored) && Fetched(calls) && Held() && lookup in lookup.Repr
      requires thread in calls && calls[thread].Asking? && lookup.crossref(calls[thread].doi) == Ok(content)
      modifies this`calls, this`unstored
      ensures fresh(unstored - old(unstored)) && old(unstored) <= unstored
      ensures Separate(calls, unstored) && Fetched(calls)
      ensures TurnsOf(calls) == TurnsOf(old(calls))[thread := Turn(old(calls)[thread].raw, true)]
    {
      var call := calls[thread];
      assert CallOk(call);
      var metadata := NewMetadata(content);
      var answered := Answered(call.raw, call.doi, metadata, metadata.authors);
      SeparateAfterFetch(calls, unstored, thread, answered);
      TurnsAfterChange(calls, thread, answered);
      forall t | t in calls ensures CallOk(calls[t]) {}
      unstored := unstored + ObjectsOf(answered);
      calls := calls[thread := answered];
    }

    /** The second locked section, and the answer. */
    method StoreAnswer(thread: nat)
      requires Valid() && thread in calls && calls[thread].Answered?
      modifies this, lookup
      ensures Valid() && lookup.Repr == old(lookup.Repr + ObjectsOf(calls[thread])) && unstored <= old(unstored)
      ensures fresh(given - old(given))
      ensures View() == AfterStore(ServiceOf(lookup), old(View()), thread)
    {
      var call := calls[thread];
      assert CallOk(call);
      Remove(thread);
      SecondSection(thread, call);
    }

    method SecondSection(thread: nat, call: Call)
      requires lookup.Valid() && Apart() && Held()
      requires call.Answered? && lookup.normalize(call.raw) == Some(call.doi) && call.metadata.authors == call.authors
      requires lookup.crossref(call.doi) == Ok(call.metadata.Says())
      requires ObjectsOf(call) !! unstored + given + {this, lookup}
      modifies this`answers, this`given, this`asked, this`said, lookup
      ensures lookup.Valid() && Apart() && Held()
      ensures lookup.Repr == old(lookup.Repr) + ObjectsOf(call) && fresh(given - old(given))
      ensures asked == old(asked) + [call.raw] && said == old(said) + [lookup.crossref(call.doi)]
      ensures lookup.order == Used(old(lookup.order), call.doi, lookup.cacheSize)
    {
      lookup.Insert(call.doi, call.metadata);
      var copy := CopyMetadata(call.metadata);
      assert {copy, copy.authors} !! lookup.Repr + unstored + {this, lookup};
      Give(thread, copy);
      Say(call.raw, Ok(copy.Says()));
    }

    /** The lookup is over; what it fetched is no longer its own. */
    method Remove(thread: nat)
      requires Separate(calls, unstored) && Fetched(calls) && thread in calls
      modifies this`calls, this`unstored
      ensures TurnsOf(calls) == TurnsOf(old(calls)) - {thread} && unstored == old(unstored) - ObjectsOf(old(calls)[thread])
      ensures Separate(calls, unstored) && Fetched(calls)
    {
      SeparateAfterStore(calls, unstored, thread);
      TurnsAfterChange(calls, thread, calls[thread]);
      forall t | t in calls && t != thread ensures CallOk(calls[t]) && ObjectsOf(calls[t]) !! ObjectsOf(calls[thread]) {}
      ghost var gone := ObjectsOf(calls[thread]);
      calls := calls - {thread};
      unstored := unstored - gone;
    }

    method EditAnswer(thread: nat, fields: map<string, string>, authors: seq<string>)
      requires Valid() && thread in answers
      modifies given
      ensures Valid()
    {
      answers[thread].authors.items := authors;
      answers[thread].metadata.fields := fields;
    }

    /** One event; an event that is not the thread's turn does nothing. */
    method Act(e: Event)
      requires Valid()
      modifies this, lookup, given
      ensures Valid() && fresh(given - old(given)) && fresh(unstored - old(unstored))
      ensures fresh(lookup.Repr - old(lookup.Repr) - old(unstored))
      ensures View() == After(ServiceOf(lookup), old(View()), e)
    {
      match e
      case Begin(thread, raw) => if thread !in calls { BeginLookup(thread, raw); }
      case Fetch(thread) => if thread in calls && calls[thread].Asking? { FetchAnswer(thread); }
      case Store(thread) => if thread in calls && calls[thread].Answered? { StoreAnswer(thread); }
      case Edit(thread, fields, authors) => if thread in answers { EditAnswer(thread, fields, authors); }
    }
  }

  /**
   * Any number of threads in any interleaving of their steps: the cache is never larger than its bound, every answer was
   * the uncached one when it was given, and the keys are the newest of those that resolved, by their last locked section.
   */
  method Interleave(s: Service, events: seq<Event>)
    returns (asked: seq<string>, said: seq<Result<Content, Failure>>, order: seq<string>, sizes: seq<nat>)
    requires 1 <= s.cacheSize <= 2048
    ensures |sizes| == |events| && forall k :: 0 <= k < |sizes| ==> sizes[k] <= s.cacheSize
    ensures asked == AfterAll(s, events).asked
    ensures |said| == |asked| && forall k :: 0 <= k < |asked| ==> said[k] == Uncached(s, asked[k])
    ensures order == Newest(Recency(Resolved(s, asked)), s.cacheSize)
  {
    var lookup := new CrossrefPublicationLookup(s.cacheSize, s.normalize, s.crossref);
    var threads := new Threads(lookup);
    sizes := [];
    for k := 0 to |events|
      invariant threads.Valid() && threads.lookup == lookup && ServiceOf(lookup) == s
      invariant fresh(lookup.Repr) && fresh(threads.given) && fresh(threads.unstored)
      invariant threads.View() == AfterAll(s, events[..k])
      invariant |sizes| == k && forall j :: 0 <= j < k ==> sizes[j] <= s.cacheSize
    {
      threads.Act(events[k]);
      assert events[..k + 1][..k] == events[..k];
      sizes := sizes + [|lookup.order|];
    }
    assert events[..|events|] == events;
    asked, said, order := threads.asked, threads.said, lookup.order;
    ScheduleIsRecorded(s, events);
    RecordedMeans(s, asked, said, order);
  }
}
