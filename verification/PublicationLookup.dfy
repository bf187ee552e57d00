/** The bounded Crossref lookup cache (app/applicant/publications.py, CrossrefPublicationLookup). */
module PublicationLookup {
  import opened Base

  /** What an answer says; two answers with the same content are indistinguishable until someone edits one. */
  datatype Content = Content(fields: map<string, string>, authors: seq<string>)

  datatype Failure = InvalidDoi | NotFound | Unavailable

  /** The list object inside an answer, which a caller may edit. */
  class Authors {
    var items: seq<string>

    constructor (items: seq<string>)
      ensures this.items == items
    {
      this.items := items;
    }
  }

  /** An answer, a dictionary object whose entries a caller may edit. */
  class Metadata {
    var fields: map<string, string>
    var authors: Authors

    constructor (fields: map<string, string>, authors: Authors)
      ensures this.fields == fields && this.authors == authors
    {
      this.fields, this.authors := fields, authors;
    }

    function Says(): Content
      reads this, authors
    {
      Content(fields, authors.items)
    }
  }

  /** `{**metadata, "authors": list(metadata["authors"])}` */
  method CopyMetadata(m: Metadata) returns (r: Metadata)
    ensures fresh(r) && fresh(r.authors) && r.Says() == m.Says()
  {
    var authors := new Authors(m.authors.items);
    r := new Metadata(m.fields, authors);
  }

  // ------------------------------------------------------------------
  // The order of use, oldest first
  // ------------------------------------------------------------------

  function Without(order: seq<string>, doi: string): seq<string> {
    if order == [] then []
    else
      var n := |order| - 1;
      Without(order[..n], doi) + if order[n] == doi then [] else [order[n]]
  }

  function Newest(order: seq<string>, n: nat): seq<string> {
    if |order| <= n then order else order[|order| - n..]
  }

  /** The keys after a use of `doi` in a cache of `size`. */
  function Used(order: seq<string>, doi: string, size: nat): seq<string> {
    Newest(Without(order, doi) + [doi], size)
  }

  ghost predicate Distinct(order: seq<string>) {
    forall i, j :: 0 <= i < j < |order| ==> order[i] != order[j]
  }

  lemma {:induction false} WithoutMembers(order: seq<string>, doi: string)
    ensures forall d :: d in Without(order, doi) <==> d in order && d != doi
  {
    if order != [] {
      WithoutMembers(order[..|order| - 1], doi);
      assert order == order[..|order| - 1] + [order[|order| - 1]];
    }
  }

  lemma {:induction false} WithoutAbsent(order: seq<string>, doi: string)
    requires doi !in order
    ensures Without(order, doi) == order
  {
    if order != [] { WithoutAbsent(order[..|order| - 1], doi); }
  }

  lemma {:induction false} WithoutDistinct(order: seq<string>, doi: string)
    requires Distinct(order)
    ensures Distinct(Without(order, doi))
    ensures |Without(order, doi)| == |order| - if doi in order then 1 else 0
  {
    if order != [] {
      var n := |order| - 1;
      WithoutDistinct(order[..n], doi);
      WithoutMembers(order[..n], doi);
      assert order == order[..n] + [order[n]] && order[n] !in order[..n];
    }
  }

  lemma UsedKeys(order: seq<string>, doi: string)
    requires Distinct(order)
    ensures var full := Without(order, doi) + [doi];
      Distinct(full) && |order| <= |full| <= |order| + 1 && forall d :: d in full <==> d in order || d == doi
    ensures doi in order ==> |Without(order, doi)| == |order| - 1
  {
    WithoutDistinct(order, doi);
    WithoutMembers(order, doi);
  }

  /** The distinct DOIs of a history, by last use. */
  function Recency(history: seq<string>): seq<string> {
    if history == [] then []
    else Without(Recency(history[..|history| - 1]), history[|history| - 1]) + [history[|history| - 1]]
  }

  // ------------------------------------------------------------------
  // The cache
  // ------------------------------------------------------------------

  class CrossrefPublicationLookup {
    const cacheSize: nat
    /** Normalisation of a raw DOI, and what Crossref answers for a normalised one. */
    const normalize: string -> Option<string>
    const crossref: string -> Result<Content, Failure>
    var cache: map<string, Metadata>
    var order: seq<string>
    ghost var Repr: set<object>

    ghost predicate Valid()
      reads this, Repr
    {
      && 1 <= cacheSize
      && this in Repr
      && Distinct(order) && |order| <= cacheSize
      && (forall doi :: doi in cache <==> doi in order)
      && (forall doi :: doi in cache ==>
            && cache[doi] in Repr && cache[doi].authors in Repr
            && crossref(doi) == Ok(cache[doi].Says()))
    }

    constructor (cacheSize: nat, normalize: string -> Option<string>, crossref: string -> Result<Content, Failure>)
      requires 1 <= cacheSize <= 2048
      ensures Valid() && fresh(Repr) && order == []
      ensures this.cacheSize == cacheSize && this.normalize == normalize && this.crossref == crossref
    {
      this.cacheSize, this.normalize, this.crossref := cacheSize, normalize, crossref;
      cache, order := map[], [];
      Repr := {this};
    }

    /** The first critical section: answer from the cache. */
    method Check(doi: string) returns (r: Option<Metadata>)
      requires Valid()
      modifies this
      ensures Valid() && Repr == old(Repr) && cache == old(cache)
      ensures r.Some? <==> doi in old(order)
      ensures r.Some? ==> fresh(r.value) && fresh(r.value.authors) && crossref(doi) == Ok(r.value.Says())
      ensures order == if doi in old(order) then Used(old(order), doi, cacheSize) else old(order)
    {
      if doi !in cache {
        return None;
      }
      UsedKeys(order, doi);
      order := Without(order, doi) + [doi];
      var copy := CopyMetadata(cache[doi]);
      r := Some(copy);
    }

    /** The second critical section: store what the transport answered and evict the oldest beyond the bound. */
    method Insert(doi: string, metadata: Metadata)
      requires Valid() && crossref(doi) == Ok(metadata.Says())
      modifies this
      ensures Valid() && Repr == old(Repr) + {metadata, metadata.authors}
      ensures order == Used(old(order), doi, cacheSize)
    {
      UsedKeys(order, doi);
      PutNewest(doi, metadata);
      EvictBeyondSize();
    }

    method PutNewest(doi: string, metadata: Metadata)
      requires Valid() && crossref(doi) == Ok(metadata.Says())
      modifies this
      ensures Repr == old(Repr) + {metadata, metadata.authors} && order == Without(old(order), doi) + [doi] && Distinct(order)
      ensures forall d :: d in cache <==> d in order
      ensures forall d :: d in cache ==> cache[d] in Repr && cache[d].authors in Repr && crossref(d) == Ok(cache[d].Says())
    {
      UsedKeys(order, doi);
      cache := cache[doi := metadata];
      order := Without(order, doi) + [doi];
      Repr := Repr + {metadata, metadata.authors};
    }

    /** `while len(self._cache) > self._cache_size` */
    method EvictBeyondSize()
      requires Distinct(order) && forall d :: d in cache <==> d in order
      modifies this`cache, this`order
      ensures order == Newest(old(order), cacheSize) && Distinct(order)
      ensures forall d :: d in cache <==> d in order
      ensures cache.Keys <= old(cache).Keys && forall d :: d in cache ==> cache[d] == old(cache)[d]
    {
      ghost var full := order;
      while |order| > cacheSize
        invariant |order| <= |full| && order == full[|full| - |order|..] && (|order| < |full| ==> |order| >= cacheSize)
        invariant Distinct(order)
        invariant forall d :: d in cache <==> d in order
        invariant cache.Keys <= old(cache).Keys && forall d :: d in cache ==> cache[d] == old(cache)[d]
      {
        EvictOldest();
      }
    }

    /** `popitem(last=False)` */
    method EvictOldest()
      requires order != [] && Distinct(order) && forall d :: d in cache <==> d in order
      modifies this`cache, this`order
      ensures order == old(order)[1..] && Distinct(order)
      ensures cache == old(cache) - {old(order)[0]}
      ensures forall d :: d in cache <==> d in order
    {
      var oldest := order[0];
      assert order == [oldest] + order[1..];
      cache := cache - {oldest};
      order := order[1..];
    }

    method Lookup(raw: string) returns (r: Result<Metadata, Failure>)
      requires Valid()
      modifies this
      ensures Valid() && fresh(Repr - old(Repr))
      ensures normalize(raw).None? ==> r == Err(InvalidDoi)
      ensures normalize(raw).Some? ==>
        match crossref(normalize(raw).value)
        case Err(e) => r == Err(e)
        case Ok(content) => r.Ok? && r.value.Says() == content
      ensures r.Ok? ==> fresh(r.value) && fresh(r.value.authors) && {r.value, r.value.authors} !! Repr
      ensures order == if r.Ok? then Used(old(order), normalize(raw).value, cacheSize) else old(order)
    {
      var normalized := normalize(raw);
      if normalized.None? {
        return Err(InvalidDoi);
      }
      var doi := normalized.value;
      var cached := Check(doi);
      if cached.Some? {
        return Ok(cached.value);
      }
      match crossref(doi)
      case Err(e) => return Err(e);
      case Ok(content) =>
        var authors := new Authors(content.authors);
        var metadata := new Metadata(content.fields, authors);
        Insert(doi, metadata);
        var copy := CopyMetadata(metadata);
        return Ok(copy);
    }
  }

  /** A caller may do what it likes with an answer: the cache stays as it is and keeps answering as before. */
  method EditAnswer(lookup: CrossrefPublicationLookup, raw: string, fields: map<string, string>, authors: seq<string>)
    returns (r: Result<Metadata, Failure>, again: Result<Metadata, Failure>)
    requires lookup.Valid()
    modifies lookup
    ensures lookup.Valid()
    ensures r.Ok? ==> lookup.normalize(raw).Some? && again.Ok?
                      && lookup.crossref(lookup.normalize(raw).value) == Ok(again.value.Says())
  {
    r := lookup.Lookup(raw);
    if r.Ok? {
      r.value.authors.items := authors;
      r.value.fields := fields;
    }
    again := lookup.Lookup(raw);
  }

  // ------------------------------------------------------------------
  // Whole runs
  // ------------------------------------------------------------------

  /** The keys after a sequence of lookups that resolved, in the order in which they did. */
  function Keys(history: seq<string>, size: nat): seq<string> {
    if history == [] then []
    else Used(Keys(history[..|history| - 1], size), history[|history| - 1], size)
  }

  lemma {:induction false} WithoutSplits(a: seq<string>, b: seq<string>, doi: string)
    ensures Without(a + b, doi) == Without(a, doi) + Without(b, doi)
    decreases |b|
  {
    if b == [] {
      assert a + b == a;
    } else {
      var n := |b| - 1;
      assert (a + b)[..|a + b| - 1] == a + b[..n];
      WithoutSplits(a, b[..n], doi);
    }
  }

  lemma UseOfSum(gone: seq<string>, kept: seq<string>, doi: string)
    ensures Without(gone + kept, doi) + [doi] == Without(gone, doi) + (Without(kept, doi) + [doi])
  {
    WithoutSplits(gone, kept, doi);
  }

  /** Evicting the oldest commutes with every use. */
  lemma EvictionForgetsNothingElse(recency: seq<string>, doi: string, size: nat)
    requires Distinct(recency) && size >= 1
    ensures Used(Newest(recency, size), doi, size) == Newest(Without(recency, doi) + [doi], size)
  {
    if |recency| > size {
      var gone, kept := recency[..|recency| - size], recency[|recency| - size..];
      assert recency == gone + kept;
      UseOfSum(gone, kept, doi);
      KeptIsLongEnough(kept, doi);
      NewestOfSum(Without(gone, doi), Without(kept, doi) + [doi], size);
    }
  }

  lemma KeptIsLongEnough(kept: seq<string>, doi: string)
    requires Distinct(kept)
    ensures |Without(kept, doi) + [doi]| >= |kept|
  {
    WithoutDistinct(kept, doi);
  }

  lemma NewestOfSum(a: seq<string>, b: seq<string>, n: nat)
    requires |b| >= n
    ensures Newest(a + b, n) == Newest(b, n)
  {
  }

  lemma {:induction false} RecencyIsDistinct(history: seq<string>)
    ensures Distinct(Recency(history))
  {
    if history != [] {
      RecencyIsDistinct(history[..|history| - 1]);
      UsedKeys(Recency(history[..|history| - 1]), history[|history| - 1]);
    }
  }

  /** The cache holds exactly the `size` most recently resolved DOIs, oldest first. */
  lemma {:induction false} KeysAreTheMostRecent(history: seq<string>, size: nat)
    requires size >= 1
    ensures Keys(history, size) == Newest(Recency(history), size)
  {
    if history != [] {
      KeysAreTheMostRecent(history[..|history| - 1], size);
      RecencyIsDistinct(history[..|history| - 1]);
      EvictionForgetsNothingElse(Recency(history[..|history| - 1]), history[|history| - 1], size);
    }
  }

  /** One more than the position of the last use; 0 if there is none. */
  function LastUse(history: seq<string>, doi: string): nat {
    if history == [] then 0
    else if history[|history| - 1] == doi then |history|
    else LastUse(history[..|history| - 1], doi)
  }

  ghost predicate ByLastUse(history: seq<string>, order: seq<string>) {
    forall i, j :: 0 <= i < j < |order| ==> LastUse(history, order[i]) < LastUse(history, order[j])
  }

  lemma {:induction false} LastUseBound(history: seq<string>, doi: string)
    ensures LastUse(history, doi) <= |history|
  {
    if history != [] { LastUseBound(history[..|history| - 1], doi); }
  }

  /** `Recency` is what its name says: each DOI of the history once, in the order of last use. */
  lemma {:induction false} RecencyIsByLastUse(history: seq<string>)
    ensures forall d :: d in Recency(history) <==> d in history
    ensures ByLastUse(history, Recency(history))
  {
    if history != [] {
      var n := |history| - 1;
      var prior, doi := history[..n], history[n];
      RecencyIsByLastUse(prior);
      var rest := Without(Recency(prior), doi);
      WithoutMembers(Recency(prior), doi);
      assert history == prior + [doi];
      WithoutKeepsOrder(Recency(prior), doi, prior);
      UsedLast(prior, doi, rest);
    }
  }

  lemma UsedLast(prior: seq<string>, doi: string, rest: seq<string>)
    requires doi !in rest && ByLastUse(prior, rest)
    ensures ByLastUse(prior + [doi], rest + [doi])
  {
    var history, order := prior + [doi], rest + [doi];
    assert history[..|history| - 1] == prior;
    forall i, j | 0 <= i < j < |order| ensures LastUse(history, order[i]) < LastUse(history, order[j]) {
      assert order[i] == rest[i] && rest[i] in rest;
      LastUseBound(prior, rest[i]);
      assert j < |rest| ==> order[j] == rest[j] && rest[j] in rest;
    }
  }

  lemma {:induction false} WithoutKeepsOrder(order: seq<string>, doi: string, history: seq<string>)
    requires ByLastUse(history, order)
    ensures ByLastUse(history, Without(order, doi))
  {
    if order != [] {
      var n := |order| - 1;
      WithoutKeepsOrder(order[..n], doi, history);
      WithoutMembers(order[..n], doi);
      forall d | d in Without(order[..n], doi) ensures LastUse(history, d) < LastUse(history, order[n]) {
        var i :| 0 <= i < n && order[..n][i] == d;
      }
    }
  }
}
