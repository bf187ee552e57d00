/**
 * Segmentation of a publication list into entries (app/importer/publication_extraction.py,
 * extract_candidates_from_pages), for any way of classifying lines.
 */
module Extraction {
  import opened Base

  datatype Line = Line(page: nat, number: nat, text: string)

  /** What is left of a line on either side of an inline heading, and the section that heading opens. */
  datatype InlineHeading = InlineHeading(before: string, sectionLabel: string, status: string, after: string)

  /** The line classifiers, taken as given; only the order in which they are consulted matters. */
  datatype Classifiers = Classifiers(
    inlineStop: string -> Option<string>,
    inlineSection: string -> Option<InlineHeading>,
    furniture: string -> bool,
    heading: string -> Option<(string, string)>,
    stopHeading: string -> bool,
    explanatory: string -> bool,
    blank: string -> bool,
    strongStart: string -> bool,
    entryStart: string -> bool,
    yearColumn: string -> Option<int>,
    terminal: seq<string> -> bool)

  /** A year column is itself a strong start. */
  ghost predicate Sensible(c: Classifiers) {
    forall text :: c.yearColumn(text).Some? ==> c.strongStart(text)
  }

  datatype Kind =
    | StopInline(before: string)
    | SectionInline(inner: InlineHeading)
    | Heading(sectionLabel: string, status: string)
    | StopLine
    | BlankLine
    | Body
    | Passed

  /** How a line is taken, in the order of the tests; inline headings count only inside an active section. */
  function KindOf(c: Classifiers, active: bool, text: string): Kind {
    if active && c.inlineStop(text).Some? then StopInline(c.inlineStop(text).value)
    else if active && c.inlineSection(text).Some? then SectionInline(c.inlineSection(text).value)
    else if c.furniture(text) && !c.blank(text) && c.heading(text).None? then Passed
    else if c.heading(text).Some? then Heading(c.heading(text).value.0, c.heading(text).value.1)
    else if c.stopHeading(text) then StopLine
    else if !active || c.explanatory(text) then Passed
    else if c.blank(text) then BlankLine
    else Body
  }

  // ------------------------------------------------------------------
  // What is accepted, without regard to how it is cut into entries
  // ------------------------------------------------------------------

  /** A stretch of accepted text: where it stands, and which section, label, status and column year are in force there. */
  datatype Fragment = Fragment(at: nat, text: string, section: nat, sectionLabel: string, status: string, year: Option<int>)

  datatype Scan = Scan(active: bool, section: nat, sectionLabel: string, status: string, year: Option<int>, accepted: seq<Fragment>)

  function Start(dedicated: bool): Scan {
    if dedicated then Scan(true, 0, "PUBLICATION_LIST", "PUBLISHED", None, []) else Scan(false, 0, "", "", None, [])
  }

  function Take(s: Scan, at: nat, text: string): Scan {
    s.(accepted := s.accepted + [Fragment(at, text, s.section, s.sectionLabel, s.status, s.year)])
  }

  function TakeIfAny(s: Scan, at: nat, text: string): Scan {
    if text == "" then s else Take(s, at, text)
  }

  /** Reading one line; every heading of any kind begins a new section. */
  function Read(c: Classifiers, s: Scan, at: nat, text: string): Scan {
    match KindOf(c, s.active, text)
    case StopInline(before) => TakeIfAny(s, at, before).(active := false, section := s.section + 1, year := None)
    case SectionInline(h) =>
      TakeIfAny(TakeIfAny(s, at, h.before).(section := s.section + 1, sectionLabel := h.sectionLabel, status := h.status, active := true),
                at, h.after)
    case Heading(sectionLabel, status) => s.(section := s.section + 1, sectionLabel := sectionLabel, status := status, active := true, year := None)
    case StopLine => s.(section := s.section + 1, active := false, year := None)
    case Body => Take(if c.yearColumn(text).Some? then s.(year := c.yearColumn(text)) else s, at, text)
    case _ => s
  }

  function ReadAll(c: Classifiers, dedicated: bool, lines: seq<Line>): Scan {
    if lines == [] then Start(dedicated)
    else Read(c, ReadAll(c, dedicated, lines[..|lines| - 1]), |lines| - 1, lines[|lines| - 1].text)
  }

  // ------------------------------------------------------------------
  // The segmentation
  // ------------------------------------------------------------------

  /** One flushed buffer, with what the flush attached to it. */
  datatype Entry = Entry(fragments: seq<Fragment>, sectionLabel: string, status: string, year: Option<int>, reason: string)

  function Joined(entries: seq<Entry>): seq<Fragment> {
    if entries == [] then [] else Joined(entries[..|entries| - 1]) + entries[|entries| - 1].fragments
  }

  /** All of one section, under its label and status, with one column year. */
  ghost predicate Uniform(e: Entry) {
    e.fragments != []
    && forall i :: 0 <= i < |e.fragments| ==>
         && e.fragments[i].section == e.fragments[0].section
         && e.fragments[i].sectionLabel == e.sectionLabel && e.fragments[i].status == e.status && e.fragments[i].year == e.year
  }

  function TextsOf(fragments: seq<Fragment>): seq<string> {
    seq(|fragments|, i requires 0 <= i < |fragments| => fragments[i].text)
  }

  /** The entries flushed so far, the buffer, and what is in force. */
  datatype Cutter = Cutter(entries: seq<Entry>, buffer: seq<Fragment>, active: bool, section: nat, sectionLabel: string,
                           status: string, year: Option<int>)

  function StartCutter(dedicated: bool): Cutter {
    var s := Start(dedicated);
    Cutter([], [], s.active, s.section, s.sectionLabel, s.status, s.year)
  }

  function Flushed(m: Cutter, reason: string): Cutter {
    if m.buffer == [] then m
    else m.(entries := m.entries + [Entry(m.buffer, m.sectionLabel, m.status, m.year, reason)], buffer := [])
  }

  function Pushed(m: Cutter, at: nat, text: string): Cutter {
    m.(buffer := m.buffer + [Fragment(at, text, m.section, m.sectionLabel, m.status, m.year)])
  }

  function PushedIfAny(m: Cutter, at: nat, text: string): Cutter {
    if text == "" then m else Pushed(m, at, text)
  }

  /** The line begins a new entry after the texts gathered so far. */
  predicate CutsHere(c: Classifiers, texts: seq<string>, text: string) {
    c.strongStart(text) || (c.terminal(texts) && c.entryStart(text))
  }

  function NextBody(c: Classifiers, m: Cutter, at: nat, text: string): Cutter {
    var cut := if m.buffer != [] && CutsHere(c, TextsOf(m.buffer), text) then Flushed(m, "enumerator-or-terminal-year") else m;
    Pushed(if c.yearColumn(text).Some? then cut.(year := c.yearColumn(text)) else cut, at, text)
  }

  function NextStop(m: Cutter, at: nat, before: string): Cutter {
    Flushed(PushedIfAny(m, at, before), "inline-stop-heading").(section := m.section + 1, active := false, year := None)
  }

  function NextSection(m: Cutter, at: nat, h: InlineHeading): Cutter {
    PushedIfAny(Flushed(PushedIfAny(m, at, h.before), "inline-section-heading")
                .(section := m.section + 1, sectionLabel := h.sectionLabel, status := h.status, active := true), at, h.after)
  }

  function NextCutter(c: Classifiers, m: Cutter, at: nat, text: string): Cutter {
    match KindOf(c, m.active, text)
    case StopInline(before) => NextStop(m, at, before)
    case SectionInline(h) => NextSection(m, at, h)
    case Heading(sectionLabel, status) =>
      Flushed(m, "section-heading").(section := m.section + 1, sectionLabel := sectionLabel, status := status, active := true, year := None)
    case StopLine => Flushed(m, "stop-heading").(section := m.section + 1, active := false, year := None)
    case BlankLine => if m.buffer != [] && c.terminal(TextsOf(m.buffer)) then Flushed(m, "blank-group") else m
    case Body => NextBody(c, m, at, text)
    case Passed => m
  }

  function CutAll(c: Classifiers, dedicated: bool, lines: seq<Line>): Cutter {
    if lines == [] then StartCutter(dedicated)
    else NextCutter(c, CutAll(c, dedicated, lines[..|lines| - 1]), |lines| - 1, lines[|lines| - 1].text)
  }

  // ------------------------------------------------------------------
  // The segmentation as the program runs it
  // ------------------------------------------------------------------

  class Segmenter {
    const c: Classifiers
    var entries: seq<Entry>
    var buffer: seq<Fragment>
    var active: bool
    var sectionLabel: string
    var status: string
    var year: Option<int>
    /** Bookkeeping for the proofs: how many headings have been passed. */
    var section: nat

    ghost function View(): Cutter
      reads this
    {
      Cutter(entries, buffer, active, section, sectionLabel, status, year)
    }

    constructor (c: Classifiers, dedicated: bool)
      ensures this.c == c && View() == StartCutter(dedicated)
    {
      this.c := c;
      entries, buffer, active, year, section := [], [], dedicated, None, 0;
      sectionLabel, status := if dedicated then "PUBLICATION_LIST" else "", if dedicated then "PUBLISHED" else "";
    }

    method Flush(reason: string)
      modifies this`entries, this`buffer
      ensures View() == Flushed(old(View()), reason)
    {
      if buffer != [] {
        var entry := Entry(buffer, sectionLabel, status, year, reason);
        entries := entries + [entry];
      }
      buffer := [];
    }

    method Push(at: nat, text: string)
      modifies this`buffer
      ensures View() == Pushed(old(View()), at, text)
    {
      buffer := buffer + [Fragment(at, text, section, sectionLabel, status, year)];
    }

    method Texts() returns (texts: seq<string>)
      ensures texts == TextsOf(buffer)
    {
      texts := [];
      for i := 0 to |buffer|
        invariant texts == TextsOf(buffer[..i])
      {
        texts := texts + [buffer[i].text];
      }
      assert buffer[..|buffer|] == buffer;
    }

    method TakeBody(at: nat, text: string)
      modifies this`entries, this`buffer, this`year
      ensures View() == NextBody(c, old(View()), at, text)
    {
      var texts := Texts();
      if buffer != [] && (c.strongStart(text) || (c.terminal(texts) && c.entryStart(text))) {
        Flush("enumerator-or-terminal-year");
      }
      if c.yearColumn(text).Some? {
        year := c.yearColumn(text);
      }
      Push(at, text);
    }

    method StopSection(at: nat, before: string)
      modifies this
      ensures View() == NextStop(old(View()), at, before)
    {
      if before != "" { Push(at, before); }
      Flush("inline-stop-heading");
      section, active, year := section + 1, false, None;
    }

    method OpenSection(at: nat, h: InlineHeading)
      modifies this
      ensures View() == NextSection(old(View()), at, h)
    {
      if h.before != "" { Push(at, h.before); }
      Flush("inline-section-heading");
      section, sectionLabel, status, active := section + 1, h.sectionLabel, h.status, true;
      if h.after != "" { Push(at, h.after); }
    }

    /** One line, put to the tests in the order of the source. */
    method Line(at: nat, text: string)
      modifies this
      ensures View() == NextCutter(c, old(View()), at, text)
    {
      if active && c.inlineStop(text).Some? {
        StopSection(at, c.inlineStop(text).value);
        return;
      }
      if active && c.inlineSection(text).Some? {
        OpenSection(at, c.inlineSection(text).value);
        return;
      }
      var heading := c.heading(text);
      if !c.blank(text) && c.furniture(text) && heading.None? {
        return;
      }
      if heading.Some? {
        Flush("section-heading");
        sectionLabel, status, active, year, section := heading.value.0, heading.value.1, true, None, section + 1;
        return;
      }
      if c.stopHeading(text) {
        Flush("stop-heading");
        active, year, section := false, None, section + 1;
        return;
      }
      if !active || c.explanatory(text) {
        return;
      }
      if c.blank(text) {
        var texts := Texts();
        if buffer != [] && c.terminal(texts) {
          Flush("blank-group");
        }
        return;
      }
      TakeBody(at, text);
    }
  }

  /** The entries of a document, before those that are no citation are dropped and those of equal pages and wording merged. */
  method Segment(c: Classifiers, dedicated: bool, lines: seq<Line>) returns (entries: seq<Entry>)
    requires Sensible(c)
    ensures Segmentation(c, dedicated, lines, entries) && CutRight(c, lines, entries)
  {
    var segmenter := new Segmenter(c, dedicated);
    for i := 0 to |lines|
      invariant segmenter.c == c && segmenter.View() == CutAll(c, dedicated, lines[..i])
    {
      assert lines[..i + 1][..i] == lines[..i];
      segmenter.Line(i, lines[i].text);
    }
    assert lines[..|lines|] == lines;
    segmenter.Flush("document-end");
    entries := segmenter.entries;
    FlushedAtEnd(c, dedicated, lines);
  }

  // ------------------------------------------------------------------
  // Nothing is lost or moved by the cuts
  // ------------------------------------------------------------------

  /** The buffer belongs to the section in force. */
  ghost predicate BufferOk(m: Cutter) {
    forall i :: 0 <= i < |m.buffer| ==> m.buffer[i].section == m.section && m.buffer[i].sectionLabel == m.sectionLabel
                                        && m.buffer[i].status == m.status && m.buffer[i].year == m.year
  }

  ghost predicate EntriesOk(m: Cutter) {
    forall i :: 0 <= i < |m.entries| ==> Uniform(m.entries[i])
  }

  ghost predicate Follows(m: Cutter, s: Scan) {
    && m.active == s.active && m.sectionLabel == s.sectionLabel && m.status == s.status && m.year == s.year && m.section == s.section
    && Joined(m.entries) + m.buffer == s.accepted
    && EntriesOk(m) && BufferOk(m)
    && (!m.active ==> m.buffer == [])
  }

  lemma FlushedFollows(m: Cutter, reason: string)
    requires EntriesOk(m) && BufferOk(m)
    ensures var f := Flushed(m, reason);
      f.buffer == [] && EntriesOk(f) && Joined(f.entries) == Joined(m.entries) + m.buffer
      && f == m.(entries := f.entries, buffer := [])
  {
    var f := Flushed(m, reason);
    if m.buffer != [] {
      assert f.entries[..|m.entries|] == m.entries;
      assert Uniform(f.entries[|m.entries|]);
    } else {
      assert Joined(m.entries) + [] == Joined(m.entries);
    }
  }

  lemma PushedFollows(m: Cutter, s: Scan, at: nat, text: string)
    requires Follows(m, s) && m.active
    ensures Follows(Pushed(m, at, text), Take(s, at, text))
  {
    var f := Fragment(at, text, m.section, m.sectionLabel, m.status, m.year);
    assert Joined(m.entries) + (m.buffer + [f]) == (Joined(m.entries) + m.buffer) + [f];
  }

  /** The column year may change while nothing is gathered. */
  lemma NewYearFollows(m: Cutter, s: Scan, year: Option<int>)
    requires Follows(m, s) && m.buffer == []
    ensures Follows(m.(year := year), s.(year := year))
  {
  }

  lemma CutFollowsOn(m: Cutter, s: Scan, reason: string)
    requires Follows(m, s)
    ensures Follows(Flushed(m, reason), s) && Flushed(m, reason).buffer == [] && Flushed(m, reason).active == m.active
  {
    FlushedFollows(m, reason);
    assert Joined(Flushed(m, reason).entries) + [] == Joined(m.entries) + m.buffer;
  }

  lemma BodyFollows(c: Classifiers, m: Cutter, s: Scan, at: nat, text: string)
    requires Sensible(c) && Follows(m, s) && m.active
    ensures Follows(NextBody(c, m, at, text), Take(if c.yearColumn(text).Some? then s.(year := c.yearColumn(text)) else s, at, text))
  {
    var cut := if m.buffer != [] && CutsHere(c, TextsOf(m.buffer), text) then Flushed(m, "enumerator-or-terminal-year") else m;
    CutFollowsOn(m, s, "enumerator-or-terminal-year");
    if c.yearColumn(text).Some? {
      assert c.strongStart(text);
      NewYearFollows(cut, s, c.yearColumn(text));
      PushedFollows(cut.(year := c.yearColumn(text)), s.(year := c.yearColumn(text)), at, text);
    } else {
      PushedFollows(cut, s, at, text);
    }
  }

  lemma InlineFollows(m: Cutter, s: Scan, at: nat, before: string, reason: string)
    requires Follows(m, s) && m.active
    ensures var f := Flushed(PushedIfAny(m, at, before), reason);
      f.buffer == [] && EntriesOk(f) && Joined(f.entries) == TakeIfAny(s, at, before).accepted
      && f == m.(entries := f.entries, buffer := [])
  {
    FlushedFollows(PushedIfAny(m, at, before), reason);
  }

  /** What stands right of an inline heading is the first of the new section. */
  lemma SectionFollows(m: Cutter, s: Scan, at: nat, h: InlineHeading)
    requires Follows(m, s) && m.active
    ensures Follows(NextSection(m, at, h),
                    TakeIfAny(TakeIfAny(s, at, h.before).(section := s.section + 1, sectionLabel := h.sectionLabel, status := h.status, active := true),
                              at, h.after))
  {
    InlineFollows(m, s, at, h.before, "inline-section-heading");
  }

  lemma StopFollows(m: Cutter, s: Scan, at: nat, before: string)
    requires Follows(m, s) && m.active
    ensures Follows(NextStop(m, at, before), TakeIfAny(s, at, before).(active := false, section := s.section + 1, year := None))
  {
    InlineFollows(m, s, at, before, "inline-stop-heading");
  }

  lemma HeadingFollows(c: Classifiers, m: Cutter, s: Scan, at: nat, text: string)
    requires Follows(m, s) && var kind := KindOf(c, m.active, text); kind.Heading? || kind.StopLine?
    ensures Follows(NextCutter(c, m, at, text), Read(c, s, at, text))
  {
    FlushedFollows(m, if KindOf(c, m.active, text).Heading? then "section-heading" else "stop-heading");
  }

  lemma BlankFollows(c: Classifiers, m: Cutter, s: Scan, at: nat, text: string)
    requires Follows(m, s) && var kind := KindOf(c, m.active, text); kind.BlankLine? || kind.Passed?
    ensures Follows(NextCutter(c, m, at, text), Read(c, s, at, text))
  {
    FlushedFollows(m, "blank-group");
  }

  lemma NextFollows(c: Classifiers, m: Cutter, s: Scan, at: nat, text: string)
    requires Sensible(c) && Follows(m, s)
    ensures Follows(NextCutter(c, m, at, text), Read(c, s, at, text))
  {
    match KindOf(c, m.active, text)
    case StopInline(before) => StopFollows(m, s, at, before);
    case SectionInline(h) => SectionFollows(m, s, at, h);
    case Body => BodyFollows(c, m, s, at, text);
    case BlankLine => BlankFollows(c, m, s, at, text);
    case Passed => BlankFollows(c, m, s, at, text);
    case _ => HeadingFollows(c, m, s, at, text);
  }

  lemma {:induction false} CutFollows(c: Classifiers, dedicated: bool, lines: seq<Line>)
    requires Sensible(c)
    ensures Follows(CutAll(c, dedicated, lines), ReadAll(c, dedicated, lines))
  {
    if lines != [] {
      var n := |lines| - 1;
      CutFollows(c, dedicated, lines[..n]);
      NextFollows(c, CutAll(c, dedicated, lines[..n]), ReadAll(c, dedicated, lines[..n]), n, lines[n].text);
    }
  }

  // ------------------------------------------------------------------
  // Where the cuts fall
  // ------------------------------------------------------------------

  ghost predicate BlankBetween(c: Classifiers, lines: seq<Line>, i: int, j: int) {
    exists b :: i < b < j && 0 <= b < |lines| && KindOf(c, true, lines[b].text).BlankLine?
  }

  /**
   * Within a section an entry that has these texts, the last of them `f`, ends before `g`: `g` is a line that begins an
   * entry, or the texts are complete and a blank line follows.
   */
  ghost predicate CutBetween(c: Classifiers, lines: seq<Line>, texts: seq<string>, f: Fragment, g: Fragment) {
    || (g.at < |lines| && KindOf(c, true, lines[g.at].text).Body? && (c.strongStart(g.text) || (c.terminal(texts) && c.entryStart(g.text))))
    || (c.terminal(texts) && BlankBetween(c, lines, f.at, g.at))
  }

  /** Nothing in the entry calls for a cut. */
  ghost predicate Whole(c: Classifiers, lines: seq<Line>, fragments: seq<Fragment>) {
    forall i :: 1 <= i < |fragments| ==> !CutBetween(c, lines, TextsOf(fragments[..i]), fragments[i - 1], fragments[i])
  }

  /** The entries are whole, and between two of one section there is reason for a cut. */
  ghost predicate CutRight(c: Classifiers, lines: seq<Line>, entries: seq<Entry>) {
    && (forall k :: 0 <= k < |entries| ==> entries[k].fragments != [] && Whole(c, lines, entries[k].fragments))
    && forall k :: 1 <= k < |entries| ==> SplitRight(c, lines, entries[k - 1].fragments, entries[k].fragments)
  }

  ghost predicate SplitRight(c: Classifiers, lines: seq<Line>, a: seq<Fragment>, b: seq<Fragment>)
    requires a != [] && b != []
  {
    a[0].section == b[0].section ==> CutBetween(c, lines, TextsOf(a), a[|a| - 1], b[0])
  }

  /** Where the machine stands after `n` lines. */
  ghost predicate CutSoFar(c: Classifiers, lines: seq<Line>, n: nat, m: Cutter) {
    && CutRight(c, lines, m.entries) && Whole(c, lines, m.buffer)
    && (forall k :: 0 <= k < |m.entries| ==> m.entries[k].fragments[0].section <= m.section)
    && (!m.active && m.entries != [] ==> m.entries[|m.entries| - 1].fragments[0].section < m.section)
    && (m.entries != [] && m.buffer != [] ==> SplitRight(c, lines, m.entries[|m.entries| - 1].fragments, m.buffer))
    && (m.entries != [] && m.buffer == [] && m.entries[|m.entries| - 1].fragments[0].section == m.section ==>
          Closed(c, lines, n, m.entries[|m.entries| - 1].fragments))
    && (m.buffer != [] && c.terminal(TextsOf(m.buffer)) ==> !BlankBetween(c, lines, m.buffer[|m.buffer| - 1].at, n))
  }

  /** The last entry of the section was closed by a blank line. */
  ghost predicate Closed(c: Classifiers, lines: seq<Line>, n: nat, fragments: seq<Fragment>)
    requires fragments != []
  {
    c.terminal(TextsOf(fragments)) && BlankBetween(c, lines, fragments[|fragments| - 1].at, n)
  }

  lemma WholeLonger(c: Classifiers, lines: seq<Line>, fragments: seq<Fragment>, g: Fragment)
    requires Whole(c, lines, fragments)
    requires fragments != [] ==> !CutBetween(c, lines, TextsOf(fragments), fragments[|fragments| - 1], g)
    ensures Whole(c, lines, fragments + [g])
  {
    var longer := fragments + [g];
    forall i | 1 <= i < |longer| ensures !CutBetween(c, lines, TextsOf(longer[..i]), longer[i - 1], longer[i]) {
      if i < |fragments| {
        assert longer[..i] == fragments[..i];
      } else {
        assert longer[..i] == fragments;
      }
    }
  }

  /** Flushing keeps the cuts right; what was in the buffer is the last entry. */
  lemma FlushKeepsCuts(c: Classifiers, lines: seq<Line>, m: Cutter, reason: string)
    requires CutRight(c, lines, m.entries) && Whole(c, lines, m.buffer)
    requires m.entries != [] && m.buffer != [] ==> SplitRight(c, lines, m.entries[|m.entries| - 1].fragments, m.buffer)
    ensures CutRight(c, lines, Flushed(m, reason).entries)
  {
    if m.buffer != [] {
      var more := Flushed(m, reason).entries;
      forall k | 1 <= k < |more| ensures SplitRight(c, lines, more[k - 1].fragments, more[k].fragments) {
        if k < |m.entries| { assert more[k] == m.entries[k] && more[k - 1] == m.entries[k - 1]; }
      }
    }
  }

  /** A piece taken without question, as next to an inline heading, or with no reason for a cut. */
  lemma PushKeepsCuts(c: Classifiers, lines: seq<Line>, n: nat, m: Cutter, text: string)
    requires CutSoFar(c, lines, n, m) && BufferOk(m) && n < |lines|
    requires KindOf(c, true, lines[n].text).Body? && m.buffer != [] ==> !CutsHere(c, TextsOf(m.buffer), text)
    ensures var p := Pushed(m, n, text);
      && Whole(c, lines, p.buffer)
      && (p.entries != [] ==> SplitRight(c, lines, p.entries[|p.entries| - 1].fragments, p.buffer))
  {
    var g := Fragment(n, text, m.section, m.sectionLabel, m.status, m.year);
    WholeLonger(c, lines, m.buffer, g);
    var p := Pushed(m, n, text);
    assert m.buffer == [] ==> p.buffer[0] == g;
    assert m.buffer != [] ==> p.buffer[0] == m.buffer[0];
  }

  /** Everything up to a heading is flushed, and a new section begins. */
  lemma HeadingKeepsCuts(c: Classifiers, lines: seq<Line>, n: nat, m: Cutter, p: Cutter, reason: string, next: Cutter)
    requires p == m || (n < |lines| && exists text :: p == Pushed(m, n, text))
    requires p != m ==> !KindOf(c, true, lines[n].text).Body?
    requires CutSoFar(c, lines, n, m) && BufferOk(m)
    requires next.entries == Flushed(p, reason).entries && next.section == m.section + 1
    requires next.buffer == [] || (|next.buffer| == 1 && next.buffer[0].at == n && next.buffer[0].section == next.section)
    ensures CutSoFar(c, lines, n + 1, next)
  {
    if p != m {
      var text :| p == Pushed(m, n, text);
      PushKeepsCuts(c, lines, n, m, text);
    }
    FlushKeepsCuts(c, lines, p, reason);
    assert forall k :: 0 <= k < |next.entries| ==> next.entries[k].fragments[0].section <= m.section;
  }

  lemma BlankKeepsCuts(c: Classifiers, lines: seq<Line>, n: nat, m: Cutter)
    requires CutSoFar(c, lines, n, m) && BufferOk(m) && m.active && n < |lines| && KindOf(c, true, lines[n].text).BlankLine?
    requires m.buffer != [] ==> m.buffer[|m.buffer| - 1].at < n
    ensures CutSoFar(c, lines, n + 1, NextCutter(c, m, n, lines[n].text))
  {
    FlushKeepsCuts(c, lines, m, "blank-group");
    var next := NextCutter(c, m, n, lines[n].text);
    if m.buffer != [] && c.terminal(TextsOf(m.buffer)) {
      assert next.entries[|next.entries| - 1].fragments == m.buffer;
      assert BlankBetween(c, lines, m.buffer[|m.buffer| - 1].at, n + 1);
    } else if m.entries != [] {
      BlanksGrow(c, lines, m.entries[|m.entries| - 1].fragments[|m.entries[|m.entries| - 1].fragments| - 1].at, n);
    }
  }

  lemma BlanksGrow(c: Classifiers, lines: seq<Line>, i: int, n: nat)
    ensures BlankBetween(c, lines, i, n) ==> BlankBetween(c, lines, i, n + 1)
    ensures !(n < |lines| && KindOf(c, true, lines[n].text).BlankLine?) ==> (BlankBetween(c, lines, i, n) <==> BlankBetween(c, lines, i, n + 1))
  {
    if BlankBetween(c, lines, i, n) {
      var b :| i < b < n && 0 <= b < |lines| && KindOf(c, true, lines[b].text).BlankLine?;
      assert i < b < n + 1;
    }
  }

  lemma BodyAdds(c: Classifiers, m: Cutter, n: nat, text: string)
    ensures var next := NextBody(c, m, n, text);
      next.buffer != [] && next.buffer[|next.buffer| - 1].at == n && next.active == m.active && next.section == m.section
  {
  }

  lemma BodyKeepsCuts(c: Classifiers, lines: seq<Line>, n: nat, m: Cutter)
    requires CutSoFar(c, lines, n, m) && BufferOk(m) && m.active && n < |lines| && KindOf(c, true, lines[n].text).Body?
    ensures CutSoFar(c, lines, n + 1, NextBody(c, m, n, lines[n].text))
  {
    var text := lines[n].text;
    var next := NextBody(c, m, n, text);
    BodyAdds(c, m, n, text);
    assert !BlankBetween(c, lines, n, n + 1);
    if m.buffer != [] && CutsHere(c, TextsOf(m.buffer), text) {
      FlushKeepsCuts(c, lines, m, "enumerator-or-terminal-year");
      assert next.entries[|next.entries| - 1].fragments == m.buffer;
    } else {
      PushKeepsCuts(c, lines, n, m, text);
      assert next.buffer != [] && next.entries == m.entries;
      SameButYear(c, lines, m, next, n, text);
    }
  }

  /** A column year only changes what the new piece is tagged with. */
  lemma SameButYear(c: Classifiers, lines: seq<Line>, m: Cutter, next: Cutter, n: nat, text: string)
    requires next.buffer == m.buffer + [Fragment(n, text, m.section, m.sectionLabel, m.status, next.year)]
    requires Whole(c, lines, Pushed(m, n, text).buffer)
    ensures Whole(c, lines, next.buffer)
  {
    var p := Pushed(m, n, text).buffer;
    forall i | 1 <= i < |next.buffer| ensures !CutBetween(c, lines, TextsOf(next.buffer[..i]), next.buffer[i - 1], next.buffer[i]) {
      assert next.buffer[..i] == p[..i] && !CutBetween(c, lines, TextsOf(p[..i]), p[i - 1], p[i]);
    }
  }

  lemma InlineKeepsCuts(c: Classifiers, lines: seq<Line>, n: nat, m: Cutter)
    requires CutSoFar(c, lines, n, m) && BufferOk(m) && n < |lines|
    requires var kind := KindOf(c, m.active, lines[n].text); kind.StopInline? || kind.SectionInline?
    ensures CutSoFar(c, lines, n + 1, NextCutter(c, m, n, lines[n].text))
  {
    var kind := KindOf(c, m.active, lines[n].text);
    var before, reason := if kind.StopInline? then kind.before else kind.inner.before,
                          if kind.StopInline? then "inline-stop-heading" else "inline-section-heading";
    assert before != "" ==> PushedIfAny(m, n, before) == Pushed(m, n, before);
    HeadingKeepsCuts(c, lines, n, m, PushedIfAny(m, n, before), reason, NextCutter(c, m, n, lines[n].text));
  }

  lemma NextKeepsCuts(c: Classifiers, lines: seq<Line>, n: nat, m: Cutter)
    requires CutSoFar(c, lines, n, m) && BufferOk(m) && n < |lines| && (!m.active ==> m.buffer == [])
    requires m.buffer != [] ==> m.buffer[|m.buffer| - 1].at < n
    ensures CutSoFar(c, lines, n + 1, NextCutter(c, m, n, lines[n].text))
  {
    var text := lines[n].text;
    var next := NextCutter(c, m, n, text);
    match KindOf(c, m.active, text)
    case StopInline(before) => InlineKeepsCuts(c, lines, n, m);
    case SectionInline(h) => InlineKeepsCuts(c, lines, n, m);
    case Heading(_, _) => HeadingKeepsCuts(c, lines, n, m, m, "section-heading", next);
    case StopLine => HeadingKeepsCuts(c, lines, n, m, m, "stop-heading", next);
    case BlankLine => BlankKeepsCuts(c, lines, n, m);
    case Body => BodyKeepsCuts(c, lines, n, m);
    case Passed => PassedKeepsCuts(c, lines, n, m);
  }

  lemma PassedKeepsCuts(c: Classifiers, lines: seq<Line>, n: nat, m: Cutter)
    requires CutSoFar(c, lines, n, m) && n < |lines| && KindOf(c, m.active, lines[n].text).Passed? && (!m.active ==> m.buffer == [])
    ensures CutSoFar(c, lines, n + 1, m)
  {
    if m.buffer != [] { BlanksGrow(c, lines, m.buffer[|m.buffer| - 1].at, n); }
    if m.entries != [] {
      var last := m.entries[|m.entries| - 1].fragments;
      BlanksGrow(c, lines, last[|last| - 1].at, n);
    }
  }

  lemma {:induction false} CutsFallRight(c: Classifiers, dedicated: bool, lines: seq<Line>, n: nat)
    requires Sensible(c) && n <= |lines|
    ensures CutSoFar(c, lines, n, CutAll(c, dedicated, lines[..n]))
  {
    if n > 0 {
      CutsFallRight(c, dedicated, lines, n - 1);
      assert lines[..n][..n - 1] == lines[..n - 1];
      var m := CutAll(c, dedicated, lines[..n - 1]);
      CutFollows(c, dedicated, lines[..n - 1]);
      if m.buffer != [] { LastIsBefore(c, dedicated, lines[..n - 1], m); }
      NextKeepsCuts(c, lines, n - 1, m);
    }
  }

  lemma LastIsBefore(c: Classifiers, dedicated: bool, lines: seq<Line>, m: Cutter)
    requires Follows(m, ReadAll(c, dedicated, lines)) && m.buffer != []
    ensures m.buffer[|m.buffer| - 1].at < |lines|
  {
    AcceptedInOrder(c, dedicated, lines);
    var accepted := ReadAll(c, dedicated, lines).accepted;
    assert accepted[|accepted| - 1] == m.buffer[|m.buffer| - 1] && accepted[|accepted| - 1] in accepted;
  }

  lemma FlushedAtEnd(c: Classifiers, dedicated: bool, lines: seq<Line>)
    requires Sensible(c)
    ensures var entries := Flushed(CutAll(c, dedicated, lines), "document-end").entries;
      Segmentation(c, dedicated, lines, entries) && CutRight(c, lines, entries)
  {
    var m := CutAll(c, dedicated, lines);
    CutFollows(c, dedicated, lines);
    FlushedFollows(m, "document-end");
    CutsFallRight(c, dedicated, lines, |lines|);
    assert lines[..|lines|] == lines;
    FlushKeepsCuts(c, lines, m, "document-end");
  }

  // ------------------------------------------------------------------
  // There is only one way to cut
  // ------------------------------------------------------------------

  lemma {:induction false} JoinedFirst(entries: seq<Entry>)
    requires entries != []
    ensures Joined(entries) == entries[0].fragments + Joined(entries[1..])
  {
    var n := |entries| - 1;
    if n > 0 {
      JoinedFirst(entries[..n]);
      assert entries[..n][1..] == entries[1..][..n - 1];
    }
  }

  lemma NothingJoined(entries: seq<Entry>)
    requires (forall k :: 0 <= k < |entries| ==> entries[k].fragments != []) && Joined(entries) == []
    ensures entries == []
  {
    if entries != [] { JoinedFirst(entries); }
  }

  /** Where the first entry stops inside `y`, the second goes on. */
  lemma NextPiece(a: seq<Entry>, y: seq<Fragment>, ys: seq<Fragment>)
    requires a != [] && (forall k :: 0 <= k < |a| ==> a[k].fragments != [])
    requires Joined(a) == y + ys && |a[0].fragments| < |y|
    ensures |a| > 1 && a[0].fragments == y[..|a[0].fragments|] && a[1].fragments[0] == y[|a[0].fragments|]
  {
    JoinedFirst(a);
    var x := a[0].fragments;
    assert (y + ys)[..|x|] == x && (y + ys)[..|x|] == y[..|x|];
    assert (x + Joined(a[1..]))[|x|] == y[|x|];
    JoinedFirst(a[1..]);
  }

  /** An entry cannot stop short of another: there is no reason to stop there. */
  lemma NotShorter(c: Classifiers, lines: seq<Line>, a: seq<Entry>, b: seq<Entry>)
    requires CutRight(c, lines, a) && CutRight(c, lines, b) && Joined(a) == Joined(b) && a != [] && b != []
    requires Uniform(a[0]) && Uniform(b[0])
    ensures |a[0].fragments| >= |b[0].fragments|
  {
    JoinedFirst(b);
    if |a[0].fragments| < |b[0].fragments| {
      NextPiece(a, b[0].fragments, Joined(b[1..]));
      assert false;
    }
  }

  lemma CutRightRest(c: Classifiers, lines: seq<Line>, entries: seq<Entry>)
    requires CutRight(c, lines, entries) && entries != []
    ensures CutRight(c, lines, entries[1..])
  {
    var rest := entries[1..];
    forall k | 1 <= k < |rest| ensures SplitRight(c, lines, rest[k - 1].fragments, rest[k].fragments) {
      assert rest[k] == entries[k + 1] && rest[k - 1] == entries[k];
    }
  }

  /** Entries that are cut right and make up the same text are the same. */
  lemma {:induction false} CutsAreDetermined(c: Classifiers, lines: seq<Line>, a: seq<Entry>, b: seq<Entry>)
    requires CutRight(c, lines, a) && CutRight(c, lines, b) && Joined(a) == Joined(b)
    requires (forall k :: 0 <= k < |a| ==> Uniform(a[k])) && forall k :: 0 <= k < |b| ==> Uniform(b[k])
    ensures |a| == |b| && forall k :: 0 <= k < |a| ==> a[k].fragments == b[k].fragments
    decreases |a|
  {
    if a == [] {
      NothingJoined(b);
    } else if b == [] {
      NothingJoined(a);
    } else {
      NotShorter(c, lines, a, b);
      NotShorter(c, lines, b, a);
      JoinedFirst(a);
      JoinedFirst(b);
      SameFirst(a[0].fragments, Joined(a[1..]), b[0].fragments, Joined(b[1..]));
      CutRightRest(c, lines, a);
      CutRightRest(c, lines, b);
      CutsAreDetermined(c, lines, a[1..], b[1..]);
      assert forall k :: 1 <= k < |a| ==> a[k] == a[1..][k - 1] && b[k] == b[1..][k - 1];
    }
  }

  lemma SameFirst(x: seq<Fragment>, xs: seq<Fragment>, y: seq<Fragment>, ys: seq<Fragment>)
    requires x + xs == y + ys && |x| == |y|
    ensures x == y && xs == ys
  {
    assert x == (x + xs)[..|x|] && y == (y + ys)[..|y|];
    assert xs == (x + xs)[|x|..] && ys == (y + ys)[|y|..];
  }

  // ------------------------------------------------------------------
  // What the cuts respect
  // ------------------------------------------------------------------

  ghost function SectionAt(c: Classifiers, dedicated: bool, lines: seq<Line>, n: nat): nat
    requires n <= |lines|
  {
    ReadAll(c, dedicated, lines[..n]).section
  }

  /** The line begins a new section or ends one. */
  ghost predicate IsHeading(c: Classifiers, dedicated: bool, lines: seq<Line>, h: nat)
    requires h < |lines|
  {
    var kind := KindOf(c, ReadAll(c, dedicated, lines[..h]).active, lines[h].text);
    kind.StopInline? || kind.SectionInline? || kind.Heading? || kind.StopLine?
  }

  /** The fragment was accepted on a line, under the label in force before that line or, right of a heading in it, after it. */
  ghost predicate Placed(c: Classifiers, dedicated: bool, lines: seq<Line>, f: Fragment) {
    && f.at < |lines|
    && var before, after := ReadAll(c, dedicated, lines[..f.at]), ReadAll(c, dedicated, lines[..f.at + 1]);
       || (before.active && f.section == before.section && f.sectionLabel == before.sectionLabel && f.status == before.status)
       || (f.section == after.section && f.sectionLabel == after.sectionLabel && f.status == after.status
           && KindOf(c, before.active, lines[f.at].text).SectionInline?)
  }

  /** The line is a heading that opens a section of this label and status. */
  ghost predicate Opens(c: Classifiers, dedicated: bool, lines: seq<Line>, h: nat, sectionLabel: string, status: string)
    requires h < |lines|
  {
    match KindOf(c, ReadAll(c, dedicated, lines[..h]).active, lines[h].text)
    case Heading(newLabel, newStatus) => newLabel == sectionLabel && newStatus == status
    case SectionInline(inner) => inner.sectionLabel == sectionLabel && inner.status == status
    case _ => false
  }

  ghost predicate NoHeadingIn(c: Classifiers, dedicated: bool, lines: seq<Line>, from: nat, to: nat)
    requires to <= |lines|
  {
    forall h :: from <= h < to ==> !IsHeading(c, dedicated, lines, h)
  }

  /** The nearest heading before line `n`, of any kind, opens a section of this label and status. */
  ghost predicate Nearest(c: Classifiers, dedicated: bool, lines: seq<Line>, h: nat, n: nat, sectionLabel: string, status: string) {
    h < n <= |lines| && Opens(c, dedicated, lines, h, sectionLabel, status) && NoHeadingIn(c, dedicated, lines, h + 1, n)
  }

  /** The label and status of the nearest heading before line `n`, or of a dedicated list in which there is none. */
  ghost predicate Governed(c: Classifiers, dedicated: bool, lines: seq<Line>, n: nat, sectionLabel: string, status: string) {
    || (exists h :: Nearest(c, dedicated, lines, h, n, sectionLabel, status))
    || (&& dedicated && sectionLabel == "PUBLICATION_LIST" && status == "PUBLISHED"
        && n <= |lines| && NoHeadingIn(c, dedicated, lines, 0, n))
  }

  /** The fragment stands under the nearest heading above it, which is in its own line if it is what an inline one left. */
  ghost predicate Labelled(c: Classifiers, dedicated: bool, lines: seq<Line>, f: Fragment) {
    || Governed(c, dedicated, lines, f.at, f.sectionLabel, f.status)
    || (f.at < |lines| && Opens(c, dedicated, lines, f.at, f.sectionLabel, f.status))
  }

  lemma NoHeadingFurther(c: Classifiers, dedicated: bool, lines: seq<Line>, from: nat, m: nat)
    requires m < |lines| && NoHeadingIn(c, dedicated, lines, from, m) && !IsHeading(c, dedicated, lines, m)
    ensures NoHeadingIn(c, dedicated, lines, from, m + 1)
  {
    forall h | from <= h < m + 1 ensures !IsHeading(c, dedicated, lines, h) {
      if h != m { assert NoHeadingIn(c, dedicated, lines, from, m); }
    }
  }

  lemma NearestFurther(c: Classifiers, dedicated: bool, lines: seq<Line>, h: nat, m: nat, sectionLabel: string, status: string)
    requires m < |lines| && Nearest(c, dedicated, lines, h, m, sectionLabel, status) && !IsHeading(c, dedicated, lines, m)
    ensures Nearest(c, dedicated, lines, h, m + 1, sectionLabel, status)
  {
    NoHeadingFurther(c, dedicated, lines, h + 1, m);
  }

  lemma GovernedFurther(c: Classifiers, dedicated: bool, lines: seq<Line>, m: nat, sectionLabel: string, status: string)
    requires m < |lines| && Governed(c, dedicated, lines, m, sectionLabel, status) && !IsHeading(c, dedicated, lines, m)
    ensures Governed(c, dedicated, lines, m + 1, sectionLabel, status)
  {
    if h: nat :| Nearest(c, dedicated, lines, h, m, sectionLabel, status) {
      NearestFurther(c, dedicated, lines, h, m, sectionLabel, status);
    } else {
      NoHeadingFurther(c, dedicated, lines, 0, m);
    }
  }

  /** Only a heading changes whether a section is active, its label or its status, and takes them from itself. */
  lemma LabelAfterLine(c: Classifiers, dedicated: bool, lines: seq<Line>, m: nat)
    requires m < |lines|
    ensures var before, after := ReadAll(c, dedicated, lines[..m]), ReadAll(c, dedicated, lines[..m + 1]);
      if IsHeading(c, dedicated, lines, m) then after.active ==> Opens(c, dedicated, lines, m, after.sectionLabel, after.status)
      else after.active == before.active && after.sectionLabel == before.sectionLabel && after.status == before.status
  {
    assert lines[..m + 1][..m] == lines[..m];
  }

  /** While a section is active, the label and status kept are those of the nearest heading. */
  lemma {:induction false} ActiveIsGoverned(c: Classifiers, dedicated: bool, lines: seq<Line>, n: nat)
    requires n <= |lines| && ReadAll(c, dedicated, lines[..n]).active
    ensures var s := ReadAll(c, dedicated, lines[..n]); Governed(c, dedicated, lines, n, s.sectionLabel, s.status)
  {
    if n > 0 {
      var m, s := n - 1, ReadAll(c, dedicated, lines[..n]);
      LabelAfterLine(c, dedicated, lines, m);
      if IsHeading(c, dedicated, lines, m) {
        assert Nearest(c, dedicated, lines, m, n, s.sectionLabel, s.status);
      } else {
        ActiveIsGoverned(c, dedicated, lines, m);
        GovernedFurther(c, dedicated, lines, m, s.sectionLabel, s.status);
      }
    }
  }

  lemma PlacedIsLabelled(c: Classifiers, dedicated: bool, lines: seq<Line>, f: Fragment)
    requires Placed(c, dedicated, lines, f)
    ensures Labelled(c, dedicated, lines, f)
  {
    var before := ReadAll(c, dedicated, lines[..f.at]);
    if before.active && f.sectionLabel == before.sectionLabel && f.status == before.status {
      ActiveIsGoverned(c, dedicated, lines, f.at);
    } else {
      assert lines[..f.at + 1][..f.at] == lines[..f.at];
    }
  }

  ghost predicate InOrder(accepted: seq<Fragment>) {
    forall i, j :: 0 <= i < j < |accepted| ==>
      && accepted[i].at <= accepted[j].at && accepted[i].section <= accepted[j].section
      && (accepted[i].at == accepted[j].at ==> j == i + 1 && accepted[i].section < accepted[j].section)
  }

  lemma {:induction false} AcceptedInOrder(c: Classifiers, dedicated: bool, lines: seq<Line>)
    ensures var s := ReadAll(c, dedicated, lines);
      && InOrder(s.accepted)
      && (forall f :: f in s.accepted ==> f.at < |lines| && f.section <= s.section)
  {
    if lines != [] {
      AcceptedInOrder(c, dedicated, lines[..|lines| - 1]);
      ReadKeepsOrder(c, ReadAll(c, dedicated, lines[..|lines| - 1]), |lines| - 1, lines[|lines| - 1].text);
    }
  }

  /** The fragments that one line adds. */
  function Added(c: Classifiers, s: Scan, at: nat, text: string): seq<Fragment> {
    Read(c, s.(accepted := []), at, text).accepted
  }

  lemma ReadAdds(c: Classifiers, s: Scan, at: nat, text: string)
    ensures Read(c, s, at, text).accepted == s.accepted + Added(c, s, at, text)
    ensures Read(c, s, at, text).section >= s.section
  {
  }

  lemma AddedShape(c: Classifiers, s: Scan, at: nat, text: string)
    ensures var tail := Added(c, s, at, text);
      && |tail| <= 2
      && (forall i :: 0 <= i < |tail| ==> tail[i].at == at && s.section <= tail[i].section <= Read(c, s, at, text).section)
      && (|tail| == 2 ==> tail[0].section < tail[1].section)
  {
  }

  lemma ReadKeepsOrder(c: Classifiers, s: Scan, at: nat, text: string)
    requires InOrder(s.accepted) && forall f :: f in s.accepted ==> f.at < at && f.section <= s.section
    ensures var s' := Read(c, s, at, text);
      InOrder(s'.accepted) && forall f :: f in s'.accepted ==> f.at <= at && f.section <= s'.section
  {
    var tail := Added(c, s, at, text);
    ReadAdds(c, s, at, text);
    AddedShape(c, s, at, text);
    TailInOrder(s.accepted, tail, at, s.section);
    forall f | f in s.accepted + tail ensures f.at <= at && f.section <= Read(c, s, at, text).section {
      if f !in s.accepted { assert f in tail; }
    }
  }

  lemma TailInOrder(accepted: seq<Fragment>, tail: seq<Fragment>, at: nat, section: nat)
    requires InOrder(accepted) && forall f :: f in accepted ==> f.at < at && f.section <= section
    requires |tail| <= 2 && forall i :: 0 <= i < |tail| ==> tail[i].at == at && tail[i].section >= section
    requires |tail| == 2 ==> tail[0].section < tail[1].section
    ensures InOrder(accepted + tail)
  {
    assert forall i :: 0 <= i < |accepted| ==> accepted[i] in accepted;
  }

  lemma {:induction false} AcceptedPlaced(c: Classifiers, dedicated: bool, lines: seq<Line>, f: Fragment)
    requires f in ReadAll(c, dedicated, lines).accepted
    ensures Placed(c, dedicated, lines, f)
  {
    var n := |lines| - 1;
    var s := ReadAll(c, dedicated, lines[..n]);
    if f in s.accepted {
      AcceptedPlaced(c, dedicated, lines[..n], f);
      assert lines[..n][..f.at] == lines[..f.at] && lines[..n][..f.at + 1] == lines[..f.at + 1];
    } else {
      assert lines[..n + 1] == lines;
      assert f.at == n;
    }
  }

  lemma {:induction false} SectionsGrow(c: Classifiers, dedicated: bool, lines: seq<Line>, m: nat, n: nat)
    requires m <= n <= |lines|
    ensures SectionAt(c, dedicated, lines, m) <= SectionAt(c, dedicated, lines, n)
    ensures m < n && IsHeading(c, dedicated, lines, m) ==> SectionAt(c, dedicated, lines, m) < SectionAt(c, dedicated, lines, n)
    decreases n
  {
    if m < n {
      SectionsGrow(c, dedicated, lines, m, n - 1);
      assert lines[..n][..n - 1] == lines[..n - 1];
    }
  }

  /** Fragments on either side of a heading are in different sections. */
  lemma HeadingSeparates(c: Classifiers, dedicated: bool, lines: seq<Line>, f: Fragment, h: nat, g: Fragment)
    requires Placed(c, dedicated, lines, f) && Placed(c, dedicated, lines, g)
    requires f.at < h < g.at && IsHeading(c, dedicated, lines, h)
    ensures f.section < g.section
  {
    PlacedSection(c, dedicated, lines, f);
    PlacedSection(c, dedicated, lines, g);
    SectionsGrow(c, dedicated, lines, f.at + 1, h);
    SectionsGrow(c, dedicated, lines, h, g.at);
  }

  lemma PlacedSection(c: Classifiers, dedicated: bool, lines: seq<Line>, f: Fragment)
    requires Placed(c, dedicated, lines, f)
    ensures SectionAt(c, dedicated, lines, f.at) <= f.section <= SectionAt(c, dedicated, lines, f.at + 1)
  {
    SectionsGrow(c, dedicated, lines, f.at, f.at + 1);
  }

  lemma {:induction false} EntryInJoined(entries: seq<Entry>, k: nat, i: nat) returns (at: nat)
    requires k < |entries| && i < |entries[k].fragments|
    ensures at == |Joined(entries[..k])| + i < |Joined(entries)| && Joined(entries)[at] == entries[k].fragments[i]
    decreases |entries|
  {
    var n := |entries| - 1;
    if k < n {
      at := EntryInJoined(entries[..n], k, i);
      assert entries[..n][..k] == entries[..k];
    } else {
      at := |Joined(entries[..k])| + i;
    }
  }

  lemma {:induction false} LaterEntryLater(entries: seq<Entry>, k: nat, l: nat)
    requires k < l < |entries|
    ensures |Joined(entries[..k])| + |entries[k].fragments| <= |Joined(entries[..l])|
    decreases l
  {
    assert entries[..l][..l - 1] == entries[..l - 1];
    if k < l - 1 { LaterEntryLater(entries, k, l - 1); }
  }

  function First(e: Entry): Fragment
    requires e.fragments != []
  {
    e.fragments[0]
  }

  function Last(e: Entry): Fragment
    requires e.fragments != []
  {
    e.fragments[|e.fragments| - 1]
  }

  /** The entries are a segmentation of the accepted text, as `Segment` returns it. */
  ghost predicate Segmentation(c: Classifiers, dedicated: bool, lines: seq<Line>, entries: seq<Entry>) {
    Joined(entries) == ReadAll(c, dedicated, lines).accepted && forall k :: 0 <= k < |entries| ==> Uniform(entries[k])
  }

  /**
   * Entries come in reading order; two of them share a line only if they are neighbours, the line then being split at an
   * inline section heading, so that they lie in different sections.
   */
  lemma EntriesAreOrdered(c: Classifiers, dedicated: bool, lines: seq<Line>, entries: seq<Entry>, k: nat, l: nat)
    requires Segmentation(c, dedicated, lines, entries) && k < l < |entries|
    ensures Last(entries[k]).at <= First(entries[l]).at
    ensures Last(entries[k]).at == First(entries[l]).at ==>
              l == k + 1 && First(entries[k]).section < First(entries[l]).section
  {
    AcceptedInOrder(c, dedicated, lines);
    var i := EntryInJoined(entries, k, |entries[k].fragments| - 1);
    var j := EntryInJoined(entries, l, 0);
    LaterEntryLater(entries, k, l);
    if l > k + 1 {
      var m := EntryInJoined(entries, k + 1, 0);
      LaterEntryLater(entries, k, k + 1);
      LaterEntryLater(entries, k + 1, l);
    }
  }

  /** No entry contains text from both sides of a heading line, and its label is that of the nearest heading above its text. */
  lemma EntriesRespectHeadings(c: Classifiers, dedicated: bool, lines: seq<Line>, entries: seq<Entry>, k: nat)
    requires Segmentation(c, dedicated, lines, entries) && k < |entries|
    ensures forall i :: 0 <= i < |entries[k].fragments| ==>
              Placed(c, dedicated, lines, entries[k].fragments[i]) && Labelled(c, dedicated, lines, entries[k].fragments[i])
    ensures entries[k].sectionLabel == First(entries[k]).sectionLabel && entries[k].status == First(entries[k]).status
    ensures forall h :: First(entries[k]).at < h < Last(entries[k]).at && h < |lines| ==> !IsHeading(c, dedicated, lines, h)
  {
    assert Uniform(entries[k]);
    forall i | 0 <= i < |entries[k].fragments|
      ensures Placed(c, dedicated, lines, entries[k].fragments[i]) && Labelled(c, dedicated, lines, entries[k].fragments[i])
    {
      var at := EntryInJoined(entries, k, i);
      AcceptedPlaced(c, dedicated, lines, entries[k].fragments[i]);
      PlacedIsLabelled(c, dedicated, lines, entries[k].fragments[i]);
    }
    forall h | First(entries[k]).at < h < Last(entries[k]).at && h < |lines| ensures !IsHeading(c, dedicated, lines, h) {
      if IsHeading(c, dedicated, lines, h) {
        HeadingSeparates(c, dedicated, lines, First(entries[k]), h, Last(entries[k]));
      }
    }
  }

  // ------------------------------------------------------------------
  // Which text is accepted
  // ------------------------------------------------------------------

  /** The line is neither furniture nor split by an inline heading, which counts only in an active section. */
  predicate Unsplit(c: Classifiers, active: bool, text: string) {
    !(active && (c.inlineStop(text).Some? || c.inlineSection(text).Some?))
    && !(c.furniture(text) && !c.blank(text) && c.heading(text).None?)
  }

  /** The kinds of line, each by its own tests. */
  lemma KindsAre(c: Classifiers, active: bool, text: string)
    ensures forall before :: KindOf(c, active, text) == StopInline(before) <==> active && c.inlineStop(text) == Some(before)
    ensures forall h :: KindOf(c, active, text) == SectionInline(h) <==>
                        active && c.inlineStop(text).None? && c.inlineSection(text) == Some(h)
    ensures forall l, s :: KindOf(c, active, text) == Heading(l, s) <==> Unsplit(c, active, text) && c.heading(text) == Some((l, s))
    ensures KindOf(c, active, text) == StopLine <==> Unsplit(c, active, text) && c.heading(text).None? && c.stopHeading(text)
    ensures KindOf(c, active, text) == BlankLine <==>
            active && Unsplit(c, active, text) && c.heading(text).None? && !c.stopHeading(text) && !c.explanatory(text) && c.blank(text)
    ensures KindOf(c, active, text) == Body <==>
            active && Unsplit(c, active, text) && c.heading(text).None? && !c.stopHeading(text) && !c.explanatory(text) && !c.blank(text)
  {
  }

  ghost predicate ActiveAt(c: Classifiers, dedicated: bool, lines: seq<Line>, n: nat)
    requires n <= |lines|
  {
    ReadAll(c, dedicated, lines[..n]).active
  }

  /** A section is active exactly if the nearest heading above opened one, or none is there and the list is dedicated. */
  lemma {:induction false} ActiveIff(c: Classifiers, dedicated: bool, lines: seq<Line>, n: nat)
    requires n <= |lines|
    ensures ActiveAt(c, dedicated, lines, n) <==> exists sectionLabel, status :: Governed(c, dedicated, lines, n, sectionLabel, status)
  {
    if ActiveAt(c, dedicated, lines, n) { ActiveIsGoverned(c, dedicated, lines, n); }
    if sectionLabel, status :| Governed(c, dedicated, lines, n, sectionLabel, status) {
      if h: nat :| Nearest(c, dedicated, lines, h, n, sectionLabel, status) {
        OpenedIsActive(c, dedicated, lines, h, n, sectionLabel, status);
      } else {
        NothingChangesActive(c, dedicated, lines, 0, n);
        assert lines[..0] == [];
      }
    }
  }

  lemma OpenedIsActive(c: Classifiers, dedicated: bool, lines: seq<Line>, h: nat, n: nat, sectionLabel: string, status: string)
    requires Nearest(c, dedicated, lines, h, n, sectionLabel, status)
    ensures ActiveAt(c, dedicated, lines, n)
  {
    assert lines[..h + 1][..h] == lines[..h];
    NothingChangesActive(c, dedicated, lines, h + 1, n);
  }

  lemma {:induction false} NothingChangesActive(c: Classifiers, dedicated: bool, lines: seq<Line>, from: nat, n: nat)
    requires from <= n <= |lines| && NoHeadingIn(c, dedicated, lines, from, n)
    ensures ActiveAt(c, dedicated, lines, n) == ActiveAt(c, dedicated, lines, from)
    decreases n
  {
    if from < n {
      assert !IsHeading(c, dedicated, lines, n - 1);
      NothingChangesActive(c, dedicated, lines, from, n - 1);
      LabelAfterLine(c, dedicated, lines, n - 1);
    }
  }

  /** The pieces of text that a line contributes: all of it, or what an inline heading leaves, or nothing. */
  function PiecesOf(c: Classifiers, active: bool, text: string): seq<string> {
    match KindOf(c, active, text)
    case StopInline(before) => if before == "" then [] else [before]
    case SectionInline(h) => (if h.before == "" then [] else [h.before]) + (if h.after == "" then [] else [h.after])
    case Body => [text]
    case _ => []
  }

  /** The texts accepted from the first `n` lines. */
  ghost function Pieces(c: Classifiers, dedicated: bool, lines: seq<Line>, n: nat): seq<string>
    requires n <= |lines|
  {
    if n == 0 then []
    else Pieces(c, dedicated, lines, n - 1) + PiecesOf(c, ActiveAt(c, dedicated, lines, n - 1), lines[n - 1].text)
  }

  lemma TextsOfSum(a: seq<Fragment>, b: seq<Fragment>)
    ensures TextsOf(a + b) == TextsOf(a) + TextsOf(b)
  {
  }

  lemma AddedTexts(c: Classifiers, s: Scan, at: nat, text: string)
    ensures TextsOf(Added(c, s, at, text)) == PiecesOf(c, s.active, text)
  {
  }

  /** What the entries consist of is line by line exactly what the lines contribute: nothing is dropped or invented. */
  lemma {:induction false} AcceptedIsPieces(c: Classifiers, dedicated: bool, lines: seq<Line>, n: nat)
    requires n <= |lines|
    ensures TextsOf(ReadAll(c, dedicated, lines[..n]).accepted) == Pieces(c, dedicated, lines, n)
  {
    if n > 0 {
      var s := ReadAll(c, dedicated, lines[..n - 1]);
      assert lines[..n][..n - 1] == lines[..n - 1];
      AcceptedIsPieces(c, dedicated, lines, n - 1);
      ReadAdds(c, s, n - 1, lines[n - 1].text);
      AddedTexts(c, s, n - 1, lines[n - 1].text);
      TextsOfSum(s.accepted, Added(c, s, n - 1, lines[n - 1].text));
    }
  }

  /** All entries together hold exactly what the lines contribute, in order. */
  lemma EntriesHoldThePieces(c: Classifiers, dedicated: bool, lines: seq<Line>, entries: seq<Entry>)
    requires Segmentation(c, dedicated, lines, entries)
    ensures TextsOf(Joined(entries)) == Pieces(c, dedicated, lines, |lines|)
  {
    assert lines[..|lines|] == lines;
    AcceptedIsPieces(c, dedicated, lines, |lines|);
  }

  // ------------------------------------------------------------------
  // Which column year is in force
  // ------------------------------------------------------------------

  /** What the line does to the column year: a body line with a year in its first column sets it, most headings end it. */
  ghost function YearSetBy(c: Classifiers, dedicated: bool, lines: seq<Line>, h: nat): Option<Option<int>>
    requires h < |lines|
  {
    match KindOf(c, ActiveAt(c, dedicated, lines, h), lines[h].text)
    case StopInline(_) => Some(None)
    case Heading(_, _) => Some(None)
    case StopLine => Some(None)
    case Body => if c.yearColumn(lines[h].text).Some? then Some(c.yearColumn(lines[h].text)) else None
    case _ => None
  }

  ghost predicate NoYearIn(c: Classifiers, dedicated: bool, lines: seq<Line>, from: nat, to: nat)
    requires to <= |lines|
  {
    forall h :: from <= h < to ==> YearSetBy(c, dedicated, lines, h).None?
  }

  ghost predicate NearestYear(c: Classifiers, dedicated: bool, lines: seq<Line>, h: nat, n: nat, year: Option<int>) {
    h < n <= |lines| && YearSetBy(c, dedicated, lines, h) == Some(year) && NoYearIn(c, dedicated, lines, h + 1, n)
  }

  /** The year of the nearest line before `n` that sets or ends it, or none. */
  ghost predicate YearAbove(c: Classifiers, dedicated: bool, lines: seq<Line>, n: nat, year: Option<int>) {
    || (exists h: nat :: NearestYear(c, dedicated, lines, h, n, year))
    || (n <= |lines| && year.None? && NoYearIn(c, dedicated, lines, 0, n))
  }

  lemma NoYearFurther(c: Classifiers, dedicated: bool, lines: seq<Line>, from: nat, m: nat)
    requires m < |lines| && NoYearIn(c, dedicated, lines, from, m) && YearSetBy(c, dedicated, lines, m).None?
    ensures NoYearIn(c, dedicated, lines, from, m + 1)
  {
    forall h | from <= h < m + 1 ensures YearSetBy(c, dedicated, lines, h).None? {
      if h != m { assert NoYearIn(c, dedicated, lines, from, m); }
    }
  }

  lemma NearestYearFurther(c: Classifiers, dedicated: bool, lines: seq<Line>, h: nat, m: nat, year: Option<int>)
    requires m < |lines| && NearestYear(c, dedicated, lines, h, m, year) && YearSetBy(c, dedicated, lines, m).None?
    ensures NearestYear(c, dedicated, lines, h, m + 1, year)
  {
    NoYearFurther(c, dedicated, lines, h + 1, m);
  }

  lemma YearAfterLine(c: Classifiers, dedicated: bool, lines: seq<Line>, m: nat)
    requires m < |lines|
    ensures var put := YearSetBy(c, dedicated, lines, m);
      ReadAll(c, dedicated, lines[..m + 1]).year == if put.Some? then put.value else ReadAll(c, dedicated, lines[..m]).year
  {
    assert lines[..m + 1][..m] == lines[..m];
  }

  lemma {:induction false} YearIsNearest(c: Classifiers, dedicated: bool, lines: seq<Line>, n: nat)
    requires n <= |lines|
    ensures YearAbove(c, dedicated, lines, n, ReadAll(c, dedicated, lines[..n]).year)
  {
    if n > 0 {
      var m, year := n - 1, ReadAll(c, dedicated, lines[..n]).year;
      YearAfterLine(c, dedicated, lines, m);
      YearIsNearest(c, dedicated, lines, m);
      if YearSetBy(c, dedicated, lines, m).Some? {
        assert NearestYear(c, dedicated, lines, m, n, year);
      } else if h: nat :| NearestYear(c, dedicated, lines, h, m, year) {
        NearestYearFurther(c, dedicated, lines, h, m, year);
      } else {
        NoYearFurther(c, dedicated, lines, 0, m);
      }
    }
  }

  /** The point up to which lines count for a fragment's year: a body line counts for itself. */
  ghost function DatedUpTo(c: Classifiers, dedicated: bool, lines: seq<Line>, at: nat): nat
    requires at < |lines|
  {
    if KindOf(c, ActiveAt(c, dedicated, lines, at), lines[at].text).Body? then at + 1 else at
  }

  lemma {:induction false} AcceptedDated(c: Classifiers, dedicated: bool, lines: seq<Line>, n: nat, f: Fragment)
    requires n <= |lines| && f in ReadAll(c, dedicated, lines[..n]).accepted
    ensures f.at < n && f.year == ReadAll(c, dedicated, lines[..DatedUpTo(c, dedicated, lines, f.at)]).year
  {
    var m := n - 1;
    var s := ReadAll(c, dedicated, lines[..m]);
    assert lines[..n][..m] == lines[..m];
    if f in s.accepted {
      AcceptedDated(c, dedicated, lines, m, f);
    } else {
      ReadAdds(c, s, m, lines[m].text);
      AddedDated(c, s, m, lines[m].text, f);
    }
  }

  lemma AddedDated(c: Classifiers, s: Scan, at: nat, text: string, f: Fragment)
    requires f in Added(c, s, at, text)
    ensures f.at == at && f.year == if KindOf(c, s.active, text).Body? then Read(c, s, at, text).year else s.year
  {
  }

  /** An entry has the column year of the nearest line above that sets or ends it, its own first line included. */
  lemma EntriesAreDated(c: Classifiers, dedicated: bool, lines: seq<Line>, entries: seq<Entry>, k: nat, i: nat)
    requires Segmentation(c, dedicated, lines, entries) && k < |entries| && i < |entries[k].fragments|
    ensures var at := entries[k].fragments[i].at;
            at < |lines| && YearAbove(c, dedicated, lines, DatedUpTo(c, dedicated, lines, at), entries[k].year)
  {
    var f := entries[k].fragments[i];
    var j := EntryInJoined(entries, k, i);
    assert lines[..|lines|] == lines;
    AcceptedDated(c, dedicated, lines, |lines|, f);
    YearIsNearest(c, dedicated, lines, DatedUpTo(c, dedicated, lines, f.at));
    assert Uniform(entries[k]);
  }

  /** An entry that a line cuts off says why. */
  lemma CutsSayWhy(c: Classifiers, m: Cutter, at: nat, text: string)
    ensures var m' := NextCutter(c, m, at, text);
      && m.entries <= m'.entries
      && forall k :: |m.entries| <= k < |m'.entries| ==>
           m'.entries[k].fragments != [] && m'.entries[k].reason ==
           if m.active && c.inlineStop(text).Some? then "inline-stop-heading"
           else if m.active && c.inlineSection(text).Some? then "inline-section-heading"
           else if c.heading(text).Some? then "section-heading"
           else if c.stopHeading(text) then "stop-heading"
           else if c.blank(text) then "blank-group"
           else "enumerator-or-terminal-year"
  {
  }
}
