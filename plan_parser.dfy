/** `ResearchAgent.parseAccountPlan`: split generated plan text into named
    sections by scanning it line by line for the canonical section titles.

    Three descriptions of the same parse live here:
    - `ParseAccountPlan`, the loop as the server runs it;
    - `Scan`/`Parse`, the loop's state after each line, one step at a time;
    - `Group`/`Assemble`, an independent reading: cut the lines into a preamble
      and one segment per header line, then store each segment's body under
      its title in order.
    The lemmas prove the three agree and state what the parse promises. The
    scan is stated for any list of titles; the server always passes the ten
    canonical ones. */
module PlanParser {
  import opened Common
  import opened JsText
  import opened PlanSections

  /** The ten canonical section titles, in the order they are tested. */
  const SectionTitles: seq<string> := [
    "Executive Summary",
    "Company Overview",
    "Market Position & Competitors",
    "Key Stakeholders",
    "Business Challenges & Opportunities",
    "Product/Service Fit",
    "Engagement Strategy",
    "Success Metrics",
    "Timeline & Milestones",
    "Risk Assessment"
  ]

  /** Index of the first title, in list order, that `line` contains. */
  function FirstMatch(line: string, titles: seq<string>): (r: Option<nat>)
    ensures r.None? <==> forall i :: 0 <= i < |titles| ==> !Includes(line, titles[i])
    ensures r.Some? ==> r.value < |titles| && Includes(line, titles[r.value])
    ensures r.Some? ==> forall j :: 0 <= j < r.value ==> !Includes(line, titles[j])
  {
    if titles == [] then None
    else if Includes(line, titles[0]) then Some(0)
    else match FirstMatch(line, titles[1..])
      case None => None
      case Some(i) => Some(i + 1)
  }

  /** Title `k` is the first title, in list order, the trimmed line contains. */
  predicate FirstTitleAt(line: string, titles: seq<string>, k: nat) {
    && k < |titles|
    && Includes(Trim(line), titles[k])
    && forall j :: 0 <= j < k ==> !Includes(Trim(line), titles[j])
  }

  /** The title a line opens when it is a section header: one of the titles,
      and none exactly when the TRIMMED line contains no title. */
  function HeaderOf(line: string, titles: seq<string>): (r: Option<string>)
    ensures r.Some? ==> r.value in titles
    ensures r.None? <==> forall j :: 0 <= j < |titles| ==> !Includes(Trim(line), titles[j])
  {
    match FirstMatch(Trim(line), titles)
    case None => None
    case Some(i) => Some(titles[i])
  }

  /** A header opens the first title, in list order, its trimmed text
      contains. */
  lemma HeaderOfFirst(line: string, titles: seq<string>)
    ensures forall k: nat :: FirstTitleAt(line, titles, k) ==> HeaderOf(line, titles) == Some(titles[k])
  {
    var r := FirstMatch(Trim(line), titles);
    forall k: nat | FirstTitleAt(line, titles, k)
      ensures HeaderOf(line, titles) == Some(titles[k])
    {
      assert r.Some?;
      assert r.value == k;
    }
  }

  /** Which title, if any, a line opens. The scan below is stated for any
      such rule; the parser's rule is `Headers(titles)`. */
  type HeaderRule = string -> Option<string>

  function Headers(titles: seq<string>): HeaderRule {
    line => HeaderOf(line, titles)
  }

  // ---------------------------------------------------------------------
  // The loop, one step at a time

  /** The loop's state: the open section (`currentSection`), the lines
      buffered for it (`currentContent`) and the sections stored so far. */
  datatype ScanState = ScanState(current: Option<string>, buffer: seq<string>, sections: Sections)

  const Start := ScanState(None, [], [])

  /** A section body: its buffered lines joined with newlines, then trimmed. */
  function Body(lines: seq<string>): string {
    Trim(Join(lines, "\n"))
  }

  /** The sections once the open section, if any, is stored under its title. */
  function Flush(st: ScanState): Sections {
    match st.current
    case None => st.sections
    case Some(t) => Put(st.sections, t, Body(st.buffer))
  }

  /** One line of the scan. A header stores the open section and opens a new,
      empty one (the header line itself is not buffered); any other line is
      buffered, untrimmed, when a section is open and dropped otherwise. */
  function Step(st: ScanState, line: string, rule: HeaderRule): ScanState {
    match rule(line)
    case Some(t) => ScanState(Some(t), [], Flush(st))
    case None => if st.current.Some? then st.(buffer := st.buffer + [line]) else st
  }

  /** The state after scanning `lines` from the start. */
  function Scan(lines: seq<string>, rule: HeaderRule): ScanState {
    if lines == [] then Start
    else Step(Scan(lines[..|lines| - 1], rule), lines[|lines| - 1], rule)
  }

  /** The parse against a list of titles: the input kept verbatim as
      `fullText`, and the sections stored once every line of
      `planText.split('\n')` is scanned. Only sections under the titles, each
      once. A section counts as open whatever its title, while the server
      tests `currentSection` for truthiness; the two agree for titles that
      are not empty, as the canonical ones are. */
  function ParseWith(planText: string, titles: seq<string>): (r: PlanDocument)
    ensures r.fullText == planText
    ensures forall k :: k in Keys(r.sections) ==> k in titles
    ensures DistinctKeys(r.sections)
  {
    var lines := Split(planText, '\n');
    var rule := Headers(titles);
    ScanIsAssembly(lines, rule);
    AssembleKeys(Group(lines, rule).segments);
    AssembleDistinct(Group(lines, rule).segments);
    TitlesOfGroup(lines, rule);
    HeaderTitlesFromList(lines, titles);
    DedupMembers(HeaderTitles(lines, rule));
    PlanDocument(planText, Flush(Scan(lines, rule)))
  }

  /** The parse the server performs, against the canonical titles: the input
      kept verbatim, and sections under canonical titles only, each once. */
  function Parse(planText: string): (r: PlanDocument)
    ensures r.fullText == planText
    ensures forall k :: k in Keys(r.sections) ==> k in SectionTitles
    ensures DistinctKeys(r.sections)
  {
    ParseWith(planText, SectionTitles)
  }

  /** No title among the first `k + 1` is contained once none among the
      first `k` is and title `k` is not. */
  lemma NoMatchExtend(line: string, titles: seq<string>, k: nat)
    requires k < |titles| && FirstMatch(line, titles[..k]).None? && !Includes(line, titles[k])
    ensures FirstMatch(line, titles[..k + 1]).None?
  {
    assert forall j :: 0 <= j < k ==> titles[..k + 1][j] == titles[..k][j];
  }

  /** A line whose trimmed text contains title `k` and no earlier title is
      a header for title `k`. */
  lemma HeaderAt(line: string, titles: seq<string>, k: nat)
    requires k < |titles| && Includes(Trim(line), titles[k])
    requires FirstMatch(Trim(line), titles[..k]).None?
    ensures HeaderOf(line, titles) == Some(titles[k])
  {
    var r := FirstMatch(Trim(line), titles);
    assert forall j :: 0 <= j < k ==> titles[..k][j] == titles[j];
    assert r.Some?;
    assert r.value == k;
  }

  /** Scanning one more line is one more step. */
  lemma ScanSnoc(lines: seq<string>, i: nat, rule: HeaderRule)
    requires i < |lines|
    ensures Scan(lines[..i + 1], rule) == Step(Scan(lines[..i], rule), lines[i], rule)
  {
    assert lines[..i + 1][..i] == lines[..i];
  }

  /** The body of the loop over lines: look for the first title the trimmed
      line contains; on a match store the open section and open the new
      one, otherwise buffer the line when a section is open. */
  method ScanLine(line: string, sectionTitles: seq<string>, sections: Sections,
                  currentSection: Option<string>, currentContent: seq<string>)
    returns (sections': Sections, currentSection': Option<string>, currentContent': seq<string>)
    ensures ScanState(currentSection', currentContent', sections') ==
      Step(ScanState(currentSection, currentContent, sections), line, Headers(sectionTitles))
  {
    sections', currentSection', currentContent' := sections, currentSection, currentContent;
    var trimmedLine := Trim(line);

    var isSectionHeader := false;
    var k := 0;
    while k < |sectionTitles|
      invariant 0 <= k <= |sectionTitles|
      invariant FirstMatch(trimmedLine, sectionTitles[..k]).None?
      invariant sections' == sections && currentSection' == currentSection && currentContent' == currentContent
      invariant !isSectionHeader
    {
      var title := sectionTitles[k];
      if Includes(trimmedLine, title) {
        HeaderAt(line, sectionTitles, k);
        if currentSection'.Some? {
          sections' := Put(sections', currentSection'.value, Trim(Join(currentContent', "\n")));
        }
        currentSection' := Some(title);
        currentContent' := [];
        isSectionHeader := true;
        break;
      }
      NoMatchExtend(trimmedLine, sectionTitles, k);
      k := k + 1;
    }

    if !isSectionHeader {
      assert sectionTitles[..|sectionTitles|] == sectionTitles;
      assert HeaderOf(line, sectionTitles) == None;
      if currentSection'.Some? {
        currentContent' := currentContent' + [line];
      }
    }
  }

  /** `parseAccountPlan(planText)`. */
  method ParseAccountPlan(planText: string) returns (plan: PlanDocument)
    ensures plan == Parse(planText)
    ensures plan.fullText == planText
  {
    var sections: Sections := [];
    var sectionTitles := SectionTitles;
    var currentSection: Option<string> := None;
    var currentContent: seq<string> := [];

    var lines := Split(planText, '\n');
    var i := 0;
    while i < |lines|
      invariant 0 <= i <= |lines|
      invariant ScanState(currentSection, currentContent, sections) == Scan(lines[..i], Headers(sectionTitles))
    {
      ScanSnoc(lines, i, Headers(sectionTitles));
      sections, currentSection, currentContent := ScanLine(lines[i], sectionTitles, sections, currentSection, currentContent);
      i := i + 1;
    }
    assert lines[..i] == lines;

    if currentSection.Some? {
      sections := Put(sections, currentSection.value, Trim(Join(currentContent, "\n")));
    }
    plan := PlanDocument(planText, sections);
  }

  // ---------------------------------------------------------------------
  // An independent reading: preamble and segments

  /** A header line, the title it opens, and the lines after it up to the
      next header or the end. */
  datatype Segment = Segment(header: string, title: string, body: seq<string>)

  /** The lines before the first header, then one segment per header line. */
  datatype Grouping = Grouping(preamble: seq<string>, segments: seq<Segment>)

  predicate NoHeaders(lines: seq<string>, rule: HeaderRule) {
    forall i :: 0 <= i < |lines| ==> rule(lines[i]).None?
  }

  /** Preamble and bodies hold no header line, and each segment's header
      opens the segment's title. */
  predicate WellFormed(g: Grouping, rule: HeaderRule) {
    && NoHeaders(g.preamble, rule)
    && forall i :: 0 <= i < |g.segments| ==>
         rule(g.segments[i].header) == Some(g.segments[i].title)
         && NoHeaders(g.segments[i].body, rule)
  }

  /** The lines a list of segments covers, in order. */
  function Flatten(segs: seq<Segment>): seq<string> {
    if segs == [] then [] else [segs[0].header] + segs[0].body + Flatten(segs[1..])
  }

  function Ungroup(g: Grouping): seq<string> {
    g.preamble + Flatten(g.segments)
  }

  /** Put one more line in front of a grouping. */
  function Cons(line: string, g: Grouping, rule: HeaderRule): Grouping {
    match rule(line)
    case Some(t) => Grouping([], [Segment(line, t, g.preamble)] + g.segments)
    case None => Grouping([line] + g.preamble, g.segments)
  }

  /** Cut `lines` at every header line. */
  function Group(lines: seq<string>, rule: HeaderRule): Grouping {
    if lines == [] then Grouping([], []) else Cons(lines[0], Group(lines[1..], rule), rule)
  }

  lemma {:induction false} GroupCovers(lines: seq<string>, rule: HeaderRule)
    ensures Ungroup(Group(lines, rule)) == lines
  {
    if lines != [] {
      var rest := Group(lines[1..], rule);
      GroupCovers(lines[1..], rule);
      assert Ungroup(Cons(lines[0], rest, rule)) == [lines[0]] + Ungroup(rest);
      assert lines == [lines[0]] + lines[1..];
    }
  }

  /** No header line is dropped into the preamble or a body, and each
      segment opens at a header for its own title. */
  lemma {:induction false} GroupWellFormed(lines: seq<string>, rule: HeaderRule)
    ensures WellFormed(Group(lines, rule), rule)
  {
    if lines != [] {
      var rest := Group(lines[1..], rule);
      GroupWellFormed(lines[1..], rule);
      var g := Group(lines, rule);
      if rule(lines[0]).Some? {
        forall i | 1 <= i < |g.segments|
          ensures rule(g.segments[i].header) == Some(g.segments[i].title)
          ensures NoHeaders(g.segments[i].body, rule)
        {
          assert g.segments[i] == rest.segments[i - 1];
        }
      } else {
        forall i | 1 <= i < |g.preamble| ensures rule(g.preamble[i]).None? {
          assert g.preamble[i] == rest.preamble[i - 1];
        }
      }
    }
  }

  /** `Group` is the only well-formed grouping of `lines`: the division of
      the input into dropped preamble, header lines and section bodies is
      forced by the headers. */
  lemma {:induction false} GroupUnique(lines: seq<string>, rule: HeaderRule, g: Grouping)
    requires WellFormed(g, rule) && Ungroup(g) == lines
    ensures g == Group(lines, rule)
  {
    if lines == [] {
    } else if g.preamble != [] {
      var tail := Grouping(g.preamble[1..], g.segments);
      assert Ungroup(g) == [g.preamble[0]] + Ungroup(tail);
      assert rule(g.preamble[0]).None?;
      GroupUnique(lines[1..], rule, tail);
    } else {
      assert g.segments != [];
      var s := g.segments[0];
      var tail := Grouping(s.body, g.segments[1..]);
      assert Ungroup(g) == [s.header] + Ungroup(tail);
      assert WellFormed(tail, rule) by {
        forall i | 0 <= i < |tail.segments|
          ensures rule(tail.segments[i].header) == Some(tail.segments[i].title)
          ensures NoHeaders(tail.segments[i].body, rule)
        {
          assert tail.segments[i] == g.segments[i + 1];
        }
      }
      GroupUnique(lines[1..], rule, tail);
      assert g.segments == [s] + tail.segments;
    }
  }

  /** The grouping once one more line is added at the end. */
  function Extend(g: Grouping, line: string, rule: HeaderRule): Grouping {
    match rule(line)
    case Some(t) => Grouping(g.preamble, g.segments + [Segment(line, t, [])])
    case None =>
      if g.segments == [] then Grouping(g.preamble + [line], [])
      else
        var n := |g.segments|;
        Grouping(g.preamble, g.segments[..n - 1] + [g.segments[n - 1].(body := g.segments[n - 1].body + [line])])
  }

  lemma ConsExtend(first: string, g: Grouping, last: string, rule: HeaderRule)
    ensures Cons(first, Extend(g, last, rule), rule) == Extend(Cons(first, g, rule), last, rule)
  {
    if rule(first).Some? && rule(last).None? && g.segments != [] {
      var n := |g.segments|;
      var c := Cons(first, g, rule).segments;
      assert c[..n] == [c[0]] + g.segments[..n - 1];
    }
  }

  lemma {:induction false} GroupSnoc(lines: seq<string>, last: string, rule: HeaderRule)
    ensures Group(lines + [last], rule) == Extend(Group(lines, rule), last, rule)
  {
    if lines == [] {
      assert [] + [last] == [last];
    } else {
      assert (lines + [last])[1..] == lines[1..] + [last];
      GroupSnoc(lines[1..], last, rule);
      ConsExtend(lines[0], Group(lines[1..], rule), last, rule);
    }
  }

  /** Store every segment's body under its title, in order. */
  function Assemble(segs: seq<Segment>): Sections {
    if segs == [] then []
    else
      var last := segs[|segs| - 1];
      Put(Assemble(segs[..|segs| - 1]), last.title, Body(last.body))
  }

  /** The loop state a list of segments calls for: the last segment open,
      every earlier one stored. */
  function Expected(segs: seq<Segment>): ScanState {
    if segs == [] then Start
    else
      var last := segs[|segs| - 1];
      ScanState(Some(last.title), last.body, Assemble(segs[..|segs| - 1]))
  }

  lemma FlushExpected(segs: seq<Segment>)
    ensures Flush(Expected(segs)) == Assemble(segs)
  {
  }

  /** One scan step on the expected state of a grouping gives the expected
      state of the grouping extended by that line. */
  lemma StepExpected(g: Grouping, line: string, rule: HeaderRule)
    ensures Step(Expected(g.segments), line, rule) == Expected(Extend(g, line, rule).segments)
  {
    var segs := g.segments;
    var segs' := Extend(g, line, rule).segments;
    if rule(line).Some? {
      FlushExpected(segs);
      assert segs'[..|segs'| - 1] == segs;
    } else if segs != [] {
      assert segs'[..|segs'| - 1] == segs[..|segs| - 1];
    }
  }

  /** After any prefix of the lines, the loop holds the last segment so far
      open, with every earlier segment already stored. */
  lemma {:induction false} ScanFollowsGroup(lines: seq<string>, rule: HeaderRule)
    ensures Scan(lines, rule) == Expected(Group(lines, rule).segments)
  {
    if lines != [] {
      var init := lines[..|lines| - 1];
      var last := lines[|lines| - 1];
      assert lines == init + [last];
      ScanFollowsGroup(init, rule);
      GroupSnoc(init, last, rule);
      StepExpected(Group(init, rule), last, rule);
    }
  }

  /** Once every line is scanned, the stored sections are the segments'
      bodies stored in order. */
  lemma ScanIsAssembly(lines: seq<string>, rule: HeaderRule)
    ensures Flush(Scan(lines, rule)) == Assemble(Group(lines, rule).segments)
  {
    ScanFollowsGroup(lines, rule);
    FlushExpected(Group(lines, rule).segments);
  }

  /** The sections the parse stores are the segments' bodies stored in order. */
  lemma ParseIsAssembly(planText: string, titles: seq<string>)
    ensures ParseWith(planText, titles).sections == Assemble(Group(Split(planText, '\n'), Headers(titles)).segments)
  {
    ScanIsAssembly(Split(planText, '\n'), Headers(titles));
  }

  // ---------------------------------------------------------------------
  // What the stored sections are

  /** The segments' titles, in order. */
  function Titles(segs: seq<Segment>): seq<string> {
    seq(|segs|, i requires 0 <= i < |segs| => segs[i].title)
  }

  /** Each value once, at its first occurrence. */
  function Dedup(xs: seq<string>): seq<string> {
    if xs == [] then []
    else
      var d := Dedup(xs[..|xs| - 1]);
      if xs[|xs| - 1] in d then d else d + [xs[|xs| - 1]]
  }

  /** The body of the LAST segment with title `t`. */
  function LastBody(segs: seq<Segment>, t: string): Option<string> {
    if segs == [] then None
    else if segs[|segs| - 1].title == t then Some(Body(segs[|segs| - 1].body))
    else LastBody(segs[..|segs| - 1], t)
  }

  /** Keys appear in the order their titles are first met. */
  lemma {:induction false} AssembleKeys(segs: seq<Segment>)
    ensures Keys(Assemble(segs)) == Dedup(Titles(segs))
  {
    if segs != [] {
      var n := |segs|;
      var last := segs[n - 1];
      AssembleKeys(segs[..n - 1]);
      DedupSnoc(segs);
      PutKeys(Assemble(segs[..n - 1]), last.title, Body(last.body));
    }
  }

  /** No key is stored twice. */
  lemma {:induction false} AssembleDistinct(segs: seq<Segment>)
    ensures DistinctKeys(Assemble(segs))
  {
    if segs != [] {
      var n := |segs|;
      AssembleDistinct(segs[..n - 1]);
      PutKeepsDistinct(Assemble(segs[..n - 1]), segs[n - 1].title, Body(segs[n - 1].body));
    }
  }

  /** The titles of one more segment, deduplicated. */
  lemma DedupSnoc(segs: seq<Segment>)
    requires segs != []
    ensures var init, t := segs[..|segs| - 1], segs[|segs| - 1].title;
      Dedup(Titles(segs)) == if t in Dedup(Titles(init)) then Dedup(Titles(init)) else Dedup(Titles(init)) + [t]
  {
    assert Titles(segs)[..|segs| - 1] == Titles(segs[..|segs| - 1]);
  }

  /** A title's stored body is the body of its last segment; a title with
      no segment has no entry. */
  lemma {:induction false} AssembleLookup(segs: seq<Segment>, t: string)
    ensures Lookup(Assemble(segs), t) == LastBody(segs, t)
  {
    if segs != [] {
      AssembleLookup(segs[..|segs| - 1], t);
    }
  }

  /** The titles of the header lines, in order. */
  function HeaderTitles(lines: seq<string>, rule: HeaderRule): seq<string> {
    if lines == [] then []
    else
      (match rule(lines[0]) case Some(t) => [t] case None => [])
      + HeaderTitles(lines[1..], rule)
  }

  lemma {:induction false} TitlesOfGroup(lines: seq<string>, rule: HeaderRule)
    ensures Titles(Group(lines, rule).segments) == HeaderTitles(lines, rule)
  {
    if lines != [] {
      TitlesOfGroup(lines[1..], rule);
      var rest := Group(lines[1..], rule);
      if rule(lines[0]).Some? {
        var segs := Group(lines, rule).segments;
        assert segs == [segs[0]] + rest.segments;
        assert Titles(segs) == [segs[0].title] + Titles(rest.segments);
      }
    }
  }

  lemma {:induction false} DedupMembers(xs: seq<string>)
    ensures forall x :: x in Dedup(xs) <==> x in xs
    ensures forall i, j :: 0 <= i < j < |Dedup(xs)| ==> Dedup(xs)[i] != Dedup(xs)[j]
  {
    if xs != [] {
      var n := |xs|;
      DedupMembers(xs[..n - 1]);
      assert xs == xs[..n - 1] + [xs[n - 1]];
    }
  }

  lemma {:induction false} DedupOfDistinct(xs: seq<string>)
    requires forall i, j :: 0 <= i < j < |xs| ==> xs[i] != xs[j]
    ensures Dedup(xs) == xs
  {
    if xs != [] {
      var n := |xs|;
      DedupOfDistinct(xs[..n - 1]);
      assert xs[n - 1] !in xs[..n - 1];
      assert xs[..n - 1] + [xs[n - 1]] == xs;
    }
  }

  /** Keys come first-seen first, each stored body is the trimmed join of the
      lines after that title's LAST header line up to the next header, and
      only titles that head some line have an entry. */
  lemma ParseSections(planText: string, titles: seq<string>, t: string)
    ensures Keys(ParseWith(planText, titles).sections) == Dedup(HeaderTitles(Split(planText, '\n'), Headers(titles)))
    ensures Lookup(ParseWith(planText, titles).sections, t) == LastBody(Group(Split(planText, '\n'), Headers(titles)).segments, t)
  {
    var lines := Split(planText, '\n');
    ParseIsAssembly(planText, titles);
    AssembleKeys(Group(lines, Headers(titles)).segments);
    AssembleLookup(Group(lines, Headers(titles)).segments, t);
    TitlesOfGroup(lines, Headers(titles));
  }

  lemma {:induction false} HeaderTitlesFromList(lines: seq<string>, titles: seq<string>)
    ensures forall x :: x in HeaderTitles(lines, Headers(titles)) ==> x in titles
  {
    if lines != [] {
      var rule := Headers(titles);
      HeaderTitlesFromList(lines[1..], titles);
      assert HeaderTitles(lines, rule) ==
        (match rule(lines[0]) case Some(t) => [t] case None => []) + HeaderTitles(lines[1..], rule);
    }
  }

  /** A sequence of distinct values drawn from `pool` is no longer than `pool`. */
  lemma {:induction false} DistinctFromPool(xs: seq<string>, pool: seq<string>)
    requires forall i, j :: 0 <= i < j < |xs| ==> xs[i] != xs[j]
    requires forall x :: x in xs ==> x in pool
    ensures |xs| <= |pool|
    decreases |pool|
  {
    if xs != [] {
      assert xs[0] in pool;
      var k :| 0 <= k < |pool| && pool[k] == xs[0];
      var rest := pool[..k] + pool[k + 1..];
      forall x | x in xs[1..] ensures x in rest {
        assert x in xs && x != xs[0];
        assert x in pool;
        var m :| 0 <= m < |pool| && pool[m] == x;
        if m < k { assert rest[m] == x; } else { assert rest[m - 1] == x; }
      }
      assert forall i, j :: 0 <= i < j < |xs[1..]| ==> xs[1..][i] != xs[1..][j];
      DistinctFromPool(xs[1..], rest);
    }
  }

  /** Every key is one of the titles and no key repeats, so a parse yields at
      most as many sections as there are titles. */
  lemma ParseSectionsBound(planText: string, titles: seq<string>)
    ensures |ParseWith(planText, titles).sections| <= |titles|
  {
    var ss := ParseWith(planText, titles).sections;
    DistinctFromPool(Keys(ss), titles);
  }

  /** The server's parse has at most ten sections. */
  lemma ParseSectionsAtMostTen(planText: string)
    ensures |Parse(planText).sections| <= 10
  {
    ParseSectionsBound(planText, SectionTitles);
  }

  /** A grouping has segments exactly when some line is a header. */
  lemma GroupEmptyIffNoHeaders(lines: seq<string>, rule: HeaderRule)
    ensures Group(lines, rule).segments == [] <==> NoHeaders(lines, rule)
  {
    var g := Group(lines, rule);
    GroupCovers(lines, rule);
    GroupWellFormed(lines, rule);
    if g.segments == [] {
      assert lines == g.preamble;
    } else {
      var at := |g.preamble|;
      assert lines[at] == g.segments[0].header;
    }
  }

  /** Assembling stores something exactly when there is a segment. */
  lemma AssembleEmptyIffNoSegment(segs: seq<Segment>)
    ensures Assemble(segs) == [] <==> segs == []
  {
    if segs != [] {
      var last := segs[|segs| - 1];
      assert Lookup(Assemble(segs), last.title).Some?;
    }
  }

  /** The scan stores no section exactly when no line is a header. */
  lemma ScanEmptyIffNoHeaders(lines: seq<string>, rule: HeaderRule)
    ensures Flush(Scan(lines, rule)) == [] <==> NoHeaders(lines, rule)
  {
    ScanIsAssembly(lines, rule);
    AssembleEmptyIffNoSegment(Group(lines, rule).segments);
    GroupEmptyIffNoHeaders(lines, rule);
  }

  /** No trimmed line contains any of the titles. */
  predicate NoTitleIn(lines: seq<string>, titles: seq<string>) {
    forall i, j :: 0 <= i < |lines| && 0 <= j < |titles| ==> !Includes(Trim(lines[i]), titles[j])
  }

  /** No line is a header exactly when no trimmed line contains a title. */
  lemma NoHeadersIffNoTitle(lines: seq<string>, titles: seq<string>)
    ensures NoHeaders(lines, Headers(titles)) <==> NoTitleIn(lines, titles)
  {
    if NoHeaders(lines, Headers(titles)) {
      forall i, j | 0 <= i < |lines| && 0 <= j < |titles|
        ensures !Includes(Trim(lines[i]), titles[j])
      {
        assert Headers(titles)(lines[i]).None?;
      }
    } else {
      var i :| 0 <= i < |lines| && Headers(titles)(lines[i]).Some?;
      assert HeaderOf(lines[i], titles).Some?;
    }
  }

  /** The parse finds no section exactly when no trimmed line contains a
      title; the document is then full text only. */
  lemma ParseEmptyIffNoTitle(planText: string, titles: seq<string>)
    ensures ParseWith(planText, titles).sections == [] <==> NoTitleIn(Split(planText, '\n'), titles)
  {
    var lines := Split(planText, '\n');
    assert ParseWith(planText, titles).sections == Flush(Scan(lines, Headers(titles)));
    ScanEmptyIffNoHeaders(lines, Headers(titles));
    NoHeadersIffNoTitle(lines, titles);
  }

  lemma SectionTitlesDistinct()
    ensures forall i, j :: 0 <= i < j < |SectionTitles| ==> SectionTitles[i] != SectionTitles[j]
  {
  }

  /** Text whose header lines name all ten titles once each, in canonical
      order, parses to exactly the ten canonical keys in that order. */
  lemma ParseCanonicalPlan(planText: string)
    requires HeaderTitles(Split(planText, '\n'), Headers(SectionTitles)) == SectionTitles
    ensures Keys(Parse(planText).sections) == SectionTitles
  {
    ParseSections(planText, SectionTitles, "");
    SectionTitlesDistinct();
    DedupOfDistinct(SectionTitles);
  }
}
