/** The state updates of the single-page client (`App`): merging an edited
    section into the plan, the research history list, the guards in front of
    plan generation and voice input, the quick-snapshot preview, the company
    initial, the theme switch and the expanded-entry flags. */
module AppState {
  import opened Common
  import opened JsText
  import opened PlanSections

  // ---------------------------------------------------------------------
  // Section merge

  /** `{ ...prev, sections: { ...prev.sections, [sectionName]: updatedContent } }`:
      the edited section takes the new text, an existing section keeps its
      place, a new one goes last, and everything else is unchanged. */
  function MergeSection(plan: PlanDocument, sectionName: string, updatedContent: string): (r: PlanDocument)
    ensures r.fullText == plan.fullText
    ensures Lookup(r.sections, sectionName) == Some(updatedContent)
    ensures forall k :: k != sectionName ==> Lookup(r.sections, k) == Lookup(plan.sections, k)
    ensures Keys(r.sections) ==
      if sectionName in Keys(plan.sections) then Keys(plan.sections) else Keys(plan.sections) + [sectionName]
  {
    PutKeys(plan.sections, sectionName, updatedContent);
    plan.(sections := Put(plan.sections, sectionName, updatedContent))
  }

  /** Editing the same section twice leaves only the second edit. */
  lemma MergeLastWins(plan: PlanDocument, sectionName: string, first: string, second: string)
    ensures MergeSection(MergeSection(plan, sectionName, first), sectionName, second)
      == MergeSection(plan, sectionName, second)
  {
    PutPut(plan.sections, sectionName, first, second);
  }

  /** Edits to two different existing sections give the same plan in either
      order, key order included. */
  lemma MergeCommutes(plan: PlanDocument, s1: string, c1: string, s2: string, c2: string)
    requires s1 != s2 && s1 in Keys(plan.sections) && s2 in Keys(plan.sections)
    ensures MergeSection(MergeSection(plan, s1, c1), s2, c2) == MergeSection(MergeSection(plan, s2, c2), s1, c1)
  {
    PutSwap(plan.sections, s1, c1, s2, c2);
  }

  // ---------------------------------------------------------------------
  // Research history

  /** One research run in the history list; `accountPlan` is absent until a
      plan is attached. */
  datatype HistoryEntry = HistoryEntry(
    id: string,
    company: string,
    researchData: string,
    hasAccountPlan: bool,
    accountPlan: Option<PlanDocument>)

  /** A completed research run goes in front, without a plan. */
  function RecordResearch(history: seq<HistoryEntry>, id: string, company: string, researchData: string)
    : (r: seq<HistoryEntry>)
    ensures |r| == |history| + 1
    ensures r[0].company == company && r[0].researchData == researchData && r[0].id == id
    ensures !r[0].hasAccountPlan && r[0].accountPlan.None?
    ensures r[1..] == history
  {
    [HistoryEntry(id, company, researchData, false, None)] + history
  }

  /** Whether attaching a plan for `company` changes `entry`. */
  predicate Awaits(entry: HistoryEntry, company: string) {
    entry.company == company && !entry.hasAccountPlan
  }

  /** The entry with the plan attached. */
  function WithPlan(entry: HistoryEntry, plan: PlanDocument): HistoryEntry {
    entry.(accountPlan := Some(plan), hasAccountPlan := true)
  }

  /** The history after a plan for `company` is generated: every entry for
      that company still without a plan gets this one; the list keeps its
      length and order, and no other entry changes. */
  function AttachPlan(history: seq<HistoryEntry>, company: string, plan: PlanDocument): (r: seq<HistoryEntry>)
    ensures |r| == |history|
    ensures forall i :: 0 <= i < |r| ==>
      r[i].id == history[i].id && r[i].company == history[i].company && r[i].researchData == history[i].researchData
    ensures forall i :: 0 <= i < |r| ==> !Awaits(history[i], company) ==> r[i] == history[i]
    ensures forall i :: 0 <= i < |r| ==> Awaits(history[i], company) ==>
      r[i].hasAccountPlan && r[i].accountPlan == Some(plan)
  {
    seq(|history|, i requires 0 <= i < |history| =>
      if Awaits(history[i], company) then WithPlan(history[i], plan) else history[i])
  }

  /** After attaching, no entry of that company waits for a plan. */
  lemma AttachPlanCompletes(history: seq<HistoryEntry>, company: string, plan: PlanDocument)
    ensures forall i :: 0 <= i < |history| ==> !Awaits(AttachPlan(history, company, plan)[i], company)
  {
  }

  /** A second plan for the same company changes nothing: the first one
      attached stays. */
  lemma AttachPlanIdempotent(history: seq<HistoryEntry>, company: string, plan: PlanDocument, later: PlanDocument)
    ensures AttachPlan(AttachPlan(history, company, plan), company, later) == AttachPlan(history, company, plan)
  {
    var once := AttachPlan(history, company, plan);
    var twice := AttachPlan(once, company, later);
    forall i | 0 <= i < |history| ensures twice[i] == once[i] {
      assert !Awaits(once[i], company);
    }
  }

  /** Attaching distributes over a list with one more entry in front. */
  lemma AttachPlanCons(entry: HistoryEntry, history: seq<HistoryEntry>, company: string, plan: PlanDocument)
    ensures AttachPlan([entry] + history, company, plan) ==
      [if Awaits(entry, company) then WithPlan(entry, plan) else entry] + AttachPlan(history, company, plan)
  {
    var r := AttachPlan([entry] + history, company, plan);
    var t := [if Awaits(entry, company) then WithPlan(entry, plan) else entry] + AttachPlan(history, company, plan);
    assert |r| == |t|;
    forall i | 1 <= i < |r| ensures r[i] == t[i] {
      assert ([entry] + history)[i] == history[i - 1];
    }
  }

  /** Researching a company and then generating its plan attaches the plan to
      the new entry, and to every older entry of that company still without
      one. */
  lemma ResearchThenPlan(history: seq<HistoryEntry>, id: string, company: string, researchData: string, plan: PlanDocument)
    ensures AttachPlan(RecordResearch(history, id, company, researchData), company, plan) ==
      [HistoryEntry(id, company, researchData, true, Some(plan))] + AttachPlan(history, company, plan)
  {
    AttachPlanCons(HistoryEntry(id, company, researchData, false, None), history, company, plan);
  }

  // ---------------------------------------------------------------------
  // Guards

  /** What `generateAccountPlan` is called with. */
  datatype PlanRequest = PlanRequest(companyName: string, researchData: string)

  /** `handleGeneratePlan`: without research or a current company no request
      is made; otherwise the request names the current company and carries
      the research. */
  function GeneratePlanRequest(research: Option<string>, currentCompany: string): (r: Option<PlanRequest>)
    ensures r.None? <==> !Truthy(research) || currentCompany == ""
    ensures r.Some? ==> r.value.companyName == currentCompany && Some(r.value.researchData) == research
  {
    if !Truthy(research) || currentCompany == "" then None
    else Some(PlanRequest(currentCompany, research.value))
  }

  /** `handleVoiceTranscript`: a transcript is sent exactly when it holds a
      character that is not whitespace. */
  function ShouldSendTranscript(transcript: string): (send: bool)
    ensures send <==> exists i :: 0 <= i < |transcript| && !IsWhitespace(transcript[i])
  {
    Trim(transcript) != ""
  }

  // ---------------------------------------------------------------------
  // Quick-snapshot preview

  /** `preview += (preview ? ' ' : '') + sent`. */
  function AppendSentence(preview: string, sent: string): string {
    preview + (if preview != "" then " " else "") + sent
  }

  /** The preview built from `sents`, one sentence at a time. */
  function Accumulate(sents: seq<string>): string {
    if sents == [] then ""
    else AppendSentence(Accumulate(sents[..|sents| - 1]), sents[|sents| - 1])
  }

  /** The length test the loop applies before adding `sent` to `preview`;
      it does not count the joining space. */
  predicate Fits(preview: string, sent: string) {
    JsLength(preview) + JsLength(sent) <= 300
  }

  /** The sentences from index `i` on that the loop still takes. */
  function CountFrom(sentences: seq<string>, i: nat): (n: nat)
    requires i <= |sentences| && i <= 3
    ensures i <= n <= |sentences| && n <= 3
    ensures forall j :: i <= j < n ==> Fits(Accumulate(sentences[..j]), sentences[j])
    ensures n < 3 && n < |sentences| ==> !Fits(Accumulate(sentences[..n]), sentences[n])
    decreases |sentences| - i
  {
    if i == 3 || i == |sentences| || !Fits(Accumulate(sentences[..i]), sentences[i]) then i
    else CountFrom(sentences, i + 1)
  }

  /** Sentence `j` passed the length test when it was added. */
  predicate FitsAt(sentences: seq<string>, j: nat)
    requires j < |sentences|
  {
    Fits(Accumulate(sentences[..j]), sentences[j])
  }

  /** How many sentences the preview takes: the longest prefix of at most
      three whose every sentence passed the length test when it was added. */
  function PreviewCount(sentences: seq<string>): (n: nat)
    ensures n <= 3 && n <= |sentences|
    ensures forall j :: 0 <= j < n ==> Fits(Accumulate(sentences[..j]), sentences[j])
    ensures n < 3 && n < |sentences| ==> !Fits(Accumulate(sentences[..n]), sentences[n])
  {
    CountFrom(sentences, 0)
  }

  /** The count is determined by the three conditions: the loop stops at the
      first sentence that does not fit and never skips one. */
  lemma PreviewCountUnique(sentences: seq<string>, n: nat)
    requires n <= 3 && n <= |sentences|
    requires forall j :: 0 <= j < n ==> Fits(Accumulate(sentences[..j]), sentences[j])
    requires n < 3 && n < |sentences| ==> !Fits(Accumulate(sentences[..n]), sentences[n])
    ensures n == PreviewCount(sentences)
  {
  }

  /** The preview the snapshot shows. */
  function Preview(sentences: seq<string>): string {
    Accumulate(sentences[..PreviewCount(sentences)])
  }

  /** The selection loop of `buildQuickSnapshot`. */
  method PickPreview(sentences: seq<string>) returns (preview: string)
    ensures preview == Preview(sentences)
  {
    preview := "";
    var count := 0;
    var i := 0;
    while i < |sentences|
      invariant 0 <= i <= |sentences| && count == i && i <= 3
      invariant preview == Accumulate(sentences[..i])
      invariant forall j :: 0 <= j < i ==> FitsAt(sentences, j)
    {
      var sent := sentences[i];
      if count >= 3 {
        break;
      }
      if JsLength(preview) + JsLength(sent) > 300 {
        break;
      }
      assert FitsAt(sentences, i);
      preview := preview + (if preview != "" then " " else "") + sent;
      count := count + 1;
      assert sentences[..i + 1][..i] == sentences[..i];
      assert preview == Accumulate(sentences[..i + 1]);
      i := i + 1;
    }
    forall j | 0 <= j < i ensures Fits(Accumulate(sentences[..j]), sentences[j]) {
      assert FitsAt(sentences, j);
    }
    PreviewCountUnique(sentences, i);
  }

  /** A preview of a non-empty sentence list is non-empty. */
  lemma {:induction false} AccumulateNonEmpty(sents: seq<string>)
    requires sents != [] && sents[|sents| - 1] != ""
    ensures Accumulate(sents) != ""
  {
  }

  /** Its length, in UTF-16 units, is at most 301: each sentence was added
      only if the preview and the sentence together fit in 300, and the
      joining space comes on top. */
  lemma PreviewLength(sentences: seq<string>)
    ensures JsLength(Preview(sentences)) <= 301
  {
    var n := PreviewCount(sentences);
    if n > 0 {
      var before := Accumulate(sentences[..n - 1]);
      var sent := sentences[n - 1];
      assert sentences[..n][..n - 1] == sentences[..n - 1];
      assert Fits(before, sent);
      var sep := if before != "" then " " else "";
      JsLengthConcat(before, sep);
      JsLengthConcat(before + sep, sent);
    }
  }

  /** With the non-empty sentences the split yields, the preview is the first
      sentences joined by single spaces. */
  lemma {:induction false} AccumulateIsJoin(sents: seq<string>)
    requires forall i :: 0 <= i < |sents| ==> sents[i] != ""
    ensures Accumulate(sents) == Join(sents, " ")
  {
    if |sents| > 1 {
      var init := sents[..|sents| - 1];
      AccumulateIsJoin(init);
      AccumulateNonEmpty(init);
      JoinSnoc(init, sents[|sents| - 1], " ");
      assert init + [sents[|sents| - 1]] == sents;
    } else if |sents| == 1 {
      assert sents[..0] == [];
    }
  }

  /** With non-empty sentences, there is no preview exactly when there is no
      sentence or the first one alone is over 300 units long. */
  lemma PreviewEmptyIff(sentences: seq<string>)
    requires forall i :: 0 <= i < |sentences| ==> sentences[i] != ""
    ensures Preview(sentences) == "" <==> sentences == [] || JsLength(sentences[0]) > 300
  {
    var n := PreviewCount(sentences);
    if n > 0 {
      AccumulateNonEmpty(sentences[..n]);
    }
    if sentences != [] {
      assert sentences[..0] == [];
    }
  }

  /** What the snapshot renders. */
  datatype Snapshot = NoData | NoPreview | Summary(text: string)

  /** `buildQuickSnapshot(raw, companyName)`: no text gives "No data
      available", an empty preview gives "No preview available", otherwise
      the preview. `sentences` stands for the cleaned, split text. */
  method BuildQuickSnapshot(raw: Option<string>, sentences: seq<string>) returns (s: Snapshot)
    ensures s == NoData <==> !Truthy(raw)
    ensures Truthy(raw) ==> (s == NoPreview <==> Preview(sentences) == "")
    ensures s.Summary? ==> s.text == Preview(sentences) && s.text != ""
  {
    if !Truthy(raw) {
      return NoData;
    }
    var preview := PickPreview(sentences);
    if preview == "" {
      return NoPreview;
    }
    return Summary(preview);
  }

  // ---------------------------------------------------------------------
  // Company initial

  /** Lower-case letters of Latin-1 that `toUpperCase` changes. */
  predicate IsLowerLatin1(c: char) {
    ('a' <= c <= 'z') || c as int == 0xB5 || (0xDF <= c as int <= 0xFF && c as int != 0xF7)
  }

  /** `String.prototype.toUpperCase` on one character, for Latin-1: `ß`
      becomes `SS`, `µ` the Greek capital mu, `ÿ` the capital Y with
      diaeresis; every other character is kept. */
  function UpperCase(c: char): (r: string)
    ensures ('a' <= c <= 'z' || (0xE0 <= c as int <= 0xFE && c as int != 0xF7)) ==> r == [(c as int - 0x20) as char]
    ensures c as int == 0xB5 ==> r == [0x39C as char]
    ensures c as int == 0xDF ==> r == "SS"
    ensures c as int == 0xFF ==> r == [0x178 as char]
    ensures 1 <= |r| <= 2
    ensures |r| == 2 <==> c as int == 0xDF
    ensures !IsLowerLatin1(c) ==> r == [c]
    ensures forall i :: 0 <= i < |r| ==> !IsLowerLatin1(r[i])
  {
    var n := c as int;
    if 'a' <= c <= 'z' || (0xE0 <= n <= 0xFE && n != 0xF7) then [(n - 0x20) as char]
    else if n == 0xB5 then [0x39C as char]
    else if n == 0xDF then "SS"
    else if n == 0xFF then [0x178 as char]
    else [c]
  }

  /** `companyInitials(name)`: `?` without a name, otherwise the first
      character upper-cased. */
  function CompanyInitials(name: Option<string>): (r: string)
    ensures !Truthy(name) ==> r == "?"
    ensures Truthy(name) ==> r == UpperCase(name.value[0])
    ensures Truthy(name) ==> 1 <= |r| <= 2 && (|r| == 2 <==> name.value[0] as int == 0xDF)
    ensures forall i :: 0 <= i < |r| ==> !IsLowerLatin1(r[i])
  {
    if !Truthy(name) then "?" else UpperCase(name.value[0])
  }

  /** A name and the same name with an upper-cased first letter show the
      same initial. */
  lemma InitialsIgnoreCase(c: char, rest: string)
    requires 'a' <= c <= 'z'
    ensures CompanyInitials(Some([c] + rest)) == CompanyInitials(Some([(c as int - 0x20) as char] + rest))
  {
  }

  /** An initial of one character is its own initial. */
  lemma InitialsIdempotent(name: Option<string>)
    requires |CompanyInitials(name)| == 1
    ensures CompanyInitials(Some(CompanyInitials(name))) == CompanyInitials(name)
  {
    var r := CompanyInitials(name);
    assert !IsLowerLatin1(r[0]);
  }

  // ---------------------------------------------------------------------
  // Theme and expanded entries

  /** `prevTheme === 'dark' ? 'light' : 'dark'`; whatever was stored, the
      result is one of the two themes, and it is light exactly after dark. */
  function ToggleTheme(prevTheme: string): (r: string)
    ensures r == "dark" || r == "light"
    ensures r == "light" <==> prevTheme == "dark"
  {
    if prevTheme == "dark" then "light" else "dark"
  }

  /** On the two themes, toggling twice changes nothing. */
  lemma ToggleThemeTwice(theme: string)
    requires theme == "dark" || theme == "light"
    ensures ToggleTheme(ToggleTheme(theme)) == theme
  {
  }

  /** `prev[id]` read as a flag: a missing id is collapsed. */
  function IsExpanded(expanded: map<string, bool>, id: string): bool {
    id in expanded && expanded[id]
  }

  /** `{ ...prev, [id]: !prev[id] }`: the entry's flag flips; every other
      id keeps its presence and value. */
  function ToggleHistoryExpand(expanded: map<string, bool>, id: string): (r: map<string, bool>)
    ensures IsExpanded(r, id) == !IsExpanded(expanded, id)
    ensures id in r
    ensures forall k :: k != id ==> (k in r <==> k in expanded)
    ensures forall k :: k != id && k in expanded ==> r[k] == expanded[k]
  {
    expanded[id := !IsExpanded(expanded, id)]
  }

  /** Toggling an entry twice shows every entry as before. */
  lemma ToggleHistoryExpandTwice(expanded: map<string, bool>, id: string)
    ensures forall k :: IsExpanded(ToggleHistoryExpand(ToggleHistoryExpand(expanded, id), id), k) == IsExpanded(expanded, k)
  {
  }
}
