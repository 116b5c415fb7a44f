/**
 * The BRD document store: a fixed, ordered template of eight sections and a
 * ledger of conflicting requirements. Each store action is a pure transition
 * from one store value to the next; the clock reading that the action would
 * take from `new Date()` is passed in as `now`.
 */
module BRDStore {
  import opened Prelude

  /** One section of the document; `lastEdited` is missing until the first edit. */
  datatype Section = Section(
    id: string,
    title: string,
    content: string,
    citations: seq<string>,
    lastEdited: Option<Time>)

  datatype Severity = High | Medium | Low

  /** Two requirements, taken from two sources, that contradict each other. */
  datatype Conflict = Conflict(
    id: string,
    requirement1: string,
    requirement2: string,
    source1: string,
    source2: string,
    severity: Severity,
    resolved: bool)

  datatype Store = Store(sections: seq<Section>, conflicts: seq<Conflict>)

  // ---------------------------------------------------------------------------
  // Views of the section list
  // ---------------------------------------------------------------------------

  /** The section ids, in document order. */
  function Ids(ss: seq<Section>): (r: seq<string>)
    ensures |r| == |ss|
    ensures forall i :: 0 <= i < |ss| ==> r[i] == ss[i].id
  {
    seq(|ss|, i requires 0 <= i < |ss| => ss[i].id)
  }

  /** The section titles, in document order. */
  function Titles(ss: seq<Section>): (r: seq<string>)
    ensures |r| == |ss|
    ensures forall i :: 0 <= i < |ss| ==> r[i] == ss[i].title
  {
    seq(|ss|, i requires 0 <= i < |ss| => ss[i].title)
  }

  predicate DistinctIds(ss: seq<Section>)
  {
    forall i, j :: 0 <= i < j < |ss| ==> ss[i].id != ss[j].id
  }

  predicate DistinctConflictIds(cs: seq<Conflict>)
  {
    forall i, j :: 0 <= i < j < |cs| ==> cs[i].id != cs[j].id
  }

  /** Total number of citations attached to the sections. */
  function TotalCitations(ss: seq<Section>): nat
  {
    if ss == [] then 0 else |ss[0].citations| + TotalCitations(ss[1..])
  }

  /** Number of sections that carry the given id. */
  function CountId(ss: seq<Section>, id: string): nat
  {
    if ss == [] then 0 else (if ss[0].id == id then 1 else 0) + CountId(ss[1..], id)
  }

  // ---------------------------------------------------------------------------
  // Initial state
  // ---------------------------------------------------------------------------

  function Blank(id: string, title: string): Section
  {
    Section(id, title, "", [], None)
  }

  /** The document template: eight empty sections in a fixed order. */
  function DefaultSections(): (r: seq<Section>)
    ensures |r| == 8
    ensures DistinctIds(r)
    ensures forall i :: 0 <= i < |r| ==>
              r[i].content == "" && r[i].citations == [] && r[i].lastEdited == None
  {
    [ Blank("exec-summary", "Executive Summary"),
      Blank("objectives", "Business Objectives"),
      Blank("stakeholders", "Stakeholder Analysis"),
      Blank("functional", "Functional Requirements"),
      Blank("non-functional", "Non-Functional Requirements"),
      Blank("assumptions", "Assumptions & Constraints"),
      Blank("metrics", "Success Metrics"),
      Blank("timeline", "Timeline & Milestones") ]
  }

  /** The two conflicts the store starts with, both open. */
  function SeedConflicts(): (r: seq<Conflict>)
    ensures |r| == 2
    ensures DistinctConflictIds(r)
    ensures forall i :: 0 <= i < |r| ==> !r[i].resolved
  {
    [ Conflict("1",
        "System must support 100 concurrent users",
        "Initial launch limited to 50 users for beta testing",
        "Email from CTO (Dec 15)",
        "Slack #general (Dec 20)",
        Medium, false),
      Conflict("2",
        "Mobile app required for Q1 launch",
        "Focus exclusively on web platform first",
        "Product meeting notes",
        "Engineering roadmap document",
        High, false) ]
  }

  /** The store as it is created. */
  function Init(): (st: Store)
    ensures st == Store(DefaultSections(), SeedConflicts())
    ensures |st.sections| == 8
    ensures DistinctIds(st.sections)
    ensures forall i :: 0 <= i < |st.sections| ==>
              st.sections[i].content == "" && st.sections[i].citations == []
    ensures |st.conflicts| == 2 && DistinctConflictIds(st.conflicts)
    ensures forall i :: 0 <= i < |st.conflicts| ==> !st.conflicts[i].resolved
  {
    Store(DefaultSections(), SeedConflicts())
  }

  /** The store keeps the template's ids and titles, in the template's order. */
  predicate HasTemplateLayout(st: Store)
  {
    Ids(st.sections) == Ids(DefaultSections()) && Titles(st.sections) == Titles(DefaultSections())
  }

  // ---------------------------------------------------------------------------
  // Actions
  // ---------------------------------------------------------------------------

  function Edit(s: Section, id: string, content: string, now: Time): Section
  {
    if s.id == id then s.(content := content, lastEdited := Some(now)) else s
  }

  /** `updateSection`: overwrite the content of the sections with this id and stamp them. */
  function UpdateSection(st: Store, id: string, content: string, now: Time): (r: Store)
    ensures r.conflicts == st.conflicts
    ensures |r.sections| == |st.sections|
    ensures forall i :: 0 <= i < |st.sections| && st.sections[i].id == id ==>
              && r.sections[i].content == content
              && r.sections[i].lastEdited == Some(now)
              && r.sections[i].id == st.sections[i].id
              && r.sections[i].title == st.sections[i].title
              && r.sections[i].citations == st.sections[i].citations
    ensures forall i :: 0 <= i < |st.sections| && st.sections[i].id != id ==>
              r.sections[i] == st.sections[i]
  {
    st.(sections := seq(|st.sections|, i requires 0 <= i < |st.sections| =>
                          Edit(st.sections[i], id, content, now)))
  }

  function Cite(s: Section, id: string, citation: string): Section
  {
    if s.id == id then s.(citations := s.citations + [citation]) else s
  }

  /** `addCitation`: append a citation to the sections with this id, duplicates included. */
  function AddCitation(st: Store, id: string, citation: string): (r: Store)
    ensures r.conflicts == st.conflicts
    ensures |r.sections| == |st.sections|
    ensures forall i :: 0 <= i < |st.sections| && st.sections[i].id == id ==>
              && r.sections[i].citations == st.sections[i].citations + [citation]
              && |r.sections[i].citations| == |st.sections[i].citations| + 1
              && r.sections[i].id == st.sections[i].id
              && r.sections[i].title == st.sections[i].title
              && r.sections[i].content == st.sections[i].content
              && r.sections[i].lastEdited == st.sections[i].lastEdited
    ensures forall i :: 0 <= i < |st.sections| && st.sections[i].id != id ==>
              r.sections[i] == st.sections[i]
  {
    st.(sections := seq(|st.sections|, i requires 0 <= i < |st.sections| =>
                          Cite(st.sections[i], id, citation)))
  }

  function Resolve(c: Conflict, id: string): Conflict
  {
    if c.id == id then c.(resolved := true) else c
  }

  /** `resolveConflict`: mark the conflicts with this id resolved. */
  function ResolveConflict(st: Store, id: string): (r: Store)
    ensures r.sections == st.sections
    ensures |r.conflicts| == |st.conflicts|
    ensures forall i :: 0 <= i < |st.conflicts| && st.conflicts[i].id == id ==>
              r.conflicts[i] == st.conflicts[i].(resolved := true)
    ensures forall i :: 0 <= i < |st.conflicts| && st.conflicts[i].id != id ==>
              r.conflicts[i] == st.conflicts[i]
  {
    st.(conflicts := seq(|st.conflicts|, i requires 0 <= i < |st.conflicts| =>
                           Resolve(st.conflicts[i], id)))
  }

  /** The canned texts that generation writes, keyed by section id. */
  const DemoTexts: map<string, string> := map[
    "exec-summary" := "This project aims to modernize the customer portal...",
    "objectives" := "1. Improve user experience\n2. Reduce support tickets by 40%...",
    "functional" := "FR-001: User authentication via OAuth2\nFR-002: Dashboard with real-time data..."
  ]

  const Fallback: string := "Generated content..."

  /**
   * `demoContent[id] || 'Generated content...'`: the table entry when there is
   * one and it is a non-empty (truthy) string, the fallback text otherwise.
   */
  function DemoContent(id: string): (r: string)
    ensures r != ""
    ensures id in DemoTexts ==> r == DemoTexts[id]
    ensures id !in DemoTexts ==> r == Fallback
  {
    if id in DemoTexts && DemoTexts[id] != "" then DemoTexts[id] else Fallback
  }

  function Generated(s: Section, id: string, now: Time): Section
  {
    if s.id == id then s.(content := DemoContent(id), lastEdited := Some(now)) else s
  }

  /** The state update that ends `generateSection`, after its delay. */
  function GenerateSection(st: Store, id: string, now: Time): (r: Store)
    ensures r.conflicts == st.conflicts
    ensures |r.sections| == |st.sections|
    ensures forall i :: 0 <= i < |st.sections| && st.sections[i].id == id ==>
              && r.sections[i].content == DemoContent(id)
              && r.sections[i].content != ""
              && r.sections[i].id == st.sections[i].id
              && r.sections[i].lastEdited == Some(now)
              && r.sections[i].citations == st.sections[i].citations
              && r.sections[i].title == st.sections[i].title
    ensures forall i :: 0 <= i < |st.sections| && st.sections[i].id != id ==>
              r.sections[i] == st.sections[i]
  {
    st.(sections := seq(|st.sections|, i requires 0 <= i < |st.sections| =>
                          Generated(st.sections[i], id, now)))
  }

  /** Every action the store exposes, with its arguments. */
  datatype Action =
    | UpdateSectionAction(id: string, content: string, now: Time)
    | AddCitationAction(id: string, citation: string)
    | ResolveConflictAction(id: string)
    | GenerateSectionAction(id: string, now: Time)

  function Apply(st: Store, a: Action): Store
  {
    match a
    case UpdateSectionAction(id, content, now) => UpdateSection(st, id, content, now)
    case AddCitationAction(id, citation) => AddCitation(st, id, citation)
    case ResolveConflictAction(id) => ResolveConflict(st, id)
    case GenerateSectionAction(id, now) => GenerateSection(st, id, now)
  }

  /** The store after the actions, applied in order. */
  function Run(st: Store, actions: seq<Action>): Store
    decreases |actions|
  {
    if actions == [] then st else Run(Apply(st, actions[0]), actions[1..])
  }

  // ---------------------------------------------------------------------------
  // Properties
  // ---------------------------------------------------------------------------

  /**
   * `after` is `before` with possibly more conflicts resolved: the same
   * conflicts in the same order, no field but `resolved` changed, and no
   * conflict reopened.
   */
  ghost predicate ConflictsEvolve(before: seq<Conflict>, after: seq<Conflict>)
  {
    && |after| == |before|
    && forall i :: 0 <= i < |before| ==>
         && after[i] == before[i].(resolved := after[i].resolved)
         && (before[i].resolved ==> after[i].resolved)
  }

  lemma ConflictsEvolveTransitive(a: seq<Conflict>, b: seq<Conflict>, c: seq<Conflict>)
    requires ConflictsEvolve(a, b) && ConflictsEvolve(b, c)
    ensures ConflictsEvolve(a, c)
  {
  }

  /** Any store with the template's ids has distinct section ids. */
  lemma TemplateLayoutDistinct(st: Store)
    requires HasTemplateLayout(st)
    ensures DistinctIds(st.sections)
  {
  }

  /** A single action never changes the section ids, titles or count, and only resolves conflicts. */
  lemma ApplyFrames(st: Store, a: Action)
    ensures Ids(Apply(st, a).sections) == Ids(st.sections)
    ensures Titles(Apply(st, a).sections) == Titles(st.sections)
    ensures ConflictsEvolve(st.conflicts, Apply(st, a).conflicts)
  {
  }

  /**
   * No sequence of store actions changes the set, order or titles of the
   * sections, adds or removes a conflict, or turns a resolved conflict back
   * into an open one.
   */
  lemma {:induction false} RunFrames(st: Store, actions: seq<Action>)
    ensures Ids(Run(st, actions).sections) == Ids(st.sections)
    ensures Titles(Run(st, actions).sections) == Titles(st.sections)
    ensures ConflictsEvolve(st.conflicts, Run(st, actions).conflicts)
    decreases |actions|
  {
    if actions == [] {
      assert ConflictsEvolve(st.conflicts, st.conflicts);
    } else {
      var next := Apply(st, actions[0]);
      ApplyFrames(st, actions[0]);
      RunFrames(next, actions[1..]);
      ConflictsEvolveTransitive(st.conflicts, next.conflicts, Run(next, actions[1..]).conflicts);
    }
  }

  /** Every state reachable from the initial store keeps the template layout. */
  lemma ReachableHasTemplateLayout(actions: seq<Action>)
    ensures HasTemplateLayout(Run(Init(), actions))
    ensures DistinctIds(Run(Init(), actions).sections)
    ensures |Run(Init(), actions).conflicts| == 2
    ensures ConflictsEvolve(SeedConflicts(), Run(Init(), actions).conflicts)
  {
    RunFrames(Init(), actions);
    TemplateLayoutDistinct(Run(Init(), actions));
  }

  /**
   * A reachable store only ever carries the template's ids, so generation
   * with any other id (an inherited object key such as `constructor`
   * included) changes nothing; the table lookup is never consulted for it.
   */
  lemma ReachableGenerateOfOtherIdIsNoOp(actions: seq<Action>, id: string, now: Time)
    requires id !in Ids(DefaultSections())
    ensures GenerateSection(Run(Init(), actions), id, now) == Run(Init(), actions)
  {
    ReachableHasTemplateLayout(actions);
    UnknownSectionIsNoOp(Run(Init(), actions), id, "", "", now);
  }

  /** `updateSection` and `addCitation` leave the store as it was when no section has the id. */
  lemma UnknownSectionIsNoOp(st: Store, id: string, content: string, citation: string, now: Time)
    requires id !in Ids(st.sections)
    ensures UpdateSection(st, id, content, now) == st
    ensures AddCitation(st, id, citation) == st
    ensures GenerateSection(st, id, now) == st
  {
  }

  /** `resolveConflict` of an id no conflict carries leaves the store as it was. */
  lemma UnknownConflictIsNoOp(st: Store, id: string)
    requires forall i :: 0 <= i < |st.conflicts| ==> st.conflicts[i].id != id
    ensures ResolveConflict(st, id) == st
  {
  }

  /** Resolving twice is resolving once. */
  lemma ResolveIdempotent(st: Store, id: string)
    ensures ResolveConflict(ResolveConflict(st, id), id) == ResolveConflict(st, id)
  {
  }

  /** The later of two edits to the same section wins completely. */
  lemma UpdateLastWriterWins(st: Store, id: string, c1: string, t1: Time, c2: string, t2: Time)
    ensures UpdateSection(UpdateSection(st, id, c1, t1), id, c2, t2) == UpdateSection(st, id, c2, t2)
  {
  }

  /** Edits to different sections are independent: their order does not matter. */
  lemma UpdatesOfDistinctSectionsCommute(st: Store, a: string, ca: string, ta: Time,
                                         b: string, cb: string, tb: Time)
    requires a != b
    ensures UpdateSection(UpdateSection(st, a, ca, ta), b, cb, tb)
         == UpdateSection(UpdateSection(st, b, cb, tb), a, ca, ta)
  {
  }

  /** Generation is an edit with the canned text for the section. */
  lemma GenerateIsUpdateWithDemoContent(st: Store, id: string, now: Time)
    ensures GenerateSection(st, id, now) == UpdateSection(st, id, DemoContent(id), now)
  {
  }

  /** The canned texts: three sections have their own, all others get the fallback. */
  lemma DemoContentCases(id: string)
    ensures id == "exec-summary" ==> DemoContent(id) == "This project aims to modernize the customer portal..."
    ensures id == "objectives" ==> DemoContent(id) == "1. Improve user experience\n2. Reduce support tickets by 40%..."
    ensures id == "functional" ==> DemoContent(id) == "FR-001: User authentication via OAuth2\nFR-002: Dashboard with real-time data..."
    ensures id != "exec-summary" && id != "objectives" && id != "functional" ==>
              DemoContent(id) == "Generated content..."
  {
  }

  lemma {:induction false} CountIdDistinct(ss: seq<Section>, id: string)
    requires DistinctIds(ss)
    ensures CountId(ss, id) == (if id in Ids(ss) then 1 else 0)
    decreases |ss|
  {
    if ss != [] {
      var rest := ss[1..];
      assert DistinctIds(rest) by {
        forall i, j | 0 <= i < j < |rest| ensures rest[i].id != rest[j].id {
          assert rest[i] == ss[i + 1] && rest[j] == ss[j + 1];
        }
      }
      CountIdDistinct(rest, id);
      assert Ids(ss) == [ss[0].id] + Ids(rest);
      if ss[0].id == id {
        forall k | 0 <= k < |rest| ensures Ids(rest)[k] != id {
          assert rest[k] == ss[k + 1];
        }
      }
    }
  }

  /** Citation totals of two lists that differ by one more citation on each section with the id. */
  lemma {:induction false} TotalCitationsGrow(before: seq<Section>, after: seq<Section>, id: string)
    requires |after| == |before|
    requires forall i :: 0 <= i < |before| ==>
               |after[i].citations| == |before[i].citations| + (if before[i].id == id then 1 else 0)
    ensures TotalCitations(after) == TotalCitations(before) + CountId(before, id)
    decreases |before|
  {
    if before != [] {
      TotalCitationsGrow(before[1..], after[1..], id);
    }
  }

  /**
   * On a store with distinct section ids, `addCitation` adds exactly one
   * citation to the document when the section exists and none otherwise.
   */
  lemma AddCitationTotal(st: Store, id: string, citation: string)
    requires DistinctIds(st.sections)
    ensures TotalCitations(AddCitation(st, id, citation).sections)
         == TotalCitations(st.sections) + (if id in Ids(st.sections) then 1 else 0)
  {
    TotalCitationsGrow(st.sections, AddCitation(st, id, citation).sections, id);
    CountIdDistinct(st.sections, id);
  }

  lemma {:induction false} TotalCitationsPointwise(before: seq<Section>, after: seq<Section>)
    requires |after| == |before|
    requires forall i :: 0 <= i < |before| ==> after[i].citations == before[i].citations
    ensures TotalCitations(after) == TotalCitations(before)
    decreases |before|
  {
    if before != [] {
      TotalCitationsPointwise(before[1..], after[1..]);
    }
  }

  /** Editing or generating content never touches a citation. */
  lemma EditsKeepCitations(st: Store, id: string, content: string, now: Time)
    ensures TotalCitations(UpdateSection(st, id, content, now).sections) == TotalCitations(st.sections)
    ensures TotalCitations(GenerateSection(st, id, now).sections) == TotalCitations(st.sections)
  {
    TotalCitationsPointwise(st.sections, UpdateSection(st, id, content, now).sections);
    TotalCitationsPointwise(st.sections, GenerateSection(st, id, now).sections);
  }
}
