# BRD agent stores in Dafny

This project models the two client-side state stores of the BRD (Business
Requirements Document) agent. Each store action is written as a pure function
from one store value to the next, and the project proves what each action
changes, what it keeps, and which invariants hold over any run of actions.

- `prelude.dfy` (module `Prelude`) holds the shared vocabulary. `Option` stands
  for TypeScript's optional fields and `| null`. `Time` is a clock reading in
  milliseconds since the epoch.
- `brd_store.dfy` (module `BRDStore`) models the document store. It holds eight
  template sections (id, title, content, citations, optional `lastEdited`) and
  a ledger of conflicts (two requirements, two sources, a severity and a
  `resolved` flag). Its actions are `updateSection`, `addCitation`,
  `resolveConflict` and the state update that ends `generateSection`.
- `session_store.dfy` (module `SessionStore`) models the session registry. It
  holds the list of BRD sessions, newest first, and the active session id,
  which may be null. Its actions are `addSession`, `setActive`,
  `updateSession` and `removeSession`.

Every action takes the time it would read from `new Date()` as a `now`
parameter. Both modules define an `Action` datatype and a `Run` function that
applies a sequence of actions. The `BRDStore` layout and conflict invariants
are proved over every run. The `SessionStore` active-id invariant is proved
over every run that activates only listed ids. Unique session ids are kept by
each single action, provided `addSession` is given an id not yet listed.

Behaviour of the code worth knowing, all of it modelled as written:

- Sections have no generation state. Nothing guards against a second
  generation while one is pending, and an edit during generation is accepted.
- `setActive` accepts an id that no session carries.
  `SessionStore.SetActive` proves that the "active id is listed" invariant
  survives exactly when the id is present.
- The patch type of `updateSession` excludes only `id`, so a patch may rewrite
  `createdAt`.
- `addSession` does not check that its id is new. A second session with a
  listed id is accepted, and the list then holds two sessions with that id.
- `removeSession` does not pick an arbitrary fallback. It picks the first other
  session in the old list, or null.
- The session counters (`sections`, `signals`, `words`) are stored values.
  Nothing recomputes them.
- `updateSection`, `addCitation`, `resolveConflict` and `removeSession` with an
  unknown id change nothing in the list and report nothing.

## Model

| member | source | states |
|---|---|---|
| BRDStore.DefaultSections | ps21-brd-agent/frontend/src/store/useBRDStore.ts:30-39 | the template has exactly 8 sections with pairwise distinct ids, each with empty content, no citations and no `lastEdited` |
| BRDStore.SeedConflicts | ps21-brd-agent/frontend/src/store/useBRDStore.ts:43-62 | the store starts with two conflicts with distinct ids, both unresolved |
| BRDStore.Init | ps21-brd-agent/frontend/src/store/useBRDStore.ts:41-62 | the initial store is exactly the template sections and the two seeded conflicts: 8 empty sections with distinct ids and 2 open conflicts with distinct ids |
| BRDStore.TemplateLayoutDistinct | ps21-brd-agent/frontend/src/store/useBRDStore.ts:30-39 | any store with the template's id sequence has distinct section ids |
| BRDStore.UpdateSection | ps21-brd-agent/frontend/src/store/useBRDStore.ts:64-69 | each section with the id gets the new content and `lastEdited = now`, keeping its id, title and citations; every other section is identical; count, order and conflicts are preserved |
| BRDStore.AddCitation | ps21-brd-agent/frontend/src/store/useBRDStore.ts:71-76 | each matching section's citations become the old list plus the new citation (one longer, no de-duplication), with content and `lastEdited` untouched; other sections are identical |
| BRDStore.ResolveConflict | ps21-brd-agent/frontend/src/store/useBRDStore.ts:78-83 | each conflict with the id gets `resolved = true` and no other field changes; other conflicts are identical; count, order and sections are preserved |
| BRDStore.DemoContent | ps21-brd-agent/frontend/src/store/useBRDStore.ts:89-98 | the generated text is never empty; it is the table entry for ids in the table and the fallback text otherwise |
| BRDStore.DemoContentCases | ps21-brd-agent/frontend/src/store/useBRDStore.ts:89-98 | `exec-summary`, `objectives` and `functional` get their own demo texts; every other id gets `Generated content...` |
| BRDStore.GenerateSection | ps21-brd-agent/frontend/src/store/useBRDStore.ts:95-101 | the matching section gets the demo text and `lastEdited = now` and keeps its id, citations and title; other sections and the conflicts are unchanged |
| BRDStore.GenerateIsUpdateWithDemoContent | ps21-brd-agent/frontend/src/store/useBRDStore.ts:95-101 | generation's final update equals `updateSection` with the demo text and the same clock reading |
| BRDStore.UnknownSectionIsNoOp | ps21-brd-agent/frontend/src/store/useBRDStore.ts:64-101 | with an id that no section carries, `updateSection`, `addCitation` and the generation update leave the store unchanged |
| BRDStore.UnknownConflictIsNoOp | ps21-brd-agent/frontend/src/store/useBRDStore.ts:78-83 | resolving an id that no conflict carries leaves the store unchanged |
| BRDStore.ResolveIdempotent | ps21-brd-agent/frontend/src/store/useBRDStore.ts:78-83 | resolving a conflict twice gives the same store as resolving it once |
| BRDStore.UpdateLastWriterWins | ps21-brd-agent/frontend/src/store/useBRDStore.ts:64-69 | two edits of the same section equal the second edit alone |
| BRDStore.UpdatesOfDistinctSectionsCommute | ps21-brd-agent/frontend/src/store/useBRDStore.ts:64-69 | edits to two different section ids give the same store in either order |
| BRDStore.AddCitationTotal | ps21-brd-agent/frontend/src/store/useBRDStore.ts:71-76 | with distinct section ids, the document's total citation count grows by exactly 1 when the section exists and by 0 otherwise |
| BRDStore.EditsKeepCitations | ps21-brd-agent/frontend/src/store/useBRDStore.ts:64-101 | editing or generating content leaves the total citation count unchanged |
| BRDStore.ApplyFrames | ps21-brd-agent/frontend/src/store/useBRDStore.ts:64-101 | a single action of any kind keeps section ids and titles in order, keeps every conflict in place with only `resolved` possibly changed, and never reopens a resolved conflict |
| BRDStore.RunFrames | ps21-brd-agent/frontend/src/store/useBRDStore.ts:64-101 | any sequence of store actions keeps the ids, titles and order of the sections, neither adds nor removes a conflict, and never turns `resolved` from true back to false |
| BRDStore.ReachableHasTemplateLayout | ps21-brd-agent/frontend/src/store/useBRDStore.ts:30-101 | every store reachable from the initial one has the template layout, distinct section ids and exactly the two seeded conflicts, each unchanged except that it may have been resolved |
| BRDStore.ReachableGenerateOfOtherIdIsNoOp | ps21-brd-agent/frontend/src/store/useBRDStore.ts:89-101 | in every reachable store, generation with an id outside the template (an inherited object key such as `constructor` included) leaves the store unchanged |
| SessionStore.Seed | frontend/src/store/useSessionStore.ts:28-45 | there are two seed sessions with distinct ids, created 2 hours and 24 hours before `now` |
| SessionStore.Init | frontend/src/store/useSessionStore.ts:28-51 | the registry starts with the two seed sessions, and the first seed's id is active; the active id is listed and the ids are unique |
| SessionStore.AddSession | frontend/src/store/useSessionStore.ts:53-62 | the result is the new session stamped with `createdAt = now`, followed by the old list in its order; the new id becomes active |
| SessionStore.SetActive | frontend/src/store/useSessionStore.ts:64 | the list is unchanged and the active id becomes `id`; the "active id is listed" invariant holds afterwards exactly when `id` is in the list |
| SessionStore.UpdateSession | frontend/src/store/useSessionStore.ts:66-71 | each session with the id takes every field the patch carries and keeps every field it lacks; ids never change; other sessions, length, order and the active id are preserved |
| SessionStore.Without | frontend/src/store/useSessionStore.ts:76 | the filtered list has no session with the id and is shorter than the old list by the number of sessions carrying the id |
| SessionStore.WithoutMembers | frontend/src/store/useSessionStore.ts:76 | a session is in the filtered list exactly when it was in the old list and its id differs |
| SessionStore.FirstOther | frontend/src/store/useSessionStore.ts:79 | the fallback is null exactly when every session has the removed id; otherwise it is the id of the first session whose id differs |
| SessionStore.RemoveSession | frontend/src/store/useSessionStore.ts:73-82 | the new list is the old list filtered by id, so no session with the id remains and every other session does, in its old relative order; if the removed id was active, the new active id is the first other session's id in the old list, or null when there is none; otherwise the active id is unchanged |
| SessionStore.WithoutDistributes | frontend/src/store/useSessionStore.ts:76 | filtering a concatenation concatenates the filtered parts, so the remaining sessions keep their relative order |
| SessionStore.FallbackIsHeadOfRemaining | frontend/src/store/useSessionStore.ts:76-80 | the fallback id is the id at the head of the filtered list, or null when that list is empty |
| SessionStore.RemoveActiveFallsBackToFirstRemaining | frontend/src/store/useSessionStore.ts:73-82 | after removing the active session, the active id is the first remaining session's id, or null |
| SessionStore.RemoveUndoesAdd | frontend/src/store/useSessionStore.ts:53-82 | adding a session with a fresh id and then removing it gives back the old session list |
| SessionStore.UpdateTwiceIsOverlay | frontend/src/store/useSessionStore.ts:66-71 | two patches in a row equal one patch carrying both, with the later patch's fields winning |
| SessionStore.EmptyPatchIsNoOp | frontend/src/store/useSessionStore.ts:66-71 | a patch with no fields leaves the registry unchanged |
| SessionStore.AddKeepsActiveListed | frontend/src/store/useSessionStore.ts:53-62 | after `addSession` the active id names a listed session, whatever it was before |
| SessionStore.UpdateKeepsActiveListed | frontend/src/store/useSessionStore.ts:66-71 | `updateSession` preserves "the active id is null or names a listed session" |
| SessionStore.RemoveKeepsActiveListed | frontend/src/store/useSessionStore.ts:73-82 | `removeSession` preserves "the active id is null or names a listed session" |
| SessionStore.ActionsKeepUniqueIds | frontend/src/store/useSessionStore.ts:53-82 | unique session ids survive `updateSession` and `removeSession`, and `addSession` with an id not yet listed |
| SessionStore.RunKeepsActiveListed | frontend/src/store/useSessionStore.ts:53-82 | any run of registry actions keeps the active id listed, provided it only activates ids that are listed at that moment |

## Left out

- The 2-second `setTimeout` delay and the Promise around `generateSection` are not modelled. Only the final state update is.
- zustand's `create` and `persist`, and the JSON copy of the registry in `localStorage`, are not modelled. They are library and I/O plumbing.
- `Date` values are not modelled as such. `new Date()` becomes the `now` parameter. The ISO string in `createdAt` becomes the same clock reading as an integer.
- A patch field set explicitly to `undefined` is not modelled. In JavaScript that would overwrite the field with `undefined`. Here a field is either carried or absent.
- The React pages and components are not part of this model. This covers settings, dashboard, home, ingestion, login and `ProtectedRoute`.
- `api/main.py` and `verify_imports.py` are not part of this model. They are framework wiring and an import smoke test.
- Recomputing the session counters from document content is not modelled. The code never does it, so the counters are stored values.
- BRDStore.DemoContent: the canned-text table is a plain map. In JavaScript, `demoContent[id]` also finds inherited keys such as `constructor` and returns a truthy non-string for them. This never shows through the store: no section of a reachable store carries such an id, so generation with it changes nothing (`BRDStore.ReachableGenerateOfOtherIdIsNoOp`).
- The session counters are TypeScript `number`s, modelled as integers. Fractional, infinite and NaN values are not modelled.
- A patch's `createdAt` is typed as any string. The model admits only a clock reading there, like every other `createdAt`.
