# Sidebar import routing and doc-card sizing

A model of two pieces of decision logic from AFFiNE's frontend:

- the root application sidebar (`RootAppSidebar`): what the workbench is asked
  to open after an import completes, when the "All docs" entry is highlighted,
  how a new page is opened, and which request each of the sidebar's own
  callbacks sends;
- the mobile document card (`DocCard`): the preview height derived from the
  first UTF-16 code unit of the document id, the link target and the heading
  fallback.

Strings are sequences of UTF-16 code units (`JsValues.JsString`). Numbers are
real numbers plus NaN (`JsValues.Number`), so `charCodeAt(0)` on an empty id
yields NaN, the `%` operator truncates towards zero, and `Math.floor` is the
real floor; the lemmas in `JsValues` connect these to Dafny's integer `%`.
JavaScript truthiness is modelled where the code relies on it: an empty
`entryId` or title is falsy, as is an absent optional boolean.

The comment on the entry branch says only "open the entry page". One
reading of it is that the entry page is then the only navigation. The code
does not behave that way: the entry branch does not return, so the
docIds-based step runs after it. A workspace file with entry `z` and doc ids
`["a"]` therefore opens `z` and then `a`; with no doc ids it opens `z` and
then calls `openDoc(undefined)`. The model follows the code
(`HandleOpenDocs`). The entry-only reading is kept as a reference definition
(`EntryOnlyPolicy`), and lemmas state exactly where the two differ.

Files: `wrappers.dfy` (Option), `js_values.dfy` (JavaScript value
semantics), `doc_card.dfy`, `root_app_sidebar.dfy`.

## Model

| member | source | states |
|---|---|---|
| RootAppSidebar.OpensEntry | packages/frontend/core/src/components/root-app-sidebar/index.tsx:126 | `isWorkspaceFile && entryId` holds iff the flag is present and `true` and the entry id is present and non-empty |
| RootAppSidebar.DocIdsAction | packages/frontend/core/src/components/root-app-sidebar/index.tsx:132-137 | `OpenAll` iff there are several doc ids; otherwise `openDoc` of the only id, or of `undefined` when there is none |
| RootAppSidebar.HandleOpenDocs | packages/frontend/core/src/components/root-app-sidebar/index.tsx:118-140 | at most two actions; exactly two iff workspace file with a non-empty entry id, the first being `OpenDoc(entryId)`; none iff off that path with no doc ids; the last action is `OpenAll` for several ids, `OpenDoc(docIds[0])` for one, `OpenDoc(undefined)` for none; with several ids the only individual `openDoc` is the entry page's (which may itself be one of the doc ids) |
| RootAppSidebar.OnImportPayload | packages/frontend/core/src/components/root-app-sidebar/index.tsx:142-150 | an absent payload (cancelled dialog) yields no actions; a present one is routed by `handleOpenDocs`; never more than two actions |
| RootAppSidebar.EntryOnlyPolicy | packages/frontend/core/src/components/root-app-sidebar/index.tsx:125-137 | reference reading of the comment at :125 in which the entry page is the only navigation: exactly `OpenDoc(entryId)` on the entry path, otherwise `OpenAll` for several ids, the one id for one, nothing for none |
| RootAppSidebar.AgreesWithPolicyOffEntryPath | packages/frontend/core/src/components/root-app-sidebar/index.tsx:128-137 | off the entry-page path the code's actions equal the entry-only policy's |
| RootAppSidebar.EntryPathAppendsDocIdsAction | packages/frontend/core/src/components/root-app-sidebar/index.tsx:126-137 | on the entry-page path the docIds-based step is appended after the policy's single entry action (the branch falls through) |
| RootAppSidebar.FinalViewAgreesWithPolicyIff | packages/frontend/core/src/components/root-app-sidebar/index.tsx:126-137 | the last navigation equals the entry-only policy's iff the entry path is not taken or the single doc id is the entry id itself |
| RootAppSidebar.ImportExamples | packages/frontend/core/src/components/root-app-sidebar/index.tsx:118-137 | sample payloads: none, several, one, workspace file with entry, workspace file with entry and no ids, empty entry id |
| RootAppSidebar.AllPageActive | packages/frontend/core/src/components/root-app-sidebar/index.tsx:92-99 | "All docs" is active iff the pathname is exactly `/` followed by `all` |
| RootAppSidebar.CardLinkActivatesAllDocsIff | packages/frontend/core/src/components/root-app-sidebar/index.tsx:99 | a path `/` followed by a document id (the shape of a doc card link) makes "All docs" active iff the id is `all` |
| RootAppSidebar.NewPageMode | packages/frontend/core/src/components/root-app-sidebar/index.tsx:103-105 | the page opens in a new tab iff the event is a new-tab trigger, in place otherwise |
| RootAppSidebar.Respond | packages/frontend/core/src/components/root-app-sidebar/index.tsx:95-150 | quick search toggles the search service; a new-page click creates a page in the mode of `NewPageMode`; settings opens the `setting` dialog on the `appearance` tab; import opens the `import` dialog; the dialog's completion navigates exactly as `OnImportPayload` says |
| RootAppSidebar.RequestKinds | packages/frontend/core/src/components/root-app-sidebar/index.tsx:95-150 | among the sidebar's own callbacks only the import completion calls the workbench, and the only global dialog opened is settings on the appearance tab, from the settings click |
| RootAppSidebar.NewPageClickOpensNewTabIff | packages/frontend/core/src/components/root-app-sidebar/index.tsx:103-105 | a new-page click creates the page in a new tab iff the event is a new-tab trigger, in place iff it is not |
| RootAppSidebar.CancelLooksLikeEmptyImport | packages/frontend/core/src/components/root-app-sidebar/index.tsx:128-129 | a cancelled import dialog sends the same (empty) requests as an import with no doc ids and no entry page |
| RootAppSidebar.RespondInjective | packages/frontend/core/src/components/root-app-sidebar/index.tsx:95-150 | two gestures that send the same non-empty requests are the same gesture, apart from import completions |
| JsValues.TruthyString | packages/frontend/core/src/components/root-app-sidebar/index.tsx:126 | a string is truthy iff it is present and non-empty (also decides the title fallback at doc-card:72) |
| JsValues.TruthyBool | packages/frontend/core/src/mobile/components/doc-card/index.tsx:57 | an optional boolean is truthy iff it is present and not `false` (also decides `isWorkspaceFile` at root-app-sidebar:126) |
| JsValues.At | packages/frontend/core/src/components/root-app-sidebar/index.tsx:136 | array indexing yields the element iff the index is in range, `undefined` otherwise |
| JsValues.CharCodeAt | packages/frontend/core/src/mobile/components/doc-card/index.tsx:21 | the code unit at the index, NaN iff the index is out of range |
| JsValues.Rem | packages/frontend/core/src/mobile/components/doc-card/index.tsx:22 | the `%` operator is NaN iff an operand is NaN or the divisor is zero; for a non-negative dividend and positive divisor it lies in [0, divisor) |
| JsValues.QuotientBracket | packages/frontend/core/src/mobile/components/doc-card/index.tsx:22 | the integer quotient of naturals is the floor of their real quotient, which the truncation in `%` relies on |
| JsValues.RemOfNaturals | packages/frontend/core/src/mobile/components/doc-card/index.tsx:22 | on a non-negative integer and a positive integer divisor `%` equals the Euclidean remainder |
| JsValues.Trunc | packages/frontend/core/src/mobile/components/doc-card/index.tsx:22 | rounding towards zero: for non-negative `x` the greatest integer not above it, for negative `x` the least integer not below it |
| JsValues.Add | packages/frontend/core/src/mobile/components/doc-card/index.tsx:22 | `+` is NaN iff an operand is NaN, and otherwise the exact sum |
| JsValues.Mul | packages/frontend/core/src/mobile/components/doc-card/index.tsx:59 | `*` is NaN iff an operand is NaN, and otherwise the exact product |
| JsValues.Floor | packages/frontend/core/src/mobile/components/doc-card/index.tsx:22 | `Math.floor` gives the greatest integer not above its argument (`r <= x < r + 1`, `r` an integer) and keeps NaN |
| JsValues.FloorOfInt | packages/frontend/core/src/mobile/components/doc-card/index.tsx:22 | `Math.floor` of an integer is that integer |
| DocCard.CalcRowsById | packages/frontend/core/src/mobile/components/doc-card/index.tsx:18-23 | NaN iff the id is empty; otherwise the integer `c % 6 + 2` for the first code unit `c`, within [2, 8) |
| DocCard.RowsDependOnlyOnFirstUnit | packages/frontend/core/src/mobile/components/doc-card/index.tsx:21-22 | two non-empty ids get the same rows iff their first code units agree modulo 6 |
| DocCard.EveryRowCountOccurs | packages/frontend/core/src/mobile/components/doc-card/index.tsx:18-23 | every row count in [2, 8) is produced by some id |
| DocCard.LetterAExample | packages/frontend/core/src/mobile/components/doc-card/index.tsx:56-60 | an id starting with `A` gets 7 rows and a 126px preview |
| DocCard.ContentStyleFor | packages/frontend/core/src/mobile/components/doc-card/index.tsx:56-60 | `flex: 1` iff `autoHeightById` is not set; otherwise 18px per row, NaN for an empty id |
| DocCard.HeightIsWholeRows | packages/frontend/core/src/mobile/components/doc-card/index.tsx:58-59 | a finite computed height is an integral multiple of 18 in [36, 126] |
| DocCard.LinkTarget | packages/frontend/core/src/mobile/components/doc-card/index.tsx:64 | the link is `/` followed by the id |
| DocCard.LinkTargetInjective | packages/frontend/core/src/mobile/components/doc-card/index.tsx:64 | distinct ids link to distinct targets |
| DocCard.HeadingFor | packages/frontend/core/src/mobile/components/doc-card/index.tsx:72 | the "Untitled" placeholder iff the title is absent or empty; otherwise the title itself |
| DocCard.EmptyTitleIsMissingTitle | packages/frontend/core/src/mobile/components/doc-card/index.tsx:72 | an empty title renders exactly like a missing one (the placeholder); any non-empty title is shown unchanged |

## Left out

- Live data (`useLiveData`, `location$.map`, `isFavorite$`): the current pathname is an input.
- The favorite toggle on the card: its adapter's implementation and persistence are not part of this model.
- The collaborators themselves (dialog services, quick search, `createPage`, `isNewTabTrigger`, the workbench): they appear only as requests, actions and a boolean input.
- Telemetry calls, i18n strings, icons, CSS classes, JSX layout, the Electron updater switch and the external links.
- `useAsyncCallback`, `useCatchEventCallback`, `preventDefault`: event-loop plumbing.
- DocCard.ContentStyleFor: the height is the number of pixels, not the CSS string `${n}px` that formats it.
- DocCard.HeadingFor: titles are strings; a title that is some other React node is not modelled.
- JsValues.Rem: JavaScript's infinities are not modelled; no operand here can be infinite.
- JsValues.Add: arithmetic is exact on reals; IEEE-754 rounding is not modelled, and every operand here is an integer below 2^53, where it is exact.
- JsValues.Mul: exact on reals as for `Add`; IEEE-754 rounding is not modelled, and no product here exceeds 2^53.
- Link items and child components navigate or open dialogs on their own and are not `Gesture`s here: the "All docs" `MenuLinkItem` (index.tsx:174), `WorkspaceNavigator` (:157), `AppSidebarJournalButton` (:179) and `TrashButton` (:198).
- The tags row, the page preview body and `showTags`: rendering only.
