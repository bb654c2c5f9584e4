/**
 * The decision logic of the root application sidebar: which workbench
 * navigations follow an import, when the "All docs" entry is highlighted,
 * how a new page is opened, and what the sidebar's own callbacks ask of the
 * surrounding services. The services themselves (dialogs, quick search,
 * page creation, the workbench) are external; they appear here only as the
 * requests the sidebar sends them.
 */
module RootAppSidebar {
  import opened Wrappers
  import opened JsValues

  type DocId = JsString

  /** The payload the import dialog hands back when it completes. */
  datatype ImportResult = ImportResult(docIds: seq<DocId>, entryId: Option<DocId>, isWorkspaceFile: Option<bool>)

  /** A call on the workbench: `openDoc(id)` (the id may be `undefined`) or `openAll()`. */
  datatype WorkbenchAction = OpenDoc(id: Option<DocId>) | OpenAll

  /** `isWorkspaceFile && entryId`: a workspace file with a non-empty entry id. */
  function OpensEntry(r: ImportResult): (opens: bool)
    ensures opens <==> r.isWorkspaceFile == Some(true) && r.entryId.Some? && r.entryId.value != []
  {
    TruthyBool(r.isWorkspaceFile) && TruthyString(r.entryId)
  }

  /** The docIds-based step: open all docs when there are several, else `openDoc(docIds[0])`. */
  function DocIdsAction(docIds: seq<DocId>): (action: WorkbenchAction)
    ensures action == OpenAll <==> |docIds| > 1
    ensures action.OpenDoc? ==> (action.id.Some? <==> |docIds| == 1)
    ensures action.OpenDoc? && |docIds| == 1 ==> action.id.value == docIds[0]
  {
    if |docIds| > 1 then OpenAll else OpenDoc(At(docIds, 0))
  }

  /**
   * `handleOpenDocs`. The entry-page branch does not return, so a workspace
   * file with an entry id is followed by the docIds-based step as well; only
   * the other path returns early when there are no doc ids.
   */
  function HandleOpenDocs(r: ImportResult): (acts: seq<WorkbenchAction>)
    ensures |acts| <= 2
    ensures |acts| == 2 <==> OpensEntry(r)
    ensures acts == [] <==> !OpensEntry(r) && |r.docIds| == 0
    ensures OpensEntry(r) ==> acts[0] == OpenDoc(r.entryId) && r.entryId.Some?
    ensures acts != [] && |r.docIds| > 1 ==> acts[|acts| - 1] == OpenAll
    ensures acts != [] && |r.docIds| == 1 ==> acts[|acts| - 1] == OpenDoc(Some(r.docIds[0]))
    ensures acts != [] && |r.docIds| == 0 ==> acts[|acts| - 1] == OpenDoc(None)
    ensures |r.docIds| > 1 ==>
      forall k :: 0 <= k < |acts| && acts[k].OpenDoc? ==> k == 0 && OpensEntry(r) && acts[k] == OpenDoc(r.entryId)
  {
    var entryStep := if OpensEntry(r) then [OpenDoc(r.entryId)] else [];
    if !OpensEntry(r) && |r.docIds| == 0 then []
    else entryStep + [DocIdsAction(r.docIds)]
  }

  /** The import dialog's completion callback: no payload (a cancelled dialog) does nothing. */
  function OnImportPayload(payload: Option<ImportResult>): (acts: seq<WorkbenchAction>)
    ensures payload.None? ==> acts == []
    ensures payload.Some? ==> acts == HandleOpenDocs(payload.value)
    ensures |acts| <= 2
  {
    match payload
    case None => []
    case Some(r) => HandleOpenDocs(r)
  }

  /**
   * A reading of the comment "open the entry page" under which the entry
   * page is the only navigation: one action or none. It is a reference for
   * `HandleOpenDocs`, not what the sidebar does.
   */
  function EntryOnlyPolicy(r: ImportResult): (acts: seq<WorkbenchAction>)
    ensures |acts| <= 1
    ensures acts == [] <==> !OpensEntry(r) && |r.docIds| == 0
    ensures OpensEntry(r) ==> acts == [OpenDoc(r.entryId)]
    ensures !OpensEntry(r) && |r.docIds| > 1 ==> acts == [OpenAll]
    ensures !OpensEntry(r) && |r.docIds| == 1 ==> acts == [OpenDoc(Some(r.docIds[0]))]
  {
    if OpensEntry(r) then [OpenDoc(r.entryId)]
    else if |r.docIds| == 0 then []
    else if |r.docIds| > 1 then [OpenAll]
    else [OpenDoc(Some(r.docIds[0]))]
  }

  /** Away from the entry-page path the sidebar does exactly what the entry-only policy does. */
  lemma AgreesWithPolicyOffEntryPath(r: ImportResult)
    requires !OpensEntry(r)
    ensures HandleOpenDocs(r) == EntryOnlyPolicy(r)
  {
  }

  /** On the entry-page path the docIds-based step is appended after the policy's single action. */
  lemma EntryPathAppendsDocIdsAction(r: ImportResult)
    requires OpensEntry(r)
    ensures HandleOpenDocs(r) == EntryOnlyPolicy(r) + [DocIdsAction(r.docIds)]
  {
  }

  /**
   * The view the workbench ends on (the last navigation) is the policy's
   * one exactly when the entry-page path is not taken, or the docIds-based
   * step reopens the entry itself.
   */
  lemma FinalViewAgreesWithPolicyIff(r: ImportResult)
    requires HandleOpenDocs(r) != []
    ensures var acts, doc := HandleOpenDocs(r), EntryOnlyPolicy(r);
      acts[|acts| - 1] == doc[|doc| - 1] <==>
        (!OpensEntry(r) || (|r.docIds| == 1 && r.entryId == Some(r.docIds[0])))
  {
  }

  /** Sample import payloads and the navigations the sidebar makes for them. */
  lemma ImportExamples()
    ensures HandleOpenDocs(ImportResult([], None, Some(false))) == []
    ensures HandleOpenDocs(ImportResult([Units("a"), Units("b")], None, Some(false))) == [OpenAll]
    ensures HandleOpenDocs(ImportResult([Units("a")], None, Some(false))) == [OpenDoc(Some(Units("a")))]
    ensures HandleOpenDocs(ImportResult([Units("a")], Some(Units("z")), Some(true)))
         == [OpenDoc(Some(Units("z"))), OpenDoc(Some(Units("a")))]
    ensures HandleOpenDocs(ImportResult([], Some(Units("z")), Some(true)))
         == [OpenDoc(Some(Units("z"))), OpenDoc(None)]
    ensures HandleOpenDocs(ImportResult([Units("a")], Some([]), Some(true))) == [OpenDoc(Some(Units("a")))]
  {
  }

  /** The location of the "All docs" page, also the target of its menu link. */
  const AllDocsPath: JsString := Units("/all")

  /** `allPageActive`: the current pathname is exactly the "All docs" path. */
  function AllPageActive(currentPath: JsString): (active: bool)
    ensures active <==> |currentPath| == 4 && currentPath[0] == Slash && currentPath[1..] == Units("all")
  {
    currentPath == AllDocsPath
  }

  /**
   * A path of the form `/` followed by a document id, which is the shape of a
   * document card's link target, highlights "All docs" only for the id "all".
   */
  lemma CardLinkActivatesAllDocsIff(id: DocId)
    ensures AllPageActive([Slash] + id) <==> id == Units("all")
  {
  }

  /** How the new page is opened: in a new tab, or in place (`true`). */
  datatype PageOpenMode = NewTab | InPlace

  /** `isNewTabTrigger(e) ? 'new-tab' : true`. */
  function NewPageMode(isNewTabTrigger: bool): (mode: PageOpenMode)
    ensures mode == NewTab <==> isNewTabTrigger
    ensures mode == InPlace <==> !isNewTabTrigger
  {
    if isNewTabTrigger then NewTab else InPlace
  }

  /** A call into one of the sidebar's own callbacks (index.tsx:95-150), or the import dialog completing. */
  datatype Gesture =
    | QuickSearchClicked
    | NewPageClicked(isNewTabTrigger: bool)
    | SettingsClicked
    | ImportClicked
    | ImportDialogClosed(payload: Option<ImportResult>)

  /** A request the sidebar sends to one of its collaborators. */
  datatype Effect =
    | ToggleQuickSearch
    | CreatePage(mode: PageOpenMode)
    | OpenGlobalDialog(name: JsString, activeTab: JsString)
    | OpenWorkspaceDialog(name: JsString)
    | Navigate(action: WorkbenchAction)

  /** The settings dialog request: always opened on the appearance tab. */
  const SettingsRequest: Effect := OpenGlobalDialog(Units("setting"), Units("appearance"))

  /** The import dialog request; the dialog takes no input. */
  const ImportRequest: Effect := OpenWorkspaceDialog(Units("import"))

  /** Wraps each workbench action as a navigation request, in order. */
  function Navigations(acts: seq<WorkbenchAction>): (effects: seq<Effect>)
    ensures |effects| == |acts|
    ensures forall k :: 0 <= k < |acts| ==> effects[k] == Navigate(acts[k])
  {
    if acts == [] then [] else [Navigate(acts[0])] + Navigations(acts[1..])
  }

  /** The sidebar's callbacks, each reduced to the requests it sends. */
  function Respond(g: Gesture): (effects: seq<Effect>)
    ensures !g.ImportDialogClosed? ==> |effects| == 1
    ensures g.ImportDialogClosed? ==> |effects| <= 2
    ensures g.QuickSearchClicked? ==> effects == [ToggleQuickSearch]
    ensures g.NewPageClicked? ==> effects == [CreatePage(NewPageMode(g.isNewTabTrigger))]
    ensures g.SettingsClicked? ==> effects == [SettingsRequest]
    ensures g.ImportClicked? ==> effects == [ImportRequest]
    ensures g.ImportDialogClosed? ==> effects == Navigations(OnImportPayload(g.payload))
  {
    match g
    case QuickSearchClicked => [ToggleQuickSearch]
    case NewPageClicked(t) => [CreatePage(NewPageMode(t))]
    case SettingsClicked => [SettingsRequest]
    case ImportClicked => [ImportRequest]
    case ImportDialogClosed(p) => Navigations(OnImportPayload(p))
  }

  /**
   * Among the sidebar's own callbacks, only the import completion calls the
   * workbench, and the only global dialog opened is settings on the appearance tab.
   */
  lemma RequestKinds(g: Gesture, k: int)
    requires 0 <= k < |Respond(g)|
    ensures Respond(g)[k].Navigate? ==> g.ImportDialogClosed?
    ensures Respond(g)[k].OpenGlobalDialog? ==> Respond(g)[k] == SettingsRequest && g == SettingsClicked
  {
  }

  /** Different callbacks never send the same requests, except cancelled or empty imports, which send none. */
  lemma RespondInjective(g: Gesture, h: Gesture)
    requires Respond(g) == Respond(h) && Respond(g) != []
    ensures g.ImportDialogClosed? == h.ImportDialogClosed?
    ensures !g.ImportDialogClosed? ==> g == h
  {
  }

  /** A new-page click opens a new tab exactly when the click was a new-tab trigger. */
  lemma NewPageClickOpensNewTabIff(isNewTabTrigger: bool)
    ensures Respond(NewPageClicked(isNewTabTrigger)) == [CreatePage(NewTab)] <==> isNewTabTrigger
    ensures Respond(NewPageClicked(isNewTabTrigger)) == [CreatePage(InPlace)] <==> !isNewTabTrigger
  {
  }

  /**
   * Cancelling the import dialog is a no-op: it cannot be told apart from an
   * import that produced no doc ids and names no entry page.
   */
  lemma CancelLooksLikeEmptyImport(r: ImportResult)
    requires !OpensEntry(r) && r.docIds == []
    ensures Respond(ImportDialogClosed(None)) == Respond(ImportDialogClosed(Some(r))) == []
  {
  }
}
