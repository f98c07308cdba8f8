/**
 * The form-level part of `parseXML`: the `whenNewFormInstance` event of the
 * form, the popups, and the loop that reads every `grid` of the document.
 */
module Form {
  import opened Wrappers
  import opened JsString
  import opened Dom
  import opened Actions
  import opened Events
  import opened Grids

  /** `form > events > whenNewFormInstance`. */
  const WhenNewSelector: seq<Selector> := [Child(Child(Is(Tag("form")), Tag("events")), Tag("whenNewFormInstance"))]

  /** `form > popups > popup`. */
  const PopupSelector: seq<Selector> := [Child(Child(Is(Tag("form")), Tag("popups")), Tag("popup"))]

  /** `grids > grid`: the grids a popup shows. */
  const PopupGridSelector: seq<Selector> := [Child(Is(Tag("grids")), Tag("grid"))]

  /** `grid`: every grid of the document, wherever it is. */
  const GridSelector: seq<Selector> := [Is(Tag("grid"))]

  /** A popup window of the form. */
  datatype Popup = Popup(
    name: Option<string>,
    title: Option<string>,
    width: Option<string>,
    height: Option<string>,
    callFormName: Option<string>,
    params: seq<CallParam>,
    grids: seq<Option<string>>)

  /** The result of `parseXML`. */
  datatype FormModel = FormModel(
    grids: seq<Grid>,
    popups: seq<Popup>,
    description: Option<string>,
    whenNewFormInstance: seq<string>,
    whenNewFormInstanceGroovy: seq<ResolvedAction>)

  // ------------------------------------------------------ whenNewFormInstance

  /** The action references of the form's `whenNewFormInstance` event. */
  function WhenNewRefs(root: Element): seq<string> {
    match DocumentQuerySelector(root, WhenNewSelector)
    case None => []
    case Some(whenNew) => ParseActionRefs(GetAttribute(whenNew.element, "actionRef"))
  }

  /**
   * The form's start-up actions are the trimmed comma-separated pieces of
   * the `actionRef` of its first `form > events > whenNewFormInstance`, none
   * when there is no such event or its `actionRef` is missing or empty; the
   * resolved scripts are exactly the referenced actions the catalog knows.
   */
  lemma WhenNewShape(root: Element, catalog: Catalog)
    ensures DocumentQuerySelector(root, WhenNewSelector).None? ==> WhenNewRefs(root) == []
    ensures DocumentQuerySelector(root, WhenNewSelector).Some? ==>
              var attr := GetAttribute(DocumentQuerySelector(root, WhenNewSelector).value.element, "actionRef");
              && (WhenNewRefs(root) == [] <==> !Truthy(attr))
              && (Truthy(attr) ==> |WhenNewRefs(root)| == |Split(attr.value, ',')|)
    ensures forall x: ResolvedAction :: x in Resolve(WhenNewRefs(root), catalog) <==>
              x.actionName in WhenNewRefs(root) && x.actionName in catalog && x.classes == catalog[x.actionName]
  {
    var refs := WhenNewRefs(root);
    forall x: ResolvedAction | x in Resolve(refs, catalog)
      ensures x.actionName in refs && x.actionName in catalog && x.classes == catalog[x.actionName]
    {
      ResolveSound(refs, catalog, x);
    }
    forall x: ResolvedAction | x.actionName in refs && x.actionName in catalog && x.classes == catalog[x.actionName]
      ensures x in Resolve(refs, catalog)
    {
      ResolveComplete(refs, catalog, x.actionName);
    }
  }

  /** Reading the form's `whenNewFormInstance` references and scripts. */
  method ReadWhenNew(root: Element, catalog: Catalog) returns (refs: seq<string>, scripts: seq<ResolvedAction>)
    ensures refs == WhenNewRefs(root)
    ensures scripts == Resolve(refs, catalog)
  {
    refs := [];
    scripts := [];
    var formWhenNew := DocumentQuerySelector(root, WhenNewSelector);
    if formWhenNew.Some? {
      var actionRef := GetAttribute(formWhenNew.value.element, "actionRef");
      if Truthy(actionRef) {
        refs := SplitRefs(actionRef.value);
        scripts := ConcatenateGroovyScripts(refs, catalog);
      }
    }
  }

  // ----------------------------------------------------------------- popups

  /** The popup's first `callFormPopup` descendant (`getElementsByTagName(...)[0]`). */
  function CallFormPopupOf(popup: Node): Option<Node> {
    QuerySelector(popup, [Is(Tag("callFormPopup"))])
  }

  /** The trimmed name of the form the popup calls; `None` without a `callFormPopup` or a `callFormName` in it. */
  function PopupCallFormName(popup: Node): Option<string> {
    match CallFormPopupOf(popup)
    case None => None
    case Some(c) => TrimmedText(QuerySelector(c, [Is(Tag("callFormName"))]))
  }

  /** The parameters of the popup's called form; none without a `callFormPopup`. */
  function PopupParams(popup: Node): seq<CallParam> {
    match CallFormPopupOf(popup)
    case None => []
    case Some(c) => ParamsListOf(c)
  }

  /** The names of the grids the popup references, in document order. */
  function GridNames(grids: seq<Node>): (r: seq<Option<string>>)
    ensures |r| == |grids|
  {
    seq(|grids|, i requires 0 <= i < |grids| => GetAttribute(grids[i].element, "name"))
  }

  function PopupOf(popup: Node): Popup {
    var e := popup.element;
    Popup(GetAttribute(e, "name"), GetAttribute(e, "title"), GetAttribute(e, "width"), GetAttribute(e, "height"),
          PopupCallFormName(popup), PopupParams(popup), GridNames(QuerySelectorAll(popup, PopupGridSelector)))
  }

  function PopupsIn(popups: seq<Node>): (r: seq<Popup>)
    ensures |r| == |popups|
  {
    seq(|popups|, i requires 0 <= i < |popups| => PopupOf(popups[i]))
  }

  /**
   * A popup without a `callFormPopup` names no called form and passes no
   * parameters; with one, the called form is the trimmed text of its first
   * `callFormName`, if any. Its grid list names, in order, each of its
   * `grids > grid` descendants.
   */
  lemma PopupShape(popup: Node)
    ensures CallFormPopupOf(popup).None? ==> PopupOf(popup).callFormName.None? && PopupOf(popup).params == []
    ensures CallFormPopupOf(popup).Some? ==>
              var name := QuerySelector(CallFormPopupOf(popup).value, [Is(Tag("callFormName"))]);
              && (PopupOf(popup).callFormName.Some? <==> name.Some?)
              && (name.Some? ==> PopupOf(popup).callFormName == Some(Trim(name.value.element.textContent)))
    ensures var refs := QuerySelectorAll(popup, PopupGridSelector);
            && |PopupOf(popup).grids| == |refs|
            && forall i :: 0 <= i < |refs| ==>
                 && PopupOf(popup).grids[i] == GetAttribute(refs[i].element, "name")
                 && refs[i].element.nodeName == "grid"
                 && |refs[i].ancestors| > 0
                 && refs[i].ancestors[|refs[i].ancestors| - 1].nodeName == "grids"
  {
    var refs := QuerySelectorAll(popup, PopupGridSelector);
    forall i | 0 <= i < |refs|
      ensures refs[i].element.nodeName == "grid" && |refs[i].ancestors| > 0
              && refs[i].ancestors[|refs[i].ancestors| - 1].nodeName == "grids"
    {
      SelectMembership(Descendants(popup), PopupGridSelector, refs[i]);
      assert Matches(PopupGridSelector[0], refs[i].element, refs[i].ancestors);
    }
  }

  /** The loop over the `grids > grid` references of a popup. */
  method CollectGridNames(grids: seq<Node>) returns (r: seq<Option<string>>)
    ensures r == GridNames(grids)
  {
    r := [];
    var i := 0;
    while i < |grids|
      invariant 0 <= i <= |grids|
      invariant |r| == i && forall k :: 0 <= k < i ==> r[k] == GetAttribute(grids[k].element, "name")
    {
      r := r + [GetAttribute(grids[i].element, "name")];
      i := i + 1;
    }
  }

  /** The body of the loop over the popups. */
  method ExtractPopup(popup: Node) returns (popupData: Popup)
    ensures popupData == PopupOf(popup)
  {
    var callFormName: Option<string> := None;
    var params: seq<CallParam> := [];
    var callFormPopup := QuerySelector(popup, [Is(Tag("callFormPopup"))]);
    if callFormPopup.Some? {
      var nameNode := QuerySelector(callFormPopup.value, [Is(Tag("callFormName"))]);
      if nameNode.Some? {
        callFormName := Some(Trim(nameNode.value.element.textContent));
      }
      params := ReadParamsList(callFormPopup.value);
    }
    var e := popup.element;
    var grids := CollectGridNames(QuerySelectorAll(popup, PopupGridSelector));
    popupData := Popup(GetAttribute(e, "name"), GetAttribute(e, "title"), GetAttribute(e, "width"),
                       GetAttribute(e, "height"), callFormName, params, grids);
  }

  /** The loop over the popups. */
  method CollectPopups(popups: seq<Node>) returns (r: seq<Popup>)
    ensures r == PopupsIn(popups)
  {
    r := [];
    var i := 0;
    while i < |popups|
      invariant 0 <= i <= |popups|
      invariant |r| == i && forall k :: 0 <= k < i ==> r[k] == PopupOf(popups[k])
    {
      var popupData := ExtractPopup(popups[i]);
      r := r + [popupData];
      i := i + 1;
    }
  }

  // ------------------------------------------------------------------ grids

  function GridsIn(grids: seq<Node>, catalog: Catalog): (r: seq<Grid>)
    ensures |r| == |grids|
    decreases |grids|
  {
    if grids == [] then []
    else GridsIn(grids[..|grids| - 1], catalog) + [GridOf(grids[|grids| - 1], catalog)]
  }

  /** The record at position `j` is the one the grid at position `j` yields. */
  lemma {:induction false} GridsInAt(grids: seq<Node>, catalog: Catalog, j: nat)
    requires j < |grids|
    ensures GridsIn(grids, catalog)[j] == GridOf(grids[j], catalog)
    decreases |grids|
  {
    if j < |grids| - 1 {
      var init := grids[..|grids| - 1];
      GridsInAt(init, catalog, j);
      assert init[j] == grids[j];
    }
  }

  /** One more grid adds its record at the end. */
  lemma GridsInStep(grids: seq<Node>, i: nat, catalog: Catalog)
    requires i < |grids|
    ensures GridsIn(grids[..i + 1], catalog) == GridsIn(grids[..i], catalog) + [GridOf(grids[i], catalog)]
  {
    assert grids[..i + 1][..i] == grids[..i];
  }

  /** The loop over every `grid` of the document. */
  method CollectGrids(grids: seq<Node>, catalog: Catalog) returns (r: seq<Grid>)
    ensures r == GridsIn(grids, catalog)
  {
    r := [];
    var i := 0;
    while i < |grids|
      invariant 0 <= i <= |grids|
      invariant r == GridsIn(grids[..i], catalog)
    {
      var gridData := ExtractGrid(grids[i], catalog);
      GridsInStep(grids, i, catalog);
      r := r + [gridData];
      i := i + 1;
    }
    assert grids[..i] == grids;
  }

  // ---------------------------------------------------------------- parseXML

  /** The catalog of every action of the document. */
  function DocumentCatalog(root: Element): Catalog {
    CatalogOf(Entries(DocumentQuerySelectorAll(root, ActionSelector)))
  }

  /**
   * `parseXML` on a well-formed document whose root element is `root`;
   * `description` is what the description comment yields, if anything.
   */
  function FormOf(root: Element, description: Option<string>): FormModel {
    var catalog := DocumentCatalog(root);
    var refs := WhenNewRefs(root);
    FormModel(GridsIn(DocumentQuerySelectorAll(root, GridSelector), catalog),
              PopupsIn(DocumentQuerySelectorAll(root, PopupSelector)),
              description, refs, Resolve(refs, catalog))
  }

  /** `parseXML`: the action catalog, the start-up actions, the popups and then the grids. */
  method ParseXml(root: Element, description: Option<string>) returns (result: FormModel)
    ensures result == FormOf(root, description)
  {
    var actionsMap := ExtractAllActions(root);
    result := FormModel([], [], description, [], []);
    var refs, scripts := ReadWhenNew(root, actionsMap);
    result := result.(whenNewFormInstance := refs, whenNewFormInstanceGroovy := scripts);
    var popups := CollectPopups(DocumentQuerySelectorAll(root, PopupSelector));
    result := result.(popups := popups);
    var grids := CollectGrids(DocumentQuerySelectorAll(root, GridSelector), actionsMap);
    result := result.(grids := grids);
  }

  /**
   * One grid record per `grid` element of the document, in document order,
   * each read with the catalog of every action of the document.
   */
  lemma FormGrids(root: Element, description: Option<string>)
    ensures var nodes := DocumentQuerySelectorAll(root, GridSelector);
            var grids := FormOf(root, description).grids;
            && |grids| == |nodes|
            && forall i :: 0 <= i < |nodes| ==>
                 && nodes[i].element.nodeName == "grid"
                 && grids[i] == GridOf(nodes[i], DocumentCatalog(root))
  {
    var nodes := DocumentQuerySelectorAll(root, GridSelector);
    forall i | 0 <= i < |nodes|
      ensures nodes[i].element.nodeName == "grid"
      ensures FormOf(root, description).grids[i] == GridOf(nodes[i], DocumentCatalog(root))
    {
      SelectMembership(DocumentElements(root), GridSelector, nodes[i]);
      assert Matches(GridSelector[0], nodes[i].element, nodes[i].ancestors);
      GridsInAt(nodes, DocumentCatalog(root), i);
    }
  }

  /**
   * The `grid` selector does not tell a grid from a popup's reference to
   * one: every `grids > grid` inside a popup also gets a full grid record of
   * its own, whose name is the one the popup lists.
   */
  lemma PopupReferencesAreGrids(root: Element, description: Option<string>, p: nat, j: nat)
    requires p < |DocumentQuerySelectorAll(root, PopupSelector)|
    requires j < |QuerySelectorAll(DocumentQuerySelectorAll(root, PopupSelector)[p], PopupGridSelector)|
    ensures var form := FormOf(root, description);
            var reference := QuerySelectorAll(DocumentQuerySelectorAll(root, PopupSelector)[p], PopupGridSelector)[j];
            exists k :: && 0 <= k < |form.grids|
                        && form.grids[k] == GridOf(reference, DocumentCatalog(root))
                        && form.grids[k].name == form.popups[p].grids[j]
  {
    var popups := DocumentQuerySelectorAll(root, PopupSelector);
    var popup := popups[p];
    var reference := QuerySelectorAll(popup, PopupGridSelector)[j];
    var nodes := DocumentQuerySelectorAll(root, GridSelector);
    SelectMembership(DocumentElements(root), PopupSelector, popup);
    SelectMembership(Descendants(popup), PopupGridSelector, reference);
    ForestClosed([root], [], popup, reference);
    assert Matches(PopupGridSelector[0], reference.element, reference.ancestors);
    assert Matches(GridSelector[0], reference.element, reference.ancestors);
    SelectMembership(DocumentElements(root), GridSelector, reference);
    var k :| 0 <= k < |nodes| && nodes[k] == reference;
    PopupShape(popup);
    FormGrids(root, description);
  }
}
