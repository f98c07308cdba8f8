/**
 * The body of the grid loop of `parseXML`: everything one `grid` element
 * contributes to the form model.
 */
module Grids {
  import opened Wrappers
  import opened JsString
  import opened Dom
  import opened Actions
  import opened Events

  // ------------------------------------------------------ CheckAndSaveData

  /** The values of the `insert`, `update` and `delete` lists of the grid's `CheckAndSaveData` class. */
  datatype SaveLists = SaveLists(insert: seq<string>, update: seq<string>, delete: seq<string>)

  /** `action[name="save"] class[class="CheckAndSaveData"]`. */
  const CheckAndSaveSelector: seq<Selector> :=
    [Within(Is(TagWith("action", "name", "save")), TagWith("class", "class", "CheckAndSaveData"))]

  /** `list[name="<op>"] > value`. */
  function ListValueSelector(op: string): seq<Selector> {
    [Child(Is(TagWith("list", "name", op)), Tag("value"))]
  }

  /** The trimmed texts of `nodes`, in order. */
  function TrimmedTexts(nodes: seq<Node>): (r: seq<string>)
    ensures |r| == |nodes|
  {
    seq(|nodes|, i requires 0 <= i < |nodes| => Trim(nodes[i].element.textContent))
  }

  /** The list one operation reads from the `CheckAndSaveData` class `cls`. */
  function ListValues(cls: Node, op: string): seq<string> {
    TrimmedTexts(QuerySelectorAll(cls, ListValueSelector(op)))
  }

  /** `parsedCheckAndSaveData`: `None` when the grid has no `CheckAndSaveData` save class. */
  function SaveListsOf(grid: Node): Option<SaveLists> {
    match QuerySelector(grid, CheckAndSaveSelector)
    case None => None
    case Some(cls) => Some(SaveLists(ListValues(cls, "insert"), ListValues(cls, "update"), ListValues(cls, "delete")))
  }

  /** The inner loop of the save lists: push the trimmed text of each `value`. */
  method CollectTrimmedTexts(values: seq<Node>) returns (r: seq<string>)
    ensures r == TrimmedTexts(values)
  {
    r := [];
    var i := 0;
    while i < |values|
      invariant 0 <= i <= |values|
      invariant |r| == i && forall k :: 0 <= k < i ==> r[k] == Trim(values[k].element.textContent)
    {
      r := r + [Trim(values[i].element.textContent)];
      i := i + 1;
    }
  }

  /** Reading `parsedCheckAndSaveData`; the loop over the three operations is unrolled. */
  method ReadSaveLists(grid: Node) returns (lists: Option<SaveLists>)
    ensures lists == SaveListsOf(grid)
  {
    lists := None;
    var checkAndSave := QuerySelector(grid, CheckAndSaveSelector);
    if checkAndSave.Some? {
      var cls := checkAndSave.value;
      var insert := CollectTrimmedTexts(QuerySelectorAll(cls, ListValueSelector("insert")));
      var update := CollectTrimmedTexts(QuerySelectorAll(cls, ListValueSelector("update")));
      var delete := CollectTrimmedTexts(QuerySelectorAll(cls, ListValueSelector("delete")));
      lists := Some(SaveLists(insert, update, delete));
    }
  }

  // ----------------------------------------------------------- permissions

  /**
   * A CRUD permission: the attribute verbatim when present, otherwise `"true"`
   * exactly when there are save lists and the operation's list is not empty.
   */
  function Permission(attr: Option<string>, list: Option<seq<string>>): (r: string)
    ensures attr.Some? ==> r == attr.value
    ensures attr.None? ==> (r == "true" <==> list.Some? && |list.value| > 0)
    ensures attr.None? ==> (r == "false" <==> !(list.Some? && |list.value| > 0))
  {
    if attr.Some? then attr.value
    else if list.Some? && |list.value| > 0 then "true" else "false"
  }

  /** The list of one operation, when there are save lists. */
  function ListOf(lists: Option<SaveLists>, op: string): Option<seq<string>> {
    match lists
    case None => None
    case Some(l) => Some(if op == "insert" then l.insert else if op == "update" then l.update else l.delete)
  }

  // ------------------------------------------------------------- templates

  /** A `template` element with a non-empty `name`, named `name`. */
  predicate IsTemplateNamed(t: Element, name: string) {
    t.nodeName == "template" && GetAttribute(t, "name") == Some(name) && name != ""
  }

  /** `m` with the template `t` added when it is a `template` with a non-empty `name`. */
  function AddTemplate(m: map<string, string>, t: Element): map<string, string> {
    var name := GetAttribute(t, "name");
    if t.nodeName == "template" && Truthy(name) then m[name.value := Trim(t.textContent)] else m
  }

  /** The templates among the children `cs`, added to `m` in order: a later one overwrites an earlier one. */
  function TemplatesIn(cs: seq<Element>, m: map<string, string>): map<string, string>
    decreases |cs|
  {
    if cs == [] then m else AddTemplate(TemplatesIn(cs[..|cs| - 1], m), cs[|cs| - 1])
  }

  lemma AddTemplateOverride(m: map<string, string>, x: map<string, string>, t: Element)
    ensures AddTemplate(m + x, t) == m + AddTemplate(x, t)
  {
    var name := GetAttribute(t, "name");
    if t.nodeName == "template" && Truthy(name) {
      var v := Trim(t.textContent);
      assert (m + x)[name.value := v] == m + x[name.value := v];
    }
  }

  /** Reading templates into a map `m` is reading them into an empty map and overriding `m` with the result. */
  lemma {:induction false} TemplatesInOverride(cs: seq<Element>, m: map<string, string>)
    ensures TemplatesIn(cs, m) == m + TemplatesIn(cs, map[])
    decreases |cs|
  {
    if cs == [] {
      assert m + map[] == m;
    } else {
      var n := |cs| - 1;
      TemplatesInOverride(cs[..n], m);
      AddTemplateOverride(m, TemplatesIn(cs[..n], map[]), cs[n]);
    }
  }

  /** What reading one more template child does to the entry of `name`. */
  lemma AddTemplateEntry(m: map<string, string>, t: Element, name: string)
    ensures IsTemplateNamed(t, name) ==> name in AddTemplate(m, t) && AddTemplate(m, t)[name] == Trim(t.textContent)
    ensures !IsTemplateNamed(t, name) ==>
              && (name in AddTemplate(m, t) <==> name in m)
              && (name in m ==> AddTemplate(m, t)[name] == m[name])
  {
  }

  /** A name is read exactly when some child is a template of that name, and its body is such a template's trimmed text. */
  lemma {:induction false} TemplatesInKeys(cs: seq<Element>, name: string)
    ensures name in TemplatesIn(cs, map[]) <==> exists i :: 0 <= i < |cs| && IsTemplateNamed(cs[i], name)
    ensures name in TemplatesIn(cs, map[]) ==>
              exists i :: 0 <= i < |cs| && IsTemplateNamed(cs[i], name) && TemplatesIn(cs, map[])[name] == Trim(cs[i].textContent)
    decreases |cs|
  {
    if cs != [] {
      var n := |cs| - 1;
      var prefix := cs[..n];
      var before := TemplatesIn(prefix, map[]);
      TemplatesInKeys(prefix, name);
      AddTemplateEntry(before, cs[n], name);
      assert TemplatesIn(cs, map[]) == AddTemplate(before, cs[n]);
      if !IsTemplateNamed(cs[n], name) {
        if name in before {
          var i :| 0 <= i < n && IsTemplateNamed(prefix[i], name) && before[name] == Trim(prefix[i].textContent);
          assert prefix[i] == cs[i];
        }
        forall i | 0 <= i < n && IsTemplateNamed(cs[i], name)
          ensures name in before
        {
          assert prefix[i] == cs[i];
        }
      }
    }
  }

  /** Of several templates with one name, the last one read wins. */
  lemma {:induction false} TemplatesInLastWins(cs: seq<Element>, m: map<string, string>, name: string, i: nat)
    requires i < |cs| && IsTemplateNamed(cs[i], name)
    requires forall k :: i < k < |cs| ==> !IsTemplateNamed(cs[k], name)
    ensures name in TemplatesIn(cs, m) && TemplatesIn(cs, m)[name] == Trim(cs[i].textContent)
    decreases |cs|
  {
    var n := |cs| - 1;
    var prefix := cs[..n];
    var before := TemplatesIn(prefix, m);
    assert TemplatesIn(cs, m) == AddTemplate(before, cs[n]);
    AddTemplateEntry(before, cs[n], name);
    if i < n {
      assert !IsTemplateNamed(cs[n], name);
      assert prefix[i] == cs[i];
      forall k | i < k < |prefix| ensures !IsTemplateNamed(prefix[k], name) {
        assert prefix[k] == cs[k];
      }
      TemplatesInLastWins(prefix, m, name, i);
    }
  }


  /** The children of the direct `templates` child of `n`, or none. */
  function TemplateChildren(n: Node): seq<Element> {
    match GetDirectChild(n, "templates")
    case None => []
    case Some(t) => t.element.children
  }

  /** The children of the `templates` of the grid's direct `filter` child. */
  function FilterTemplateChildren(grid: Node): seq<Element> {
    match GetDirectChild(grid, "filter")
    case None => []
    case Some(f) => TemplateChildren(f)
  }

  /** The grid's templates: the filter's first, then the grid's own. */
  function GridTemplates(grid: Node): map<string, string> {
    TemplatesIn(TemplateChildren(grid), TemplatesIn(FilterTemplateChildren(grid), map[]))
  }

  /**
   * The grid's templates are the filter's overridden by the grid's own: a
   * template of the grid replaces a filter template of the same name.
   */
  lemma GridTemplatesPrecedence(grid: Node)
    ensures GridTemplates(grid)
            == TemplatesIn(FilterTemplateChildren(grid), map[]) + TemplatesIn(TemplateChildren(grid), map[])
    ensures forall name :: name in TemplatesIn(TemplateChildren(grid), map[]) ==>
              GridTemplates(grid)[name] == TemplatesIn(TemplateChildren(grid), map[])[name]
  {
    TemplatesInOverride(TemplateChildren(grid), TemplatesIn(FilterTemplateChildren(grid), map[]));
  }

  /** The body of the loop over the children of a `templates` element. */
  method ReadTemplate(m: map<string, string>, t: Element) returns (r: map<string, string>)
    ensures r == AddTemplate(m, t)
  {
    r := m;
    if t.nodeName == "template" {
      var tName := GetAttribute(t, "name");
      if Truthy(tName) {
        r := r[tName.value := Trim(t.textContent)];
      }
    }
  }

  /** The loop over the children of a `templates` element. */
  method CollectTemplates(cs: seq<Element>, m: map<string, string>) returns (r: map<string, string>)
    ensures r == TemplatesIn(cs, m)
  {
    r := m;
    var i := 0;
    while i < |cs|
      invariant 0 <= i <= |cs|
      invariant r == TemplatesIn(cs[..i], m)
    {
      assert cs[..i + 1][..i] == cs[..i];
      r := ReadTemplate(r, cs[i]);
      i := i + 1;
    }
    assert cs[..i] == cs;
  }

  /** Reading `gridData.templates`: the filter's templates, then the grid's own. */
  method ReadTemplates(grid: Node) returns (templates: map<string, string>)
    ensures templates == GridTemplates(grid)
  {
    templates := map[];
    var filterNode := GetDirectChild(grid, "filter");
    if filterNode.Some? {
      var templatesNode := GetDirectChild(filterNode.value, "templates");
      if templatesNode.Some? {
        templates := CollectTemplates(templatesNode.value.element.children, templates);
      }
    }
    var directTemplates := GetDirectChild(grid, "templates");
    if directTemplates.Some? {
      templates := CollectTemplates(directTemplates.value.element.children, templates);
    }
  }

  // ------------------------------------------------------------- rpcExpand

  /** `paginatedExpand > value`. */
  const PaginatedValue: seq<Selector> := [Child(Is(Tag("paginatedExpand")), Tag("value"))]

  /** `expand > value`. */
  const ExpandValue: seq<Selector> := [Child(Is(Tag("expand")), Tag("value"))]

  /** `value`. */
  const AnyValue: seq<Selector> := [Is(Tag("value"))]

  /** `paginatedExpand > initOrderBy`. */
  const PaginatedInitOrderBy: seq<Selector> := [Child(Is(Tag("paginatedExpand")), Tag("initOrderBy"))]

  /** The value element of an `rpcExpand`: a paginated one, else an expand one, else any. */
  function RpcExpandValueNode(tag: Node): Option<Node> {
    OrElse(QuerySelector(tag, PaginatedValue), OrElse(QuerySelector(tag, ExpandValue), QuerySelector(tag, AnyValue)))
  }

  /** `gridData.rpcExpand`. */
  function RpcExpandOf(grid: Node): Option<string> {
    match GetDirectChild(grid, "rpcExpand")
    case None => None
    case Some(tag) => TrimmedText(RpcExpandValueNode(tag))
  }

  /** `gridData.rpcExpandInitOrderBy`: only from a paginated expand. */
  function RpcExpandInitOrderByOf(grid: Node): Option<string> {
    match GetDirectChild(grid, "rpcExpand")
    case None => None
    case Some(tag) => TrimmedText(QuerySelector(tag, PaginatedInitOrderBy))
  }

  /** `gridData.rpcExpandInit`: the `expand > value` of the direct `rpcExpandInit` child. */
  function RpcExpandInitOf(grid: Node): Option<string> {
    match GetDirectChild(grid, "rpcExpandInit")
    case None => None
    case Some(tag) => TrimmedText(QuerySelector(tag, ExpandValue))
  }

  /**
   * The value of an `rpcExpand` is a `paginatedExpand > value` whenever there
   * is one, an `expand > value` when there is no paginated one, and it is
   * missing only when the `rpcExpand` holds no `value` element at all.
   */
  lemma RpcExpandPriority(tag: Node)
    ensures (exists m :: m in Descendants(tag) && MatchesAny(PaginatedValue, m))
              ==> RpcExpandValueNode(tag) == QuerySelector(tag, PaginatedValue)
    ensures ((forall m :: m in Descendants(tag) ==> !MatchesAny(PaginatedValue, m))
             && (exists m :: m in Descendants(tag) && MatchesAny(ExpandValue, m)))
              ==> RpcExpandValueNode(tag) == QuerySelector(tag, ExpandValue)
    ensures ((forall m :: m in Descendants(tag) ==> !MatchesAny(PaginatedValue, m))
             && (forall m :: m in Descendants(tag) ==> !MatchesAny(ExpandValue, m)))
              ==> RpcExpandValueNode(tag) == QuerySelector(tag, AnyValue)
    ensures RpcExpandValueNode(tag).None? <==> forall m :: m in Descendants(tag) ==> m.element.nodeName != "value"
    ensures RpcExpandValueNode(tag).Some? ==>
              RpcExpandValueNode(tag).value in Descendants(tag) && RpcExpandValueNode(tag).value.element.nodeName == "value"
  {
    QuerySelectorFinds(tag, PaginatedValue);
    QuerySelectorFinds(tag, ExpandValue);
    QuerySelectorFinds(tag, AnyValue);
    forall m | m in Descendants(tag) && m.element.nodeName == "value" ensures MatchesAny(AnyValue, m) {
      assert Matches(AnyValue[0], m.element, m.ancestors);
    }
  }

  /**
   * Without a paginated or plain expand value, the value of an `rpcExpand`
   * is its first `value` element in document order.
   */
  lemma RpcExpandFallbackFirst(tag: Node)
    requires forall m :: m in Descendants(tag) ==> !MatchesAny(PaginatedValue, m)
    requires forall m :: m in Descendants(tag) ==> !MatchesAny(ExpandValue, m)
    ensures RpcExpandValueNode(tag).Some? ==>
              exists i :: && 0 <= i < |Descendants(tag)| && RpcExpandValueNode(tag).value == Descendants(tag)[i]
                          && Descendants(tag)[i].element.nodeName == "value"
                          && forall k :: 0 <= k < i ==> Descendants(tag)[k].element.nodeName != "value"
  {
    RpcExpandPriority(tag);
    QuerySelectorFinds(tag, AnyValue);
    forall m | m in Descendants(tag) && m.element.nodeName == "value" ensures MatchesAny(AnyValue, m) {
      assert Matches(AnyValue[0], m.element, m.ancestors);
    }
  }

  /** Reading `rpcExpand` and `rpcExpandInitOrderBy`. */
  method ReadRpcExpand(grid: Node) returns (rpcExpand: Option<string>, initOrderBy: Option<string>)
    ensures rpcExpand == RpcExpandOf(grid) && initOrderBy == RpcExpandInitOrderByOf(grid)
  {
    rpcExpand, initOrderBy := None, None;
    var rpcExpandTag := GetDirectChild(grid, "rpcExpand");
    if rpcExpandTag.Some? {
      var tag := rpcExpandTag.value;
      var rpcExpandValue := OrElse(QuerySelector(tag, PaginatedValue),
                                   OrElse(QuerySelector(tag, ExpandValue), QuerySelector(tag, AnyValue)));
      if rpcExpandValue.Some? {
        rpcExpand := Some(Trim(rpcExpandValue.value.element.textContent));
      }
      var initOrderByNode := QuerySelector(tag, PaginatedInitOrderBy);
      if initOrderByNode.Some? {
        initOrderBy := Some(Trim(initOrderByNode.value.element.textContent));
      }
    }
  }

  /** Reading `rpcExpandInit`. */
  method ReadRpcExpandInit(grid: Node) returns (rpcExpandInit: Option<string>)
    ensures rpcExpandInit == RpcExpandInitOf(grid)
  {
    rpcExpandInit := None;
    var rpcExpandInitTag := GetDirectChild(grid, "rpcExpandInit");
    if rpcExpandInitTag.Some? {
      var value := QuerySelector(rpcExpandInitTag.value, ExpandValue);
      if value.Some? {
        rpcExpandInit := Some(Trim(value.value.element.textContent));
      }
    }
  }

  // ---------------------------------------------------------------- events

  /** `fields > *`: every field of the grid, wherever its `fields` is. */
  const FieldSelector: seq<Selector> := [Child(Is(Tag("fields")), Any)]

  /** The events of the fields `fields`, each tagged with its field's `name`. */
  function FieldEvents(fields: seq<Node>, catalog: Catalog): seq<Event> {
    if fields == [] then []
    else
      var field := fields[|fields| - 1];
      FieldEvents(fields[..|fields| - 1], catalog) + EventsOf(field, catalog, GetAttribute(field.element, "name"))
  }

  /** `gridData.events`: the grid's own events, then those of its fields. */
  function GridEvents(grid: Node, catalog: Catalog): seq<Event> {
    EventsOf(grid, catalog, None) + FieldEvents(QuerySelectorAll(grid, FieldSelector), catalog)
  }

  /** Every field event carries the `name` of one of the fields as its context; `FieldEventsContextAt` says which. */
  lemma {:induction false} FieldEventsContext(fields: seq<Node>, catalog: Catalog)
    ensures forall e :: e in FieldEvents(fields, catalog) ==>
              exists k :: 0 <= k < |fields| && e.context == GetAttribute(fields[k].element, "name")
    decreases |fields|
  {
    if fields != [] {
      var n := |fields| - 1;
      FieldEventsContext(fields[..n], catalog);
      forall e | e in FieldEvents(fields, catalog)
        ensures exists k :: 0 <= k < |fields| && e.context == GetAttribute(fields[k].element, "name")
      {
        if e in FieldEvents(fields[..n], catalog) {
          var k :| 0 <= k < n && e.context == GetAttribute(fields[..n][k].element, "name");
          assert fields[..n][k] == fields[k];
        } else {
          var own := EventsOf(fields[n], catalog, GetAttribute(fields[n].element, "name"));
          assert e in own;
          var j :| 0 <= j < |own| && own[j] == e;
          EventContext(fields[n], catalog, GetAttribute(fields[n].element, "name"), j);
        }
      }
    }
  }

  /** The events of two runs of fields are those of the first run, then those of the second. */
  lemma {:induction false} FieldEventsAppend(a: seq<Node>, b: seq<Node>, catalog: Catalog)
    ensures FieldEvents(a + b, catalog) == FieldEvents(a, catalog) + FieldEvents(b, catalog)
    decreases |b|
  {
    if b == [] {
      assert a + b == a;
    } else {
      var n := |b| - 1;
      var last := b[n];
      var own := EventsOf(last, catalog, GetAttribute(last.element, "name"));
      assert (a + b)[..|a + b| - 1] == a + b[..n];
      assert (a + b)[|a + b| - 1] == last;
      FieldEventsAppend(a, b[..n], catalog);
      AppendAssociates(FieldEvents(a, catalog), FieldEvents(b[..n], catalog), own);
    }
  }

  /**
   * The events of field `k` follow those of the fields before it: its `j`th
   * event sits right after them, and carries that field's own `name`.
   */
  lemma FieldEventsContextAt(fields: seq<Node>, catalog: Catalog, k: nat, j: nat)
    requires k < |fields|
    requires j < |EventsOf(fields[k], catalog, GetAttribute(fields[k].element, "name"))|
    ensures var at := |FieldEvents(fields[..k], catalog)| + j;
            && at < |FieldEvents(fields, catalog)|
            && FieldEvents(fields, catalog)[at] == EventsOf(fields[k], catalog, GetAttribute(fields[k].element, "name"))[j]
            && FieldEvents(fields, catalog)[at].context == GetAttribute(fields[k].element, "name")
  {
    var name := GetAttribute(fields[k].element, "name");
    var own := EventsOf(fields[k], catalog, name);
    FieldEventsSplit(fields, k, catalog);
    ConcatIndex(FieldEvents(fields[..k], catalog), own, FieldEvents(fields[k + 1..], catalog), j);
    EventContext(fields[k], catalog, name, j);
  }

  /** The events of the fields split around field `k`. */
  lemma FieldEventsSplit(fields: seq<Node>, k: nat, catalog: Catalog)
    requires k < |fields|
    ensures FieldEvents(fields, catalog)
              == FieldEvents(fields[..k], catalog)
                 + EventsOf(fields[k], catalog, GetAttribute(fields[k].element, "name"))
                 + FieldEvents(fields[k + 1..], catalog)
  {
    var head := fields[..k + 1];
    var tail := fields[k + 1..];
    assert fields == head + tail;
    FieldEventsAppend(head, tail, catalog);
    FieldEventsOfPrefix(fields, k, catalog);
  }

  /** The events of the first `k + 1` fields: those of the first `k`, then field `k`'s own. */
  lemma FieldEventsOfPrefix(fields: seq<Node>, k: nat, catalog: Catalog)
    requires k < |fields|
    ensures FieldEvents(fields[..k + 1], catalog)
              == FieldEvents(fields[..k], catalog) + EventsOf(fields[k], catalog, GetAttribute(fields[k].element, "name"))
  {
    var head := fields[..k + 1];
    assert head[..k] == fields[..k];
    assert head[k] == fields[k];
  }

  /** Indexing into the middle part of a three-part concatenation. */
  lemma ConcatIndex<T>(a: seq<T>, b: seq<T>, c: seq<T>, j: nat)
    requires j < |b|
    ensures |a| + j < |a + b + c| && (a + b + c)[|a| + j] == b[j]
  {
  }

  /** Every event `EventsOf` returns carries the context it was given. */
  lemma EventContext(node: Node, catalog: Catalog, context: Option<string>, j: nat)
    requires j < |EventsOf(node, catalog, context)|
    ensures EventsOf(node, catalog, context)[j].context == context
  {
    EventsInAt(GetDirectChild(node, "events").value.element.children, catalog, context, j);
  }

  /** The grid's own events come first and carry no context. */
  lemma GridEventsContext(grid: Node, catalog: Catalog)
    ensures forall j :: 0 <= j < |EventsOf(grid, catalog, None)| ==> GridEvents(grid, catalog)[j].context == None
  {
    forall j | 0 <= j < |EventsOf(grid, catalog, None)| ensures GridEvents(grid, catalog)[j].context == None {
      EventContext(grid, catalog, None, j);
    }
  }

  /** Pushing the events of the next field extends the events of the fields before it. */
  lemma FieldEventsStep(fields: seq<Node>, i: nat, catalog: Catalog, events: seq<Event>, r: seq<Event>, pushed: seq<Event>)
    requires i < |fields|
    requires r == events + FieldEvents(fields[..i], catalog)
    requires pushed == r + EventsOf(fields[i], catalog, GetAttribute(fields[i].element, "name"))
    ensures pushed == events + FieldEvents(fields[..i + 1], catalog)
  {
    var prefix := fields[..i + 1];
    assert prefix[..i] == fields[..i];
    assert prefix[|prefix| - 1] == fields[i];
    var a := FieldEvents(fields[..i], catalog);
    var b := EventsOf(fields[i], catalog, GetAttribute(fields[i].element, "name"));
    assert FieldEvents(prefix, catalog) == a + b;
    AppendAssociates(events, a, b);
  }


  /** Regrouping a three-part concatenation, kept apart so that callers do not unfold it. */
  lemma AppendAssociates<T>(a: seq<T>, b: seq<T>, c: seq<T>)
    ensures (a + b) + c == a + (b + c)
  {
  }

  /** The body of the loop over the fields: push the events of one field. */
  method PushFieldEvents(field: Node, catalog: Catalog, events: seq<Event>) returns (r: seq<Event>)
    ensures r == events + EventsOf(field, catalog, GetAttribute(field.element, "name"))
  {
    var fName := GetAttribute(field.element, "name");
    var fEvents := ExtractEventsFromNode(field, catalog, fName);
    r := events + fEvents;
  }

  /** The loop over the fields: push the events of each. */
  method CollectFieldEvents(fields: seq<Node>, catalog: Catalog, events: seq<Event>) returns (r: seq<Event>)
    ensures r == events + FieldEvents(fields, catalog)
  {
    r := events;
    var i := 0;
    while i < |fields|
      invariant 0 <= i <= |fields|
      invariant r == events + FieldEvents(fields[..i], catalog)
    {
      var pushed := PushFieldEvents(fields[i], catalog, r);
      FieldEventsStep(fields, i, catalog, events, r, pushed);
      r := pushed;
      i := i + 1;
    }
    assert fields[..i] == fields;
  }

  // --------------------------------------------------------- lists of values

  /** A list of values of the grid. */
  datatype ListOfValue = ListOfValue(name: Option<string>, labelText: Option<string>,
                                     value: Option<string>, initOrderBy: Option<string>)

  /** `fields > listOfValue`. */
  const LovSelector: seq<Selector> := [Child(Is(Tag("fields")), Tag("listOfValue"))]

  /** `rpcExpand > paginatedExpand > value, rpcExpand > expand > value`: whichever comes first. */
  const LovValueSelector: seq<Selector> :=
    [ Child(Child(Is(Tag("rpcExpand")), Tag("paginatedExpand")), Tag("value")),
      Child(Child(Is(Tag("rpcExpand")), Tag("expand")), Tag("value")) ]

  /** `rpcExpand > paginatedExpand > initOrderBy`. */
  const LovInitOrderBySelector: seq<Selector> :=
    [Child(Child(Is(Tag("rpcExpand")), Tag("paginatedExpand")), Tag("initOrderBy"))]

  function LovOf(lov: Node): ListOfValue {
    ListOfValue(GetAttribute(lov.element, "name"), GetAttribute(lov.element, "label"),
                TrimmedText(QuerySelector(lov, LovValueSelector)),
                TrimmedText(QuerySelector(lov, LovInitOrderBySelector)))
  }

  /** The lists of values of `lovs`, in order. */
  function LovsIn(lovs: seq<Node>): (r: seq<ListOfValue>)
    ensures |r| == |lovs|
  {
    seq(|lovs|, i requires 0 <= i < |lovs| => LovOf(lovs[i]))
  }

  /**
   * Unlike the grid's `rpcExpand`, the value of a list of values is the first
   * paginated or plain expand value in document order, and it is missing
   * exactly when there is neither.
   */
  lemma LovValueFound(lov: Node)
    ensures LovOf(lov).value.None? <==> forall m :: m in Descendants(lov) ==> !MatchesAny(LovValueSelector, m)
    ensures LovOf(lov).value.Some? ==>
              exists i :: && 0 <= i < |Descendants(lov)| && MatchesAny(LovValueSelector, Descendants(lov)[i])
                          && (forall k :: 0 <= k < i ==> !MatchesAny(LovValueSelector, Descendants(lov)[k]))
                          && LovOf(lov).value == Some(Trim(Descendants(lov)[i].element.textContent))
  {
    QuerySelectorFinds(lov, LovValueSelector);
  }

  /** The body of the loop over the lists of values. */
  method ExtractLov(lov: Node) returns (lovData: ListOfValue)
    ensures lovData == LovOf(lov)
  {
    lovData := ListOfValue(GetAttribute(lov.element, "name"), GetAttribute(lov.element, "label"), None, None);
    var lovValue := QuerySelector(lov, LovValueSelector);
    if lovValue.Some? {
      lovData := lovData.(value := Some(Trim(lovValue.value.element.textContent)));
    }
    var lovInitOrderBy := QuerySelector(lov, LovInitOrderBySelector);
    if lovInitOrderBy.Some? {
      lovData := lovData.(initOrderBy := Some(Trim(lovInitOrderBy.value.element.textContent)));
    }
  }

  /** The loop over the lists of values. */
  method CollectLovs(lovs: seq<Node>) returns (r: seq<ListOfValue>)
    ensures r == LovsIn(lovs)
  {
    r := [];
    var i := 0;
    while i < |lovs|
      invariant 0 <= i <= |lovs|
      invariant |r| == i && forall k :: 0 <= k < i ==> r[k] == LovOf(lovs[k])
    {
      var lovData := ExtractLov(lovs[i]);
      r := r + [lovData];
      i := i + 1;
    }
  }

  // ------------------------------------------------------------ comboboxes

  /** A static row of a combobox: its `id` and `label` texts, untrimmed, `""` when missing. */
  datatype ComboRow = ComboRow(id: string, labelText: string)

  /** A combobox of the grid. */
  datatype Combobox = Combobox(name: Option<string>, labelText: Option<string>,
                               rows: seq<ComboRow>, sqlValue: Option<string>)

  /** `fields > combobox, filter > fields > combobox`. */
  const ComboSelector: seq<Selector> :=
    [ Child(Is(Tag("fields")), Tag("combobox")),
      Child(Child(Is(Tag("filter")), Tag("fields")), Tag("combobox")) ]

  /** `rpcExpand > resultset > row`. */
  const RowSelector: seq<Selector> := [Child(Child(Is(Tag("rpcExpand")), Tag("resultset")), Tag("row"))]

  /** `rpcExpand > expand > value`. */
  const ComboSqlSelector: seq<Selector> := [Child(Child(Is(Tag("rpcExpand")), Tag("expand")), Tag("value"))]

  /**
   * The second alternative of the combobox selector adds nothing: every
   * `filter > fields > combobox` is a `fields > combobox`, so each combobox
   * is read once, in document order, whether or not it is in a filter.
   */
  lemma ComboSelectorSubsumed(n: Node)
    ensures MatchesAny(ComboSelector, n) <==> Matches(ComboSelector[0], n.element, n.ancestors)
  {
    if Matches(ComboSelector[1], n.element, n.ancestors) {
      var a := n.ancestors;
      assert |a| > 0 && a[|a| - 1].nodeName == "fields";
      assert Matches(ComboSelector[0], n.element, n.ancestors);
    }
  }

  function RowOf(row: Node): ComboRow {
    ComboRow(OrEmpty(Text(QuerySelector(row, [Is(Tag("id"))]))), OrEmpty(Text(QuerySelector(row, [Is(Tag("label"))]))))
  }

  function RowsIn(rows: seq<Node>): (r: seq<ComboRow>)
    ensures |r| == |rows|
  {
    seq(|rows|, i requires 0 <= i < |rows| => RowOf(rows[i]))
  }

  function ComboOf(combo: Node): Combobox {
    Combobox(GetAttribute(combo.element, "name"), GetAttribute(combo.element, "label"),
             RowsIn(QuerySelectorAll(combo, RowSelector)), TrimmedText(QuerySelector(combo, ComboSqlSelector)))
  }

  function CombosIn(combos: seq<Node>): (r: seq<Combobox>)
    ensures |r| == |combos|
  {
    seq(|combos|, i requires 0 <= i < |combos| => ComboOf(combos[i]))
  }

  /** The loop over the rows of a combobox. */
  method CollectRows(rows: seq<Node>) returns (r: seq<ComboRow>)
    ensures r == RowsIn(rows)
  {
    r := [];
    var i := 0;
    while i < |rows|
      invariant 0 <= i <= |rows|
      invariant |r| == i && forall k :: 0 <= k < i ==> r[k] == RowOf(rows[k])
    {
      var row := rows[i];
      var id := OrEmpty(Text(QuerySelector(row, [Is(Tag("id"))])));
      var labelText := OrEmpty(Text(QuerySelector(row, [Is(Tag("label"))])));
      r := r + [ComboRow(id, labelText)];
      i := i + 1;
    }
  }

  /** The body of the loop over the comboboxes. */
  method ExtractCombo(combo: Node) returns (comboData: Combobox)
    ensures comboData == ComboOf(combo)
  {
    comboData := Combobox(GetAttribute(combo.element, "name"), GetAttribute(combo.element, "label"), [], None);
    var rows := QuerySelectorAll(combo, RowSelector);
    if |rows| > 0 {
      var collected := CollectRows(rows);
      comboData := comboData.(rows := collected);
    }
    var sqlValue := QuerySelector(combo, ComboSqlSelector);
    if sqlValue.Some? {
      comboData := comboData.(sqlValue := Some(Trim(sqlValue.value.element.textContent)));
    }
  }

  /** The loop over the comboboxes. */
  method CollectCombos(combos: seq<Node>) returns (r: seq<Combobox>)
    ensures r == CombosIn(combos)
  {
    r := [];
    var i := 0;
    while i < |combos|
      invariant 0 <= i <= |combos|
      invariant |r| == i && forall k :: 0 <= k < i ==> r[k] == ComboOf(combos[k])
    {
      var comboData := ExtractCombo(combos[i]);
      r := r + [comboData];
      i := i + 1;
    }
  }

  // ------------------------------------------------ before-commit validations

  /** A before-commit validation; missing or blank parameters read as `""`. */
  datatype Validation = Validation(name: Option<string>, sql: string, functionName: string, failMessage: string)

  /** `beforeCommitValidation`, anywhere inside the grid. */
  const ValidationSelector: seq<Selector> := [Is(Tag("beforeCommitValidation"))]

  function ValidationOf(bc: Node): Validation {
    Validation(GetAttribute(bc.element, "name"),
               OrEmpty(TrimmedText(QuerySelector(bc, Param("sql")))),
               OrEmpty(TrimmedText(QuerySelector(bc, Param("function")))),
               OrEmpty(TrimmedText(QuerySelector(bc, Param("failMessage")))))
  }

  /** The validations of `bcs`, in order. */
  function ValidationsIn(bcs: seq<Node>): (r: seq<Validation>)
    ensures |r| == |bcs|
    decreases |bcs|
  {
    if bcs == [] then [] else ValidationsIn(bcs[..|bcs| - 1]) + [ValidationOf(bcs[|bcs| - 1])]
  }

  /** The validation at position `j` is the one the element at position `j` yields. */
  lemma {:induction false} ValidationsInAt(bcs: seq<Node>, j: nat)
    requires j < |bcs|
    ensures ValidationsIn(bcs)[j] == ValidationOf(bcs[j])
    decreases |bcs|
  {
    if j < |bcs| - 1 {
      var init := bcs[..|bcs| - 1];
      ValidationsInAt(init, j);
      assert init[j] == bcs[j];
    }
  }

  /** One more validation element adds its validation at the end. */
  lemma ValidationsInStep(bcs: seq<Node>, i: nat)
    requires i < |bcs|
    ensures ValidationsIn(bcs[..i + 1]) == ValidationsIn(bcs[..i]) + [ValidationOf(bcs[i])]
  {
    assert bcs[..i + 1][..i] == bcs[..i];
  }

  /** A validation's SQL is the trimmed text of its first `sql` parameter, or `""` when it has none. */
  lemma ValidationSql(bc: Node)
    ensures ValidationOf(bc).sql == "" <==>
              QuerySelector(bc, Param("sql")).None? || Trim(QuerySelector(bc, Param("sql")).value.element.textContent) == ""
    ensures (forall m :: m in Descendants(bc) ==> !MatchesAny(Param("sql"), m)) ==> ValidationOf(bc).sql == ""
  {
    QuerySelectorFinds(bc, Param("sql"));
  }

  /** The loop over the before-commit validations. */
  method CollectValidations(bcs: seq<Node>) returns (r: seq<Validation>)
    ensures r == ValidationsIn(bcs)
  {
    r := [];
    var i := 0;
    while i < |bcs|
      invariant 0 <= i <= |bcs|
      invariant r == ValidationsIn(bcs[..i])
    {
      var bc := bcs[i];
      var validation := Validation(GetAttribute(bc.element, "name"),
                                   OrEmpty(TrimmedText(QuerySelector(bc, Param("sql")))),
                                   OrEmpty(TrimmedText(QuerySelector(bc, Param("function")))),
                                   OrEmpty(TrimmedText(QuerySelector(bc, Param("failMessage")))));
      ValidationsInStep(bcs, i);
      r := r + [validation];
      i := i + 1;
    }
    assert bcs[..i] == bcs;
  }

  // --------------------------------------------------------------- buttons

  /** A parameter passed to a called form: its `name` and `alias` attributes. */
  datatype CallParam = CallParam(name: Option<string>, alias: Option<string>)

  /** A bottom-toolbar button; `kind` is its tag, `button` or `callFormButton`. */
  datatype ToolbarButton = ToolbarButton(
    kind: string,
    name: Option<string>,
    labelText: Option<string>,
    order: Option<string>,
    callFormName: string,
    actionRefs: seq<string>,
    params: seq<CallParam>,
    scripts: seq<ResolvedAction>)

  /** `button, callFormButton`. */
  const ButtonSelector: seq<Selector> := [Is(Tag("button")), Is(Tag("callFormButton"))]

  /** `events > whenButtonPressed`. */
  const WhenPressedSelector: seq<Selector> := [Child(Is(Tag("events")), Tag("whenButtonPressed"))]

  /** `param`. */
  const ParamSelector: seq<Selector> := [Is(Tag("param"))]

  function CallParamOf(p: Node): CallParam {
    CallParam(GetAttribute(p.element, "name"), GetAttribute(p.element, "alias"))
  }

  /** The parameters `params`, in order. */
  function CallParamsIn(params: seq<Node>): (r: seq<CallParam>)
    ensures |r| == |params|
  {
    seq(|params|, i requires 0 <= i < |params| => CallParamOf(params[i]))
  }

  /** The parameters of the first `paramsList` inside `n`, or none. */
  function ParamsListOf(n: Node): seq<CallParam> {
    match QuerySelector(n, [Is(Tag("paramsList"))])
    case None => []
    case Some(list) => CallParamsIn(QuerySelectorAll(list, ParamSelector))
  }

  /** The action references of the button's first `events > whenButtonPressed`. */
  function ButtonRefs(btn: Node): seq<string> {
    match QuerySelector(btn, WhenPressedSelector)
    case None => []
    case Some(whenPressed) => ParseActionRefs(GetAttribute(whenPressed.element, "actionRef"))
  }

  /** `label || hint`: the label unless it is missing or empty, then the hint. */
  function ButtonLabel(btn: Element): (r: Option<string>)
    ensures Truthy(GetAttribute(btn, "label")) ==> r == GetAttribute(btn, "label")
    ensures !Truthy(GetAttribute(btn, "label")) ==> r == GetAttribute(btn, "hint")
  {
    var labelText := GetAttribute(btn, "label");
    if Truthy(labelText) then labelText else GetAttribute(btn, "hint")
  }

  /** The called form of a `callFormButton`: its first `callFormName`'s text, untrimmed; `""` otherwise. */
  function CallFormNameOf(btn: Node): string {
    if btn.element.nodeName == "callFormButton" then OrEmpty(Text(QuerySelector(btn, [Is(Tag("callFormName"))])))
    else ""
  }

  function ButtonOf(btn: Node, catalog: Catalog): ToolbarButton {
    var refs := ButtonRefs(btn);
    ToolbarButton(btn.element.nodeName, GetAttribute(btn.element, "name"), ButtonLabel(btn.element),
                  GetAttribute(btn.element, "order"), CallFormNameOf(btn), refs, ParamsListOf(btn),
                  Resolve(refs, catalog))
  }

  /** The buttons of `buttons`, in order. */
  function ButtonsIn(buttons: seq<Node>, catalog: Catalog): (r: seq<ToolbarButton>)
    ensures |r| == |buttons|
    decreases |buttons|
  {
    if buttons == [] then []
    else ButtonsIn(buttons[..|buttons| - 1], catalog) + [ButtonOf(buttons[|buttons| - 1], catalog)]
  }

  /** The button record at position `j` is the one the element at position `j` yields. */
  lemma {:induction false} ButtonsInAt(buttons: seq<Node>, catalog: Catalog, j: nat)
    requires j < |buttons|
    ensures ButtonsIn(buttons, catalog)[j] == ButtonOf(buttons[j], catalog)
    decreases |buttons|
  {
    if j < |buttons| - 1 {
      var init := buttons[..|buttons| - 1];
      ButtonsInAt(init, catalog, j);
      assert init[j] == buttons[j];
    }
  }

  /** One more button element adds its record at the end. */
  lemma ButtonsInStep(buttons: seq<Node>, i: nat, catalog: Catalog)
    requires i < |buttons|
    ensures ButtonsIn(buttons[..i + 1], catalog) == ButtonsIn(buttons[..i], catalog) + [ButtonOf(buttons[i], catalog)]
  {
    assert buttons[..i + 1][..i] == buttons[..i];
  }

  /** `gridData.bottomToolbarButtons`: the buttons inside the grid's direct `bottomToolbar`. */
  function GridButtons(grid: Node, catalog: Catalog): seq<ToolbarButton> {
    match GetDirectChild(grid, "bottomToolbar")
    case None => []
    case Some(toolbar) => ButtonsIn(QuerySelectorAll(toolbar, ButtonSelector), catalog)
  }

  /**
   * Every button is a `button` or a `callFormButton`; only a
   * `callFormButton` names a called form, and its scripts are those of its
   * references the catalog knows.
   */
  lemma ButtonsShape(buttons: seq<Node>, catalog: Catalog)
    requires forall i :: 0 <= i < |buttons| ==> MatchesAny(ButtonSelector, buttons[i])
    ensures forall i :: 0 <= i < |buttons| ==>
              var b := ButtonsIn(buttons, catalog)[i];
              && (b.kind == "button" || b.kind == "callFormButton")
              && (b.kind == "button" ==> b.callFormName == "")
              && (forall x :: x in b.scripts ==> x.actionName in b.actionRefs && x.actionName in catalog)
  {
    forall i | 0 <= i < |buttons|
      ensures var b := ButtonsIn(buttons, catalog)[i];
              && (b.kind == "button" || b.kind == "callFormButton")
              && (b.kind == "button" ==> b.callFormName == "")
              && (forall x :: x in b.scripts ==> x.actionName in b.actionRefs && x.actionName in catalog)
    {
      ButtonsInAt(buttons, catalog, i);
      var b := ButtonsIn(buttons, catalog)[i];
      var k :| 0 <= k < |ButtonSelector| && Matches(ButtonSelector[k], buttons[i].element, buttons[i].ancestors);
      forall x | x in b.scripts
        ensures x.actionName in b.actionRefs && x.actionName in catalog
      {
        ResolveSound(b.actionRefs, catalog, x);
      }
    }
  }

  /** The loop over the parameters of a `paramsList`. */
  method CollectCallParams(params: seq<Node>) returns (r: seq<CallParam>)
    ensures r == CallParamsIn(params)
  {
    r := [];
    var i := 0;
    while i < |params|
      invariant 0 <= i <= |params|
      invariant |r| == i && forall k :: 0 <= k < i ==> r[k] == CallParamOf(params[k])
    {
      r := r + [CallParam(GetAttribute(params[i].element, "name"), GetAttribute(params[i].element, "alias"))];
      i := i + 1;
    }
  }

  /** Reading the parameters of the first `paramsList` inside `n`. */
  method ReadParamsList(n: Node) returns (params: seq<CallParam>)
    ensures params == ParamsListOf(n)
  {
    params := [];
    var paramsList := QuerySelector(n, [Is(Tag("paramsList"))]);
    if paramsList.Some? {
      params := CollectCallParams(QuerySelectorAll(paramsList.value, ParamSelector));
    }
  }

  /** The action references of a button. */
  method ReadButtonRefs(btn: Node) returns (actionRefs: seq<string>)
    ensures actionRefs == ButtonRefs(btn)
  {
    actionRefs := [];
    var whenPressed := QuerySelector(btn, WhenPressedSelector);
    if whenPressed.Some? {
      var actionRefAttr := GetAttribute(whenPressed.value.element, "actionRef");
      if Truthy(actionRefAttr) {
        actionRefs := SplitRefs(actionRefAttr.value);
      }
    }
  }

  /** The body of the loop over the buttons. */
  method ExtractButton(btn: Node, catalog: Catalog) returns (button: ToolbarButton)
    ensures button == ButtonOf(btn, catalog)
  {
    var actionRefs := ReadButtonRefs(btn);
    var kind := btn.element.nodeName;
    var callFormName := "";
    if kind == "callFormButton" {
      var callFormNode := QuerySelector(btn, [Is(Tag("callFormName"))]);
      if callFormNode.Some? {
        callFormName := callFormNode.value.element.textContent;
      }
    }
    var params := ReadParamsList(btn);
    var scripts := ConcatenateGroovyScripts(actionRefs, catalog);
    button := ToolbarButton(kind, GetAttribute(btn.element, "name"), ButtonLabel(btn.element),
                            GetAttribute(btn.element, "order"), callFormName, actionRefs, params, scripts);
  }

  /** The loop over the buttons. */
  method CollectButtons(buttons: seq<Node>, catalog: Catalog) returns (r: seq<ToolbarButton>)
    ensures r == ButtonsIn(buttons, catalog)
  {
    r := [];
    var i := 0;
    while i < |buttons|
      invariant 0 <= i <= |buttons|
      invariant r == ButtonsIn(buttons[..i], catalog)
    {
      var button := ExtractButton(buttons[i], catalog);
      ButtonsInStep(buttons, i, catalog);
      r := r + [button];
      i := i + 1;
    }
    assert buttons[..i] == buttons;
  }

  /** Reading `gridData.bottomToolbarButtons`. */
  method ReadButtons(grid: Node, catalog: Catalog) returns (buttons: seq<ToolbarButton>)
    ensures buttons == GridButtons(grid, catalog)
  {
    buttons := [];
    var bottomToolbar := GetDirectChild(grid, "bottomToolbar");
    if bottomToolbar.Some? {
      buttons := CollectButtons(QuerySelectorAll(bottomToolbar.value, ButtonSelector), catalog);
    }
  }

  // ------------------------------------------------------------------ grid

  /** Everything the form model records about one `grid` element. */
  datatype Grid = Grid(
    name: Option<string>,
    labelText: Option<string>,
    kind: Option<string>,
    reference: Option<string>,
    insertAllowed: string,
    updateAllowed: string,
    deleteAllowed: string,
    tab: Option<Tab>,
    rpcExpand: Option<string>,
    rpcExpandInitOrderBy: Option<string>,
    rpcExpandInit: Option<string>,
    listOfValues: seq<ListOfValue>,
    comboboxes: seq<Combobox>,
    checkAndSaveData: Option<SaveLists>,
    beforeCommitValidation: seq<Validation>,
    events: seq<Event>,
    bottomToolbarButtons: seq<ToolbarButton>,
    templates: map<string, string>)

  /** The grid record of the grid element `grid`. */
  function GridOf(grid: Node, catalog: Catalog): Grid {
    var e := grid.element;
    var lists := SaveListsOf(grid);
    Grid(GetAttribute(e, "name"), GetAttribute(e, "label"), GetAttribute(e, "type"), GetAttribute(e, "ref"),
         Permission(GetAttribute(e, "insertAllowed"), ListOf(lists, "insert")),
         Permission(GetAttribute(e, "updateAllowed"), ListOf(lists, "update")),
         Permission(GetAttribute(e, "deleteAllowed"), ListOf(lists, "delete")),
         ParentTab(grid),
         RpcExpandOf(grid), RpcExpandInitOrderByOf(grid), RpcExpandInitOf(grid),
         LovsIn(QuerySelectorAll(grid, LovSelector)),
         CombosIn(QuerySelectorAll(grid, ComboSelector)),
         lists,
         ValidationsIn(QuerySelectorAll(grid, ValidationSelector)),
         GridEvents(grid, catalog),
         GridButtons(grid, catalog),
         GridTemplates(grid))
  }

  /** The attribute that overrides the permission of operation `op`. */
  function AllowedAttribute(op: string): string {
    if op == "insert" then "insertAllowed" else if op == "update" then "updateAllowed" else "deleteAllowed"
  }

  /** The permission the grid record holds for operation `op`. */
  function Allowed(g: Grid, op: string): string {
    if op == "insert" then g.insertAllowed else if op == "update" then g.updateAllowed else g.deleteAllowed
  }

  /**
   * The permission of `op` is the `<op>Allowed` attribute verbatim when the
   * grid has one; otherwise it is `"true"` exactly when the grid's first
   * `CheckAndSaveData` class of a `save` action has a value in its `op`
   * list, and `"false"` in every other case, in particular when the grid
   * holds no such class.
   */
  lemma GridPermission(grid: Node, catalog: Catalog, op: string)
    requires op == "insert" || op == "update" || op == "delete"
    ensures var attr := GetAttribute(grid.element, AllowedAttribute(op));
            var allowed := Allowed(GridOf(grid, catalog), op);
      && (attr.Some? ==> allowed == attr.value)
      && (attr.None? ==>
            (allowed == "true" <==>
               exists cls :: QuerySelector(grid, CheckAndSaveSelector) == Some(cls)
                             && QuerySelectorAll(cls, ListValueSelector(op)) != []))
      && (attr.None? ==> (allowed == "true" || allowed == "false"))
      && ((attr.None? && forall m :: m in Descendants(grid) ==> !MatchesAny(CheckAndSaveSelector, m)) ==>
            allowed == "false")
  {
    var attr := GetAttribute(grid.element, AllowedAttribute(op));
    AllowedIsPermission(grid, catalog, op);
    SavePermission(grid, attr, op);
  }

  /** The grid record's permission is `Permission` of the attribute and the list. */
  lemma AllowedIsPermission(grid: Node, catalog: Catalog, op: string)
    requires op == "insert" || op == "update" || op == "delete"
    ensures Allowed(GridOf(grid, catalog), op)
            == Permission(GetAttribute(grid.element, AllowedAttribute(op)), ListOf(SaveListsOf(grid), op))
  {
    var lists := SaveListsOf(grid);
    var e := grid.element;
    if op == "insert" {
      assert GridOf(grid, catalog).insertAllowed == Permission(GetAttribute(e, "insertAllowed"), ListOf(lists, "insert"));
    } else if op == "update" {
      assert GridOf(grid, catalog).updateAllowed == Permission(GetAttribute(e, "updateAllowed"), ListOf(lists, "update"));
    } else {
      assert GridOf(grid, catalog).deleteAllowed == Permission(GetAttribute(e, "deleteAllowed"), ListOf(lists, "delete"));
    }
  }

  /** What `Permission` makes of the save lists of a grid. */
  lemma SavePermission(grid: Node, attr: Option<string>, op: string)
    requires op == "insert" || op == "update" || op == "delete"
    ensures var allowed := Permission(attr, ListOf(SaveListsOf(grid), op));
      && (attr.None? ==>
            (allowed == "true" <==>
               exists cls :: QuerySelector(grid, CheckAndSaveSelector) == Some(cls)
                             && QuerySelectorAll(cls, ListValueSelector(op)) != []))
      && ((attr.None? && forall m :: m in Descendants(grid) ==> !MatchesAny(CheckAndSaveSelector, m)) ==>
            allowed == "false")
  {
    var found := QuerySelector(grid, CheckAndSaveSelector);
    if found.Some? {
      var cls := found.value;
      ListPermission(attr, cls, op);
      assert SaveListsOf(grid) == Some(SaveLists(ListValues(cls, "insert"), ListValues(cls, "update"), ListValues(cls, "delete")));
    } else {
      assert SaveListsOf(grid) == None;
    }
    QuerySelectorFinds(grid, CheckAndSaveSelector);
  }

  /** `Permission` of the lists of one save class. */
  lemma ListPermission(attr: Option<string>, cls: Node, op: string)
    requires op == "insert" || op == "update" || op == "delete"
    ensures var lists := SaveLists(ListValues(cls, "insert"), ListValues(cls, "update"), ListValues(cls, "delete"));
      attr.None? ==>
        (Permission(attr, ListOf(Some(lists), op)) == "true" <==> QuerySelectorAll(cls, ListValueSelector(op)) != [])
  {
    var list := ListValues(cls, op);
    assert |list| == |QuerySelectorAll(cls, ListValueSelector(op))|;
  }

  /** The body of the grid loop of `parseXML`: read one grid. */
  method ExtractGrid(grid: Node, catalog: Catalog) returns (gridData: Grid)
    ensures gridData == GridOf(grid, catalog)
  {
    var e := grid.element;
    var insertAttr := GetAttribute(e, "insertAllowed");
    var updateAttr := GetAttribute(e, "updateAllowed");
    var deleteAttr := GetAttribute(e, "deleteAllowed");
    var parsedCheckAndSaveData := ReadSaveLists(grid);
    var tab := FindParentTab(grid);
    gridData := Grid(GetAttribute(e, "name"), GetAttribute(e, "label"), GetAttribute(e, "type"), GetAttribute(e, "ref"),
                     Permission(insertAttr, ListOf(parsedCheckAndSaveData, "insert")),
                     Permission(updateAttr, ListOf(parsedCheckAndSaveData, "update")),
                     Permission(deleteAttr, ListOf(parsedCheckAndSaveData, "delete")),
                     tab, None, None, None, [], [], parsedCheckAndSaveData, [], [], [], map[]);
    var templates := ReadTemplates(grid);
    gridData := gridData.(templates := templates);
    var rpcExpand, initOrderBy := ReadRpcExpand(grid);
    gridData := gridData.(rpcExpand := rpcExpand, rpcExpandInitOrderBy := initOrderBy);
    var rpcExpandInit := ReadRpcExpandInit(grid);
    gridData := gridData.(rpcExpandInit := rpcExpandInit);
    var events := ExtractEventsFromNode(grid, catalog, None);
    events := CollectFieldEvents(QuerySelectorAll(grid, FieldSelector), catalog, events);
    gridData := gridData.(events := events);
    var lovs := CollectLovs(QuerySelectorAll(grid, LovSelector));
    gridData := gridData.(listOfValues := lovs);
    var combos := CollectCombos(QuerySelectorAll(grid, ComboSelector));
    gridData := gridData.(comboboxes := combos);
    var validations := CollectValidations(QuerySelectorAll(grid, ValidationSelector));
    gridData := gridData.(beforeCommitValidation := validations);
    var buttons := ReadButtons(grid, catalog);
    gridData := gridData.(bottomToolbarButtons := buttons);
  }
}
