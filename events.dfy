/**
 * The events of a node (`extractEventsFromNode`): one event per child of the
 * node's direct `events` child, with its comma-separated action references
 * resolved against the action catalog.
 */
module Events {
  import opened Wrappers
  import opened JsString
  import opened Dom
  import opened Actions

  /** An extracted event; `context` is the name of the field it belongs to, `None` for a grid event. */
  datatype Event = Event(
    name: string,
    waitingWindow: Option<string>,
    actionRefs: seq<string>,
    scripts: seq<ResolvedAction>,
    context: Option<string>)

  /** `value.split(',').map((a) => a.trim())`. */
  function SplitRefs(value: string): (refs: seq<string>)
    ensures |refs| >= 1
  {
    var parts := Split(value, ',');
    seq(|parts|, i requires 0 <= i < |parts| => Trim(parts[i]))
  }

  /** The action references of an `actionRef` attribute: none when it is absent or empty. */
  function ParseActionRefs(attr: Option<string>): (refs: seq<string>)
    ensures refs == [] <==> !Truthy(attr)
  {
    if Truthy(attr) then SplitRefs(attr.value) else []
  }

  /** The trimmed pieces of `s` are a substring of `s`, so a character none of `s` has, none of them has. */
  lemma TrimKeepsOut(s: string, c: char)
    requires c !in s
    ensures c !in Trim(s)
  {
    var t := TrimStart(s);
    assert t == s[|s| - |t|..];
    assert Trim(s) == t[..|Trim(s)|];
  }

  /**
   * Every reference is trimmed and holds no comma; there is one per
   * comma-separated piece, empty pieces included.
   */
  lemma ParseActionRefsParts(value: string)
    requires value != ""
    ensures var refs := ParseActionRefs(Some(value));
      && |refs| == |Split(value, ',')|
      && forall i :: 0 <= i < |refs| ==>
           refs[i] == Trim(Split(value, ',')[i]) && ',' !in refs[i] && Trim(refs[i]) == refs[i]
  {
    var parts := Split(value, ',');
    var refs := ParseActionRefs(Some(value));
    forall i | 0 <= i < |refs|
      ensures ',' !in refs[i] && Trim(refs[i]) == refs[i]
    {
      assert parts[i] in parts;
      TrimKeepsOut(parts[i], ',');
      TrimIdempotent(parts[i]);
    }
  }

  /** Joining trimmed, comma-free references with commas and parsing the result gives them back. */
  lemma ParseActionRefsJoin(refs: seq<string>)
    requires |refs| >= 1
    requires forall i :: 0 <= i < |refs| ==> ',' !in refs[i] && Trim(refs[i]) == refs[i]
    requires Join(refs, ',') != ""
    ensures ParseActionRefs(Some(Join(refs, ','))) == refs
  {
    var joined := Join(refs, ',');
    forall p | p in refs ensures ',' !in p {
      var i :| 0 <= i < |refs| && refs[i] == p;
    }
    SplitJoin(refs, ',');
    SplitRefsOfTrimmed(joined);
  }

  /** When every piece is already trimmed, the references are the pieces themselves. */
  lemma SplitRefsOfTrimmed(value: string)
    requires forall i :: 0 <= i < |Split(value, ',')| ==> Trim(Split(value, ',')[i]) == Split(value, ',')[i]
    ensures SplitRefs(value) == Split(value, ',')
  {
    var parts := Split(value, ',');
    var refs := SplitRefs(value);
    assert |refs| == |parts|;
    forall i | 0 <= i < |parts|
      ensures refs[i] == parts[i]
    {
      assert refs[i] == Trim(parts[i]);
    }
  }

  /** What one child of the `events` element yields. */
  function EventOf(evt: Element, catalog: Catalog, context: Option<string>): Event {
    var refs := ParseActionRefs(GetAttribute(evt, "actionRef"));
    Event(evt.nodeName, GetAttribute(evt, "waitingWindow"), refs, Resolve(refs, catalog), context)
  }

  /** The events of the children `evts` of an `events` element, in order. */
  function EventsIn(evts: seq<Element>, catalog: Catalog, context: Option<string>): (r: seq<Event>)
    ensures |r| == |evts|
    decreases |evts|
  {
    if evts == [] then []
    else EventsIn(evts[..|evts| - 1], catalog, context) + [EventOf(evts[|evts| - 1], catalog, context)]
  }

  /** The event at position `j` is the one the child at position `j` yields. */
  lemma {:induction false} EventsInAt(evts: seq<Element>, catalog: Catalog, context: Option<string>, j: nat)
    requires j < |evts|
    ensures EventsIn(evts, catalog, context)[j] == EventOf(evts[j], catalog, context)
    decreases |evts|
  {
    if j < |evts| - 1 {
      var init := evts[..|evts| - 1];
      EventsInAt(init, catalog, context, j);
      assert init[j] == evts[j];
    }
  }

  /** `extractEventsFromNode(node, actionsMap, context)`, as a value. */
  function EventsOf(node: Node, catalog: Catalog, context: Option<string>): seq<Event> {
    match GetDirectChild(node, "events")
    case None => []
    case Some(eventsNode) => EventsIn(eventsNode.element.children, catalog, context)
  }

  /**
   * Only the first direct `events` child counts: one event per child of it,
   * in order, named by the child's tag, carrying the context unchanged, and
   * with the scripts of exactly those references the catalog knows.
   */
  lemma EventsOfShape(node: Node, catalog: Catalog, context: Option<string>)
    ensures (forall i :: 0 <= i < |node.element.children| ==> node.element.children[i].nodeName != "events")
              ==> EventsOf(node, catalog, context) == []
    ensures forall i :: 0 <= i < |node.element.children| && node.element.children[i].nodeName == "events"
                        && (forall k :: 0 <= k < i ==> node.element.children[k].nodeName != "events") ==>
              EventsOf(node, catalog, context) == EventsIn(node.element.children[i].children, catalog, context)
  {
    var cs := node.element.children;
    forall i | 0 <= i < |cs| && cs[i].nodeName == "events" && (forall k :: 0 <= k < i ==> cs[k].nodeName != "events")
      ensures EventsOf(node, catalog, context) == EventsIn(cs[i].children, catalog, context)
    {
      FirstWithTagIs(cs, "events", i);
    }
  }

  /**
   * One event per child, in order, named by the child's tag, carrying the
   * context unchanged, and with the scripts of exactly those references the
   * catalog knows.
   */
  lemma EventsInShape(evts: seq<Element>, catalog: Catalog, context: Option<string>)
    ensures var r := EventsIn(evts, catalog, context);
            && |r| == |evts|
            && forall j :: 0 <= j < |r| ==>
                 && r[j].name == evts[j].nodeName
                 && r[j].context == context
                 && r[j].waitingWindow == GetAttribute(evts[j], "waitingWindow")
                 && r[j].actionRefs == ParseActionRefs(GetAttribute(evts[j], "actionRef"))
                 && (forall x :: x in r[j].scripts ==> x.actionName in r[j].actionRefs && x.actionName in catalog)
  {
    var r := EventsIn(evts, catalog, context);
    forall j | 0 <= j < |r|
      ensures && r[j].name == evts[j].nodeName
              && r[j].context == context
              && r[j].waitingWindow == GetAttribute(evts[j], "waitingWindow")
              && r[j].actionRefs == ParseActionRefs(GetAttribute(evts[j], "actionRef"))
              && (forall x :: x in r[j].scripts ==> x.actionName in r[j].actionRefs && x.actionName in catalog)
    {
      EventsInAt(evts, catalog, context, j);
      forall x | x in r[j].scripts
        ensures x.actionName in r[j].actionRefs && x.actionName in catalog
      {
        ResolveSound(r[j].actionRefs, catalog, x);
      }
    }
  }

  /** The body of the loop of `extractEventsFromNode`: the event one child of `events` yields. */
  method ExtractEvent(evt: Element, catalog: Catalog, context: Option<string>) returns (event: Event)
    ensures event == EventOf(evt, catalog, context)
  {
    var actionRefAttr := GetAttribute(evt, "actionRef");
    var waitingWindow := GetAttribute(evt, "waitingWindow");
    var actionRefs := [];
    if Truthy(actionRefAttr) {
      actionRefs := SplitRefs(actionRefAttr.value);
    }
    var scripts := ConcatenateGroovyScripts(actionRefs, catalog);
    event := Event(evt.nodeName, waitingWindow, actionRefs, scripts, context);
  }

  /** One more child of `events` adds its event at the end. */
  lemma EventsInStep(evts: seq<Element>, i: nat, catalog: Catalog, context: Option<string>)
    requires i < |evts|
    ensures EventsIn(evts[..i + 1], catalog, context) == EventsIn(evts[..i], catalog, context) + [EventOf(evts[i], catalog, context)]
  {
    assert evts[..i + 1][..i] == evts[..i];
  }

  /** The loop of `extractEventsFromNode` over the children of `events`. */
  method CollectEvents(evts: seq<Element>, catalog: Catalog, context: Option<string>) returns (events: seq<Event>)
    ensures events == EventsIn(evts, catalog, context)
  {
    events := [];
    var i := 0;
    while i < |evts|
      invariant 0 <= i <= |evts|
      invariant events == EventsIn(evts[..i], catalog, context)
    {
      var event := ExtractEvent(evts[i], catalog, context);
      EventsInStep(evts, i, catalog, context);
      events := events + [event];
      i := i + 1;
    }
    assert evts[..i] == evts;
  }

  /** `extractEventsFromNode(node, actionsMap, context)`. */
  method ExtractEventsFromNode(node: Node, catalog: Catalog, context: Option<string>) returns (events: seq<Event>)
    ensures events == EventsOf(node, catalog, context)
  {
    events := [];
    var eventsNode := GetDirectChild(node, "events");
    if eventsNode.Some? {
      events := CollectEvents(eventsNode.value.element.children, catalog, context);
    }
  }
}
