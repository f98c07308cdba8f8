/**
 * The action catalog (`extractAllActions`) and the resolution of action
 * references against it (`concatenateGroovyScripts`).
 */
module Actions {
  import opened Wrappers
  import opened JsString
  import opened Dom

  /** One executable fragment of an action: a Groovy script or a SQL statement with its function. */
  datatype Fragment =
    | GroovyFragment(className: Option<string>, classType: Option<string>, failMessage: Option<string>,
                     script: string)
    | SqlFragment(className: Option<string>, classType: Option<string>, failMessage: Option<string>,
                  sql: string, functionName: string)

  /** Action name to the ordered fragments of the action stored under it. */
  type Catalog = map<string, seq<Fragment>>

  /** The selector `param[name="<name>"]`. */
  function Param(name: string): seq<Selector> {
    [Is(TagWith("param", "name", name))]
  }

  /** `action`: every action of the document, wherever it is nested. */
  const ActionSelector: seq<Selector> := [Is(Tag("action"))]

  /** `classes > class`. */
  const ClassSelector: seq<Selector> := [Child(Is(Tag("classes")), Tag("class"))]

  /**
   * The fragments of a class whose `name` and `class` attributes, trimmed
   * `failMessage`, `groovy`, `sql` and `function` parameters are given.
   */
  function FragmentsFor(className: Option<string>, classType: Option<string>, failMessage: Option<string>,
                        groovy: Option<string>, sql: Option<string>, functionName: string): (r: seq<Fragment>)
    ensures |r| <= 2
  {
    (if groovy.Some? then [GroovyFragment(className, classType, failMessage, groovy.value)] else [])
    + (if sql.Some? then [SqlFragment(className, classType, failMessage, sql.value, functionName)] else [])
  }

  /**
   * A class yields a fragment exactly when it has a `groovy` or a `sql`
   * parameter; the Groovy one comes first, the SQL one last, both carry the
   * class's `name` and `class` attributes, and the bodies are the parameters'.
   */
  lemma FragmentsForShape(className: Option<string>, classType: Option<string>, failMessage: Option<string>,
                          groovy: Option<string>, sql: Option<string>, functionName: string)
    ensures var r := FragmentsFor(className, classType, failMessage, groovy, sql, functionName);
      && |r| == (if groovy.Some? then 1 else 0) + (if sql.Some? then 1 else 0)
      && (forall i :: 0 <= i < |r| ==>
            r[i].className == className && r[i].classType == classType && r[i].failMessage == failMessage)
      && (groovy.Some? ==> r[0] == GroovyFragment(className, classType, failMessage, groovy.value))
      && (sql.Some? ==> r[|r| - 1] == SqlFragment(className, classType, failMessage, sql.value, functionName))
  {
  }

  /** The fragments one `class` element contributes, read from its attributes and parameters. */
  function ClassFragments(cls: Node): seq<Fragment> {
    FragmentsFor(GetAttribute(cls.element, "name"), GetAttribute(cls.element, "class"),
                 OrNull(TrimmedText(QuerySelector(cls, Param("failMessage")))),
                 TrimmedText(QuerySelector(cls, Param("groovy"))),
                 TrimmedText(QuerySelector(cls, Param("sql"))),
                 OrEmpty(TrimmedText(QuerySelector(cls, Param("function")))))
  }

  /** The fragments of the classes `classes`, in their order. */
  function FragmentsOf(classes: seq<Node>): seq<Fragment> {
    if classes == [] then []
    else FragmentsOf(classes[..|classes| - 1]) + ClassFragments(classes[|classes| - 1])
  }

  /** The fragments of one action: those of every `classes > class` inside it. */
  function ActionFragments(action: Node): seq<Fragment> {
    FragmentsOf(QuerySelectorAll(action, ClassSelector))
  }

  /** What one `action` element contributes to the catalog: its name attribute and its fragments. */
  datatype ActionEntry = ActionEntry(name: Option<string>, fragments: seq<Fragment>)

  function EntryOf(action: Node): ActionEntry {
    ActionEntry(GetAttribute(action.element, "name"), ActionFragments(action))
  }

  /** The entries of `actions`, in document order. */
  function Entries(actions: seq<Node>): (r: seq<ActionEntry>)
    ensures |r| == |actions|
  {
    seq(|actions|, i requires 0 <= i < |actions| => EntryOf(actions[i]))
  }

  /** Does the entry store under `name`: it is named so, and has a fragment? */
  predicate Stores(e: ActionEntry, name: string) {
    e.name == Some(name) && name != "" && e.fragments != []
  }

  /** The catalog after one more action: stored only when it is named and has fragments. */
  function Store(catalog: Catalog, e: ActionEntry): Catalog {
    if Truthy(e.name) && e.fragments != [] then catalog[e.name.value := e.fragments] else catalog
  }

  /** The catalog built from the entries in their order. */
  function CatalogOf(entries: seq<ActionEntry>): Catalog {
    if entries == [] then map[]
    else Store(CatalogOf(entries[..|entries| - 1]), entries[|entries| - 1])
  }

  /** Appending an entry that does not store under `name` leaves `name`'s entry as it was. */
  lemma CatalogUnchangedBy(entries: seq<ActionEntry>, name: string)
    requires entries != [] && !Stores(entries[|entries| - 1], name)
    ensures name in CatalogOf(entries) <==> name in CatalogOf(entries[..|entries| - 1])
    ensures name in CatalogOf(entries) ==> CatalogOf(entries)[name] == CatalogOf(entries[..|entries| - 1])[name]
  {
    var e := entries[|entries| - 1];
    var before := CatalogOf(entries[..|entries| - 1]);
    if Truthy(e.name) && e.fragments != [] {
      assert e.name.value != name;
      assert CatalogOf(entries) == before[e.name.value := e.fragments];
    } else {
      assert CatalogOf(entries) == before;
    }
  }

  /** A name is in the catalog exactly when some entry stores under it. */
  lemma {:induction false} CatalogKeys(entries: seq<ActionEntry>, name: string)
    ensures name in CatalogOf(entries) <==> exists i :: 0 <= i < |entries| && Stores(entries[i], name)
    decreases |entries|
  {
    if entries != [] {
      var n := |entries| - 1;
      var prefix := entries[..n];
      CatalogKeys(prefix, name);
      if Stores(entries[n], name) {
        assert name in CatalogOf(entries);
      } else {
        CatalogUnchangedBy(entries, name);
        if exists i :: 0 <= i < |entries| && Stores(entries[i], name) {
          var i :| 0 <= i < |entries| && Stores(entries[i], name);
          assert prefix[i] == entries[i];
        }
        if exists i :: 0 <= i < n && Stores(prefix[i], name) {
          var i :| 0 <= i < n && Stores(prefix[i], name);
          assert prefix[i] == entries[i];
        }
      }
    }
  }

  /**
   * The entry under `name` holds the fragments of the LAST entry storing under
   * it: later duplicates overwrite earlier ones, but an unnamed action or one
   * without fragments never does.
   */
  lemma {:induction false} CatalogLastWins(entries: seq<ActionEntry>, name: string, i: nat)
    requires i < |entries| && Stores(entries[i], name)
    requires forall j :: i < j < |entries| ==> !Stores(entries[j], name)
    ensures name in CatalogOf(entries) && CatalogOf(entries)[name] == entries[i].fragments
    decreases |entries|
  {
    var n := |entries| - 1;
    if i < n {
      var prefix := entries[..n];
      assert prefix[i] == entries[i];
      forall j | i < j < |prefix| ensures !Stores(prefix[j], name) {
        assert prefix[j] == entries[j];
      }
      CatalogLastWins(prefix, name, i);
      CatalogUnchangedBy(entries, name);
    }
  }

  /**
   * The body of the inner loop of `extractAllActions`: push the Groovy
   * fragment of one class when it has a `groovy` parameter, then its SQL
   * fragment when it has a `sql` parameter.
   */
  method PushClassFragments(fragments: seq<Fragment>, className: Option<string>, classType: Option<string>,
                            failMessage: Option<string>, groovy: Option<string>, sql: Option<string>,
                            functionName: string) returns (r: seq<Fragment>)
    ensures r == fragments + FragmentsFor(className, classType, failMessage, groovy, sql, functionName)
  {
    r := fragments;
    if groovy.Some? {
      r := r + [GroovyFragment(className, classType, failMessage, groovy.value)];
    }
    if sql.Some? {
      r := r + [SqlFragment(className, classType, failMessage, sql.value, functionName)];
    }
  }

  /** The inner loop of `extractAllActions`: the fragments of the classes `classes`, in order. */
  method CollectFragments(classes: seq<Node>) returns (fragments: seq<Fragment>)
    ensures fragments == FragmentsOf(classes)
  {
    fragments := [];
    var j := 0;
    while j < |classes|
      invariant 0 <= j <= |classes|
      invariant fragments == FragmentsOf(classes[..j])
    {
      assert classes[..j + 1][..j] == classes[..j];
      var cls := classes[j];
      fragments := PushClassFragments(fragments, GetAttribute(cls.element, "name"), GetAttribute(cls.element, "class"),
                                      OrNull(TrimmedText(QuerySelector(cls, Param("failMessage")))),
                                      TrimmedText(QuerySelector(cls, Param("groovy"))),
                                      TrimmedText(QuerySelector(cls, Param("sql"))),
                                      OrEmpty(TrimmedText(QuerySelector(cls, Param("function")))));
      j := j + 1;
    }
    assert classes[..j] == classes;
  }

  /** The catalog of one more action is that action stored into the catalog of the ones before. */
  lemma CatalogOfPrefix(actions: seq<Node>, i: nat)
    requires i < |actions|
    ensures CatalogOf(Entries(actions[..i + 1])) == Store(CatalogOf(Entries(actions[..i])), EntryOf(actions[i]))
  {
    var longer := Entries(actions[..i + 1]);
    assert longer[..i] == Entries(actions[..i]);
    assert longer[i] == EntryOf(actions[i]);
  }

  /** The body of the outer loop of `extractAllActions`: store one action if it is named and has fragments. */
  method StoreAction(catalog: Catalog, action: Node) returns (r: Catalog)
    ensures r == Store(catalog, EntryOf(action))
  {
    r := catalog;
    var actionName := GetAttribute(action.element, "name");
    if Truthy(actionName) {
      var fragments := CollectFragments(QuerySelectorAll(action, ClassSelector));
      if |fragments| > 0 {
        r := r[actionName.value := fragments];
      }
    }
  }

  /** The outer loop of `extractAllActions`: the catalog of the actions `actions`, in order. */
  method BuildCatalog(actions: seq<Node>) returns (catalog: Catalog)
    ensures catalog == CatalogOf(Entries(actions))
  {
    catalog := map[];
    var i := 0;
    while i < |actions|
      invariant 0 <= i <= |actions|
      invariant catalog == CatalogOf(Entries(actions[..i]))
    {
      CatalogOfPrefix(actions, i);
      catalog := StoreAction(catalog, actions[i]);
      i := i + 1;
    }
    assert actions[..i] == actions;
  }

  /** `extractAllActions(xmlDoc)`: the catalog of every `action` of the document. */
  method ExtractAllActions(root: Element) returns (catalog: Catalog)
    ensures catalog == CatalogOf(Entries(DocumentQuerySelectorAll(root, ActionSelector)))
  {
    catalog := BuildCatalog(DocumentQuerySelectorAll(root, ActionSelector));
  }

  // ------------------------------------------------------------- resolution

  /** An action reference resolved against the catalog. */
  datatype ResolvedAction = ResolvedAction(actionName: string, classes: seq<Fragment>)

  /** The references of `refs` found in the catalog, in their order, each with its fragments. */
  function Resolve(refs: seq<string>, catalog: Catalog): (r: seq<ResolvedAction>)
    ensures |r| <= |refs|
  {
    if refs == [] then []
    else
      var name := refs[|refs| - 1];
      Resolve(refs[..|refs| - 1], catalog) + (if name in catalog then [ResolvedAction(name, catalog[name])] else [])
  }

  /** Whatever is resolved was referenced, is in the catalog, and carries the catalog's fragments. */
  lemma {:induction false} ResolveSound(refs: seq<string>, catalog: Catalog, x: ResolvedAction)
    requires x in Resolve(refs, catalog)
    ensures x.actionName in refs && x.actionName in catalog && x.classes == catalog[x.actionName]
    decreases |refs|
  {
    var n := |refs| - 1;
    if x in Resolve(refs[..n], catalog) {
      ResolveSound(refs[..n], catalog, x);
      assert refs[..n] <= refs;
    }
  }

  /** Every reference the catalog knows is resolved. */
  lemma {:induction false} ResolveComplete(refs: seq<string>, catalog: Catalog, name: string)
    requires name in refs && name in catalog
    ensures ResolvedAction(name, catalog[name]) in Resolve(refs, catalog)
    decreases |refs|
  {
    var n := |refs| - 1;
    if refs[n] != name {
      assert name in refs[..n] by {
        var k :| 0 <= k < |refs| && refs[k] == name;
        assert refs[..n][k] == name;
      }
      ResolveComplete(refs[..n], catalog, name);
    }
  }

  /** Resolution keeps the order of the references: it distributes over concatenation. */
  lemma {:induction false} ResolveAppend(a: seq<string>, b: seq<string>, catalog: Catalog)
    ensures Resolve(a + b, catalog) == Resolve(a, catalog) + Resolve(b, catalog)
    decreases |b|
  {
    if b == [] {
      assert a + b == a;
    } else {
      var n := |b| - 1;
      assert (a + b)[..|a + b| - 1] == a + b[..n];
      ResolveAppend(a, b[..n], catalog);
    }
  }

  /** When every reference is known, each is resolved in place. */
  lemma {:induction false} ResolveAllKnown(refs: seq<string>, catalog: Catalog)
    requires forall i :: 0 <= i < |refs| ==> refs[i] in catalog
    ensures |Resolve(refs, catalog)| == |refs|
    ensures forall i :: 0 <= i < |refs| ==>
              Resolve(refs, catalog)[i] == ResolvedAction(refs[i], catalog[refs[i]])
    decreases |refs|
  {
    if refs != [] {
      ResolveAllKnown(refs[..|refs| - 1], catalog);
    }
  }

  /** When no reference is known, nothing is resolved, and no error is raised. */
  lemma {:induction false} ResolveNoneKnown(refs: seq<string>, catalog: Catalog)
    requires forall i :: 0 <= i < |refs| ==> refs[i] !in catalog
    ensures Resolve(refs, catalog) == []
    decreases |refs|
  {
    if refs != [] {
      ResolveNoneKnown(refs[..|refs| - 1], catalog);
    }
  }

  /** `concatenateGroovyScripts(actionRefs, actionsMap)`. */
  method ConcatenateGroovyScripts(refs: seq<string>, catalog: Catalog) returns (resolved: seq<ResolvedAction>)
    ensures resolved == Resolve(refs, catalog)
  {
    if |refs| == 0 {
      return [];
    }
    resolved := [];
    var i := 0;
    while i < |refs|
      invariant 0 <= i <= |refs|
      invariant resolved == Resolve(refs[..i], catalog)
    {
      var actionRef := refs[i];
      assert refs[..i + 1][..i] == refs[..i];
      if actionRef in catalog {
        resolved := resolved + [ResolvedAction(actionRef, catalog[actionRef])];
      }
      i := i + 1;
    }
    assert refs[..i] == refs;
  }
}
