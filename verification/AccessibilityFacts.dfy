/**
 Which nodes of an accessibility tree are hidden (apps/extension/src/redaction.ts), in the words of the
 tree: the editable ones and whatever they list, directly or not, as children.
 */
module AccessibilityFacts {
  import opened Options
  import opened DomRedaction
  import opened AccessibilityRedaction
  import opened AccessibilityWalk

  /** String(node.nodeId ?? ""). */
  function IdText(js: Js, node: Json): string {
    if node.Obj? && "nodeId" in node.fields && !node.fields["nodeId"].Null? then js.text(node.fields["nodeId"]) else ""
  }

  /** A role of text input, or a property named editable. */
  predicate TakesText(js: Js, node: Json) {
    node.Obj? && (TextRole(js, node) || EditableProperty(js, node))
  }

  predicate TextRole(js: Js, node: Json) {
    node.Obj? && "role" in node.fields && node.fields["role"].Obj? && "value" in node.fields["role"].fields &&
    match node.fields["role"].fields["value"]
    case Str(s) => js.lower(s) in {"textbox", "searchbox", "combobox", "spinbutton"}
    case _ => false
  }

  predicate EditableProperty(js: Js, node: Json) {
    node.Obj? && "properties" in node.fields && node.fields["properties"].Arr? &&
    exists p | p in node.fields["properties"].items :: NamedEditable(js, p)
  }

  predicate NamedEditable(js: Js, p: Json) {
    (p.Obj? || p.Arr?) &&
    js.lower(if p.Obj? && "name" in p.fields then js.text(p.fields["name"]) else "undefined") == "editable"
  }

  /** The node lists the other one as a child. */
  predicate HasChild(js: Js, node: Json, other: Json) {
    node.Obj? && "childIds" in node.fields && node.fields["childIds"].Arr? &&
    exists c | c in node.fields["childIds"].items :: js.text(c) == IdText(js, other)
  }

  /** Child by child from a node that takes text one comes to node k, possibly at once. */
  ghost predicate Leads(js: Js, nodes: seq<Json>, ks: seq<nat>, k: nat)
    decreases |ks|
  {
    && ks != [] && ks[|ks| - 1] == k < |nodes| && IsObject(nodes[k])
    && if |ks| == 1 then TakesText(js, nodes[k])
       else Leads(js, nodes, ks[..|ks| - 1], ks[|ks| - 2]) && HasChild(js, nodes[ks[|ks| - 2]], nodes[k])
  }

  lemma IdsAgree(js: Js, node: Json)
    ensures NodeId(js, node) == IdText(js, node)
  {
  }

  lemma NamesAgree(js: Js, p: Json)
    ensures SaysEditable(js, p) <==> NamedEditable(js, p)
  {
  }

  lemma EditableAgrees(js: Js, node: Json)
    ensures Editable(js, node) <==> TakesText(js, node)
  {
    if node.Obj? && "properties" in node.fields && node.fields["properties"].Arr? {
      forall p | p in node.fields["properties"].items ensures SaysEditable(js, p) <==> NamedEditable(js, p) {
        NamesAgree(js, p);
      }
    }
    hide SaysEditable, NamedEditable;
  }

  lemma ChildrenAgree(js: Js, node: Json, other: Json)
    ensures Lists(js, node, NodeId(js, other)) <==> HasChild(js, node, other)
  {
    IdsAgree(js, other);
  }

  // ---------------------------------------------------------------- reachable is led to

  lemma {:induction false} LedIsReachable(js: Js, nodes: seq<Json>, ks: seq<nat>, k: nat)
    requires DistinctIds(js, nodes) && Leads(js, nodes, ks, k)
    ensures Belongs(js, nodes, NodeId(js, nodes[k]))
    decreases |ks|
  {
    hide NodeId, TakesText, HasChild, Editable, Lists, DistinctIds, Chain;
    var id := NodeId(js, nodes[k]);
    if |ks| == 1 {
      EditableAgrees(js, nodes[k]);
      SeedBelongs(js, nodes, id);
    } else {
      var j := ks[|ks| - 2];
      LedIsReachable(js, nodes, ks[..|ks| - 1], j);
      ChildrenAgree(js, nodes[j], nodes[k]);
      FoundHere(js, nodes, j);
      assert Edge(js, nodes, NodeId(js, nodes[j]), id);
      ChildBelongs(js, nodes, NodeId(js, nodes[j]), id);
    }
  }

  lemma FoundHere(js: Js, nodes: seq<Json>, k: nat)
    requires DistinctIds(js, nodes) && k < |nodes| && IsObject(nodes[k])
    ensures Found(js, nodes, NodeId(js, nodes[k]), k)
  {
    hide NodeId;
  }

  lemma SameNode(js: Js, nodes: seq<Json>, i: nat, k: nat)
    requires DistinctIds(js, nodes) && i < |nodes| && k < |nodes| && IsObject(nodes[i]) && IsObject(nodes[k])
    requires NodeId(js, nodes[i]) == NodeId(js, nodes[k])
    ensures i == k
  {
    hide NodeId;
  }

  lemma {:induction false} ChainIsLed(js: Js, nodes: seq<Json>, path: seq<string>, k: nat) returns (ks: seq<nat>)
    requires DistinctIds(js, nodes) && Chain(js, nodes, path)
    requires k < |nodes| && IsObject(nodes[k]) && NodeId(js, nodes[k]) == path[|path| - 1]
    ensures Leads(js, nodes, ks, k)
    decreases |path|
  {
    hide NodeId, TakesText, HasChild, Editable, Lists, DistinctIds;
    if |path| == 1 {
      var i :| 0 <= i < |nodes| && IsObject(nodes[i]) && Editable(js, nodes[i]) && NodeId(js, nodes[i]) == path[0];
      SameNode(js, nodes, i, k);
      EditableAgrees(js, nodes[k]);
      ks := [k];
    } else {
      var id := path[|path| - 2];
      var i :| Found(js, nodes, id, i) && Lists(js, nodes[i], path[|path| - 1]);
      var before := ChainIsLed(js, nodes, path[..|path| - 1], i);
      ChildrenAgree(js, nodes[i], nodes[k]);
      ks := before + [k];
      assert ks[..|ks| - 1] == before;
    }
  }

  /** With distinct ids the nodes that belong to an editable one are exactly those that a node which takes text
      leads to, child by child. */
  lemma BelongsIsLed(js: Js, nodes: seq<Json>, k: nat)
    requires DistinctIds(js, nodes) && k < |nodes| && IsObject(nodes[k])
    ensures Belongs(js, nodes, NodeId(js, nodes[k])) <==> exists ks: seq<nat> :: Leads(js, nodes, ks, k)
  {
    hide NodeId, DistinctIds, Leads;
    if Belongs(js, nodes, NodeId(js, nodes[k])) {
      var path: seq<string> :| Chain(js, nodes, path) && path[|path| - 1] == NodeId(js, nodes[k]);
      var ks := ChainIsLed(js, nodes, path, k);
    }
    if ks: seq<nat> :| Leads(js, nodes, ks, k) {
      LedIsReachable(js, nodes, ks, k);
    }
  }

  /** After the whole sanitizer: with distinct ids, every string standing in a field named value within the name,
      value or description of a node that takes text, or that such a node leads to, is the marker. */
  lemma TypedTextIsHidden(js: Js, j: Json, n: nat, ks: seq<nat>, k: nat, field: string, path: seq<Hop>)
    requires Fits(j, n) && j.Obj? && "nodes" in j.fields && j.fields["nodes"].Arr?
    requires DistinctIds(js, j.fields["nodes"].items) && Leads(js, j.fields["nodes"].items, ks, k)
    requires field in {"name", "value", "description"} && path != [] && path[|path| - 1] == Field("value")
    ensures var out := Visit(js, j, n);
            && "nodes" in out.fields && out.fields["nodes"].Arr? && k < |out.fields["nodes"].items|
            && var tree := At(out.fields["nodes"].items[k], [Field(field)] + path);
               tree.Some? && tree.value.Str? ==> tree.value.s == "[REDACTED]"
  {
    hide Visit, At, DistinctIds, Belongs;
    var nodes := j.fields["nodes"].items;
    LedIsReachable(js, nodes, ks, k);
    EditableTreesStayHidden(js, j, n, k, field, path);
  }

  /** Before the outer walk nothing else changes: a node no such node leads to is as it was, and so are the other
      fields of those that are hidden. */
  lemma NothingElseIsHidden(js: Js, nodes: seq<Json>, k: nat, field: string)
    requires DistinctIds(js, nodes) && k < |nodes| && IsObject(nodes[k])
    ensures (forall ks: seq<nat> :: !Leads(js, nodes, ks, k)) ==> Hidden(js, nodes, k) == nodes[k]
    ensures field !in {"name", "value", "description"} ==> Get(Hidden(js, nodes, k), field) == Get(nodes[k], field)
  {
    hide Leads, DistinctIds, RedactNode, Belongs;
    BelongsIsLed(js, nodes, k);
    RedactNodeIsExact(nodes[k], field);
  }

  /** An object with a text role that has a value object, wherever it stands, ends with the marker in it. */
  lemma TextRoleValueIsHidden(js: Js, j: Json, n: nat)
    requires Fits(j, n) && TextRole(js, j) && "value" in j.fields && j.fields["value"].Obj?
    ensures At(Visit(js, j, n), [Field("value"), Field("value")]) == Some(Str("[REDACTED]"))
  {
    hide Visit, At;
    RoleValueIsHidden(js, j, n);
  }

  // ---------------------------------------------------------------- nothing to hide

  /** A property that reports what was typed. */
  predicate ReportsValue(js: Js, p: Json) {
    && p.Obj? && "value" in p.fields && p.fields["value"].Obj?
    && js.lower(if "name" in p.fields then js.text(p.fields["name"]) else "undefined") in {"value", "valuetext"}
  }

  /** Nowhere in the value is there a node that takes text, an object with a text role and a value, or a property
      that reports one. */
  ghost predicate NothingTyped(js: Js, j: Json) {
    match j
    case Arr(xs) => forall i | 0 <= i < |xs| :: NothingTyped(js, xs[i])
    case Obj(m) =>
      && (forall k | k in m :: NothingTyped(js, m[k]))
      && !("value" in m && m["value"].Obj? && TextRole(js, j))
      && ("nodes" in m && m["nodes"].Arr? ==> forall x | x in m["nodes"].items :: !TakesText(js, x))
      && ("properties" in m && m["properties"].Arr? ==> forall x | x in m["properties"].items :: !ReportsValue(js, x))
    case _ => true
  }

  lemma {:induction false} NoChain(js: Js, nodes: seq<Json>, path: seq<string>)
    requires forall x | x in nodes :: !TakesText(js, x)
    ensures !Chain(js, nodes, path)
    decreases |path|
  {
    hide Edge, TakesText, Editable;
    if |path| > 1 {
      NoChain(js, nodes, path[..|path| - 1]);
    } else {
      forall k | 0 <= k < |nodes| ensures !Editable(js, nodes[k]) {
        EditableAgrees(js, nodes[k]);
        assert nodes[k] in nodes;
      }
    }
  }

  lemma NodesStay(js: Js, m: map<string, Json>)
    requires "nodes" in m && m["nodes"].Arr? ==> forall x | x in m["nodes"].items :: !TakesText(js, x)
    ensures HideNodes(js, m) == m
  {
    hide Chain, TakesText, Found, RedactNode;
    if "nodes" in m && m["nodes"].Arr? {
      var xs := m["nodes"].items;
      forall path: seq<string> ensures !Chain(js, xs, path) {
        NoChain(js, xs, path);
      }
      assert HideNodes(js, m)["nodes"].items == xs;
    }
  }

  lemma RoleStays(js: Js, m: map<string, Json>)
    requires !("value" in m && m["value"].Obj? && TextRole(js, Obj(m)))
    ensures HideRoleValue(js, m) == m
  {
    assert EditableRole(RoleOf(js, Obj(m))) <==> TextRole(js, Obj(m));
  }

  lemma PropertiesStay(js: Js, m: map<string, Json>)
    requires "properties" in m && m["properties"].Arr? ==> forall x | x in m["properties"].items :: !ReportsValue(js, x)
    ensures HideProperties(js, m) == m
  {
    if "properties" in m && m["properties"].Arr? {
      var ps := m["properties"].items;
      forall i | 0 <= i < |ps| ensures HideProperty(js, ps[i]) == ps[i] {
        assert ps[i] in ps;
        PropertyStays(js, ps[i]);
      }
      assert HideProperties(js, m)["properties"].items == ps;
    }
  }

  lemma PropertyStays(js: Js, p: Json)
    requires !ReportsValue(js, p)
    ensures HideProperty(js, p) == p
  {
    if Get(p, "value").Some? {
      assert p.fields["value" := p.fields["value"]] == p.fields;
    }
  }

  /** A snapshot in which nothing was typed comes out as it went in. */
  lemma {:induction false} NothingTypedStays(js: Js, j: Json, n: nat)
    requires Fits(j, n) && NothingTyped(js, j)
    ensures Visit(js, j, n) == j
    decreases n
  {
    hide HideNodes, HideRoleValue, HideProperties, TakesText, TextRole, ReportsValue;
    match j
    case Arr(xs) =>
      forall i | 0 <= i < |xs| ensures Visit(js, xs[i], n - 1) == xs[i] {
        NothingTypedStays(js, xs[i], n - 1);
      }
      assert Visit(js, j, n).items == xs;
    case Obj(m) =>
      NodesStay(js, m);
      RoleStays(js, m);
      PropertiesStay(js, m);
      forall k | k in m ensures Visit(js, m[k], n - 1) == m[k] {
        NothingTypedStays(js, m[k], n - 1);
      }
      assert Visit(js, j, n).fields == m;
    case _ =>
  }
}
