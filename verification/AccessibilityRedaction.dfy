/**
 redactEditableTree of sanitizeAccessibilitySnapshot (apps/extension/src/redaction.ts): which nodes
 of an accessibility tree belong to an editable one, and what is hidden in them.
 */
module AccessibilityRedaction {
  import opened Options
  import opened DomRedaction

  datatype Json =
    | Null | Bool(b: bool) | Num(n: real) | Str(s: string)
    | Arr(items: seq<Json>) | Obj(fields: map<string, Json>)

  /** JavaScript's String() on a JSON value and its toLowerCase. */
  datatype Js = Js(text: Json -> string, lower: string -> string)

  /** Reading a property: arrays and scalars have none of those looked for. */
  function Get(j: Json, name: string): Option<Json> {
    if j.Obj? && name in j.fields then Some(j.fields[name]) else None
  }

  predicate IsObject(j: Json) {
    j.Obj? || j.Arr?
  }

  function NodeId(js: Js, node: Json): string {
    match Get(node, "nodeId")
    case None => ""
    case Some(id) => if id.Null? then "" else js.text(id)
  }

  function RoleOf(js: Js, node: Json): string {
    match Get(node, "role")
    case None => ""
    case Some(role) =>
      match Get(role, "value")
      case Some(Str(s)) => js.lower(s)
      case _ => ""
  }

  /** String() of a missing name reads "undefined". */
  function NameOf(js: Js, property: Json): string {
    js.lower(match Get(property, "name") case Some(n) => js.text(n) case None => "undefined")
  }

  predicate SaysEditable(js: Js, property: Json) {
    IsObject(property) && NameOf(js, property) == "editable"
  }

  predicate EditableRole(role: string) {
    role in {"textbox", "searchbox", "combobox", "spinbutton"}
  }

  predicate Editable(js: Js, node: Json) {
    || EditableRole(RoleOf(js, node))
    || match Get(node, "properties")
       case Some(Arr(ps)) => exists p | p in ps :: SaysEditable(js, p)
       case _ => false
  }

  /** The children a node lists. */
  function Children(node: Json): seq<Json> {
    match Get(node, "childIds")
    case Some(Arr(cs)) => cs
    case _ => []
  }

  // ---------------------------------------------------------------- hiding a value tree

  function RedactTree(j: Json): Json {
    match j
    case Arr(xs) => Arr(seq(|xs|, i requires 0 <= i < |xs| => RedactTree(xs[i])))
    case Obj(m) => Obj(map k | k in m :: if k == "value" && m[k].Str? then Str(REDACTED) else RedactTree(m[k]))
    case _ => j
  }

  datatype Hop = Field(name: string) | Index(i: nat)

  /** What stands at the end of a path. */
  function At(j: Json, path: seq<Hop>): Option<Json>
    decreases |path|
  {
    if path == [] then Some(j)
    else match path[0]
      case Field(k) => if j.Obj? && k in j.fields then At(j.fields[k], path[1..]) else None
      case Index(i) => if j.Arr? && i < |j.items| then At(j.items[i], path[1..]) else None
  }

  predicate SameKind(a: Json, b: Json) {
    match a
    case Arr(xs) => b.Arr? && |b.items| == |xs|
    case Obj(m) => b.Obj? && b.fields.Keys == m.Keys
    case _ => a == b
  }

  predicate EndsInValue(path: seq<Hop>) {
    path != [] && path[|path| - 1] == Field("value")
  }

  /** On every path, a string reached last through a field named value reads as the marker, and everything else
      reads as before. */
  lemma {:induction false} RedactTreeIsExact(j: Json, path: seq<Hop>)
    ensures At(j, path).None? ==> At(RedactTree(j), path).None?
    ensures At(j, path).Some? ==>
              && At(RedactTree(j), path).Some?
              && (if EndsInValue(path) && At(j, path).value.Str?
                  then At(RedactTree(j), path).value == Str(REDACTED)
                  else SameKind(At(j, path).value, At(RedactTree(j), path).value))
    decreases |path|
  {
    if path != [] {
      match path[0]
      case Field(k) =>
        if j.Obj? && k in j.fields {
          RedactTreeIsExact(j.fields[k], path[1..]);
          assert |path| > 1 ==> path[1..][|path| - 2] == path[|path| - 1];
        }
      case Index(i) =>
        if j.Arr? && i < |j.items| {
          RedactTreeIsExact(j.items[i], path[1..]);
          assert |path| > 1 ==> path[1..][|path| - 2] == path[|path| - 1];
        }
    }
  }

  function RedactField(node: Json, name: string): Json {
    if Get(node, name).Some? then Obj(node.fields[name := RedactTree(node.fields[name])]) else node
  }

  function RedactNode(node: Json): Json {
    RedactField(RedactField(RedactField(node, "name"), "value"), "description")
  }

  /** Three fields of a node are hidden, and no other is touched. */
  lemma RedactNodeIsExact(node: Json, name: string)
    ensures Get(RedactNode(node), name) ==
            match Get(node, name)
            case None => None
            case Some(v) => Some(if name in {"name", "value", "description"} then RedactTree(v) else v)
  {
  }

  // ---------------------------------------------------------------- the closure

  /** Node k is the one that byID finds under an id: the last object with it. */
  predicate Found(js: Js, nodes: seq<Json>, id: string, k: int) {
    && 0 <= k < |nodes| && IsObject(nodes[k]) && NodeId(js, nodes[k]) == id
    && forall m | k < m < |nodes| :: !(IsObject(nodes[m]) && NodeId(js, nodes[m]) == id)
  }

  predicate Seed(js: Js, nodes: seq<Json>, id: string) {
    exists k | 0 <= k < |nodes| :: IsObject(nodes[k]) && Editable(js, nodes[k]) && NodeId(js, nodes[k]) == id
  }

  predicate Lists(js: Js, node: Json, child: string) {
    exists c | c in Children(node) :: js.text(c) == child
  }

  ghost predicate Edge(js: Js, nodes: seq<Json>, id: string, child: string) {
    exists k :: Found(js, nodes, id, k) && Lists(js, nodes[k], child)
  }

  ghost predicate Chain(js: Js, nodes: seq<Json>, path: seq<string>)
    decreases |path|
  {
    && path != []
    && if |path| == 1 then Seed(js, nodes, path[0])
       else Chain(js, nodes, path[..|path| - 1]) && Edge(js, nodes, path[|path| - 2], path[|path| - 1])
  }

  /** The id is reachable along childIds from an editable node. */
  ghost predicate Belongs(js: Js, nodes: seq<Json>, id: string) {
    exists path: seq<string> :: Chain(js, nodes, path) && path[|path| - 1] == id
  }

  lemma SeedBelongs(js: Js, nodes: seq<Json>, id: string)
    requires Seed(js, nodes, id)
    ensures Belongs(js, nodes, id)
  {
    assert Chain(js, nodes, [id]);
  }

  lemma ChildBelongs(js: Js, nodes: seq<Json>, id: string, child: string)
    requires Belongs(js, nodes, id) && Edge(js, nodes, id, child)
    ensures Belongs(js, nodes, child)
  {
    hide Seed, Edge;
    var path: seq<string> :| Chain(js, nodes, path) && path[|path| - 1] == id;
    assert (path + [child])[..|path|] == path;
    assert Chain(js, nodes, path + [child]);
  }

  ghost predicate Closed(js: Js, nodes: seq<Json>, s: set<string>) {
    && (forall id | Seed(js, nodes, id) :: id in s)
    && (forall id, child | id in s && Edge(js, nodes, id, child) :: child in s)
  }

  /** A set that is closed holds everything reachable. */
  lemma {:induction false} ClosedHoldsChain(js: Js, nodes: seq<Json>, s: set<string>, path: seq<string>)
    requires Closed(js, nodes, s) && Chain(js, nodes, path)
    ensures path[|path| - 1] in s
    decreases |path|
  {
    hide Seed, Edge;
    if |path| > 1 {
      ClosedHoldsChain(js, nodes, s, path[..|path| - 1]);
    }
  }

  lemma ClosedHoldsAll(js: Js, nodes: seq<Json>, s: set<string>)
    requires Closed(js, nodes, s)
    ensures forall id | Belongs(js, nodes, id) :: id in s
  {
    forall id | Belongs(js, nodes, id) ensures id in s {
      var path: seq<string> :| Chain(js, nodes, path) && path[|path| - 1] == id;
      ClosedHoldsChain(js, nodes, s, path);
    }
  }

  // ---------------------------------------------------------------- the loops

  method IndexById(js: Js, nodes: seq<Json>) returns (byId: map<string, nat>)
    ensures forall id | id in byId :: Found(js, nodes, id, byId[id])
    ensures forall k | 0 <= k < |nodes| && IsObject(nodes[k]) :: NodeId(js, nodes[k]) in byId
  {
    byId := map[];
    for n := 0 to |nodes|
      invariant forall id | id in byId :: Found(js, nodes[..n], id, byId[id])
      invariant forall k | 0 <= k < n && IsObject(nodes[k]) :: NodeId(js, nodes[k]) in byId
    {
      if IsObject(nodes[n]) {
        byId := byId[NodeId(js, nodes[n]) := n];
      }
      assert forall id, k | Found(js, nodes[..n], id, k) && !(IsObject(nodes[n]) && NodeId(js, nodes[n]) == id) ::
          Found(js, nodes[..n + 1], id, k);
    }
    assert nodes[..|nodes|] == nodes;
  }

  method EditableIds(js: Js, nodes: seq<Json>) returns (sensitive: set<string>)
    ensures forall id :: id in sensitive <==> Seed(js, nodes, id)
  {
    sensitive := {};
    for n := 0 to |nodes|
      invariant forall id :: id in sensitive <==>
                  exists k | 0 <= k < n :: IsObject(nodes[k]) && Editable(js, nodes[k]) && NodeId(js, nodes[k]) == id
    {
      if IsObject(nodes[n]) && Editable(js, nodes[n]) {
        sensitive := sensitive + {NodeId(js, nodes[n])};
      }
    }
  }

  /** One node's children: the new ones are marked and queued, in one go. */
  method AddChildren(js: Js, children: seq<Json>, sensitive: set<string>, queue: seq<string>)
    returns (s: set<string>, q: seq<string>)
    ensures forall id :: id in s <==> id in sensitive || exists c | c in children :: js.text(c) == id
    ensures forall id :: id in q <==> id in queue || id in s - sensitive
    ensures s == sensitive ==> q == queue
  {
    s, q := sensitive, queue;
    for n := 0 to |children|
      invariant forall id :: id in s <==> id in sensitive || exists c | c in children[..n] :: js.text(c) == id
      invariant forall id :: id in q <==> id in queue || id in s - sensitive
      invariant s == sensitive ==> q == queue
    {
      var child := js.text(children[n]);
      assert children[..n + 1] == children[..n] + [children[n]];
      if child !in s {
        s := s + {child};
        q := q + [child];
      }
    }
    assert children[..|children|] == children;
  }

  /** Every id a node lists. */
  ghost function Listed(js: Js, nodes: seq<Json>): (r: set<string>)
    ensures forall k, c | 0 <= k < |nodes| && c in Children(nodes[k]) :: js.text(c) in r
  {
    if nodes == [] then {}
    else Listed(js, nodes[..|nodes| - 1]) + (set c | c in Children(nodes[|nodes| - 1]) :: js.text(c))
  }

  /** Nothing that has left the queue lacks a child. */
  ghost predicate Settled(js: Js, nodes: seq<Json>, sensitive: set<string>, queue: seq<string>) {
    forall id, child | id in sensitive && id !in queue && Edge(js, nodes, id, child) :: child in sensitive
  }

  ghost predicate ById(js: Js, nodes: seq<Json>, byId: map<string, nat>) {
    && (forall id | id in byId :: Found(js, nodes, id, byId[id]))
    && (forall k | 0 <= k < |nodes| && IsObject(nodes[k]) :: NodeId(js, nodes[k]) in byId)
  }

  lemma EdgesOf(js: Js, nodes: seq<Json>, byId: map<string, nat>, id: string, child: string)
    requires ById(js, nodes, byId)
    ensures Edge(js, nodes, id, child) <==> id in byId && Lists(js, nodes[byId[id]], child)
  {
  }

  /** One turn of the work queue keeps its invariants. */
  lemma TurnKeeps(js: Js, nodes: seq<Json>, byId: map<string, nat>, id: string,
                  sensitive: set<string>, queue: seq<string>, s: set<string>, q: seq<string>)
    requires ById(js, nodes, byId) && queue != [] && queue[0] == id && id in sensitive
    requires Settled(js, nodes, sensitive, queue)
    requires forall x | x in sensitive :: Belongs(js, nodes, x)
    requires forall x :: x in s <==> x in sensitive || (id in byId && Lists(js, nodes[byId[id]], x))
    requires forall x :: x in q <==> x in queue[1..] || x in s - sensitive
    ensures Settled(js, nodes, s, q)
    ensures forall x | x in s :: Belongs(js, nodes, x)
  {
    hide Belongs, Edge, Lists, ById;
    forall x | x in s ensures Belongs(js, nodes, x) {
      if x !in sensitive {
        EdgesOf(js, nodes, byId, id, x);
        ChildBelongs(js, nodes, id, x);
      }
    }
    forall x, child | x in s && x !in q && Edge(js, nodes, x, child) ensures child in s {
      if x == id {
        EdgesOf(js, nodes, byId, id, child);
      } else {
        assert x in sensitive;
        assert queue == [id] + queue[1..];
      }
    }
  }

  /** The work queue ends on every childIds graph, cycles included, with exactly what is reachable
      from the editable nodes. */
  method Spread(js: Js, nodes: seq<Json>, byId: map<string, nat>, seeds: set<string>, order: seq<string>)
    returns (sensitive: set<string>)
    requires ById(js, nodes, byId)
    requires forall id :: id in seeds <==> Seed(js, nodes, id)
    requires forall id :: id in order <==> id in seeds
    ensures forall id :: id in sensitive <==> Belongs(js, nodes, id)
  {
    hide Belongs, Edge, Seed, ById, Children;
    sensitive := seeds;
    var queue := order;
    ghost var universe := seeds + Listed(js, nodes);
    forall id | id in sensitive ensures Belongs(js, nodes, id) {
      SeedBelongs(js, nodes, id);
    }
    while queue != []
      invariant seeds <= sensitive <= universe
      invariant forall id | id in queue :: id in sensitive
      invariant forall id | id in sensitive :: Belongs(js, nodes, id)
      invariant Settled(js, nodes, sensitive, queue)
      decreases universe - sensitive, |queue|
    {
      var id := queue[0];
      ghost var s0, q0 := sensitive, queue;
      queue := queue[1..];
      if id in byId {
        Within(js, nodes, byId, id);
        sensitive, queue := AddChildren(js, Children(nodes[byId[id]]), sensitive, queue);
      }
      TurnKeeps(js, nodes, byId, id, s0, q0, sensitive, queue);
    }
    ClosedHoldsAll(js, nodes, sensitive);
  }

  lemma Within(js: Js, nodes: seq<Json>, byId: map<string, nat>, id: string)
    requires ById(js, nodes, byId) && id in byId
    ensures byId[id] < |nodes|
  {
  }

  method ToQueue(ids: set<string>) returns (queue: seq<string>)
    ensures forall id :: id in queue <==> id in ids
  {
    queue := [];
    var rest := ids;
    while rest != {}
      invariant rest <= ids
      invariant forall id :: id in queue <==> id in ids - rest
      decreases |rest|
    {
      var id :| id in rest;
      queue := queue + [id];
      rest := rest - {id};
    }
  }

  /** The node at k once the editable trees are hidden. */
  ghost function Hidden(js: Js, nodes: seq<Json>, k: nat): Json
    requires k < |nodes|
  {
    var id := NodeId(js, nodes[k]);
    if Found(js, nodes, id, k) && Belongs(js, nodes, id) then RedactNode(nodes[k]) else nodes[k]
  }

  /** redactEditableTree: the nodes are overwritten in place. */
  method RedactEditableTree(js: Js, nodes: array<Json>)
    modifies nodes
    ensures forall k | 0 <= k < nodes.Length :: nodes[k] == Hidden(js, old(nodes[..]), k)
  {
    hide Belongs, RedactNode, Seed, NodeId, IsObject;
    ghost var t := nodes[..];
    var byId := IndexById(js, nodes[..]);
    var seeds := EditableIds(js, nodes[..]);
    var order := ToQueue(seeds);
    var sensitive := Spread(js, nodes[..], byId, seeds, order);
    var rest := sensitive;
    while rest != {}
      invariant rest <= sensitive
      invariant forall k | 0 <= k < nodes.Length ::
                  nodes[k] == if Found(js, t, NodeId(js, t[k]), k) && NodeId(js, t[k]) in sensitive - rest
                              then RedactNode(t[k]) else t[k]
      decreases |rest|
    {
      var id :| id in rest;
      rest := rest - {id};
      if id in byId {
        nodes[byId[id]] := RedactNode(nodes[byId[id]]);
      }
    }
  }

  ghost predicate DistinctIds(js: Js, nodes: seq<Json>) {
    forall i, k | 0 <= i < k < |nodes| && IsObject(nodes[i]) && IsObject(nodes[k]) ::
      NodeId(js, nodes[i]) != NodeId(js, nodes[k])
  }

  /** With distinct ids, every string standing as a value in the name, value or description of a node
      that belongs to an editable one is the marker; other nodes and other fields are as they were. */
  lemma EditableTreesAreHidden(js: Js, nodes: seq<Json>, k: nat, field: string, path: seq<Hop>)
    requires DistinctIds(js, nodes) && k < |nodes| && IsObject(nodes[k])
    requires Get(nodes[k], field).Some?
    ensures Get(Hidden(js, nodes, k), field).Some?
    ensures var was, now := Get(nodes[k], field).value, Get(Hidden(js, nodes, k), field).value;
            if Belongs(js, nodes, NodeId(js, nodes[k])) && field in {"name", "value", "description"}
            then At(now, path).Some? && At(now, path).value.Str? && EndsInValue(path) ==>
                At(now, path).value.s == REDACTED
            else now == was
  {
    hide Belongs, RedactTree, RedactNode, At;
    assert Found(js, nodes, NodeId(js, nodes[k]), k);
    RedactNodeIsExact(nodes[k], field);
    RedactTreeIsExact(Get(nodes[k], field).value, path);
  }
}
