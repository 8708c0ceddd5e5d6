/**
 The whole of sanitizeAccessibilitySnapshot (apps/extension/src/redaction.ts): the outer walk, and why
 it undoes nothing that was hidden before it.

 A visited object is changed before its fields are visited, so the walk is defined by depth; every
 JSON value has one, and the result does not depend on it.
 */
module AccessibilityWalk {
  import opened Options
  import opened DomRedaction
  import opened AccessibilityRedaction

  // ---------------------------------------------------------------- depth

  ghost predicate Fits(j: Json, n: nat) {
    match j
    case Arr(xs) => n > 0 && forall i | 0 <= i < |xs| :: Fits(xs[i], n - 1)
    case Obj(m) => n > 0 && forall k | k in m :: Fits(m[k], n - 1)
    case _ => true
  }

  lemma {:induction false} FitsDeeper(j: Json, n: nat, d: nat)
    requires Fits(j, n) && n <= d
    ensures Fits(j, d)
    decreases n
  {
    match j
    case Arr(xs) =>
      forall i | 0 <= i < |xs| ensures Fits(xs[i], d - 1) {
        FitsDeeper(xs[i], n - 1, d - 1);
      }
    case Obj(m) =>
      forall k | k in m ensures Fits(m[k], d - 1) {
        FitsDeeper(m[k], n - 1, d - 1);
      }
    case _ =>
  }

  /** Every value has a depth. */
  lemma {:induction false} EveryValueFits(j: Json) returns (n: nat)
    ensures Fits(j, n)
    decreases j, 1, 0
  {
    match j
    case Arr(xs) =>
      n := ItemsFit(j, |xs|);
      n := n + 1;
    case Obj(m) =>
      n := FieldsFit(j, m.Keys);
      n := n + 1;
    case _ => n := 0;
  }

  lemma {:induction false} ItemsFit(j: Json, k: nat) returns (n: nat)
    requires j.Arr? && k <= |j.items|
    ensures forall i | 0 <= i < k :: Fits(j.items[i], n)
    decreases j, 0, k
  {
    if k == 0 {
      n := 0;
    } else {
      var a := ItemsFit(j, k - 1);
      var b := EveryValueFits(j.items[k - 1]);
      n := a + b;
      forall i | 0 <= i < k ensures Fits(j.items[i], n) {
        FitsDeeper(j.items[i], if i < k - 1 then a else b, n);
      }
    }
  }

  lemma {:induction false} FieldsFit(j: Json, keys: set<string>) returns (n: nat)
    requires j.Obj? && keys <= j.fields.Keys
    ensures forall k | k in keys :: Fits(j.fields[k], n)
    decreases j, 0, |keys|
  {
    if keys == {} {
      n := 0;
    } else {
      var key :| key in keys;
      var a := FieldsFit(j, keys - {key});
      var b := EveryValueFits(j.fields[key]);
      n := a + b;
      forall k | k in keys ensures Fits(j.fields[k], n) {
        FitsDeeper(j.fields[k], if k == key then b else a, n);
      }
    }
  }

  // ---------------------------------------------------------------- one visited object

  /** Assigning to the field named value; on an array it is a property that JSON does not show. */
  function WriteMarker(v: Json): Json {
    if v.Obj? then Obj(v.fields["value" := Str(REDACTED)]) else v
  }

  ghost function HideNodes(js: Js, m: map<string, Json>): map<string, Json> {
    if "nodes" in m && m["nodes"].Arr? then
      var xs := m["nodes"].items;
      m["nodes" := Arr(seq(|xs|, k requires 0 <= k < |xs| => Hidden(js, xs, k)))]
    else m
  }

  function HideRoleValue(js: Js, m: map<string, Json>): map<string, Json> {
    if EditableRole(RoleOf(js, Obj(m))) && "value" in m then m["value" := WriteMarker(m["value"])] else m
  }

  function HideProperty(js: Js, p: Json): Json {
    if IsObject(p) && NameOf(js, p) in {"value", "valuetext"} && Get(p, "value").Some?
    then Obj(p.fields["value" := WriteMarker(p.fields["value"])])
    else p
  }

  function HideProperties(js: Js, m: map<string, Json>): map<string, Json> {
    if "properties" in m && m["properties"].Arr? then
      var ps := m["properties"].items;
      m["properties" := Arr(seq(|ps|, i requires 0 <= i < |ps| => HideProperty(js, ps[i])))]
    else m
  }

  ghost function HideItem(js: Js, m: map<string, Json>): map<string, Json> {
    HideProperties(js, HideRoleValue(js, HideNodes(js, m)))
  }

  // ---------------------------------------------------------------- hiding makes nothing deeper

  lemma {:induction false} TreeFits(j: Json, n: nat)
    requires Fits(j, n)
    ensures Fits(RedactTree(j), n)
    decreases n
  {
    match j
    case Arr(xs) =>
      forall i | 0 <= i < |xs| ensures Fits(RedactTree(j).items[i], n - 1) {
        TreeFits(xs[i], n - 1);
      }
    case Obj(m) =>
      forall k | k in m ensures Fits(RedactTree(j).fields[k], n - 1) {
        TreeFits(m[k], n - 1);
      }
    case _ =>
  }

  lemma FieldFits(node: Json, name: string, n: nat)
    requires Fits(node, n)
    ensures Fits(RedactField(node, name), n)
  {
    if Get(node, name).Some? {
      TreeFits(node.fields[name], n - 1);
    }
  }

  lemma HiddenFits(js: Js, nodes: seq<Json>, k: nat, n: nat)
    requires k < |nodes| && Fits(nodes[k], n)
    ensures Fits(Hidden(js, nodes, k), n)
  {
    hide Fits, RedactField, Belongs, Found;
    FieldFits(nodes[k], "name", n);
    FieldFits(RedactField(nodes[k], "name"), "value", n);
    FieldFits(RedactField(RedactField(nodes[k], "name"), "value"), "description", n);
  }

  lemma HideNodesFits(js: Js, m: map<string, Json>, n: nat)
    requires forall k | k in m :: Fits(m[k], n)
    ensures forall k | k in HideNodes(js, m) :: Fits(HideNodes(js, m)[k], n)
  {
    if "nodes" in m && m["nodes"].Arr? {
      hide Hidden;
      var xs := m["nodes"].items;
      forall k | 0 <= k < |xs| ensures Fits(Hidden(js, xs, k), n - 1) {
        HiddenFits(js, xs, k, n - 1);
      }
    }
  }

  lemma MarkerFits(v: Json, n: nat)
    requires Fits(v, n)
    ensures Fits(WriteMarker(v), n)
  {
  }

  lemma HidePropertyFits(js: Js, p: Json, n: nat)
    requires Fits(p, n)
    ensures Fits(HideProperty(js, p), n)
  {
    if Get(p, "value").Some? {
      MarkerFits(p.fields["value"], n - 1);
    }
  }

  lemma HideItemFits(js: Js, m: map<string, Json>, n: nat)
    requires forall k | k in m :: Fits(m[k], n)
    ensures forall k | k in HideItem(js, m) :: Fits(HideItem(js, m)[k], n)
  {
    hide HideNodes, WriteMarker, HideProperty;
    HideNodesFits(js, m, n);
    var a := HideNodes(js, m);
    if "value" in a {
      MarkerFits(a["value"], n);
    }
    var b := HideRoleValue(js, a);
    if "properties" in b && b["properties"].Arr? {
      var ps := b["properties"].items;
      forall i | 0 <= i < |ps| ensures Fits(HideProperty(js, ps[i]), n - 1) {
        HidePropertyFits(js, ps[i], n - 1);
      }
    }
  }

  // ---------------------------------------------------------------- the walk

  /** visit: an object is hidden first, then its fields are visited. */
  ghost function Visit(js: Js, j: Json, n: nat): Json
    requires Fits(j, n)
    decreases n
  {
    match j
    case Arr(xs) => Arr(seq(|xs|, i requires 0 <= i < |xs| => Visit(js, xs[i], n - 1)))
    case Obj(m) =>
      HideItemFits(js, m, n - 1);
      var item := HideItem(js, m);
      Obj(map k | k in item :: Visit(js, item[k], n - 1))
    case _ => j
  }

  lemma {:induction false} DepthDoesNotMatter(js: Js, j: Json, n: nat, d: nat)
    requires Fits(j, n) && Fits(j, d)
    ensures Visit(js, j, n) == Visit(js, j, d)
    decreases n
  {
    match j
    case Arr(xs) =>
      forall i | 0 <= i < |xs| ensures Visit(js, xs[i], n - 1) == Visit(js, xs[i], d - 1) {
        DepthDoesNotMatter(js, xs[i], n - 1, d - 1);
      }
      assert Visit(js, j, n).items == Visit(js, j, d).items;
    case Obj(m) =>
      hide HideItem;
      HideItemFits(js, m, n - 1);
      HideItemFits(js, m, d - 1);
      var item := HideItem(js, m);
      forall k | k in item ensures Visit(js, item[k], n - 1) == Visit(js, item[k], d - 1) {
        DepthDoesNotMatter(js, item[k], n - 1, d - 1);
      }
      assert Visit(js, j, n).fields == Visit(js, j, d).fields;
    case _ =>
  }

  // ---------------------------------------------------------------- only markers are written

  predicate Scalar(j: Json) {
    !j.Arr? && !j.Obj?
  }

  /** What stands at a path of b stood there in a, or is a marker in a field named value. */
  ghost predicate Kept(a: Json, b: Json, path: seq<Hop>) {
    At(b, path).Some? && Scalar(At(b, path).value) ==>
      At(a, path) == At(b, path) || (EndsInValue(path) && At(b, path).value == Str(REDACTED))
  }

  ghost predicate OnlyMarks(a: Json, b: Json) {
    forall path: seq<Hop> :: Kept(a, b, path)
  }

  lemma MarksNothing(a: Json)
    ensures OnlyMarks(a, a)
  {
  }

  lemma MarksTwice(a: Json, b: Json, c: Json)
    requires OnlyMarks(a, b) && OnlyMarks(b, c)
    ensures OnlyMarks(a, c)
  {
    forall path: seq<Hop> ensures Kept(a, c, path) {
      assert Kept(a, b, path) && Kept(b, c, path);
    }
  }

  lemma TreeOnlyMarks(j: Json)
    ensures OnlyMarks(j, RedactTree(j))
  {
    hide RedactTree, At;
    forall path: seq<Hop> ensures Kept(j, RedactTree(j), path) {
      RedactTreeIsExact(j, path);
    }
  }

  lemma LastHop(path: seq<Hop>)
    requires |path| > 1
    ensures EndsInValue(path[1..]) <==> EndsInValue(path)
  {
  }

  lemma FieldsOnlyMark(m: map<string, Json>, w: map<string, Json>)
    requires forall k | k in w :: (k in m && OnlyMarks(m[k], w[k])) || (k == "value" && w[k] == Str(REDACTED))
    ensures OnlyMarks(Obj(m), Obj(w))
  {
    forall path: seq<Hop> ensures Kept(Obj(m), Obj(w), path) {
      if path != [] && path[0].Field? && path[0].name in w {
        var k := path[0].name;
        if |path| > 1 {
          LastHop(path);
        }
        if k in m && OnlyMarks(m[k], w[k]) {
          assert Kept(m[k], w[k], path[1..]);
        }
      }
    }
  }

  lemma ItemsOnlyMark(xs: seq<Json>, ys: seq<Json>)
    requires |ys| == |xs| && forall i | 0 <= i < |xs| :: OnlyMarks(xs[i], ys[i])
    ensures OnlyMarks(Arr(xs), Arr(ys))
  {
    forall path: seq<Hop> ensures Kept(Arr(xs), Arr(ys), path) {
      if path != [] && path[0].Index? && path[0].i < |ys| {
        if |path| > 1 {
          LastHop(path);
        }
        assert Kept(xs[path[0].i], ys[path[0].i], path[1..]);
      }
    }
  }

  /** One field rewritten. */
  lemma OneFieldMarks(m: map<string, Json>, name: string, v: Json)
    requires name in m && OnlyMarks(m[name], v)
    ensures OnlyMarks(Obj(m), Obj(m[name := v]))
  {
    hide OnlyMarks;
    var w := m[name := v];
    forall k | k in w ensures k in m && OnlyMarks(m[k], w[k]) {
      MarksNothing(m[k]);
    }
    FieldsOnlyMark(m, w);
  }

  lemma MarkerOnlyMarks(v: Json)
    ensures OnlyMarks(v, WriteMarker(v))
  {
    hide OnlyMarks;
    MarksNothing(v);
    if v.Obj? {
      var w := v.fields["value" := Str(REDACTED)];
      forall k | k in w
        ensures (k in v.fields && OnlyMarks(v.fields[k], w[k])) || (k == "value" && w[k] == Str(REDACTED))
      {
        if k != "value" {
          MarksNothing(v.fields[k]);
        }
      }
      FieldsOnlyMark(v.fields, w);
    }
  }

  lemma FieldOnlyMarks(node: Json, name: string)
    ensures OnlyMarks(node, RedactField(node, name))
  {
    hide OnlyMarks, RedactTree;
    MarksNothing(node);
    if Get(node, name).Some? {
      TreeOnlyMarks(node.fields[name]);
      OneFieldMarks(node.fields, name, RedactTree(node.fields[name]));
    }
  }

  lemma HiddenOnlyMarks(js: Js, nodes: seq<Json>, k: nat)
    requires k < |nodes|
    ensures OnlyMarks(nodes[k], Hidden(js, nodes, k))
  {
    hide OnlyMarks, RedactField, Belongs, Found;
    var a := RedactField(nodes[k], "name");
    var b := RedactField(a, "value");
    MarksNothing(nodes[k]);
    FieldOnlyMarks(nodes[k], "name");
    FieldOnlyMarks(a, "value");
    FieldOnlyMarks(b, "description");
    MarksTwice(nodes[k], a, b);
    MarksTwice(nodes[k], b, RedactField(b, "description"));
  }

  lemma NodesOnlyMark(js: Js, m: map<string, Json>)
    ensures OnlyMarks(Obj(m), Obj(HideNodes(js, m)))
  {
    hide OnlyMarks, Hidden;
    MarksNothing(Obj(m));
    if "nodes" in m && m["nodes"].Arr? {
      var xs := m["nodes"].items;
      var ys := HideNodes(js, m)["nodes"].items;
      forall k | 0 <= k < |xs| ensures OnlyMarks(xs[k], ys[k]) {
        HiddenOnlyMarks(js, xs, k);
      }
      ItemsOnlyMark(xs, ys);
      OneFieldMarks(m, "nodes", Arr(ys));
    }
  }

  lemma RoleOnlyMarks(js: Js, m: map<string, Json>)
    ensures OnlyMarks(Obj(m), Obj(HideRoleValue(js, m)))
  {
    hide OnlyMarks, WriteMarker;
    MarksNothing(Obj(m));
    if "value" in m {
      MarkerOnlyMarks(m["value"]);
      OneFieldMarks(m, "value", WriteMarker(m["value"]));
    }
  }

  lemma PropertyOnlyMarks(js: Js, p: Json)
    ensures OnlyMarks(p, HideProperty(js, p))
  {
    hide OnlyMarks, WriteMarker;
    MarksNothing(p);
    if Get(p, "value").Some? {
      MarkerOnlyMarks(p.fields["value"]);
      OneFieldMarks(p.fields, "value", WriteMarker(p.fields["value"]));
    }
  }

  lemma PropertiesOnlyMark(js: Js, m: map<string, Json>)
    ensures OnlyMarks(Obj(m), Obj(HideProperties(js, m)))
  {
    hide OnlyMarks, HideProperty;
    MarksNothing(Obj(m));
    if "properties" in m && m["properties"].Arr? {
      var ps := m["properties"].items;
      var qs := HideProperties(js, m)["properties"].items;
      forall i | 0 <= i < |ps| ensures OnlyMarks(ps[i], qs[i]) {
        PropertyOnlyMarks(js, ps[i]);
      }
      ItemsOnlyMark(ps, qs);
      OneFieldMarks(m, "properties", Arr(qs));
    }
  }

  lemma ItemOnlyMarks(js: Js, m: map<string, Json>)
    ensures OnlyMarks(Obj(m), Obj(HideItem(js, m)))
  {
    hide OnlyMarks, HideNodes, HideRoleValue, HideProperties;
    var a := HideNodes(js, m);
    var b := HideRoleValue(js, a);
    NodesOnlyMark(js, m);
    RoleOnlyMarks(js, a);
    PropertiesOnlyMark(js, b);
    MarksTwice(Obj(m), Obj(a), Obj(b));
    MarksTwice(Obj(m), Obj(b), Obj(HideProperties(js, b)));
  }

  /** The whole sanitizer writes markers into fields named value and nothing else: every string, number
      or flag that it leaves anywhere stood there before, or is such a marker. */
  lemma {:induction false} VisitOnlyMarks(js: Js, j: Json, n: nat)
    requires Fits(j, n)
    ensures OnlyMarks(j, Visit(js, j, n))
    decreases n
  {
    hide OnlyMarks, HideItem;
    match j
    case Arr(xs) =>
      var ys := Visit(js, j, n).items;
      forall i | 0 <= i < |xs| ensures OnlyMarks(xs[i], ys[i]) {
        VisitOnlyMarks(js, xs[i], n - 1);
      }
      ItemsOnlyMark(xs, ys);
    case Obj(m) =>
      var item := HideItem(js, m);
      HideItemFits(js, m, n - 1);
      var w := Visit(js, j, n).fields;
      forall k | k in w ensures k in item && OnlyMarks(item[k], w[k]) {
        VisitOnlyMarks(js, item[k], n - 1);
      }
      FieldsOnlyMark(item, w);
      ItemOnlyMarks(js, m);
      MarksTwice(j, Obj(item), Visit(js, j, n));
    case _ => MarksNothing(j);
  }

  // ---------------------------------------------------------------- what is hidden in the end

  lemma NodesOfItem(js: Js, m: map<string, Json>)
    requires "nodes" in m && m["nodes"].Arr?
    ensures var item, xs := HideItem(js, m), m["nodes"].items;
            && "nodes" in item && item["nodes"].Arr? && |item["nodes"].items| == |xs|
            && forall k | 0 <= k < |xs| :: item["nodes"].items[k] == Hidden(js, xs, k)
  {
    hide Hidden, WriteMarker, HideProperty;
  }

  /** After the whole sanitizer: with distinct ids, no string standing as a value survives in the name,
      value or description of a node that belongs to an editable one. */
  lemma EditableTreesStayHidden(js: Js, j: Json, n: nat, k: nat, field: string, path: seq<Hop>)
    requires Fits(j, n) && j.Obj? && "nodes" in j.fields && j.fields["nodes"].Arr?
    requires var nodes := j.fields["nodes"].items;
             DistinctIds(js, nodes) && k < |nodes| && IsObject(nodes[k]) && Belongs(js, nodes, NodeId(js, nodes[k]))
    requires field in {"name", "value", "description"}
    ensures var out := Visit(js, j, n);
            && "nodes" in out.fields && out.fields["nodes"].Arr? && k < |out.fields["nodes"].items|
            && var node := out.fields["nodes"].items[k];
               var tree := At(node, [Field(field)] + path);
               tree.Some? && tree.value.Str? && EndsInValue(path) ==> tree.value.s == REDACTED
  {
    hide Belongs, DistinctIds, HideItem, Hidden, OnlyMarks, RedactTree;
    var m := j.fields;
    var nodes, item := m["nodes"].items, HideItem(js, m);
    HideItemFits(js, m, n - 1);
    NodesOfItem(js, m);
    var was := Hidden(js, nodes, k);
    assert Visit(js, j, n).fields["nodes"] == Visit(js, item["nodes"], n - 1);
    var now := Visit(js, item["nodes"], n - 1).items[k];
    assert now == Visit(js, was, n - 2);
    VisitOnlyMarks(js, was, n - 2);
    MarkedOrKept(was, now, [Field(field)] + path);
    if EndsInValue(path) {
      HiddenValue(js, nodes, k, field, path);
    }
  }

  lemma MarkedOrKept(a: Json, b: Json, path: seq<Hop>)
    requires OnlyMarks(a, b)
    ensures Kept(a, b, path)
  {
  }

  /** The same before the outer walk, read from the node. */
  lemma HiddenValue(js: Js, nodes: seq<Json>, k: nat, field: string, path: seq<Hop>)
    requires DistinctIds(js, nodes) && k < |nodes| && IsObject(nodes[k]) && Belongs(js, nodes, NodeId(js, nodes[k]))
    requires field in {"name", "value", "description"} && EndsInValue(path)
    ensures var tree := At(Hidden(js, nodes, k), [Field(field)] + path);
            tree.Some? && tree.value.Str? ==> tree.value.s == REDACTED
  {
    hide Belongs, DistinctIds, Hidden, RedactTree, EndsInValue;
    assert ([Field(field)] + path)[1..] == path;
    if Get(nodes[k], field).Some? {
      EditableTreesAreHidden(js, nodes, k, field, path);
    } else {
      NoSuchField(js, nodes, k, field);
    }
  }

  lemma NoSuchField(js: Js, nodes: seq<Json>, k: nat, field: string)
    requires k < |nodes| && Get(nodes[k], field).None?
    ensures Get(Hidden(js, nodes, k), field).None?
  {
    hide Belongs, Found, RedactNode;
    RedactNodeIsExact(nodes[k], field);
  }

  /** An object with an editable role ends with the marker as the value of its value. */
  lemma RoleValueIsHidden(js: Js, j: Json, n: nat)
    requires Fits(j, n) && j.Obj? && EditableRole(RoleOf(js, j)) && Get(j, "value").Some? && j.fields["value"].Obj?
    ensures At(Visit(js, j, n), [Field("value"), Field("value")]) == Some(Str(REDACTED))
  {
    var m := j.fields;
    HideItemFits(js, m, n - 1);
    RoleItem(js, m);
    var v := HideItem(js, m)["value"];
    MarkerStays(js, v, n - 1);
    hide HideItem;
    assert Visit(js, j, n).fields["value"] == Visit(js, v, n - 1);
    assert [Field("value"), Field("value")][1..] == [Field("value")];
    assert [Field("value")][1..] == [];
  }

  lemma RoleItem(js: Js, m: map<string, Json>)
    requires EditableRole(RoleOf(js, Obj(m))) && "value" in m && m["value"].Obj?
    ensures "value" in HideItem(js, m) && Get(HideItem(js, m)["value"], "value") == Some(Str(REDACTED))
  {
    hide Hidden, HideProperty, EditableRole;
    assert RoleOf(js, Obj(HideNodes(js, m))) == RoleOf(js, Obj(m));
  }

  lemma MarkerStays(js: Js, v: Json, n: nat)
    requires Fits(v, n) && Get(v, "value") == Some(Str(REDACTED))
    ensures Get(Visit(js, v, n), "value") == Some(Str(REDACTED))
  {
    hide Hidden, HideProperty, EditableRole, RoleOf;
    HideItemFits(js, v.fields, n - 1);
    assert HideItem(js, v.fields)["value"] == Str(REDACTED);
  }

  /** A marker two fields down stays there, whatever object carries it. */
  lemma InnerMarkerStays(js: Js, p: Json, n: nat)
    requires Fits(p, n) && Get(p, "value").Some? && Get(p.fields["value"], "value") == Some(Str(REDACTED))
    ensures At(Visit(js, p, n), [Field("value"), Field("value")]) == Some(Str(REDACTED))
  {
    HideItemFits(js, p.fields, n - 1);
    InnerItem(js, p.fields);
    var v := HideItem(js, p.fields)["value"];
    MarkerStays(js, v, n - 1);
    hide HideItem;
    assert Visit(js, p, n).fields["value"] == Visit(js, v, n - 1);
    assert [Field("value"), Field("value")][1..] == [Field("value")];
    assert [Field("value")][1..] == [];
  }

  lemma InnerItem(js: Js, m: map<string, Json>)
    requires "value" in m && Get(m["value"], "value") == Some(Str(REDACTED))
    ensures "value" in HideItem(js, m) && Get(HideItem(js, m)["value"], "value") == Some(Str(REDACTED))
  {
    hide Hidden, HideProperty, EditableRole, RoleOf;
  }

  lemma PropertyItem(js: Js, m: map<string, Json>, i: nat)
    requires "properties" in m && m["properties"].Arr? && i < |m["properties"].items|
    ensures var item := HideItem(js, m);
            && "properties" in item && item["properties"].Arr? && i < |item["properties"].items|
            && item["properties"].items[i] == HideProperty(js, m["properties"].items[i])
  {
    hide Hidden, HideProperty, EditableRole, RoleOf, WriteMarker;
  }

  /** A property named value or valuetext ends with the marker as the value of its value. */
  lemma PropertyValueIsHidden(js: Js, j: Json, n: nat, i: nat)
    requires Fits(j, n) && j.Obj? && Get(j, "properties").Some? && j.fields["properties"].Arr?
    requires i < |j.fields["properties"].items|
    requires var p := j.fields["properties"].items[i];
             NameOf(js, p) in {"value", "valuetext"} && Get(p, "value").Some? && p.fields["value"].Obj?
    ensures var out := Visit(js, j, n);
            && "properties" in out.fields && out.fields["properties"].Arr? && i < |out.fields["properties"].items|
            && At(out.fields["properties"].items[i], [Field("value"), Field("value")]) == Some(Str(REDACTED))
  {
    var m, p := j.fields, j.fields["properties"].items[i];
    HideItemFits(js, m, n - 1);
    PropertyItem(js, m, i);
    hide HideItem, At;
    var item := HideItem(js, m);
    assert Visit(js, j, n).fields["properties"] == Visit(js, item["properties"], n - 1);
    assert Visit(js, item["properties"], n - 1).items[i] == Visit(js, HideProperty(js, p), n - 2);
    InnerMarkerStays(js, HideProperty(js, p), n - 2);
  }
}
