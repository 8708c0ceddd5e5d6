/**
 sanitizeDomSnapshot of apps/extension/src/redaction.ts: which strings of a DOM snapshot are
 tainted, what the redacted string table is, and why redacting twice changes nothing more.

 The snapshot's arrays are given with their element types; the shape errors that a dynamically
 typed value can cause before that are not modelled.
 */
module DomRedaction {
  import opened Options
  import opened Numbers

  const REDACTED := "[REDACTED]"
  const MARK := "data-browser-control-sensitive"

  /** JavaScript's locale-independent case mappings. */
  datatype Casing = Casing(upper: string -> string, lower: string -> string)

  datatype Rare = Rare(index: seq<int>, value: seq<int>)

  datatype Layout = Layout(nodeIndex: seq<int>, text: seq<int>)

  datatype Document = Document(
    nodeName: seq<int>, nodeValue: seq<int>, parentIndex: seq<int>, attributes: seq<seq<int>>,
    inputValue: Option<Rare>, textValue: Option<Rare>, layout: Option<Layout>)

  // ---------------------------------------------------------------- the parent walk

  /** The k-th step up from a node; None once the walk has left the array. */
  function Up(parents: seq<int>, n: int, k: nat): Option<int> {
    if k == 0 then Some(n)
    else match Up(parents, n, k - 1)
      case Some(m) => if 0 <= m < |parents| then Some(parents[m]) else None
      case None => None
  }

  ghost predicate SensitiveAbove(parents: seq<int>, sensitive: set<int>, n: int) {
    exists k: nat :: Up(parents, n, k).Some? && Up(parents, n, k).value in sensitive
  }

  /** The walk ends above a root, whose parent index is negative. */
  ghost predicate RootAbove(parents: seq<int>, n: int) {
    exists k: nat :: Up(parents, n, k).Some? && Up(parents, n, k).value < 0
  }

  datatype Walk = Inside | Outside | BadGraph

  /** After a repetition the walk only revisits what it has seen. */
  lemma {:induction false} CycleRepeats(parents: seq<int>, n: int, j: nat, k: nat, m: nat)
    requires j < k && Up(parents, n, j) == Up(parents, n, k)
    ensures exists i: nat :: i < k && Up(parents, n, m) == Up(parents, n, i)
  {
    if m >= k {
      CycleRepeats(parents, n, j, k, m - 1);
      var i: nat :| i < k && Up(parents, n, m - 1) == Up(parents, n, i);
      assert Up(parents, n, m) == Up(parents, n, i + 1);
      if i + 1 == k {
        assert Up(parents, n, m) == Up(parents, n, j);
      }
    }
  }

  /** Beyond a step that left the array there is nothing. */
  lemma {:induction false} NothingBeyond(parents: seq<int>, n: int, k: nat, m: nat)
    requires k <= m && (Up(parents, n, k).None? || !(0 <= Up(parents, n, k).value < |parents|))
    ensures m > k ==> Up(parents, n, m).None?
  {
    if m > k + 1 {
      NothingBeyond(parents, n, k, m - 1);
    }
  }

  /** The ancestor walk ends and decides: inside when some node on the way up, the start included, is
      sensitive; outside when it meets none and comes out above a root; and in error on a cycle or
      an index out of range. */
  method BelongsToSensitiveSubtree(parents: seq<int>, sensitive: set<int>, nodeIndex: int) returns (r: Walk)
    requires forall n | n in sensitive :: 0 <= n < |parents|
    ensures r == Inside <==> SensitiveAbove(parents, sensitive, nodeIndex)
    ensures r == Outside <==> !SensitiveAbove(parents, sensitive, nodeIndex) && RootAbove(parents, nodeIndex)
  {
    var visited: set<int> := {};
    var current := nodeIndex;
    ghost var k: nat := 0;
    while current >= 0
      invariant Up(parents, nodeIndex, k) == Some(current)
      invariant forall j: nat | j < k ::
                  Up(parents, nodeIndex, j).Some? && Up(parents, nodeIndex, j).value in visited
      invariant forall v | v in visited :: 0 <= v < |parents| && v !in sensitive &&
                  exists j: nat :: j < k && Up(parents, nodeIndex, j) == Some(v)
      decreases Indices(|parents|) - visited, current >= 0
    {
      if current in sensitive {
        return Inside;
      }
      if current in visited {
        ghost var j: nat :| j < k && Up(parents, nodeIndex, j) == Some(current);
        CycleDecidesNothing(parents, sensitive, nodeIndex, j, k, visited);
        return BadGraph;
      }
      if current >= |parents| {
        StopsAt(parents, sensitive, nodeIndex, k, visited);
        return BadGraph;
      }
      visited := visited + {current};
      current := parents[current];
      k := k + 1;
    }
    StopsAt(parents, sensitive, nodeIndex, k, visited);
    return Outside;
  }

  lemma CycleDecidesNothing(parents: seq<int>, sensitive: set<int>, n: int, j: nat, k: nat, visited: set<int>)
    requires j < k && Up(parents, n, j) == Up(parents, n, k)
    requires forall i: nat | i < k :: Up(parents, n, i).Some? && Up(parents, n, i).value in visited
    requires forall v | v in visited :: 0 <= v < |parents| && v !in sensitive
    ensures !SensitiveAbove(parents, sensitive, n) && !RootAbove(parents, n)
  {
    forall m: nat
      ensures Up(parents, n, m).Some? && Up(parents, n, m).value !in sensitive && Up(parents, n, m).value >= 0
    {
      CycleRepeats(parents, n, j, k, m);
      var v: int := Up(parents, n, m).value;
      assert v in visited;
    }
  }

  /** A walk that leaves the array at step k has seen all it will see. */
  lemma StopsAt(parents: seq<int>, sensitive: set<int>, n: int, k: nat, visited: set<int>)
    requires forall v | v in sensitive :: 0 <= v < |parents|
    requires Up(parents, n, k).Some? && !(0 <= Up(parents, n, k).value < |parents|)
    requires forall j: nat | j < k :: Up(parents, n, j).Some? && Up(parents, n, j).value in visited
    requires forall v | v in visited :: 0 <= v < |parents| && v !in sensitive
    ensures !SensitiveAbove(parents, sensitive, n)
    ensures RootAbove(parents, n) <==> Up(parents, n, k).value < 0
  {
    forall m: nat | Up(parents, n, m).Some?
      ensures Up(parents, n, m).value !in sensitive && (m != k ==> Up(parents, n, m).value >= 0)
    {
      if m > k {
        NothingBeyond(parents, n, k, m);
      }
    }
  }

  // ---------------------------------------------------------------- what is tainted

  /** stringAt accepts -1, which reads as the empty string, and the indices of the table. */
  predicate Readable(t: seq<string>, i: int) {
    -1 <= i < |t|
  }

  function Text(t: seq<string>, i: int): string {
    if 0 <= i < |t| then t[i] else ""
  }

  /** Only a non-empty string is worth tainting. */
  predicate Worth(t: seq<string>, i: int) {
    0 <= i < |t| && t[i] != ""
  }

  predicate IsForm(tag: string) {
    tag == "INPUT" || tag == "TEXTAREA"
  }

  predicate FormNode(c: Casing, t: seq<string>, d: Document, n: nat)
    requires n < |d.nodeName|
  {
    IsForm(c.upper(Text(t, d.nodeName[n])))
  }

  /** The name of the j-th attribute of node n. */
  function AttributeName(c: Casing, t: seq<string>, flat: seq<int>, j: nat): string
    requires 2 * j < |flat|
  {
    c.lower(Text(t, flat[2 * j]))
  }

  ghost predicate Marked(c: Casing, t: seq<string>, flat: seq<int>) {
    exists j: nat | 2 * j < |flat| :: AttributeName(c, t, flat, j) == MARK
  }

  ghost predicate SensitiveNode(c: Casing, t: seq<string>, d: Document, n: nat) {
    n < |d.nodeName| && n < |d.attributes| && (FormNode(c, t, d, n) || Marked(c, t, d.attributes[n]))
  }

  ghost function SensitiveNodes(c: Casing, t: seq<string>, d: Document): set<int> {
    set n: int | 0 <= n < |d.nodeName| && SensitiveNode(c, t, d, n)
  }

  predicate SameLengths(d: Document) {
    |d.nodeName| == |d.nodeValue| == |d.parentIndex| == |d.attributes|
  }

  predicate AttributesReadable(t: seq<string>, flat: seq<int>) {
    |flat| % 2 == 0 && forall j | 0 <= j < |flat| :: Readable(t, flat[j])
  }

  predicate NodesReadable(t: seq<string>, d: Document) {
    SameLengths(d) && forall n | 0 <= n < |d.nodeName| ::
        Readable(t, d.nodeName[n]) && AttributesReadable(t, d.attributes[n])
  }

  /** String i is the value of a value attribute in this flat list. */
  ghost predicate ValueOf(c: Casing, t: seq<string>, flat: seq<int>, i: int) {
    exists j: nat | 2 * j + 1 < |flat| :: AttributeName(c, t, flat, j) == "value" && flat[2 * j + 1] == i
  }

  ghost predicate FormValue(c: Casing, t: seq<string>, d: Document, i: int) {
    exists n: nat | n < |d.nodeName| && n < |d.attributes| :: FormNode(c, t, d, n) && ValueOf(c, t, d.attributes[n], i)
  }

  predicate RareValue(r: Option<Rare>, i: int) {
    r.Some? && i in r.value.value
  }

  ghost predicate SubtreeValue(c: Casing, t: seq<string>, d: Document, nodes: seq<int>, values: seq<int>, i: int) {
    exists n | 0 <= n < |nodes| && n < |values| ::
      SensitiveAbove(d.parentIndex, SensitiveNodes(c, t, d), nodes[n]) && values[n] == i
  }

  function Own(n: nat): seq<int> {
    seq(n, i => i)
  }

  /** String i is reached from a form value attribute, rare input data or a sensitive subtree. */
  ghost predicate Reached(c: Casing, t: seq<string>, d: Document, i: int) {
    || FormValue(c, t, d, i)
    || RareValue(d.inputValue, i) || RareValue(d.textValue, i)
    || SubtreeValue(c, t, d, Own(|d.nodeName|), d.nodeValue, i)
    || (d.layout.Some? && SubtreeValue(c, t, d, d.layout.value.nodeIndex, d.layout.value.text, i))
  }

  ghost function Tainted(c: Casing, t: seq<string>, ds: seq<Document>): set<int> {
    set i | 0 <= i < |t| && Worth(t, i) && (exists d | d in ds :: Reached(c, t, d, i))
  }

  // ---------------------------------------------------------------- when it succeeds

  ghost predicate RareOk(t: seq<string>, r: Option<Rare>) {
    r.Some? ==> |r.value.index| == |r.value.value| && forall i | i in r.value.value :: Readable(t, i)
  }

  /** Each walk comes out, and each value it taints can be read. */
  ghost predicate SubtreesOk(c: Casing, t: seq<string>, d: Document, nodes: seq<int>, values: seq<int>) {
    && |nodes| == |values|
    && (forall n | 0 <= n < |nodes| ::
          if SensitiveAbove(d.parentIndex, SensitiveNodes(c, t, d), nodes[n]) then Readable(t, values[n])
          else RootAbove(d.parentIndex, nodes[n]))
  }

  ghost predicate DocumentOk(c: Casing, t: seq<string>, d: Document) {
    && NodesReadable(t, d) && RareOk(t, d.inputValue) && RareOk(t, d.textValue)
    && SubtreesOk(c, t, d, Own(|d.nodeName|), d.nodeValue)
    && (d.layout.Some? ==> SubtreesOk(c, t, d, d.layout.value.nodeIndex, d.layout.value.text))
  }

  // ---------------------------------------------------------------- the redacted table

  predicate Contains(s: string, x: string) {
    exists k | 0 <= k <= |s| :: OccursAt(s, x, k)
  }

  predicate OccursAt(s: string, x: string, k: nat) {
    k + |x| <= |s| && s[k..k + |x|] == x
  }

  predicate Hit(t: seq<string>, tainted: set<int>, i: int)
    requires 0 <= i < |t|
  {
    i in tainted || exists k | k in tainted && 0 <= k < |t| :: Contains(t[i], t[k])
  }

  function Redact(t: seq<string>, tainted: set<int>): seq<string> {
    seq(|t|, i requires 0 <= i < |t| => if Hit(t, tainted, i) then REDACTED else t[i])
  }

  /** sanitizeDomSnapshot on the string table; None is the thrown error. */
  ghost function Sanitize(c: Casing, t: seq<string>, ds: seq<Document>): Option<seq<string>> {
    if forall d | d in ds :: DocumentOk(c, t, d) then Some(Redact(t, Tainted(c, t, ds))) else None
  }

  // ---------------------------------------------------------------- the passes over one document

  /** The attributes of one node. */
  method ScanAttributes(c: Casing, t: seq<string>, flat: seq<int>, form: bool, tainted: set<int>)
    returns (ok: bool, marked: bool, r: set<int>)
    ensures ok <==> AttributesReadable(t, flat)
    ensures ok ==> (marked <==> Marked(c, t, flat))
    ensures ok ==> forall i :: i in r <==> i in tainted || (form && Worth(t, i) && ValueOf(c, t, flat, i))
  {
    ok, marked, r := true, false, tainted;
    if |flat| % 2 != 0 {
      return false, false, tainted;
    }
    var j: nat := 0;
    while 2 * j < |flat|
      invariant 2 * j <= |flat|
      invariant forall i | 0 <= i < 2 * j :: Readable(t, flat[i])
      invariant marked <==> exists i: nat | i < j :: AttributeName(c, t, flat, i) == MARK
      invariant forall i :: i in r <==> (i in tainted ||
                  (form && Worth(t, i) && exists k: nat | k < j ::
                      AttributeName(c, t, flat, k) == "value" && flat[2 * k + 1] == i))
    {
      if !Readable(t, flat[2 * j]) || !Readable(t, flat[2 * j + 1]) {
        return false, false, tainted;
      }
      var name := AttributeName(c, t, flat, j);
      if name == MARK {
        marked := true;
      }
      if name == "value" && form && Text(t, flat[2 * j + 1]) != "" {
        r := r + {flat[2 * j + 1]};
      }
      j := j + 1;
    }
  }

  /** The nodes of one document. */
  method ScanNodes(c: Casing, t: seq<string>, d: Document, tainted: set<int>)
    returns (ok: bool, sensitive: set<int>, r: set<int>)
    ensures ok <==> NodesReadable(t, d)
    ensures ok ==> sensitive == SensitiveNodes(c, t, d)
    ensures ok ==> forall i :: i in r <==> i in tainted || (Worth(t, i) && FormValue(c, t, d, i))
  {
    ok, sensitive, r := true, {}, tainted;
    if !SameLengths(d) {
      return false, {}, tainted;
    }
    var n: nat := 0;
    while n < |d.nodeName|
      invariant n <= |d.nodeName|
      invariant forall m | 0 <= m < n :: Readable(t, d.nodeName[m]) && AttributesReadable(t, d.attributes[m])
      invariant forall m :: m in sensitive <==> 0 <= m < n && SensitiveNode(c, t, d, m)
      invariant forall i :: i in r <==> (i in tainted ||
                  (Worth(t, i) && exists m: nat | m < n :: FormNode(c, t, d, m) && ValueOf(c, t, d.attributes[m], i)))
    {
      if !Readable(t, d.nodeName[n]) {
        return false, {}, tainted;
      }
      var form := FormNode(c, t, d, n);
      var fine, marked, more := ScanAttributes(c, t, d.attributes[n], form, r);
      if !fine {
        return false, {}, tainted;
      }
      r := more;
      if form || marked {
        sensitive := sensitive + {n};
      }
      n := n + 1;
    }
  }

  /** The rare input values. */
  method TaintRare(t: seq<string>, rare: Option<Rare>, tainted: set<int>) returns (ok: bool, r: set<int>)
    ensures ok <==> RareOk(t, rare)
    ensures ok ==> forall i :: i in r <==> i in tainted || (Worth(t, i) && RareValue(rare, i))
  {
    ok, r := true, tainted;
    if rare.None? {
      return;
    }
    if |rare.value.index| != |rare.value.value| {
      return false, tainted;
    }
    var values := rare.value.value;
    for n := 0 to |values|
      invariant forall m | 0 <= m < n :: Readable(t, values[m])
      invariant forall i :: i in r <==> i in tainted || (Worth(t, i) && i in values[..n])
    {
      if !Readable(t, values[n]) {
        return false, tainted;
      }
      if Text(t, values[n]) != "" {
        r := r + {values[n]};
      }
    }
    assert values[..|values|] == values;
  }

  /** The texts of the nodes that lie in a sensitive subtree. */
  method TaintSubtrees(ghost c: Casing, t: seq<string>, d: Document, sensitive: set<int>,
                       nodes: seq<int>, values: seq<int>, tainted: set<int>)
    returns (ok: bool, r: set<int>)
    requires SameLengths(d) && sensitive == SensitiveNodes(c, t, d)
    ensures ok <==> SubtreesOk(c, t, d, nodes, values)
    ensures ok ==> forall i :: i in r <==> i in tainted || (Worth(t, i) && SubtreeValue(c, t, d, nodes, values, i))
  {
    ok, r := true, tainted;
    if |nodes| != |values| {
      return false, tainted;
    }
    for n := 0 to |nodes|
      invariant forall m | 0 <= m < n ::
                  if SensitiveAbove(d.parentIndex, sensitive, nodes[m]) then Readable(t, values[m])
                  else RootAbove(d.parentIndex, nodes[m])
      invariant forall i :: i in r <==> (i in tainted ||
                  (Worth(t, i) && exists m | 0 <= m < n ::
                      SensitiveAbove(d.parentIndex, sensitive, nodes[m]) && values[m] == i))
    {
      var walk := BelongsToSensitiveSubtree(d.parentIndex, sensitive, nodes[n]);
      if walk == BadGraph || (walk == Inside && !Readable(t, values[n])) {
        return false, tainted;
      }
      if walk == Inside && Text(t, values[n]) != "" {
        r := r + {values[n]};
      }
    }
  }

  method TaintDocument(c: Casing, t: seq<string>, d: Document, tainted: set<int>) returns (ok: bool, r: set<int>)
    ensures ok <==> DocumentOk(c, t, d)
    ensures ok ==> forall i :: i in r <==> i in tainted || (Worth(t, i) && Reached(c, t, d, i))
  {
    hide SubtreesOk, SubtreeValue, SensitiveNodes, FormValue, RareOk, RareValue;
    var sensitive;
    ok, sensitive, r := ScanNodes(c, t, d, tainted);
    if !ok {
      return;
    }
    ok, r := TaintRare(t, d.inputValue, r);
    if !ok {
      return;
    }
    ok, r := TaintRare(t, d.textValue, r);
    if !ok {
      return;
    }
    ok, r := TaintSubtrees(c, t, d, sensitive, Own(|d.nodeName|), d.nodeValue, r);
    if !ok || d.layout.None? {
      return;
    }
    ok, r := TaintSubtrees(c, t, d, sensitive, d.layout.value.nodeIndex, d.layout.value.text, r);
  }

  method TaintedValues(t: seq<string>, tainted: set<int>) returns (values: seq<string>)
    requires forall i | i in tainted :: 0 <= i < |t|
    ensures forall v :: v in values <==> exists i | i in tainted :: t[i] == v
  {
    values := [];
    for n := 0 to |t|
      invariant forall v :: v in values <==> exists i | i in tainted :: i < n && t[i] == v
    {
      if n in tainted {
        values := values + [t[n]];
      }
    }
  }

  /** sanitizeDomSnapshot: it overwrites the cloned string table in place, or fails before touching it. */
  method SanitizeDomSnapshot(c: Casing, strings: array<string>, ds: seq<Document>) returns (ok: bool)
    modifies strings
    ensures ok <==> Sanitize(c, old(strings[..]), ds).Some?
    ensures strings[..] == if ok then Sanitize(c, old(strings[..]), ds).value else old(strings[..])
  {
    hide Reached, DocumentOk, Contains;
    var t := strings[..];
    var tainted: set<int> := {};
    for n := 0 to |ds|
      invariant strings[..] == t
      invariant forall d | d in ds[..n] :: DocumentOk(c, t, d)
      invariant forall i :: i in tainted <==> Worth(t, i) && exists d | d in ds[..n] :: Reached(c, t, d, i)
    {
      var more;
      ok, more := TaintDocument(c, t, ds[n], tainted);
      if !ok {
        return;
      }
      assert ds[..n + 1] == ds[..n] + [ds[n]];
      tainted := more;
    }
    ok := true;
    assert ds[..|ds|] == ds;
    assert tainted == Tainted(c, t, ds);
    var values := TaintedValues(t, tainted);
    for index := 0 to strings.Length
      invariant forall i | index <= i < strings.Length :: strings[i] == t[i]
      invariant forall i | 0 <= i < index :: strings[i] == if Hit(t, tainted, i) then REDACTED else t[i]
    {
      var value := strings[index];
      if index in tainted || exists secret | secret in values :: Contains(value, secret) {
        strings[index] := REDACTED;
      }
    }
    assert strings[..] == Redact(t, tainted);
  }
}
