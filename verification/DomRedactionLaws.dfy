/** What sanitizeDomSnapshot guarantees: exactness, and that a second pass changes nothing. */
module DomRedactionLaws {
  import opened Options
  import opened DomRedaction

  /** A secret is a non-empty text reached from a form value, rare input data or a sensitive subtree. */
  ghost predicate Secret(c: Casing, t: seq<string>, ds: seq<Document>, s: string) {
    exists i | 0 <= i < |t| :: t[i] == s && s != "" && exists d | d in ds :: Reached(c, t, d, i)
  }

  ghost predicate HoldsSecret(c: Casing, t: seq<string>, ds: seq<Document>, s: string) {
    exists x :: Secret(c, t, ds, x) && Contains(s, x)
  }

  /** The output table is the input table with exactly those strings replaced that contain a secret. */
  lemma RedactionIsExact(c: Casing, t: seq<string>, ds: seq<Document>)
    requires Sanitize(c, t, ds).Some?
    ensures var out := Sanitize(c, t, ds).value;
            && |out| == |t|
            && (forall i | 0 <= i < |t| :: out[i] == if HoldsSecret(c, t, ds, t[i]) then REDACTED else t[i])
            && (forall i, d | 0 <= i < |t| && d in ds && Reached(c, t, d, i) && t[i] != "" :: out[i] == REDACTED)
            && (forall i, x | 0 <= i < |t| && Secret(c, t, ds, x) && Contains(out[i], x) :: out[i] == REDACTED)
  {
    hide Reached, DocumentOk;
    var tainted := Tainted(c, t, ds);
    forall i | 0 <= i < |t| ensures Hit(t, tainted, i) <==> HoldsSecret(c, t, ds, t[i]) {
      if i in tainted {
        assert OccursAt(t[i], t[i], 0);
        assert Secret(c, t, ds, t[i]);
      } else if Hit(t, tainted, i) {
        var k :| k in tainted && 0 <= k < |t| && Contains(t[i], t[k]);
        assert Secret(c, t, ds, t[k]);
      }
      if HoldsSecret(c, t, ds, t[i]) {
        var x :| Secret(c, t, ds, x) && Contains(t[i], x);
        var k :| 0 <= k < |t| && t[k] == x && x != "" && exists d | d in ds :: Reached(c, t, d, k);
        assert k in tainted;
      }
    }
  }

  // ---------------------------------------------------------------- a second pass

  /** The two casings leave the marker unlike any name the pass looks for. */
  predicate MarkerIsNoName(c: Casing) {
    !IsForm(c.upper(REDACTED)) && c.lower(REDACTED) != MARK && c.lower(REDACTED) != "value"
  }

  /** Every walk from a node or a layout entry comes out above a root. */
  ghost predicate WellFormed(d: Document) {
    && (forall n | 0 <= n < |d.nodeName| :: RootAbove(d.parentIndex, n))
    && (d.layout.Some? ==> forall n | n in d.layout.value.nodeIndex :: RootAbove(d.parentIndex, n))
  }

  /** The later table differs from the earlier one only by strings turned into the marker. */
  ghost predicate Masked(t: seq<string>, u: seq<string>) {
    |u| == |t| && forall i | 0 <= i < |t| :: u[i] == t[i] || u[i] == REDACTED
  }

  lemma MaskedText(t: seq<string>, u: seq<string>, i: int)
    requires Masked(t, u)
    ensures Text(u, i) == Text(t, i) || Text(u, i) == REDACTED
  {
  }

  lemma SensitiveShrinks(c: Casing, t: seq<string>, u: seq<string>, d: Document)
    requires MarkerIsNoName(c) && Masked(t, u)
    ensures SensitiveNodes(c, u, d) <= SensitiveNodes(c, t, d)
  {
    forall n | n in SensitiveNodes(c, u, d) ensures SensitiveNode(c, t, d, n) {
      MaskedText(t, u, d.nodeName[n]);
      if !FormNode(c, u, d, n) {
        var flat := d.attributes[n];
        var j: nat :| 2 * j < |flat| && AttributeName(c, u, flat, j) == MARK;
        MaskedText(t, u, flat[2 * j]);
        assert AttributeName(c, t, flat, j) == MARK;
      }
    }
  }

  lemma FormValueShrinks(c: Casing, t: seq<string>, u: seq<string>, d: Document, i: int)
    requires MarkerIsNoName(c) && Masked(t, u) && FormValue(c, u, d, i)
    ensures FormValue(c, t, d, i)
  {
    var n: nat :| n < |d.nodeName| && n < |d.attributes| && FormNode(c, u, d, n) && ValueOf(c, u, d.attributes[n], i);
    var flat := d.attributes[n];
    MaskedText(t, u, d.nodeName[n]);
    var j: nat :| 2 * j + 1 < |flat| && AttributeName(c, u, flat, j) == "value" && flat[2 * j + 1] == i;
    MaskedText(t, u, flat[2 * j]);
    assert AttributeName(c, t, flat, j) == "value";
    assert FormNode(c, t, d, n) && ValueOf(c, t, flat, i);
  }

  lemma AboveShrinks(parents: seq<int>, s: set<int>, bigger: set<int>, n: int)
    requires s <= bigger && SensitiveAbove(parents, s, n)
    ensures SensitiveAbove(parents, bigger, n)
  {
  }

  lemma SubtreeValueShrinks(c: Casing, t: seq<string>, u: seq<string>, d: Document, nodes: seq<int>,
      values: seq<int>, i: int)
    requires MarkerIsNoName(c) && Masked(t, u) && SubtreeValue(c, u, d, nodes, values, i)
    ensures SubtreeValue(c, t, d, nodes, values, i)
  {
    hide SensitiveAbove, SensitiveNodes;
    var n :| 0 <= n < |nodes| && n < |values| &&
      SensitiveAbove(d.parentIndex, SensitiveNodes(c, u, d), nodes[n]) && values[n] == i;
    SensitiveShrinks(c, t, u, d);
    AboveShrinks(d.parentIndex, SensitiveNodes(c, u, d), SensitiveNodes(c, t, d), nodes[n]);
  }

  lemma ReachedShrinks(c: Casing, t: seq<string>, u: seq<string>, d: Document, i: int)
    requires MarkerIsNoName(c) && Masked(t, u) && Reached(c, u, d, i)
    ensures Reached(c, t, d, i)
  {
    hide FormValue, RareValue, SubtreeValue;
    if FormValue(c, u, d, i) {
      FormValueShrinks(c, t, u, d, i);
    } else if SubtreeValue(c, u, d, Own(|d.nodeName|), d.nodeValue, i) {
      SubtreeValueShrinks(c, t, u, d, Own(|d.nodeName|), d.nodeValue, i);
    } else if d.layout.Some? && SubtreeValue(c, u, d, d.layout.value.nodeIndex, d.layout.value.text, i) {
      SubtreeValueShrinks(c, t, u, d, d.layout.value.nodeIndex, d.layout.value.text, i);
    }
  }

  /** Each of these walks still comes out above a root or meets a node that is sensitive in u. */
  ghost predicate WalksEnd(c: Casing, u: seq<string>, d: Document, nodes: seq<int>) {
    forall n | 0 <= n < |nodes| ::
      SensitiveAbove(d.parentIndex, SensitiveNodes(c, u, d), nodes[n]) || RootAbove(d.parentIndex, nodes[n])
  }

  ghost predicate Decided(c: Casing, u: seq<string>, d: Document) {
    WalksEnd(c, u, d, Own(|d.nodeName|)) && (d.layout.Some? ==> WalksEnd(c, u, d, d.layout.value.nodeIndex))
  }

  lemma SubtreesStayOk(c: Casing, t: seq<string>, u: seq<string>, d: Document, nodes: seq<int>, values: seq<int>)
    requires MarkerIsNoName(c) && Masked(t, u) && SubtreesOk(c, t, d, nodes, values)
    ensures SubtreesOk(c, u, d, nodes, values) <==> WalksEnd(c, u, d, nodes)
  {
    hide SensitiveAbove, SensitiveNodes, RootAbove;
    SensitiveShrinks(c, t, u, d);
    forall n | 0 <= n < |nodes| && SensitiveAbove(d.parentIndex, SensitiveNodes(c, u, d), nodes[n])
      ensures Readable(u, values[n])
    {
      AboveShrinks(d.parentIndex, SensitiveNodes(c, u, d), SensitiveNodes(c, t, d), nodes[n]);
    }
  }

  lemma DocumentStaysOk(c: Casing, t: seq<string>, u: seq<string>, d: Document)
    requires MarkerIsNoName(c) && Masked(t, u) && DocumentOk(c, t, d)
    ensures DocumentOk(c, u, d) <==> Decided(c, u, d)
  {
    hide SubtreesOk, WalksEnd;
    SubtreesStayOk(c, t, u, d, Own(|d.nodeName|), d.nodeValue);
    if d.layout.Some? {
      SubtreesStayOk(c, t, u, d, d.layout.value.nodeIndex, d.layout.value.text);
    }
    assert NodesReadable(u, d);
  }

  /** Where no input string contains the marker, a second pass can do only one of two things: change
      nothing, or fail because a walk that used to stop at a sensitive node no longer ends. */
  lemma SecondPass(c: Casing, t: seq<string>, ds: seq<Document>)
    requires MarkerIsNoName(c)
    requires forall s | s in t :: !Contains(s, REDACTED)
    requires Sanitize(c, t, ds).Some?
    ensures var u := Sanitize(c, t, ds).value;
            && (Sanitize(c, u, ds).Some? ==> Sanitize(c, u, ds) == Some(u))
            && (Sanitize(c, u, ds).Some? <==> forall d | d in ds :: Decided(c, u, d))
  {
    hide Reached, DocumentOk, Decided, Contains;
    var tainted := Tainted(c, t, ds);
    var u := Redact(t, tainted);
    assert Masked(t, u);
    forall d | d in ds ensures DocumentOk(c, u, d) <==> Decided(c, u, d) {
      DocumentStaysOk(c, t, u, d);
    }
    NothingMoreToHide(c, t, ds);
  }

  lemma NothingMoreToHide(c: Casing, t: seq<string>, ds: seq<Document>)
    requires MarkerIsNoName(c) && forall s | s in t :: !Contains(s, REDACTED)
    ensures var u := Redact(t, Tainted(c, t, ds)); Redact(u, Tainted(c, u, ds)) == u
  {
    hide Reached, Contains;
    var tainted := Tainted(c, t, ds);
    var u := Redact(t, tainted);
    var later := Tainted(c, u, ds);
    assert Masked(t, u);
    forall i | i in later ensures u[i] == REDACTED {
      var d :| d in ds && Reached(c, u, d, i);
      ReachedShrinks(c, t, u, d, i);
      if t[i] == "" {
        EmptyStays(t, tainted, i);
      } else {
        assert i in tainted;
      }
    }
    forall i | 0 <= i < |u| && Hit(u, later, i) ensures u[i] == REDACTED {
      if i !in later {
        var k :| k in later && 0 <= k < |u| && Contains(u[i], u[k]);
        assert t[i] in t;
      }
    }
    assert Redact(u, later) == u;
  }

  lemma WellFormedIsDecided(c: Casing, u: seq<string>, d: Document)
    requires WellFormed(d)
    ensures Decided(c, u, d)
  {
  }

  /** Sanitizing a sanitized snapshot changes nothing: even where the first pass hid a tag or an
      attribute name, the second still succeeds and finds nothing more to hide. */
  lemma SanitizeTwice(c: Casing, t: seq<string>, ds: seq<Document>)
    requires MarkerIsNoName(c)
    requires forall d | d in ds :: WellFormed(d)
    requires forall s | s in t :: !Contains(s, REDACTED)
    requires Sanitize(c, t, ds).Some?
    ensures Sanitize(c, Sanitize(c, t, ds).value, ds) == Sanitize(c, t, ds)
  {
    hide Sanitize, WellFormed, Decided, Contains;
    SecondPass(c, t, ds);
    forall d | d in ds ensures Decided(c, Sanitize(c, t, ds).value, d) {
      WellFormedIsDecided(c, Sanitize(c, t, ds).value, d);
    }
  }

  /** An empty string contains no secret. */
  lemma EmptyStays(t: seq<string>, tainted: set<int>, i: int)
    requires 0 <= i < |t| && t[i] == "" && forall k | k in tainted :: Worth(t, k)
    ensures Redact(t, tainted)[i] == ""
  {
  }

  /** The parent graph does have to be well formed. An input whose parent index is its own, and whose
      value is its own tag name, passes once: the walk stops at the sensitive node before it can
      notice the cycle. With the tag name hidden the node is no longer sensitive, and the second
      pass fails. */
  lemma CycleUnderAHiddenTag(c: Casing, t: seq<string>, d: Document)
    requires MarkerIsNoName(c) && c.upper("INPUT") == "INPUT" && c.lower("value") == "value"
    requires t == ["INPUT", "value"]
    requires d == Document([0], [-1], [0], [[1, 0]], None, None, None)
    ensures Sanitize(c, t, [d]).Some?
    ensures Sanitize(c, Sanitize(c, t, [d]).value, [d]).None?
  {
    hide Contains;
    assert FormNode(c, t, d, 0) && SensitiveNode(c, t, d, 0);
    assert Up(d.parentIndex, 0, 0) == Some(0);
    var sensitive := SensitiveNodes(c, t, d);
    assert 0 in sensitive;
    assert SensitiveAbove(d.parentIndex, sensitive, 0);
    assert SubtreesOk(c, t, d, Own(1), d.nodeValue);
    assert DocumentOk(c, t, d);
    assert AttributeName(c, t, [1, 0], 0) == "value";
    assert ValueOf(c, t, [1, 0], 0);
    assert FormValue(c, t, d, 0);
    assert Reached(c, t, d, 0);
    assert d in [d] && 0 in Tainted(c, t, [d]);
    var u := Redact(t, Tainted(c, t, [d]));
    assert u[0] == REDACTED;
    HiddenTagFails(c, u, d);
  }

  lemma HiddenTagFails(c: Casing, u: seq<string>, d: Document)
    requires MarkerIsNoName(c) && c.lower("value") == "value"
    requires |u| == 2 && u[0] == REDACTED && u[1] in ["value", REDACTED]
    requires d == Document([0], [-1], [0], [[1, 0]], None, None, None)
    ensures !DocumentOk(c, u, d)
  {
    var sensitive := SensitiveNodes(c, u, d);
    assert !FormNode(c, u, d, 0);
    assert !Marked(c, u, [1, 0]) by {
      forall j: nat | 2 * j < 2 ensures AttributeName(c, u, [1, 0], j) != MARK {
        assert j == 0;
      }
    }
    assert sensitive == {};
    assert Up([0], 0, 0) == Up([0], 0, 1) == Some(0);
    CycleDecidesNothing([0], sensitive, 0, 0, 1, {0});
    assert Own(1)[0] == 0;
  }
}
