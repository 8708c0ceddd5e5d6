/**
 sanitizeDomSnapshot in the words of the snapshot (apps/extension/src/redaction.ts): which strings of a
 document have to go, which snapshots are refused, and that exactly this happens.
 */
module DomRedactionFacts {
  import opened Options
  import opened DomRedaction
  import opened DomRedactionLaws

  // ---------------------------------------------------------------- what has to go

  /** Parent by parent from n one comes to m, possibly at once. */
  ghost predicate AtOrAbove(parents: seq<int>, n: int, m: int) {
    exists path: seq<int> :: Climbs(parents, path, n, m)
  }

  ghost predicate Climbs(parents: seq<int>, path: seq<int>, n: int, m: int) {
    && path != [] && path[0] == n && path[|path| - 1] == m
    && forall i | 0 <= i < |path| - 1 :: 0 <= path[i] < |parents| && path[i + 1] == parents[path[i]]
  }

  function StringAt(t: seq<string>, i: int): string {
    if i < 0 || i >= |t| then "" else t[i]
  }

  ghost predicate IsInput(c: Casing, t: seq<string>, d: Document, n: int) {
    0 <= n < |d.nodeName| && c.upper(StringAt(t, d.nodeName[n])) in {"INPUT", "TEXTAREA"}
  }

  /** The node has an attribute of this name, in lower case, with this string as its value. */
  ghost predicate HasAttribute(c: Casing, t: seq<string>, d: Document, n: int, name: string, i: int) {
    0 <= n < |d.attributes| &&
    exists j: nat :: 2 * j + 1 < |d.attributes[n]| && NamedAt(c, t, d.attributes[n], j, name) &&
        d.attributes[n][2 * j + 1] == i
  }

  ghost predicate NamedAt(c: Casing, t: seq<string>, flat: seq<int>, j: nat, name: string) {
    2 * j < |flat| && c.lower(StringAt(t, flat[2 * j])) == name
  }

  ghost predicate IsSensitive(c: Casing, t: seq<string>, d: Document, m: int) {
    IsInput(c, t, d, m) || exists i :: HasAttribute(c, t, d, m, "data-browser-control-sensitive", i)
  }

  ghost predicate UnderSensitive(c: Casing, t: seq<string>, d: Document, n: int) {
    exists m :: AtOrAbove(d.parentIndex, n, m) && IsSensitive(c, t, d, m)
  }

  /** String i was typed into the document: a value of inputValue or textValue, the value attribute of an input
      or text area, or the text of a node or layout entry at or below such a node or a marked one. */
  ghost predicate Typed(c: Casing, t: seq<string>, d: Document, i: int) {
    || (d.inputValue.Some? && i in d.inputValue.value.value)
    || (d.textValue.Some? && i in d.textValue.value.value)
    || (exists n :: IsInput(c, t, d, n) && HasAttribute(c, t, d, n, "value", i))
    || (exists n :: 0 <= n < |d.nodeValue| && d.nodeValue[n] == i && UnderSensitive(c, t, d, n))
    || (d.layout.Some? && exists n ::
          && 0 <= n < |d.layout.value.text| && n < |d.layout.value.nodeIndex| && d.layout.value.text[n] == i
          && UnderSensitive(c, t, d, d.layout.value.nodeIndex[n]))
  }

  // ---------------------------------------------------------------- the walk and the climb

  lemma {:induction false} WalkIsClimb(parents: seq<int>, n: int, k: nat)
    requires Up(parents, n, k).Some?
    ensures AtOrAbove(parents, n, Up(parents, n, k).value)
  {
    if k == 0 {
      assert Climbs(parents, [n], n, n);
    } else {
      WalkIsClimb(parents, n, k - 1);
      var m := Up(parents, n, k - 1).value;
      var path: seq<int> :| Climbs(parents, path, n, m);
      assert Climbs(parents, path + [parents[m]], n, parents[m]);
    }
  }

  lemma {:induction false} ClimbIsWalk(parents: seq<int>, path: seq<int>, n: int, m: int)
    requires Climbs(parents, path, n, m)
    ensures Up(parents, n, |path| - 1) == Some(m)
    decreases |path|
  {
    if |path| > 1 {
      var shorter := path[..|path| - 1];
      assert Climbs(parents, shorter, n, path[|path| - 2]);
      ClimbIsWalk(parents, shorter, n, path[|path| - 2]);
    }
  }

  lemma SensitiveIsAbove(parents: seq<int>, sensitive: set<int>, n: int)
    ensures SensitiveAbove(parents, sensitive, n) <==> exists m :: AtOrAbove(parents, n, m) && m in sensitive
  {
    hide Up;
    if SensitiveAbove(parents, sensitive, n) {
      var k: nat :| Up(parents, n, k).Some? && Up(parents, n, k).value in sensitive;
      WalkIsClimb(parents, n, k);
      var m: int := Up(parents, n, k).value;
      assert m in sensitive;
    }
    if m :| AtOrAbove(parents, n, m) && m in sensitive {
      var path: seq<int> :| Climbs(parents, path, n, m);
      ClimbIsWalk(parents, path, n, m);
    }
  }

  lemma RootIsAbove(parents: seq<int>, n: int)
    ensures RootAbove(parents, n) <==> exists m :: AtOrAbove(parents, n, m) && m < 0
  {
    hide Up;
    if RootAbove(parents, n) {
      var k: nat :| Up(parents, n, k).Some? && Up(parents, n, k).value < 0;
      WalkIsClimb(parents, n, k);
    }
    if m :| AtOrAbove(parents, n, m) && m < 0 {
      var path: seq<int> :| Climbs(parents, path, n, m);
      ClimbIsWalk(parents, path, n, m);
    }
  }

  lemma MarkIsAttribute(c: Casing, t: seq<string>, d: Document, n: nat)
    requires n < |d.attributes| && |d.attributes[n]| % 2 == 0
    ensures Marked(c, t, d.attributes[n]) <==> exists i :: HasAttribute(c, t, d, n, "data-browser-control-sensitive", i)
  {
    var flat := d.attributes[n];
    if Marked(c, t, flat) {
      var j: nat :| 2 * j < |flat| && AttributeName(c, t, flat, j) == MARK;
      assert NamedAt(c, t, flat, j, "data-browser-control-sensitive");
      assert HasAttribute(c, t, d, n, "data-browser-control-sensitive", flat[2 * j + 1]);
    }
    if i :| HasAttribute(c, t, d, n, "data-browser-control-sensitive", i) {
      var j: nat :| 2 * j + 1 < |flat| && NamedAt(c, t, flat, j, "data-browser-control-sensitive");
      assert AttributeName(c, t, flat, j) == MARK;
    }
  }

  lemma SensitiveIsSensitive(c: Casing, t: seq<string>, d: Document, m: int)
    requires SameLengths(d) && forall n | 0 <= n < |d.attributes| :: |d.attributes[n]| % 2 == 0
    ensures m in SensitiveNodes(c, t, d) <==> IsSensitive(c, t, d, m)
  {
    hide Marked, HasAttribute;
    if 0 <= m < |d.nodeName| {
      MarkIsAttribute(c, t, d, m);
    } else {
      NoAttribute(c, t, d, m);
    }
  }

  lemma NoAttribute(c: Casing, t: seq<string>, d: Document, m: int)
    requires !(0 <= m < |d.attributes|)
    ensures forall name, i :: !HasAttribute(c, t, d, m, name, i)
  {
  }

  lemma SubtreeIsUnder(c: Casing, t: seq<string>, d: Document, n: int)
    requires SameLengths(d) && forall n | 0 <= n < |d.attributes| :: |d.attributes[n]| % 2 == 0
    ensures SensitiveAbove(d.parentIndex, SensitiveNodes(c, t, d), n) <==> UnderSensitive(c, t, d, n)
  {
    hide SensitiveAbove, SensitiveNodes, AtOrAbove, IsSensitive;
    SensitiveIsAbove(d.parentIndex, SensitiveNodes(c, t, d), n);
    forall m ensures m in SensitiveNodes(c, t, d) <==> IsSensitive(c, t, d, m) {
      SensitiveIsSensitive(c, t, d, m);
    }
  }

  lemma FormValueIsAttribute(c: Casing, t: seq<string>, d: Document, i: int)
    requires SameLengths(d)
    ensures FormValue(c, t, d, i) <==> exists n :: IsInput(c, t, d, n) && HasAttribute(c, t, d, n, "value", i)
  {
    if FormValue(c, t, d, i) {
      var n: nat :| n < |d.nodeName| && n < |d.attributes| && FormNode(c, t, d, n) && ValueOf(c, t, d.attributes[n], i);
      var flat := d.attributes[n];
      var j: nat :| 2 * j + 1 < |flat| && AttributeName(c, t, flat, j) == "value" && flat[2 * j + 1] == i;
      assert NamedAt(c, t, flat, j, "value");
      assert IsInput(c, t, d, n) && HasAttribute(c, t, d, n, "value", i);
    }
    if n :| IsInput(c, t, d, n) && HasAttribute(c, t, d, n, "value", i) {
      var flat := d.attributes[n];
      var j: nat :| 2 * j + 1 < |flat| && NamedAt(c, t, flat, j, "value") && flat[2 * j + 1] == i;
      assert AttributeName(c, t, flat, j) == "value";
      assert FormNode(c, t, d, n) && ValueOf(c, t, flat, i);
    }
  }

  lemma ReachedIsTyped(c: Casing, t: seq<string>, d: Document, i: int)
    requires DocumentOk(c, t, d)
    ensures Reached(c, t, d, i) <==> Typed(c, t, d, i)
  {
    hide SensitiveAbove, SensitiveNodes, UnderSensitive, FormValue, IsInput, HasAttribute;
    FormValueIsAttribute(c, t, d, i);
    forall n ensures SensitiveAbove(d.parentIndex, SensitiveNodes(c, t, d), n) <==> UnderSensitive(c, t, d, n) {
      SubtreeIsUnder(c, t, d, n);
    }
  }

  // ---------------------------------------------------------------- exactly this goes

  ghost predicate PartOf(x: string, s: string) {
    exists before: string, after: string :: s == before + x + after
  }

  lemma ContainsIsPart(s: string, x: string)
    ensures Contains(s, x) <==> PartOf(x, s)
  {
    if Contains(s, x) {
      var k: nat :| 0 <= k <= |s| && OccursAt(s, x, k);
      assert s == s[..k] + x + s[k + |x|..];
    }
    if PartOf(x, s) {
      var before: string, after: string :| s == before + x + after;
      assert s[|before|..|before| + |x|] == x;
      assert OccursAt(s, x, |before|);
    }
  }

  /** Something typed into one of the documents is part of this string. */
  ghost predicate ShowsTyped(c: Casing, t: seq<string>, ds: seq<Document>, s: string) {
    exists d, k :: d in ds && 0 <= k < |t| && t[k] != "" && Typed(c, t, d, k) && PartOf(t[k], s)
  }

  lemma SecretsAreTyped(c: Casing, t: seq<string>, ds: seq<Document>, s: string)
    requires forall d | d in ds :: DocumentOk(c, t, d)
    ensures HoldsSecret(c, t, ds, s) <==> ShowsTyped(c, t, ds, s)
  {
    hide Reached, Typed, DocumentOk, Contains, PartOf;
    forall d, k | d in ds ensures Reached(c, t, d, k) <==> Typed(c, t, d, k) {
      ReachedIsTyped(c, t, d, k);
    }
    forall x ensures Contains(s, x) <==> PartOf(x, s) {
      ContainsIsPart(s, x);
    }
    if HoldsSecret(c, t, ds, s) {
      var x :| Secret(c, t, ds, x) && Contains(s, x);
      var k :| 0 <= k < |t| && t[k] == x && x != "" && exists d | d in ds :: Reached(c, t, d, k);
      var d :| d in ds && Reached(c, t, d, k);
      assert Typed(c, t, d, k);
    }
    if d, k :| d in ds && 0 <= k < |t| && t[k] != "" && Typed(c, t, d, k) && PartOf(t[k], s) {
      assert Reached(c, t, d, k);
      assert Secret(c, t, ds, t[k]);
    }
  }

  /** On success a string ends as the marker if and only if something typed is part of it, and as it was
      otherwise; in particular every typed string that is not empty ends as the marker. */
  lemma TypedTextGoes(c: Casing, t: seq<string>, ds: seq<Document>)
    requires Sanitize(c, t, ds).Some?
    ensures var out := Sanitize(c, t, ds).value;
            && |out| == |t|
            && (forall i | 0 <= i < |t| :: out[i] == if ShowsTyped(c, t, ds, t[i]) then "[REDACTED]" else t[i])
            && (forall d, i | d in ds && 0 <= i < |t| && Typed(c, t, d, i) && t[i] != "" :: out[i] == "[REDACTED]")
  {
    hide Typed, DocumentOk, HoldsSecret, Secret, Reached, PartOf, Contains;
    RedactionIsExact(c, t, ds);
    forall s ensures HoldsSecret(c, t, ds, s) <==> ShowsTyped(c, t, ds, s) {
      SecretsAreTyped(c, t, ds, s);
    }
    forall s: string ensures PartOf(s, s) {
      WholeIsPart(s);
    }
  }

  lemma WholeIsPart(s: string)
    ensures PartOf(s, s)
  {
    assert s == "" + s + "";
  }

  // ---------------------------------------------------------------- what is refused

  predicate OutOfRange(t: seq<string>, i: int) {
    i < -1 || i >= |t|
  }

  ghost predicate BadRare(t: seq<string>, r: Option<Rare>) {
    r.Some? && (|r.value.index| != |r.value.value| || exists i :: i in r.value.value && OutOfRange(t, i))
  }

  /** The walk from this node meets no sensitive node and never comes out above a root. */
  ghost predicate Lost(c: Casing, t: seq<string>, d: Document, n: int) {
    !UnderSensitive(c, t, d, n) && forall m | AtOrAbove(d.parentIndex, n, m) :: m >= 0
  }

  ghost predicate BadText(c: Casing, t: seq<string>, d: Document, node: int, text: int) {
    Lost(c, t, d, node) || (UnderSensitive(c, t, d, node) && OutOfRange(t, text))
  }

  ghost predicate BadTexts(c: Casing, t: seq<string>, d: Document, nodes: seq<int>, texts: seq<int>) {
    || |nodes| != |texts|
    || exists n :: 0 <= n < |nodes| && BadText(c, t, d, nodes[n], texts[n])
  }

  ghost predicate BadArrays(t: seq<string>, d: Document) {
    || |d.nodeValue| != |d.nodeName| || |d.parentIndex| != |d.nodeName| || |d.attributes| != |d.nodeName|
    || (exists n :: 0 <= n < |d.nodeName| && OutOfRange(t, d.nodeName[n]))
    || (exists n :: 0 <= n < |d.attributes| && BadAttributes(t, d.attributes[n]))
  }

  ghost predicate BadAttributes(t: seq<string>, flat: seq<int>) {
    |flat| % 2 != 0 || exists j :: 0 <= j < |flat| && OutOfRange(t, flat[j])
  }

  ghost predicate Refused(c: Casing, t: seq<string>, d: Document) {
    || BadArrays(t, d) || BadRare(t, d.inputValue) || BadRare(t, d.textValue)
    || BadTexts(c, t, d, seq(|d.nodeName|, i => i), d.nodeValue)
    || (d.layout.Some? && BadTexts(c, t, d, d.layout.value.nodeIndex, d.layout.value.text))
  }

  lemma ArraysAreGood(t: seq<string>, d: Document)
    ensures NodesReadable(t, d) <==> !BadArrays(t, d)
  {
    forall n | 0 <= n < |d.attributes| ensures AttributesReadable(t, d.attributes[n]) <==> !BadAttributes(t,
        d.attributes[n]) {
      AttributesAreGood(t, d.attributes[n]);
    }
    hide AttributesReadable, BadAttributes;
  }

  lemma AttributesAreGood(t: seq<string>, flat: seq<int>)
    ensures AttributesReadable(t, flat) <==> !BadAttributes(t, flat)
  {
  }

  lemma RareIsGood(t: seq<string>, r: Option<Rare>)
    ensures RareOk(t, r) <==> !BadRare(t, r)
  {
  }

  lemma TextsAreGood(c: Casing, t: seq<string>, d: Document, nodes: seq<int>, texts: seq<int>)
    requires NodesReadable(t, d)
    ensures SubtreesOk(c, t, d, nodes, texts) <==> !BadTexts(c, t, d, nodes, texts)
  {
    hide SensitiveAbove, SensitiveNodes, UnderSensitive, RootAbove, AtOrAbove;
    forall n | 0 <= n < |nodes|
      ensures SensitiveAbove(d.parentIndex, SensitiveNodes(c, t, d), nodes[n]) <==> UnderSensitive(c, t, d, nodes[n])
      ensures RootAbove(d.parentIndex, nodes[n]) <==> exists m :: AtOrAbove(d.parentIndex, nodes[n], m) && m < 0
    {
      SubtreeIsUnder(c, t, d, nodes[n]);
      RootIsAbove(d.parentIndex, nodes[n]);
    }
  }

  lemma GoodIsNotRefused(c: Casing, t: seq<string>, d: Document)
    ensures DocumentOk(c, t, d) <==> !Refused(c, t, d)
  {
    hide NodesReadable, BadArrays, RareOk, BadRare, SubtreesOk, BadTexts;
    ArraysAreGood(t, d);
    RareIsGood(t, d.inputValue);
    RareIsGood(t, d.textValue);
    assert Own(|d.nodeName|) == seq(|d.nodeName|, i => i);
    if NodesReadable(t, d) {
      TextsAreGood(c, t, d, Own(|d.nodeName|), d.nodeValue);
      if d.layout.Some? {
        TextsAreGood(c, t, d, d.layout.value.nodeIndex, d.layout.value.text);
      }
    }
  }

  /** A snapshot is refused exactly when one of its documents has arrays of different lengths, an index
      outside the table, an odd attribute list, or a node whose parents lead nowhere. */
  lemma RefusedExactly(c: Casing, t: seq<string>, ds: seq<Document>)
    ensures Sanitize(c, t, ds).None? <==> exists d :: d in ds && Refused(c, t, d)
  {
    hide DocumentOk, Refused;
    forall d | d in ds ensures DocumentOk(c, t, d) <==> !Refused(c, t, d) {
      GoodIsNotRefused(c, t, d);
    }
  }
}
