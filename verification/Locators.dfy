/**
 queryLocator and collectElements of packages/locator-runtime/src/locator.ts, against a declarative
 semantics. What a single element looks like to the page (CSS, roles, names, texts) is a parameter.
 */
module Locators {
  import opened Options

  /** An element; only the children of its shadow root matter, and none stands for no shadow root.
      A document or shadow root used as query root is a node too. Ids are unique in a page, so equal
      nodes are the same element. */
  datatype Node = Node(id: nat, shadow: seq<Node>, kids: seq<Node>)

  datatype By = Css | Role | Text | Label | Placeholder | TestId

  datatype TextMatcher = TextMatcher(text: string, exact: Option<bool>)

  datatype Criterion = Criterion(
    kind: By, value: Option<string>, role: Option<string>, name: Option<TextMatcher>, exact: Option<bool>)

  datatype Locator = Locator(
    base: Criterion, pierce: bool, scope: Option<Locator>, hasText: Option<string>, has: Option<Locator>,
    also: Option<Locator>, otherwise: Option<Locator>,
    nth: Option<int>, index: Option<int>, first: bool, last: bool)

  /** baseMatches, and the text filter of hasText. */
  datatype Page = Page(matches: (Node, Criterion) -> bool, showsText: (Node, string) -> bool)

  // ---------------------------------------------------------------- the tree

  /** What collectElements pushes, in order. */
  function Collect(ns: seq<Node>, pierce: bool): seq<Node> {
    if ns == [] then [] else Block(ns[0], pierce) + Collect(ns[1..], pierce)
  }

  /** An element, then its shadow tree, then its descendants. */
  function Block(n: Node, pierce: bool): seq<Node> {
    [n] + (if pierce then Collect(n.shadow, pierce) else []) + Collect(n.kids, pierce)
  }

  /** e lies somewhere in the forest. */
  ghost predicate In(ns: seq<Node>, pierce: bool, e: Node) {
    exists k | 0 <= k < |ns| :: e == ns[k] || Inside(ns[k], pierce, e)
  }

  /** e lies below n: in its own shadow tree or among its descendants. */
  ghost predicate Inside(n: Node, pierce: bool, e: Node) {
    (pierce && In(n.shadow, pierce, e)) || In(n.kids, pierce, e)
  }

  /** The order of the work: every element of the forest is collected and nothing else. */
  lemma {:induction false} CollectsAll(ns: seq<Node>, pierce: bool, e: Node)
    ensures e in Collect(ns, pierce) <==> In(ns, pierce, e)
  {
    if ns != [] {
      CollectsAll(ns[0].shadow, pierce, e);
      CollectsAll(ns[0].kids, pierce, e);
      CollectsAll(ns[1..], pierce, e);
      InSplits(ns, pierce, e);
    }
  }

  lemma InSplits(ns: seq<Node>, pierce: bool, e: Node)
    requires ns != []
    ensures In(ns, pierce, e) <==> e == ns[0] || Inside(ns[0], pierce, e) || In(ns[1..], pierce, e)
  {
  }

  /** What lies among the descendants of an element of the forest lies in the forest. */
  lemma {:induction false} InTrans(ns: seq<Node>, pierce: bool, e: Node, d: Node)
    requires In(ns, pierce, e) && Inside(e, pierce, d)
    ensures In(ns, pierce, d)
  {
    var k :| 0 <= k < |ns| && (e == ns[k] || Inside(ns[k], pierce, e));
    if e != ns[k] {
      if pierce && In(ns[k].shadow, pierce, e) {
        InTrans(ns[k].shadow, pierce, e, d);
      } else {
        InTrans(ns[k].kids, pierce, e, d);
      }
    }
    assert Inside(ns[k], pierce, d);
  }

  // ---------------------------------------------------------------- lists

  /** The elements of s that are in a, in the order of s. */
  function Only(s: seq<Node>, a: set<Node>): seq<Node> {
    if s == [] then []
    else Only(s[..|s| - 1], a) + if s[|s| - 1] in a then [s[|s| - 1]] else []
  }

  /** First occurrences only, as a JavaScript Set keeps them. */
  function Dedup(s: seq<Node>): seq<Node> {
    if s == [] then []
    else
      var d := Dedup(s[..|s| - 1]);
      if s[|s| - 1] in d then d else d + [s[|s| - 1]]
  }

  lemma {:induction false} OnlyMembers(s: seq<Node>, a: set<Node>)
    ensures forall e :: e in Only(s, a) <==> e in s && e in a
  {
    if s != [] {
      OnlyMembers(s[..|s| - 1], a);
      assert s == s[..|s| - 1] + [s[|s| - 1]];
    }
  }

  lemma {:induction false} OnlyTwice(s: seq<Node>, a: set<Node>, b: set<Node>)
    ensures Only(Only(s, a), b) == Only(s, a * b)
  {
    if s != [] {
      var init, e := s[..|s| - 1], s[|s| - 1];
      OnlyTwice(init, a, b);
      if e in a {
        assert Only(s, a)[..|Only(s, a)| - 1] == Only(init, a);
      } else {
        assert Only(s, a) == Only(init, a);
      }
    }
  }

  lemma {:induction false} OnlyAgree(s: seq<Node>, a: set<Node>, b: set<Node>)
    requires forall e | e in s :: e in a <==> e in b
    ensures Only(s, a) == Only(s, b)
  {
    if s != [] {
      OnlyAgree(s[..|s| - 1], a, b);
    }
  }

  lemma {:induction false} OnlyAll(s: seq<Node>, a: set<Node>)
    requires forall e | e in s :: e in a
    ensures Only(s, a) == s
  {
    if s != [] {
      OnlyAll(s[..|s| - 1], a);
      assert s == s[..|s| - 1] + [s[|s| - 1]];
    }
  }

  // ---------------------------------------------------------------- the meaning of a locator

  ghost predicate InScope(page: Page, root: Node, l: Locator, e: Node)
    decreases l, 0
  {
    && In(root.kids, l.pierce, e)
    && (l.scope.Some? ==> exists s | s in Meaning(page, root, l.scope.value) :: In(s.kids, l.pierce, e))
  }

  /** For a text locator, no descendant carries the text too. */
  ghost predicate Smallest(page: Page, l: Locator, e: Node) {
    l.base.kind == Text ==> !exists d :: In(e.kids, l.pierce, d) && page.matches(d, l.base)
  }

  /** All that a locator demands of an element, before alternatives and selection. */
  ghost predicate Candidate(page: Page, root: Node, l: Locator, e: Node)
    decreases l, 1
  {
    && InScope(page, root, l, e) && page.matches(e, l.base) && Smallest(page, l, e)
    && (l.hasText.Some? ==> page.showsText(e, l.hasText.value))
    && (l.has.Some? ==> Meaning(page, e, l.has.value) != [])
    && (l.also.Some? ==> e in Meaning(page, root, l.also.value))
  }

  function Selection(l: Locator): Option<int> {
    if l.nth.Some? then l.nth
    else if l.index.Some? then l.index
    else if l.first then Some(0)
    else if l.last then Some(-1)
    else None
  }

  /** Array.prototype.at: a negative index counts from the end. */
  function Pick(s: seq<Node>, i: Option<int>): seq<Node> {
    if i.None? then s
    else if 0 <= i.value < |s| then [s[i.value]]
    else if -|s| <= i.value < 0 then [s[|s| + i.value]]
    else []
  }

  ghost function Candidates(page: Page, root: Node, l: Locator): set<Node>
    decreases l, 2
  {
    set e | e in Collect(root.kids, l.pierce) && Candidate(page, root, l, e)
  }

  ghost function Found(page: Page, root: Node, l: Locator): seq<Node>
    decreases l, 3
  {
    Only(Collect(root.kids, l.pierce), Candidates(page, root, l))
  }

  ghost function Meaning(page: Page, root: Node, l: Locator): seq<Node>
    decreases l, 4
  {
    var found := Found(page, root, l);
    Pick(if l.otherwise.Some? then Dedup(found + Meaning(page, root, l.otherwise.value)) else found, Selection(l))
  }

  // ---------------------------------------------------------------- the evaluator

  method Visit(ns: seq<Node>, pierce: bool, output: seq<Node>) returns (r: seq<Node>)
    ensures r == output + Collect(ns, pierce)
  {
    hide Block;
    r := output;
    for k := 0 to |ns|
      invariant r + Collect(ns[k..], pierce) == output + Collect(ns, pierce)
    {
      ghost var before := r;
      r := VisitChild(ns[k], pierce, r);
      assert ns[k..][1..] == ns[k + 1..];
      assert before + (Block(ns[k], pierce) + Collect(ns[k + 1..], pierce)) == r + Collect(ns[k + 1..], pierce);
    }
  }

  method VisitChild(n: Node, pierce: bool, output: seq<Node>) returns (r: seq<Node>)
    ensures r == output + Block(n, pierce)
  {
    r := output + [n];
    if pierce {
      r := Visit(n.shadow, pierce, r);
    }
    r := Visit(n.kids, pierce, r);
  }

  /** collectElements. */
  method CollectElements(root: Node, pierce: bool) returns (output: seq<Node>)
    ensures output == Collect(root.kids, pierce)
    ensures forall e :: e in output <==> In(root.kids, pierce, e)
  {
    output := Visit(root.kids, pierce, []);
    forall e ensures e in output <==> In(root.kids, pierce, e) {
      CollectsAll(root.kids, pierce, e);
    }
  }

  /** Array.prototype.filter. */
  method Filter(s: seq<Node>, keep: Node -> bool) returns (r: seq<Node>, ghost a: set<Node>)
    ensures r == Only(s, a) && forall e | e in s :: e in a <==> keep(e)
  {
    r := [];
    a := set e | e in s && keep(e);
    for k := 0 to |s|
      invariant r == Only(s[..k], a)
    {
      assert s[..k + 1][..k] == s[..k];
      if keep(s[k]) {
        r := r + [s[k]];
      }
    }
    assert s[..|s|] == s;
  }

  method FilterSmallest(page: Page, l: Locator, s: seq<Node>) returns (r: seq<Node>, ghost a: set<Node>)
    requires l.base.kind == Text
    ensures r == Only(s, a) && forall e | e in s :: e in a <==> Smallest(page, l, e)
  {
    r := [];
    a := set e | e in s && Smallest(page, l, e);
    for k := 0 to |s|
      invariant r == Only(s[..k], a)
    {
      assert s[..k + 1][..k] == s[..k];
      var below := CollectElements(s[k], l.pierce);
      if !exists d | d in below :: page.matches(d, l.base) {
        r := r + [s[k]];
      }
    }
    assert s[..|s|] == s;
  }

  method FilterHas(page: Page, has: Locator, s: seq<Node>) returns (r: seq<Node>, ghost a: set<Node>)
    ensures r == Only(s, a) && forall e | e in s :: e in a <==> Meaning(page, e, has) != []
    decreases has, 4
  {
    hide Meaning;
    r := [];
    a := set e | e in s && Meaning(page, e, has) != [];
    for k := 0 to |s|
      invariant r == Only(s[..k], a)
    {
      assert s[..k + 1][..k] == s[..k];
      var inner := QueryLocator(page, s[k], has);
      if |inner| > 0 {
        r := r + [s[k]];
      }
    }
    assert s[..|s|] == s;
  }

  method Scoped(scopes: seq<Node>, pierce: bool) returns (scoped: set<Node>)
    ensures forall e :: e in scoped <==> exists s | s in scopes :: In(s.kids, pierce, e)
  {
    scoped := {};
    for k := 0 to |scopes|
      invariant forall e :: e in scoped <==> exists s | s in scopes[..k] :: In(s.kids, pierce, e)
    {
      var below := CollectElements(scopes[k], pierce);
      scoped := scoped + (set e | e in below);
      assert scopes[..k + 1] == scopes[..k] + [scopes[k]];
    }
    assert scopes[..|scopes|] == scopes;
  }

  method Distinct(s: seq<Node>) returns (r: seq<Node>)
    ensures r == Dedup(s)
  {
    r := [];
    for k := 0 to |s|
      invariant r == Dedup(s[..k])
    {
      assert s[..k + 1][..k] == s[..k];
      if s[k] !in r {
        r := r + [s[k]];
      }
    }
    assert s[..|s|] == s;
  }

  /** Filtering a list already filtered. */
  lemma Narrowed(u: seq<Node>, a: set<Node>, b: set<Node>)
    ensures Only(Only(u, a), b) == Only(u, a * b)
    ensures forall e :: e in Only(u, a) <==> e in u && e in a
  {
    OnlyTwice(u, a, b);
    OnlyMembers(u, a);
  }

  /** The elements in scope. */
  method Universe(page: Page, root: Node, l: Locator) returns (universe: seq<Node>, ghost a: set<Node>)
    ensures universe == Only(Collect(root.kids, l.pierce), a)
    ensures forall e | e in Collect(root.kids, l.pierce) :: e in a <==> InScope(page, root, l, e)
    decreases l, 0
  {
    hide Meaning, Collect, In, Only;
    universe := CollectElements(root, l.pierce);
    a := set e | e in universe;
    if l.scope.Some? {
      var scopes := QueryLocator(page, root, l.scope.value);
      var scoped := Scoped(scopes, l.pierce);
      universe, a := Filter(universe, e => e in scoped);
    } else {
      OnlyAll(universe, a);
    }
  }

  ghost predicate Basic(page: Page, root: Node, l: Locator, e: Node) {
    InScope(page, root, l, e) && page.matches(e, l.base) && Smallest(page, l, e)
  }

  /** The elements in scope that match by themselves; for a text locator, the smallest ones. */
  method BasicMatches(page: Page, root: Node, l: Locator) returns (matches: seq<Node>, ghost a: set<Node>)
    ensures matches == Only(Collect(root.kids, l.pierce), a)
    ensures forall e | e in Collect(root.kids, l.pierce) :: e in a <==> Basic(page, root, l, e)
    decreases l, 1
  {
    hide Meaning, Collect, In, InScope, Only;
    ghost var u := Collect(root.kids, l.pierce);
    var universe;
    ghost var b;
    universe, a := Universe(page, root, l);
    matches, b := Filter(universe, e => page.matches(e, l.base));
    Narrowed(u, a, b);
    a := a * b;
    if l.base.kind == Text {
      matches, b := FilterSmallest(page, l, matches);
      Narrowed(u, a, b);
      a := a * b;
    }
  }

  /** All filters, one after the other. */
  method Matches(page: Page, root: Node, l: Locator) returns (matches: seq<Node>)
    ensures matches == Found(page, root, l)
    decreases l, 2
  {
    hide Meaning, Collect, In, InScope, Only, Smallest;
    ghost var u := Collect(root.kids, l.pierce);
    ghost var a, b: set<Node>;
    matches, a := BasicMatches(page, root, l);
    if l.hasText.Some? {
      matches, b := Filter(matches, e => page.showsText(e, l.hasText.value));
      Narrowed(u, a, b);
      a := a * b;
    }
    if l.has.Some? {
      matches, b := FilterHas(page, l.has.value, matches);
      Narrowed(u, a, b);
      a := a * b;
    }
    if l.also.Some? {
      var intersection := QueryLocator(page, root, l.also.value);
      matches, b := Filter(matches, e => e in intersection);
      Narrowed(u, a, b);
      a := a * b;
    }
    assert forall e | e in u :: e in a <==> Candidate(page, root, l, e);
    OnlyAgree(u, a, Candidates(page, root, l));
  }

  /** queryLocator computes what the locator means, on every page and tree. */
  method QueryLocator(page: Page, root: Node, l: Locator) returns (r: seq<Node>)
    ensures r == Meaning(page, root, l)
    decreases l, 3
  {
    hide Found;
    r := Matches(page, root, l);
    if l.otherwise.Some? {
      var union := QueryLocator(page, root, l.otherwise.value);
      r := Distinct(r + union);
    }
    if Selection(l).Some? {
      r := Pick(r, Selection(l));
    }
  }
}
