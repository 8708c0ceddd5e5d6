/** What the results of a locator query are like: exact membership, document order, no duplicates,
    smallest elements for text, and selection. */
module LocatorLaws {
  import opened Options
  import opened Locators

  // ---------------------------------------------------------------- membership

  lemma Scope(page: Page, root: Node, l: Locator, e: Node)
    requires InScope(page, root, l, e)
    ensures e in Collect(root.kids, l.pierce)
  {
    CollectsAll(root.kids, l.pierce, e);
  }

  lemma FoundMembers(page: Page, root: Node, l: Locator)
    ensures forall e :: e in Found(page, root, l) <==> Candidate(page, root, l, e)
  {
    hide Meaning, Collect, Only, Candidate;
    OnlyMembers(Collect(root.kids, l.pierce), Candidates(page, root, l));
    forall e | Candidate(page, root, l, e) ensures e in Collect(root.kids, l.pierce) {
      CandidateInScope(page, root, l, e);
      Scope(page, root, l, e);
    }
  }

  lemma CandidateInScope(page: Page, root: Node, l: Locator, e: Node)
    requires Candidate(page, root, l, e)
    ensures InScope(page, root, l, e)
  {
  }

  /** No nth, index, first or last. */
  predicate Unselecting(l: Locator) {
    l.nth.None? && l.index.None? && !l.first && !l.last
  }

  /** Without alternatives and selection the result holds exactly the elements below the root, within a scope
      element if there is a scope, that match; for a text locator only those without a matching descendant;
      and that show the text, contain a result of `has` and are among the results of `also`, where asked for. */
  lemma ResultIsExact(page: Page, root: Node, l: Locator, e: Node)
    requires l.otherwise.None? && Unselecting(l)
    ensures e in Meaning(page, root, l) <==>
              && In(root.kids, l.pierce, e)
              && (l.scope.Some? ==> exists s | s in Meaning(page, root, l.scope.value) :: In(s.kids, l.pierce, e))
              && page.matches(e, l.base)
              && (l.base.kind == Text ==> forall d | In(e.kids, l.pierce, d) :: !page.matches(d, l.base))
              && (l.hasText.Some? ==> page.showsText(e, l.hasText.value))
              && (l.has.Some? ==> exists d :: d in Meaning(page, e, l.has.value))
              && (l.also.Some? ==> e in Meaning(page, root, l.also.value))
  {
    hide Candidate, Found, Meaning, In;
    MeaningIsFound(page, root, l);
    FoundMembers(page, root, l);
    CandidateDemands(page, root, l, e);
  }

  lemma CandidateDemands(page: Page, root: Node, l: Locator, e: Node)
    ensures Candidate(page, root, l, e) <==>
              && In(root.kids, l.pierce, e)
              && (l.scope.Some? ==> exists s | s in Meaning(page, root, l.scope.value) :: In(s.kids, l.pierce, e))
              && page.matches(e, l.base)
              && (l.base.kind == Text ==> forall d | In(e.kids, l.pierce, d) :: !page.matches(d, l.base))
              && (l.hasText.Some? ==> page.showsText(e, l.hasText.value))
              && (l.has.Some? ==> exists d :: d in Meaning(page, e, l.has.value))
              && (l.also.Some? ==> e in Meaning(page, root, l.also.value))
  {
    hide Meaning, In;
    if l.has.Some? && Meaning(page, e, l.has.value) != [] {
      assert Meaning(page, e, l.has.value)[0] in Meaning(page, e, l.has.value);
    }
  }

  lemma MeaningIsFound(page: Page, root: Node, l: Locator)
    requires l.otherwise.None? && Unselecting(l)
    ensures Meaning(page, root, l) == Found(page, root, l)
  {
    hide Found;
  }

  // ---------------------------------------------------------------- order

  ghost predicate Increasing(f: seq<nat>, bound: nat) {
    && (forall i | 0 <= i < |f| :: f[i] < bound)
    && (forall i, j | 0 <= i < j < |f| :: f[i] < f[j])
  }

  /** r is s with some places left out. */
  ghost predicate Embeds(r: seq<Node>, s: seq<Node>, f: seq<nat>) {
    |f| == |r| && Increasing(f, |s|) && forall i | 0 <= i < |r| :: r[i] == s[f[i]]
  }

  ghost predicate Subsequence(r: seq<Node>, s: seq<Node>) {
    exists f: seq<nat> :: Embeds(r, s, f)
  }

  lemma EmbedsInLonger(r: seq<Node>, s: seq<Node>, f: seq<nat>, e: Node)
    requires Embeds(r, s, f)
    ensures Embeds(r, s + [e], f) && Embeds(r + [e], s + [e], f + [|s|])
  {
  }

  lemma {:induction false} OnlyIsSubsequence(s: seq<Node>, a: set<Node>)
    ensures Subsequence(Only(s, a), s)
  {
    hide Embeds;
    if s == [] {
      EmptyEmbeds();
    } else {
      var init, e := s[..|s| - 1], s[|s| - 1];
      OnlyIsSubsequence(init, a);
      var f: seq<nat> :| Embeds(Only(init, a), init, f);
      EmbedsInLonger(Only(init, a), init, f, e);
      assert s == init + [e];
      assert Only(s, a) == if e in a then Only(init, a) + [e] else Only(init, a);
    }
  }

  lemma EmptyEmbeds()
    ensures Embeds([], [], [])
  {
  }

  lemma PickIsSubsequence(r: seq<Node>, s: seq<Node>, i: Option<int>)
    requires Subsequence(r, s)
    ensures Subsequence(Pick(r, i), s)
  {
    var f: seq<nat> :| Embeds(r, s, f);
    var g: seq<nat> :=
      if i.None? then f
      else if 0 <= i.value < |r| then [f[i.value]]
      else if -|r| <= i.value < 0 then [f[|r| + i.value]]
      else [];
    assert Embeds(Pick(r, i), s, g);
  }

  /** a comes before b in document order: an element before its shadow tree, that before its
      descendants, and all of them before its later siblings. */
  ghost predicate Before(ns: seq<Node>, pierce: bool, a: Node, b: Node) {
    ns != [] && (
      || ((a == ns[0] || Inside(ns[0], pierce, a)) && In(ns[1..], pierce, b))
      || (a == ns[0] && Inside(ns[0], pierce, b))
      || (pierce && In(ns[0].shadow, pierce, a) && In(ns[0].kids, pierce, b))
      || (pierce && Before(ns[0].shadow, pierce, a, b))
      || Before(ns[0].kids, pierce, a, b)
      || Before(ns[1..], pierce, a, b))
  }

  /** The children of an element are laid out as its block says. */
  lemma {:induction false} CollectIsOrdered(ns: seq<Node>, pierce: bool, i: nat, j: nat)
    requires i < j < |Collect(ns, pierce)|
    ensures Before(ns, pierce, Collect(ns, pierce)[i], Collect(ns, pierce)[j])
  {
    hide In, Inside;
    var n := ns[0];
    var dark := if pierce then Collect(n.shadow, pierce) else [];
    var light, tail := Collect(n.kids, pierce), Collect(ns[1..], pierce);
    var a, b := Collect(ns, pierce)[i], Collect(ns, pierce)[j];
    var d, k, t := 1, 1 + |dark|, 1 + |dark| + |light|;
    assert Collect(ns, pierce) == [n] + dark + light + tail;
    if t <= j {
      assert b == tail[j - t];
      CollectsAll(ns[1..], pierce, b);
      if t <= i {
        CollectIsOrdered(ns[1..], pierce, i - t, j - t);
      } else {
        BlockMembers(n, pierce, i);
      }
    } else if i == 0 {
      BlockMembers(n, pierce, j);
    } else if k <= i {
      CollectIsOrdered(n.kids, pierce, i - k, j - k);
    } else {
      assert a == dark[i - d];
      CollectsAll(n.shadow, pierce, a);
      if k <= j {
        assert b == light[j - k];
        CollectsAll(n.kids, pierce, b);
      } else {
        CollectIsOrdered(n.shadow, pierce, i - d, j - d);
      }
    }
  }

  lemma BlockMembers(n: Node, pierce: bool, i: nat)
    requires i < |Block(n, pierce)|
    ensures i == 0 ==> Block(n, pierce)[i] == n
    ensures i > 0 ==> Inside(n, pierce, Block(n, pierce)[i])
  {
    var e := Block(n, pierce)[i];
    CollectsAll(n.shadow, pierce, e);
    CollectsAll(n.kids, pierce, e);
  }

  ghost predicate Follows(s: seq<Node>, a: Node, b: Node) {
    exists i, j | 0 <= i < j < |s| :: s[i] == a && s[j] == b
  }

  lemma FollowsInJoin(x: seq<Node>, y: seq<Node>, a: Node, b: Node)
    requires (a in x && b in y) || Follows(x, a, b) || Follows(y, a, b)
    ensures Follows(x + y, a, b)
  {
    var s := x + y;
    if a in x && b in y {
      var i :| 0 <= i < |x| && x[i] == a;
      var j :| 0 <= j < |y| && y[j] == b;
      assert s[i] == a && s[|x| + j] == b;
    } else if Follows(x, a, b) {
      var i, j :| 0 <= i < j < |x| && x[i] == a && x[j] == b;
      assert s[i] == a && s[j] == b;
    } else {
      var i, j :| 0 <= i < j < |y| && y[i] == a && y[j] == b;
      assert s[|x| + i] == a && s[|x| + j] == b;
    }
  }

  lemma BlockHasAll(n: Node, pierce: bool, e: Node)
    ensures e in Block(n, pierce) <==> e == n || Inside(n, pierce, e)
  {
    hide In;
    CollectsAll(n.shadow, pierce, e);
    CollectsAll(n.kids, pierce, e);
  }

  /** Inside one block: the element first, its shadow tree, then its descendants. */
  lemma FollowsInBlock(n: Node, pierce: bool, a: Node, b: Node)
    requires var dark, light := (if pierce then Collect(n.shadow, pierce) else []), Collect(n.kids, pierce);
             || (a == n && (b in dark || b in light)) || (a in dark && b in light)
             || Follows(dark, a, b) || Follows(light, a, b)
    ensures Follows(Block(n, pierce), a, b)
  {
    hide Follows, Collect;
    var dark, light := (if pierce then Collect(n.shadow, pierce) else []), Collect(n.kids, pierce);
    if Follows(light, a, b) || ((a == n || a in dark) && b in light) {
      FollowsInJoin([n] + dark, light, a, b);
    } else {
      FollowsInJoin([n], dark, a, b);
      FollowsInJoin([n] + dark, light, a, b);
    }
  }

  /** Document order is exactly the order of collection. */
  lemma {:induction false} CollectedInDocumentOrder(ns: seq<Node>, pierce: bool, a: Node, b: Node)
    requires Before(ns, pierce, a, b)
    ensures Follows(Collect(ns, pierce), a, b)
  {
    hide In, Follows, Block;
    var n := ns[0];
    if (a == n || Inside(n, pierce, a)) && In(ns[1..], pierce, b) {
      BlockHasAll(n, pierce, a);
      CollectsAll(ns[1..], pierce, b);
    } else if Before(ns[1..], pierce, a, b) {
      CollectedInDocumentOrder(ns[1..], pierce, a, b);
    } else {
      if pierce && Before(n.shadow, pierce, a, b) {
        CollectedInDocumentOrder(n.shadow, pierce, a, b);
      } else if Before(n.kids, pierce, a, b) {
        CollectedInDocumentOrder(n.kids, pierce, a, b);
      } else {
        CollectsAll(n.shadow, pierce, a);
        CollectsAll(n.shadow, pierce, b);
        CollectsAll(n.kids, pierce, b);
      }
      FollowsInBlock(n, pierce, a, b);
    }
    FollowsInJoin(Block(n, pierce), Collect(ns[1..], pierce), a, b);
  }

  /** Without alternatives the results stand in document order. */
  lemma ResultsFollowTheDocument(page: Page, root: Node, l: Locator)
    requires l.otherwise.None?
    ensures var r := Meaning(page, root, l);
            && Subsequence(r, Collect(root.kids, l.pierce))
            && forall i, j | 0 <= i < j < |r| :: Before(root.kids, l.pierce, r[i], r[j])
  {
    hide Collect, Only, Candidates, Before;
    var u := Collect(root.kids, l.pierce);
    OnlyIsSubsequence(u, Candidates(page, root, l));
    PickIsSubsequence(Found(page, root, l), u, Selection(l));
    var r := Meaning(page, root, l);
    var f: seq<nat> :| Embeds(r, u, f);
    forall i, j | 0 <= i < j < |r| ensures Before(root.kids, l.pierce, r[i], r[j]) {
      CollectIsOrdered(root.kids, l.pierce, f[i], f[j]);
    }
  }

  // ---------------------------------------------------------------- no duplicates

  ghost predicate Unique(s: seq<Node>) {
    forall i, j | 0 <= i < j < |s| :: s[i].id != s[j].id
  }

  lemma SubsequenceUnique(r: seq<Node>, s: seq<Node>)
    requires Subsequence(r, s) && Unique(s)
    ensures Unique(r)
  {
  }

  lemma UniqueJoin(a: seq<Node>, b: seq<Node>)
    ensures Unique(a + b) <==> Unique(a) && Unique(b) && forall x, y | x in a && y in b :: x.id != y.id
  {
    if Unique(a + b) {
      forall x, y | x in a && y in b ensures x.id != y.id {
        var i :| 0 <= i < |a| && a[i] == x;
        var j :| 0 <= j < |b| && b[j] == y;
        assert (a + b)[i] == x && (a + b)[|a| + j] == y;
      }
      assert forall i | 0 <= i < |a| :: (a + b)[i] == a[i];
      assert forall j | 0 <= j < |b| :: (a + b)[|a| + j] == b[j];
    }
  }

  /** Piercing shadow roots only adds elements. */
  lemma {:induction false} InMonotone(ns: seq<Node>, pierce: bool, e: Node)
    requires In(ns, pierce, e)
    ensures In(ns, true, e)
  {
    var k :| 0 <= k < |ns| && (e == ns[k] || Inside(ns[k], pierce, e));
    if e != ns[k] {
      if pierce && In(ns[k].shadow, pierce, e) {
        InMonotone(ns[k].shadow, pierce, e);
      } else {
        InMonotone(ns[k].kids, pierce, e);
      }
    }
    assert e == ns[k] || Inside(ns[k], true, e);
  }

  lemma CollectMonotone(ns: seq<Node>, pierce: bool)
    ensures forall e | e in Collect(ns, pierce) :: e in Collect(ns, true)
  {
    forall e | e in Collect(ns, pierce) ensures e in Collect(ns, true) {
      CollectsAll(ns, pierce, e);
      InMonotone(ns, pierce, e);
      CollectsAll(ns, true, e);
    }
  }

  lemma {:induction false} CollectUnique(ns: seq<Node>, pierce: bool)
    requires Unique(Collect(ns, true))
    ensures Unique(Collect(ns, pierce))
  {
    if ns != [] && !pierce {
      var n := ns[0];
      UniqueJoin(Block(n, true), Collect(ns[1..], true));
      UniqueJoin([n] + Collect(n.shadow, true), Collect(n.kids, true));
      CollectUnique(ns[1..], pierce);
      CollectUnique(n.kids, pierce);
      CollectMonotone(ns[1..], pierce);
      CollectMonotone(n.kids, pierce);
      UniqueJoin([n], Collect(n.kids, pierce));
      UniqueJoin(Block(n, pierce), Collect(ns[1..], pierce));
    }
  }

  lemma {:induction false} DedupMembers(s: seq<Node>)
    ensures forall e :: e in Dedup(s) <==> e in s
  {
    if s != [] {
      DedupMembers(s[..|s| - 1]);
      assert s == s[..|s| - 1] + [s[|s| - 1]];
    }
  }

  lemma PickMembers(s: seq<Node>, i: Option<int>)
    ensures forall e | e in Pick(s, i) :: e in s
  {
  }

  lemma {:induction false} MeaningWithin(page: Page, root: Node, l: Locator)
    ensures forall e | e in Meaning(page, root, l) :: In(root.kids, true, e)
  {
    hide Found, Candidate, In;
    FoundMembers(page, root, l);
    forall e | e in Found(page, root, l) ensures In(root.kids, true, e) {
      CandidateInScope(page, root, l, e);
      InMonotone(root.kids, l.pierce, e);
    }
    var all := Found(page, root, l);
    if l.otherwise.Some? {
      MeaningWithin(page, root, l.otherwise.value);
      all := Dedup(all + Meaning(page, root, l.otherwise.value));
      DedupMembers(Found(page, root, l) + Meaning(page, root, l.otherwise.value));
    }
    PickMembers(all, Selection(l));
  }

  lemma {:induction false} DedupUnique(s: seq<Node>)
    requires forall x, y | x in s && y in s && x.id == y.id :: x == y
    ensures Unique(Dedup(s))
  {
    if s != [] {
      var init, e := s[..|s| - 1], s[|s| - 1];
      assert s == init + [e];
      DedupUnique(init);
      DedupMembers(init);
      UniqueJoin(Dedup(init), [e]);
    }
  }

  /** On a page with unique elements, no query returns one twice, alternatives included. */
  lemma NoDuplicates(page: Page, root: Node, l: Locator)
    requires Unique(Collect(root.kids, true))
    ensures Unique(Meaning(page, root, l))
  {
    hide Candidate, In, Collect, Only;
    var found := Found(page, root, l);
    CollectUnique(root.kids, l.pierce);
    OnlyIsSubsequence(Collect(root.kids, l.pierce), Candidates(page, root, l));
    SubsequenceUnique(found, Collect(root.kids, l.pierce));
    var all := found;
    if l.otherwise.Some? {
      all := found + Meaning(page, root, l.otherwise.value);
      AlternativesWithin(page, root, l);
      SameIdSameElement(root);
      DedupUnique(all);
      all := Dedup(all);
    }
  }

  lemma AlternativesWithin(page: Page, root: Node, l: Locator)
    requires l.otherwise.Some?
    ensures forall e | e in Found(page, root, l) + Meaning(page, root, l.otherwise.value) ::
            e in Collect(root.kids, true)
  {
    hide Candidate, In, Collect, Found, Meaning;
    FoundMembers(page, root, l);
    MeaningWithin(page, root, l.otherwise.value);
    forall e | e in Found(page, root, l) + Meaning(page, root, l.otherwise.value)
      ensures e in Collect(root.kids, true)
    {
      if e in Found(page, root, l) {
        CandidateInScope(page, root, l, e);
        InMonotone(root.kids, l.pierce, e);
      }
      CollectsAll(root.kids, true, e);
    }
  }

  lemma SameIdSameElement(root: Node)
    requires Unique(Collect(root.kids, true))
    ensures forall x, y | x in Collect(root.kids, true) && y in Collect(root.kids, true) && x.id == y.id :: x == y
  {
  }

  /** With alternatives, their results follow those found before, without the repeated ones. */
  lemma AlternativesAppend(page: Page, root: Node, l: Locator)
    requires Unique(Collect(root.kids, true)) && l.otherwise.Some? && Unselecting(l)
    ensures var found, more := Meaning(page, root, l.(otherwise := None)), Meaning(page, root, l.otherwise.value);
            Meaning(page, root, l) == found + Only(more, (set e | e in more && e !in found))
  {
    SameFound(page, root, l, l.(otherwise := None));
    hide Candidate, In, Collect, Only;
    var found, more := Found(page, root, l), Meaning(page, root, l.otherwise.value);
    CollectUnique(root.kids, l.pierce);
    OnlyIsSubsequence(Collect(root.kids, l.pierce), Candidates(page, root, l));
    SubsequenceUnique(found, Collect(root.kids, l.pierce));
    NoDuplicates(page, root, l.otherwise.value);
    DedupAppends(found, more, (set e | e in more && e !in found));
  }

  lemma DedupSnoc(s: seq<Node>, e: Node)
    ensures Dedup(s + [e]) == if e in s then Dedup(s) else Dedup(s) + [e]
  {
    DedupMembers(s);
    assert (s + [e])[..|s|] == s;
  }

  lemma OnlySnoc(s: seq<Node>, e: Node, a: set<Node>)
    ensures Only(s + [e], a) == Only(s, a) + if e in a then [e] else []
  {
  }

  lemma {:induction false} DedupAppends(a: seq<Node>, b: seq<Node>, unseen: set<Node>)
    requires Unique(a) && Unique(b)
    requires forall e | e in b :: e in unseen <==> e !in a
    ensures Dedup(a + b) == a + Only(b, unseen)
  {
    if b == [] {
      assert a + b == a;
      DedupSame(a);
    } else {
      var init, e := b[..|b| - 1], b[|b| - 1];
      LastIsNew(b);
      hide Dedup, Only, Unique;
      DedupAppends(a, init, unseen);
      DedupAppendsOne(a, init, e, unseen);
      assert b == init + [e];
    }
  }

  lemma DedupAppendsOne(a: seq<Node>, init: seq<Node>, e: Node, unseen: set<Node>)
    requires Dedup(a + init) == a + Only(init, unseen) && e !in init && (e in unseen <==> e !in a)
    ensures Dedup(a + (init + [e])) == a + Only(init + [e], unseen)
  {
    hide Dedup, Only;
    DedupSnoc(a + init, e);
    OnlySnoc(init, e, unseen);
    JoinLast(a, init, e);
    JoinLast(a, Only(init, unseen), e);
  }

  lemma JoinLast(a: seq<Node>, o: seq<Node>, e: Node)
    ensures (a + o) + [e] == a + (o + [e])
  {
  }

  lemma LastIsNew(b: seq<Node>)
    requires Unique(b) && b != []
    ensures Unique(b[..|b| - 1]) && b[|b| - 1] !in b[..|b| - 1]
  {
    assert b == b[..|b| - 1] + [b[|b| - 1]];
    UniqueJoin(b[..|b| - 1], [b[|b| - 1]]);
    assert b[|b| - 1] in [b[|b| - 1]];
  }

  lemma {:induction false} DedupSame(a: seq<Node>)
    requires Unique(a)
    ensures Dedup(a) == a
  {
    if a != [] {
      var init, e := a[..|a| - 1], a[|a| - 1];
      assert a == init + [e];
      UniqueJoin(init, [e]);
      DedupSame(init);
    }
  }

  // ---------------------------------------------------------------- text

  /** No result of a text query lies among the descendants of another. */
  lemma TextResultsAreSmallest(page: Page, root: Node, l: Locator, outer: Node, inner: Node)
    requires l.base.kind == Text && l.otherwise.None?
    requires outer in Meaning(page, root, l) && inner in Meaning(page, root, l)
    ensures !In(outer.kids, l.pierce, inner)
  {
    hide Found, In, InScope;
    FoundMembers(page, root, l);
    PickMembers(Found(page, root, l), Selection(l));
    assert Candidate(page, root, l, outer) && Candidate(page, root, l, inner);
    assert Smallest(page, l, outer);
  }

  /** collectElements does not enter the shadow root of its own argument, so a host and an element of
      its shadow tree may both be returned: that is the only way results nest. */
  lemma NestingIsThroughOwnShadow(page: Page, root: Node, l: Locator, outer: Node, inner: Node)
    requires l.base.kind == Text && l.otherwise.None?
    requires outer in Meaning(page, root, l) && inner in Meaning(page, root, l)
    requires Inside(outer, l.pierce, inner)
    ensures l.pierce && In(outer.shadow, l.pierce, inner)
  {
    TextResultsAreSmallest(page, root, l, outer, inner);
  }

  /** A host and the button in its shadow root, both carrying the text, are both returned. */
  lemma HostAndShadowBothReturned(page: Page, l: Locator, inner: Node, host: Node, root: Node)
    requires PlainText(l) && l.pierce
    requires inner == Node(2, [], []) && host == Node(1, [inner], []) && root == Node(0, [], [host])
    requires page.matches(host, l.base) && page.matches(inner, l.base)
    ensures host in Meaning(page, root, l) && inner in Meaning(page, root, l) && Inside(host, l.pierce, inner)
  {
    hide Meaning;
    assert inner == host.shadow[0] && host == root.kids[0];
    assert Inside(host, true, inner);
    assert In(root.kids, true, host) && In(root.kids, true, inner);
    assert forall d :: !In([], true, d);
    ResultIsExact(page, root, l, host);
    ResultIsExact(page, root, l, inner);
  }

  /** A text locator and nothing else. */
  predicate PlainText(l: Locator) {
    && l.base.kind == Text && l.scope.None? && l.hasText.None? && l.has.None? && l.also.None?
    && l.otherwise.None? && Unselecting(l)
  }

  ghost predicate NeverNests(l: Locator) {
    forall page, root, outer, inner | outer in Meaning(page, root, l) && inner in Meaning(page, root, l) ::
      !Inside(outer, l.pierce, inner)
  }

  /** The results of a plain text locator never nest, whatever the page, if and only if it leaves shadow
      roots alone. */
  lemma NestingNeedsPiercing(l: Locator)
    requires PlainText(l)
    ensures NeverNests(l) <==> !l.pierce
  {
    hide Meaning;
    if l.pierce {
      var page := Page((_, _) => true, (_, _) => true);
      var inner := Node(2, [], []);
      var host := Node(1, [inner], []);
      HostAndShadowBothReturned(page, l, inner, host, Node(0, [], [host]));
    } else {
      forall page, root, outer, inner | outer in Meaning(page, root, l) && inner in Meaning(page, root, l)
        ensures !Inside(outer, l.pierce, inner)
      {
        TextResultsAreSmallest(page, root, l, outer, inner);
      }
    }
  }

  /** Some matching element of a forest has no matching descendant. */
  lemma {:induction false} Deepest(page: Page, c: Criterion, ns: seq<Node>, pierce: bool, d: Node) returns (m: Node)
    requires In(ns, pierce, d) && page.matches(d, c)
    ensures In(ns, pierce, m) && page.matches(m, c)
    ensures !exists x :: In(m.kids, pierce, x) && page.matches(x, c)
  {
    var k :| 0 <= k < |ns| && (d == ns[k] || Inside(ns[k], pierce, d));
    if x :| In(ns[k].kids, pierce, x) && page.matches(x, c) {
      m := Deepest(page, c, ns[k].kids, pierce, x);
      assert Inside(ns[k], pierce, m);
    } else if d == ns[k] {
      m := d;
    } else {
      m := Deepest(page, c, ns[k].shadow, pierce, d);
      assert Inside(ns[k], pierce, m);
    }
  }

  /** No match is lost to a text query: before the later filters, every matching element in scope is
      returned or has a returned descendant. */
  lemma EveryMatchIsCovered(page: Page, root: Node, l: Locator, e: Node)
    requires l.base.kind == Text
    requires InScope(page, root, l, e) && page.matches(e, l.base)
    ensures exists d :: (d == e || In(e.kids, l.pierce, d)) && Basic(page, root, l, d)
  {
    hide Meaning, In;
    if Smallest(page, l, e) {
      assert Basic(page, root, l, e);
    } else {
      var x :| In(e.kids, l.pierce, x) && page.matches(x, l.base);
      var d := Deepest(page, l.base, e.kids, l.pierce, x);
      DescendantInScope(page, root, l, e, d);
      assert Basic(page, root, l, d);
    }
  }

  lemma DescendantInScope(page: Page, root: Node, l: Locator, e: Node, d: Node)
    requires InScope(page, root, l, e) && In(e.kids, l.pierce, d)
    ensures InScope(page, root, l, d)
  {
    hide Meaning, In;
    InTrans(root.kids, l.pierce, e, d);
    if l.scope.Some? {
      var s :| s in Meaning(page, root, l.scope.value) && In(s.kids, l.pierce, e);
      InTrans(s.kids, l.pierce, e, d);
    }
  }

  // ---------------------------------------------------------------- selection

  /** What a list shows at a place, counted from the end when negative: one element or none. */
  predicate PicksAt(all: seq<Node>, i: int, out: seq<Node>) {
    && (0 <= i < |all| ==> out == [all[i]])
    && (-|all| <= i < 0 ==> out == [all[|all| + i]])
    && (i < -|all| || i >= |all| ==> out == [])
  }

  /** Selection, against the results of the same locator without it: nth decides before index, index before
      first and first before last; first takes the first result, last the last one, if there is any. */
  lemma SelectionPicksOne(page: Page, root: Node, l: Locator)
    ensures var all := Meaning(page, root, l.(nth := None, index := None, first := false, last := false));
            var out := Meaning(page, root, l);
            && (l.nth.Some? ==> PicksAt(all, l.nth.value, out))
            && (l.nth.None? && l.index.Some? ==> PicksAt(all, l.index.value, out))
            && (l.nth.None? && l.index.None? && l.first ==> out == if all == [] then [] else [all[0]])
            && (l.nth.None? && l.index.None? && !l.first && l.last ==>
                  out == if all == [] then [] else [all[|all| - 1]])
            && (l.nth.None? && l.index.None? && !l.first && !l.last ==> out == all)
  {
    SameFound(page, root, l, l.(nth := None, index := None, first := false, last := false));
    hide Found;
  }

  /** Alternatives and selection come after everything else. */
  lemma SameFound(page: Page, root: Node, l: Locator, plain: Locator)
    requires plain == l.(nth := plain.nth, index := plain.index, first := plain.first, last := plain.last,
                         otherwise := plain.otherwise)
    ensures Found(page, root, plain) == Found(page, root, l)
  {
    forall e ensures Candidate(page, root, plain, e) <==> Candidate(page, root, l, e) {
      CandidateDemands(page, root, plain, e);
      CandidateDemands(page, root, l, e);
    }
    hide Candidate, In, Meaning;
    assert Candidates(page, root, plain) == Candidates(page, root, l);
  }
}
