/** components/Stakeholders/OrgChart.tsx: the reporting forest. A first pass indexes the
    stakeholders by id, a second sorts each into the roots or under the id it reports to,
    and buildTree then expands each root through the children map. */
module OrgChart {
  import opened Wrappers
  import opened Domain

  datatype Tree = Node(stakeholder: Stakeholder, children: seq<Tree>)

  /** `!s.reportsTo || !idMap.has(s.reportsTo)`: no manager, an empty one, or one that is
      not in the list. */
  predicate IsRoot(all: seq<Stakeholder>, s: Stakeholder) {
    s.reportsTo.None? || s.reportsTo.value == "" || s.reportsTo.value !in Ids(all)
  }

  /** The roots among `ss`, in input order. */
  function RootsOf(all: seq<Stakeholder>, ss: seq<Stakeholder>): (r: seq<Stakeholder>)
    ensures forall x :: x in r <==> x in ss && IsRoot(all, x)
  {
    if |ss| == 0 then []
    else
      var init := RootsOf(all, ss[..|ss| - 1]);
      var s := ss[|ss| - 1];
      assert forall x :: x in ss <==> x in ss[..|ss| - 1] || x == s;
      if IsRoot(all, s) then init + [s] else init
  }

  /** The stakeholders among `ss` filed under `id`, in input order. */
  function ChildrenOf(all: seq<Stakeholder>, ss: seq<Stakeholder>, id: string): seq<Stakeholder> {
    if |ss| == 0 then []
    else
      var init := ChildrenOf(all, ss[..|ss| - 1], id);
      var s := ss[|ss| - 1];
      if !IsRoot(all, s) && s.reportsTo == Some(id) then init + [s] else init
  }

  /** The children of an id are exactly the non-roots among `ss` that report to it. */
  lemma {:induction false} ChildrenMembers(all: seq<Stakeholder>, ss: seq<Stakeholder>, id: string, x: Stakeholder)
    ensures x in ChildrenOf(all, ss, id) <==> x in ss && !IsRoot(all, x) && x.reportsTo == Some(id)
  {
    if |ss| > 0 {
      ChildrenMembers(all, ss[..|ss| - 1], id, x);
      assert x in ss <==> x in ss[..|ss| - 1] || x == ss[|ss| - 1] by {
        assert ss == ss[..|ss| - 1] + [ss[|ss| - 1]];
      }
    }
  }

  /** `m` is the children map of `all`: every id maps to its children, and an id without
      an entry has none (`childrenMap.get(s.id) || []`). */
  ghost predicate IsChildrenMap(all: seq<Stakeholder>, m: map<string, seq<Stakeholder>>) {
    forall id :: (id in m ==> m[id] == ChildrenOf(all, all, id)) && (id !in m ==> ChildrenOf(all, all, id) == [])
  }

  function ChildList(m: map<string, seq<Stakeholder>>, id: string): seq<Stakeholder> {
    if id in m then m[id] else []
  }

  /** buildTree, expanding at most `fuel` levels. */
  function BuildTree(m: map<string, seq<Stakeholder>>, s: Stakeholder, fuel: nat): (t: Tree)
    ensures t.stakeholder == s
    decreases fuel
  {
    var cs := ChildList(m, s.id);
    if fuel == 0 then Node(s, [])
    else Node(s, seq(|cs|, i requires 0 <= i < |cs| => BuildTree(m, cs[i], fuel - 1)))
  }

  function Forest(m: map<string, seq<Stakeholder>>, roots: seq<Stakeholder>, fuel: nat): (r: seq<Tree>)
    ensures |r| == |roots|
  {
    seq(|roots|, i requires 0 <= i < |roots| => BuildTree(m, roots[i], fuel))
  }

  /** A stakeholder shown somewhere in a tree. */
  predicate Appears(t: Tree, x: Stakeholder) {
    t.stakeholder == x || exists i :: 0 <= i < |t.children| && Appears(t.children[i], x)
  }

  predicate InForest(ts: seq<Tree>, x: Stakeholder) {
    exists i :: 0 <= i < |ts| && Appears(ts[i], x)
  }

  /** x is reached from s by going down n reporting links. */
  ghost predicate Below(all: seq<Stakeholder>, x: Stakeholder, s: Stakeholder, n: nat)
    decreases n
  {
    if n == 0 then x == s
    else exists c :: c in ChildrenOf(all, all, s.id) && Below(all, x, c, n - 1)
  }

  // ---------------------------------------------------------------- the imperative passes

  /** stakeholders.forEach((s) => idMap.set(s.id, s)) */
  method IndexById(ss: seq<Stakeholder>) returns (idMap: map<string, Stakeholder>)
    ensures forall id :: id in idMap <==> id in Ids(ss)
  {
    idMap := map[];
    for i := 0 to |ss|
      invariant forall id :: id in idMap <==> id in Ids(ss[..i])
    {
      assert Ids(ss[..i + 1]) == Ids(ss[..i]) + [ss[i].id];
      idMap := idMap[ss[i].id := ss[i]];
    }
    assert ss[..|ss|] == ss;
  }

  /** The second pass: roots in input order, and the children map. */
  method FileUnder(ss: seq<Stakeholder>, idMap: map<string, Stakeholder>)
    returns (roots: seq<Stakeholder>, childrenMap: map<string, seq<Stakeholder>>)
    requires forall id :: id in idMap <==> id in Ids(ss)
    ensures roots == RootsOf(ss, ss)
    ensures IsChildrenMap(ss, childrenMap)
  {
    roots := [];
    childrenMap := map[];
    for i := 0 to |ss|
      invariant roots == RootsOf(ss, ss[..i])
      invariant forall id :: (id in childrenMap ==> childrenMap[id] == ChildrenOf(ss, ss[..i], id))
                             && (id !in childrenMap ==> ChildrenOf(ss, ss[..i], id) == [])
    {
      var s := ss[i];
      assert ss[..i + 1][..i] == ss[..i];
      if s.reportsTo.None? || s.reportsTo.value == "" || s.reportsTo.value !in idMap {
        roots := roots + [s];
      } else {
        var list := if s.reportsTo.value in childrenMap then childrenMap[s.reportsTo.value] else [];
        childrenMap := childrenMap[s.reportsTo.value := list + [s]];
      }
    }
    assert ss[..|ss|] == ss;
  }

  /** The memoised trees: one per root, each expanded as deep as the list is long. */
  method OrgTrees(ss: seq<Stakeholder>) returns (trees: seq<Tree>, ghost childrenMap: map<string, seq<Stakeholder>>)
    ensures IsChildrenMap(ss, childrenMap)
    ensures trees == Forest(childrenMap, RootsOf(ss, ss), |ss|)
  {
    var idMap := IndexById(ss);
    var roots, cm := FileUnder(ss, idMap);
    childrenMap := cm;
    trees := Forest(cm, roots, |ss|);
  }

  // ---------------------------------------------------------------- properties

  /** The roots are exactly the stakeholders with no manager in the list; the children of
      an id are exactly the non-roots that report to it. */
  lemma RootsAndChildren(ss: seq<Stakeholder>, x: Stakeholder, id: string)
    ensures x in RootsOf(ss, ss) <==> x in ss && (x.reportsTo.None? || x.reportsTo.value == "" || x.reportsTo.value !in Ids(ss))
    ensures x in ChildrenOf(ss, ss, id) <==> x in ss && !IsRoot(ss, x) && x.reportsTo == Some(id)
    ensures x in ss ==> (x in RootsOf(ss, ss) || x in ChildrenOf(ss, ss, x.reportsTo.value))
  {
    ChildrenMembers(ss, ss, id, x);
    if x in ss && !IsRoot(ss, x) {
      ChildrenMembers(ss, ss, x.reportsTo.value, x);
    }
  }

  /** Everything shown in the tree of s lies below s, at most `fuel` links down. */
  lemma {:induction false} TreeSound(ss: seq<Stakeholder>, m: map<string, seq<Stakeholder>>, s: Stakeholder, fuel: nat, x: Stakeholder)
    requires IsChildrenMap(ss, m)
    requires Appears(BuildTree(m, s, fuel), x)
    ensures exists n: nat :: n <= fuel && Below(ss, x, s, n)
    decreases fuel
  {
    var t := BuildTree(m, s, fuel);
    if x == s {
      assert Below(ss, x, s, 0);
    } else {
      var i :| 0 <= i < |t.children| && Appears(t.children[i], x);
      var cs := ChildList(m, s.id);
      assert cs == ChildrenOf(ss, ss, s.id);
      var c := cs[i];
      assert t.children[i] == BuildTree(m, c, fuel - 1);
      TreeSound(ss, m, c, fuel - 1, x);
      var n: nat :| n <= fuel - 1 && Below(ss, x, c, n);
      assert c in ChildrenOf(ss, ss, s.id);
      assert Below(ss, x, s, n + 1);
    }
  }

  /** Everything below s, within `fuel` links, is shown in the tree of s. */
  lemma {:induction false} TreeComplete(ss: seq<Stakeholder>, m: map<string, seq<Stakeholder>>, s: Stakeholder, fuel: nat, x: Stakeholder, n: nat)
    requires IsChildrenMap(ss, m)
    requires n <= fuel && Below(ss, x, s, n)
    ensures Appears(BuildTree(m, s, fuel), x)
    decreases n
  {
    if n > 0 {
      var c :| c in ChildrenOf(ss, ss, s.id) && Below(ss, x, c, n - 1);
      var cs := ChildList(m, s.id);
      assert cs == ChildrenOf(ss, ss, s.id);
      var i :| 0 <= i < |cs| && cs[i] == c;
      TreeComplete(ss, m, c, fuel - 1, x, n - 1);
      var t := BuildTree(m, s, fuel);
      assert t.children[i] == BuildTree(m, c, fuel - 1);
      assert Appears(t.children[i], x);
    }
  }

  /** A stakeholder is shown iff it lies below some root within the depth bound. */
  lemma ForestMeaning(ss: seq<Stakeholder>, m: map<string, seq<Stakeholder>>, x: Stakeholder)
    requires IsChildrenMap(ss, m)
    ensures InForest(Forest(m, RootsOf(ss, ss), |ss|), x) <==>
              exists r, n: nat :: r in RootsOf(ss, ss) && n <= |ss| && Below(ss, x, r, n)
  {
    if InForest(Forest(m, RootsOf(ss, ss), |ss|), x) {
      ForestSoundAt(ss, m, x);
    }
    if exists r, n: nat :: r in RootsOf(ss, ss) && n <= |ss| && Below(ss, x, r, n) {
      var r, n: nat :| r in RootsOf(ss, ss) && n <= |ss| && Below(ss, x, r, n);
      ForestCompleteAt(ss, m, x, r, n);
    }
  }

  lemma ForestSoundAt(ss: seq<Stakeholder>, m: map<string, seq<Stakeholder>>, x: Stakeholder)
    requires IsChildrenMap(ss, m)
    requires InForest(Forest(m, RootsOf(ss, ss), |ss|), x)
    ensures exists r, n: nat :: r in RootsOf(ss, ss) && n <= |ss| && Below(ss, x, r, n)
  {
    var roots := RootsOf(ss, ss);
    var ts := Forest(m, roots, |ss|);
    var i :| 0 <= i < |ts| && Appears(ts[i], x);
    assert ts[i] == BuildTree(m, roots[i], |ss|);
    TreeSound(ss, m, roots[i], |ss|, x);
    var n: nat :| n <= |ss| && Below(ss, x, roots[i], n);
    assert roots[i] in roots;
  }

  lemma ForestCompleteAt(ss: seq<Stakeholder>, m: map<string, seq<Stakeholder>>, x: Stakeholder,
                         r: Stakeholder, n: nat)
    requires IsChildrenMap(ss, m)
    requires r in RootsOf(ss, ss) && n <= |ss| && Below(ss, x, r, n)
    ensures InForest(Forest(m, RootsOf(ss, ss), |ss|), x)
  {
    var roots := RootsOf(ss, ss);
    var ts := Forest(m, roots, |ss|);
    var i :| 0 <= i < |roots| && roots[i] == r;
    TreeComplete(ss, m, r, |ss|, x, n);
    assert ts[i] == BuildTree(m, r, |ss|);
    assert Appears(ts[i], x);
  }

  /** A set closed under "reports to": none of its members is a root, and the managers of
      its members are in it. A reportsTo cycle is such a set. */
  ghost predicate Closed(ss: seq<Stakeholder>, cyc: set<Stakeholder>) {
    forall x :: x in cyc ==> !IsRoot(ss, x) && forall p :: p in ss && x.reportsTo == Some(p.id) ==> p in cyc
  }

  /** Going up from a member of a closed set never leaves it. */
  lemma {:induction false} BelowClosed(ss: seq<Stakeholder>, cyc: set<Stakeholder>, x: Stakeholder, s: Stakeholder, n: nat)
    requires Closed(ss, cyc) && x in cyc && s in ss && Below(ss, x, s, n)
    ensures s in cyc
    decreases n
  {
    if n > 0 {
      var c :| c in ChildrenOf(ss, ss, s.id) && Below(ss, x, c, n - 1);
      ChildrenMembers(ss, ss, s.id, c);
      BelowClosed(ss, cyc, x, c, n - 1);
      assert c in cyc;
    }
  }

  /** Stakeholders on a reporting cycle appear in no tree. */
  lemma CycleNotShown(ss: seq<Stakeholder>, m: map<string, seq<Stakeholder>>, cyc: set<Stakeholder>, x: Stakeholder)
    requires IsChildrenMap(ss, m)
    requires Closed(ss, cyc) && x in cyc
    ensures !InForest(Forest(m, RootsOf(ss, ss), |ss|), x)
  {
    ForestMeaning(ss, m, x);
    if exists r, n: nat :: r in RootsOf(ss, ss) && n <= |ss| && Below(ss, x, r, n) {
      var r, n: nat :| r in RootsOf(ss, ss) && n <= |ss| && Below(ss, x, r, n);
      BelowClosed(ss, cyc, x, r, n);
    }
  }

  /** Two stakeholders that report to each other form such a cycle. */
  lemma MutualReportsClosed(ss: seq<Stakeholder>, a: Stakeholder, b: Stakeholder)
    requires a in ss && b in ss && a.id != "" && b.id != ""
    requires a.reportsTo == Some(b.id) && b.reportsTo == Some(a.id)
    requires forall p :: p in ss && p.id == a.id ==> p == a
    requires forall p :: p in ss && p.id == b.id ==> p == b
    ensures Closed(ss, {a, b})
  {
    assert a.id in Ids(ss) && b.id in Ids(ss);
  }

  // ---------------------------------------------------------------- the depth bound

  /** p walks down the chart from a root: each element is a child of the one before. */
  ghost predicate Chain(all: seq<Stakeholder>, p: seq<Stakeholder>) {
    |p| > 0 && IsRoot(all, p[0])
    && (forall i :: 0 <= i < |p| ==> p[i] in all)
    && forall i :: 0 <= i < |p| - 1 ==> p[i + 1] in ChildrenOf(all, all, p[i].id)
  }

  /** With unique ids, two stakeholders of the list with the same id are the same one. */
  lemma SameId(all: seq<Stakeholder>, x: Stakeholder, y: Stakeholder)
    requires UniqueIds(all) && x in all && y in all
    ensures x.id == y.id ==> x == y
  {
    var i :| 0 <= i < |all| && all[i] == x;
    var j :| 0 <= j < |all| && all[j] == y;
  }

  /** With unique ids a chain never comes back to a stakeholder it passed: going back
      from two equal places reaches the root from a child, which is not a root. */
  lemma {:induction false} ChainDistinctAt(all: seq<Stakeholder>, p: seq<Stakeholder>, i: nat, j: nat)
    requires UniqueIds(all) && Chain(all, p) && i < j < |p|
    ensures p[i] != p[j]
    decreases i
  {
    ChildrenMembers(all, all, p[j - 1].id, p[j]);
    if i > 0 {
      ChildrenMembers(all, all, p[i - 1].id, p[i]);
      ChainDistinctAt(all, p, i - 1, j - 1);
      SameId(all, p[i - 1], p[j - 1]);
    }
  }

  /** A sequence of distinct members of a list is no longer than the list. */
  lemma {:induction false} DistinctBound(p: seq<Stakeholder>, all: seq<Stakeholder>)
    requires forall i, j :: 0 <= i < j < |p| ==> p[i] != p[j]
    requires forall x :: x in p ==> x in all
    ensures |p| <= |all|
  {
    if |p| > 0 {
      assert p[0] in p;
      var k :| 0 <= k < |all| && all[k] == p[0];
      var rest := all[..k] + all[k + 1..];
      forall x | x in p[1..]
        ensures x in rest
      {
        assert x in p;
        var l :| 0 <= l < |all| && all[l] == x;
        assert l != k;
        if l < k { assert rest[l] == x; } else { assert rest[l - 1] == x; }
      }
      DistinctBound(p[1..], rest);
    }
  }

  /** With unique ids a chain is at most as long as the list. */
  lemma ChainBound(all: seq<Stakeholder>, p: seq<Stakeholder>)
    requires UniqueIds(all) && Chain(all, p)
    ensures |p| <= |all|
  {
    forall i, j | 0 <= i < j < |p|
      ensures p[i] != p[j]
    {
      ChainDistinctAt(all, p, i, j);
    }
    DistinctBound(p, all);
  }

  /** A chain extended by one child of its last element is a chain. */
  lemma ChainStep(all: seq<Stakeholder>, m: map<string, seq<Stakeholder>>, p: seq<Stakeholder>, i: nat)
    requires IsChildrenMap(all, m) && Chain(all, p)
    requires i < |ChildList(m, p[|p| - 1].id)|
    ensures Chain(all, p + [ChildList(m, p[|p| - 1].id)[i]])
  {
    var cs := ChildList(m, p[|p| - 1].id);
    assert cs == ChildrenOf(all, all, p[|p| - 1].id);
    ChildrenMembers(all, all, p[|p| - 1].id, cs[i]);
  }

  /** With unique ids a chain whose last element has children is shorter than the list. */
  lemma ChainRoom(all: seq<Stakeholder>, m: map<string, seq<Stakeholder>>, p: seq<Stakeholder>)
    requires UniqueIds(all) && IsChildrenMap(all, m) && Chain(all, p)
    requires |ChildList(m, p[|p| - 1].id)| > 0
    ensures |p| < |all|
  {
    ChainStep(all, m, p, 0);
    ChainBound(all, p + [ChildList(m, p[|p| - 1].id)[0]]);
  }

  /** Two fuels build the same tree of s when they build the same tree of each child. */
  lemma SameChildren(m: map<string, seq<Stakeholder>>, s: Stakeholder, f: nat, g: nat)
    requires |ChildList(m, s.id)| > 0 ==> f > 0 && g > 0
    requires forall i :: 0 <= i < |ChildList(m, s.id)| ==>
               f > 0 && g > 0 && BuildTree(m, ChildList(m, s.id)[i], f - 1) == BuildTree(m, ChildList(m, s.id)[i], g - 1)
    ensures BuildTree(m, s, f) == BuildTree(m, s, g)
  {
    var cs := ChildList(m, s.id);
    if |cs| > 0 {
      var a, b := BuildTree(m, s, f).children, BuildTree(m, s, g).children;
      assert |a| == |cs| == |b|;
      forall i | 0 <= i < |cs|
        ensures a[i] == b[i]
      {
        assert a[i] == BuildTree(m, cs[i], f - 1);
        assert b[i] == BuildTree(m, cs[i], g - 1);
      }
      assert a == b;
    }
  }

  /** Below the end of a chain of length L, any fuel of at least |all| - L builds the same
      tree. */
  lemma {:induction false} FuelEnoughAt(all: seq<Stakeholder>, m: map<string, seq<Stakeholder>>,
                                        p: seq<Stakeholder>, f: nat, g: nat)
    requires UniqueIds(all) && IsChildrenMap(all, m) && Chain(all, p)
    requires f + |p| >= |all| && g + |p| >= |all|
    ensures BuildTree(m, p[|p| - 1], f) == BuildTree(m, p[|p| - 1], g)
    decreases |all| + 1 - |p|, 1
  {
    var cs := ChildList(m, p[|p| - 1].id);
    if |cs| > 0 {
      ChainRoom(all, m, p);
      forall i | 0 <= i < |cs|
        ensures f > 0 && g > 0 && BuildTree(m, cs[i], f - 1) == BuildTree(m, cs[i], g - 1)
      {
        FuelEnoughChild(all, m, p, i, f, g);
      }
    }
    SameChildren(m, p[|p| - 1], f, g);
  }

  /** The same, one level down: the i-th child of the chain's last element. */
  lemma {:induction false} FuelEnoughChild(all: seq<Stakeholder>, m: map<string, seq<Stakeholder>>,
                                           p: seq<Stakeholder>, i: nat, f: nat, g: nat)
    requires UniqueIds(all) && IsChildrenMap(all, m) && Chain(all, p)
    requires i < |ChildList(m, p[|p| - 1].id)|
    requires f + |p| >= |all| && g + |p| >= |all|
    ensures |p| < |all| && f > 0 && g > 0
    ensures BuildTree(m, ChildList(m, p[|p| - 1].id)[i], f - 1) == BuildTree(m, ChildList(m, p[|p| - 1].id)[i], g - 1)
    decreases |all| + 1 - |p|, 0
  {
    var c := ChildList(m, p[|p| - 1].id)[i];
    ChainRoom(all, m, p);
    ChainStep(all, m, p, i);
    var q := p + [c];
    assert q[|q| - 1] == c;
    FuelEnoughAt(all, m, q, f - 1, g - 1);
  }

  /** With unique ids the fuel never runs out: expanding a root as deep as the list is
      long builds the same tree as any deeper expansion, so the bound cuts nothing off. */
  lemma FuelEnough(ss: seq<Stakeholder>, m: map<string, seq<Stakeholder>>, r: Stakeholder, extra: nat)
    requires UniqueIds(ss) && IsChildrenMap(ss, m) && r in RootsOf(ss, ss)
    ensures BuildTree(m, r, |ss|) == BuildTree(m, r, |ss| + extra)
  {
    assert Chain(ss, [r]);
    FuelEnoughAt(ss, m, [r], |ss|, |ss| + extra);
  }
}
