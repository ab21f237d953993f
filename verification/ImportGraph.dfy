/**
 * The import graph of the repository's own files, and what a cycle of imports is,
 * stated without reference to any search.
 */
module ImportGraph {

  type File = string

  datatype ImportKind = Static | Dynamic

  datatype Import = Import(to: File, kind: ImportKind)

  /** The edge map together with the edge filter `includeDynamic`. */
  datatype Graph = Graph(edges: map<File, seq<Import>>, includeDynamic: bool)

  /** `edges.get(v) ?? []`. */
  function Imports(g: Graph, v: File): seq<Import> {
    if v in g.edges then g.edges[v] else []
  }

  predicate Followed(g: Graph, i: Import) {
    g.includeDynamic || i.kind != Dynamic
  }

  ghost function Succ(g: Graph, v: File): set<File> {
    set k | 0 <= k < |Imports(g, v)| && Followed(g, Imports(g, v)[k]) :: Imports(g, v)[k].to
  }

  /** The importing files and everything they import. */
  ghost function Vertices(g: Graph): set<File> {
    g.edges.Keys + set v, k | v in g.edges && 0 <= k < |g.edges[v]| :: g.edges[v][k].to
  }

  lemma SuccInVertices(g: Graph, v: File)
    ensures Succ(g, v) <= Vertices(g)
  {
  }

  ghost predicate IsPath(g: Graph, p: seq<File>) {
    |p| > 0 && forall i {:trigger p[i]} :: 0 <= i < |p| - 1 ==> p[i + 1] in Succ(g, p[i])
  }

  /** `y` can be reached from `x` by following zero or more imports. */
  ghost predicate Reach(g: Graph, x: File, y: File) {
    exists p :: IsPath(g, p) && p[0] == x && p[|p| - 1] == y
  }

  lemma ReachRefl(g: Graph, x: File)
    ensures Reach(g, x, x)
  {
    assert IsPath(g, [x]);
  }

  lemma ReachEdge(g: Graph, x: File, y: File)
    requires y in Succ(g, x)
    ensures Reach(g, x, y)
  {
    assert IsPath(g, [x, y]);
  }

  lemma ReachTrans(g: Graph, x: File, y: File, z: File)
    requires Reach(g, x, y) && Reach(g, y, z)
    ensures Reach(g, x, z)
  {
    var p :| IsPath(g, p) && p[0] == x && p[|p| - 1] == y;
    var q :| IsPath(g, q) && q[0] == y && q[|q| - 1] == z;
    var r := p + q[1..];
    forall i | 0 <= i < |r| - 1
      ensures r[i + 1] in Succ(g, r[i])
    {
      if i < |p| - 1 {
        assert p[i + 1] in Succ(g, p[i]);
      } else {
        assert q[i - |p| + 2] in Succ(g, q[i - |p| + 1]);
      }
    }
    assert IsPath(g, r);
  }

  ghost predicate Closed(g: Graph, s: set<File>) {
    forall x :: x in s ==> Succ(g, x) <= s
  }

  /** No path leaves a closed set. */
  lemma ClosedReach(g: Graph, s: set<File>, x: File, y: File)
    requires Closed(g, s) && x in s && Reach(g, x, y)
    ensures y in s
  {
    var p :| IsPath(g, p) && p[0] == x && p[|p| - 1] == y;
    var i := 0;
    while i < |p| - 1
      invariant 0 <= i < |p| && p[i] in s
    {
      assert p[i + 1] in Succ(g, p[i]);
      i := i + 1;
    }
  }

  ghost predicate Mutual(g: Graph, x: File, y: File) {
    Reach(g, x, y) && Reach(g, y, x)
  }

  ghost predicate MutuallyReachable(g: Graph, s: set<File>) {
    forall x, y :: x in s && y in s ==> Reach(g, x, y)
  }

  /** An import cycle: a maximal set of at least two mutually reachable files. */
  ghost predicate IsCycle(g: Graph, s: set<File>) {
    && |s| >= 2
    && MutuallyReachable(g, s)
    && forall t :: s < t ==> !MutuallyReachable(g, t)
  }

  /** `s` is the class of each of its members under mutual reachability. */
  ghost predicate IsClass(g: Graph, s: set<File>) {
    forall x, y :: x in s ==> (y in s <==> Mutual(g, x, y))
  }

  lemma ClassIsCycle(g: Graph, s: set<File>)
    requires |s| >= 2 && IsClass(g, s)
    ensures IsCycle(g, s)
  {
    assert s != {};
    var x :| x in s;
    forall a, b | a in s && b in s
      ensures Reach(g, a, b)
    {
      assert Mutual(g, a, b);
    }
    forall t | s < t
      ensures !MutuallyReachable(g, t)
    {
      var y :| y in t && y !in s;
      assert !Mutual(g, x, y);
      assert x in t;
    }
  }

  lemma CycleIsClass(g: Graph, s: set<File>)
    requires IsCycle(g, s)
    ensures IsClass(g, s)
  {
    forall x, y | x in s
      ensures y in s <==> Mutual(g, x, y)
    {
      if Mutual(g, x, y) && y !in s {
        var t := s + {y};
        forall a, b | a in t && b in t
          ensures Reach(g, a, b)
        {
          assert Mutual(g, y, x);
          ReachRefl(g, y);
          if a in s && b == y {
            ReachTrans(g, a, x, y);
          } else if a == y && b in s {
            ReachTrans(g, y, x, b);
          }
        }
        assert s < t && MutuallyReachable(g, t);
        assert false;
      }
    }
  }

  /** The files mutually reachable with `x`. */
  ghost function ClassOf(g: Graph, x: File): set<File> {
    set y | y in Vertices(g) && Mutual(g, x, y)
  }

  lemma ClassOfIsClass(g: Graph, x: File)
    requires x in Vertices(g)
    ensures IsClass(g, ClassOf(g, x))
  {
    forall v | v in Vertices(g)
      ensures Succ(g, v) <= Vertices(g)
    {
      SuccInVertices(g, v);
    }
    forall a, b | a in ClassOf(g, x)
      ensures b in ClassOf(g, x) <==> Mutual(g, a, b)
    {
      if Mutual(g, x, b) {
        ReachTrans(g, a, x, b);
        ReachTrans(g, b, x, a);
      }
      if Mutual(g, a, b) {
        ReachTrans(g, x, a, b);
        ReachTrans(g, b, a, x);
        ClosedReach(g, Vertices(g), a, b);
      }
    }
  }

  /** Every static cycle lies inside one cycle of the static and dynamic graph. */
  lemma StaticCycleInsideDynamic(edges: map<File, seq<Import>>, s: set<File>)
    requires IsCycle(Graph(edges, false), s)
    ensures exists t :: IsCycle(Graph(edges, true), t) && s <= t
  {
    var gs, gd := Graph(edges, false), Graph(edges, true);
    assert s != {};
    var x :| x in s;
    var t := ClassOf(gd, x);
    forall y | y in s
      ensures y in t
    {
      MoreImportsReachMore(edges, x, y);
      MoreImportsReachMore(edges, y, x);
      assert s != {x};
      var z :| z in s && z != x;
      var p :| IsPath(gs, p) && p[0] == x && p[|p| - 1] == z;
      assert p[1] in Succ(gs, x);
      forall v | v in Vertices(gd)
        ensures Succ(gd, v) <= Vertices(gd)
      {
        SuccInVertices(gd, v);
      }
      ClosedReach(gd, Vertices(gd), x, y);
    }
    ReachRefl(gd, x);
    assert x in Vertices(gd);
    ClassOfIsClass(gd, x);
    SubsetSize(s, t);
    ClassIsCycle(gd, t);
  }

  lemma MoreImportsReachMore(edges: map<File, seq<Import>>, x: File, y: File)
    requires Reach(Graph(edges, false), x, y)
    ensures Reach(Graph(edges, true), x, y)
  {
    var gs, gd := Graph(edges, false), Graph(edges, true);
    var p :| IsPath(gs, p) && p[0] == x && p[|p| - 1] == y;
    forall i | 0 <= i < |p| - 1
      ensures p[i + 1] in Succ(gd, p[i])
    {
      var k :| 0 <= k < |Imports(gs, p[i])| && Followed(gs, Imports(gs, p[i])[k])
          && Imports(gs, p[i])[k].to == p[i + 1];
      assert Followed(gd, Imports(gd, p[i])[k]);
    }
    assert IsPath(gd, p);
  }

  lemma SubsetSize<T>(a: set<T>, b: set<T>)
    requires a <= b
    ensures |a| <= |b|
  {
    assert b == a + (b - a);
  }

  /* ---------- What the edge filter keeps ---------- */

  /** A file leads to what it imports statically, and with `includeDynamic` also to what it imports dynamically. */
  lemma SuccMeaning(edges: map<File, seq<Import>>, includeDynamic: bool, x: File, y: File)
    ensures y in Succ(Graph(edges, includeDynamic), x) <==>
            x in edges
            && exists k :: 0 <= k < |edges[x]| && edges[x][k].to == y && (includeDynamic || edges[x][k].kind == Static)
  {
    if x in edges
       && exists k :: 0 <= k < |edges[x]| && edges[x][k].to == y && (includeDynamic || edges[x][k].kind == Static) {
      var k :| 0 <= k < |edges[x]| && edges[x][k].to == y && (includeDynamic || edges[x][k].kind == Static);
      assert Imports(Graph(edges, includeDynamic), x)[k].to == y;
    }
  }

  function StaticOf(imports: seq<Import>): (r: seq<Import>)
    ensures forall i :: i in r <==> i in imports && i.kind == Static
  {
    if imports == [] then []
    else
      assert imports == [imports[0]] + imports[1..];
      (if imports[0].kind == Static then [imports[0]] else []) + StaticOf(imports[1..])
  }

  /** The map with its dynamic entries dropped. */
  function StaticOnly(edges: map<File, seq<Import>>): map<File, seq<Import>> {
    map v | v in edges :: StaticOf(edges[v])
  }

  lemma SameSuccessors(edges: map<File, seq<Import>>, x: File)
    ensures Succ(Graph(edges, false), x) == Succ(Graph(StaticOnly(edges), true), x)
  {
    var some := StaticOnly(edges);
    forall y
      ensures y in Succ(Graph(edges, false), x) <==> y in Succ(Graph(some, true), x)
    {
      SuccMeaning(edges, false, x, y);
      SuccMeaning(some, true, x, y);
      hide Succ;
      if x in edges {
        if k :| 0 <= k < |edges[x]| && edges[x][k].to == y && edges[x][k].kind == Static {
          assert edges[x][k] in some[x];
          var j :| 0 <= j < |some[x]| && some[x][j] == edges[x][k];
        }
        if k :| 0 <= k < |some[x]| && some[x][k].to == y {
          assert some[x][k] in edges[x];
          var j :| 0 <= j < |edges[x]| && edges[x][j] == some[x][k];
        }
      }
    }
  }

  lemma SameReach(g: Graph, h: Graph, x: File, y: File)
    requires forall v :: Succ(g, v) == Succ(h, v)
    ensures Reach(g, x, y) <==> Reach(h, x, y)
  {
    assert forall p :: IsPath(g, p) <==> IsPath(h, p);
    hide IsPath;
  }

  lemma SameCycles(g: Graph, h: Graph, s: set<File>)
    requires forall v :: Succ(g, v) == Succ(h, v)
    ensures IsCycle(g, s) <==> IsCycle(h, s)
  {
    forall x, y
      ensures Reach(g, x, y) <==> Reach(h, x, y)
    {
      SameReach(g, h, x, y);
    }
    hide Reach;
    assert forall t :: MutuallyReachable(g, t) <==> MutuallyReachable(h, t);
  }

  /** Without `includeDynamic` the cycles are those of the map with its dynamic entries dropped. */
  lemma StaticCycles(edges: map<File, seq<Import>>, s: set<File>)
    ensures IsCycle(Graph(edges, false), s) <==> IsCycle(Graph(StaticOnly(edges), true), s)
  {
    forall x
      ensures Succ(Graph(edges, false), x) == Succ(Graph(StaticOnly(edges), true), x)
    {
      SameSuccessors(edges, x);
    }
    SameCycles(Graph(edges, false), Graph(StaticOnly(edges), true), s);
  }
}
