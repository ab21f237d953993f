/** `findCycles` of `scripts/import-cycles.js`: Tarjan's search, updating its maps and stack in place. */
module ImportCycles {
  import opened ImportGraph
  import opened Sorting
  import opened TarjanInvariant
  import opened TarjanClose

  /** A file already popped, or skipped by the edge filter, changes nothing. */
  lemma FollowNothing(g: Graph, s0: State, s: State, v: File, n: nat)
    requires Bookkeeping(s0) && Visiting(g, s0, s, v, n) && n < |Imports(g, v)|
    requires var i := Imports(g, v)[n]; Followed(g, i) ==> i.to in s.index && i.to !in s.onStack
    ensures Visiting(g, s0, s, v, n + 1)
  {
    var i := Imports(g, v)[n];
    if Followed(g, i) {
      assert forall k :: 0 <= k < |s0.stack| ==> s.stack[k] == s0.stack[k];
      assert Accounted(s0, s, v, i.to);
    }
  }

  lemma TreeStep(g: Graph, s0: State, s: State, s': State, gray: set<File>, v: File, n: nat)
    requires AllFollowedTo(g, s0, s, gray, v, n)
    requires n < |Imports(g, v)| && Followed(g, Imports(g, v)[n]) && Imports(g, v)[n].to !in s.index
    requires Inv(g, s', gray + {v}) && Visited(g, s, s', Imports(g, v)[n].to)
    ensures v in s'.low && Imports(g, v)[n].to in s'.low
    ensures AllFollowedTo(g, s0, Lower(s', v, s'.low[Imports(g, v)[n].to]), gray, v, n + 1)
  {
    FollowTree(g, s0, s, s', v, n);
    LowerKeepsInv(g, s', gray + {v}, v, s'.low[Imports(g, v)[n].to]);
  }

  lemma BackStep(g: Graph, s0: State, s: State, gray: set<File>, v: File, n: nat)
    requires AllFollowedTo(g, s0, s, gray, v, n)
    requires n < |Imports(g, v)| && Followed(g, Imports(g, v)[n]) && Imports(g, v)[n].to in s.onStack
    ensures v in s.low && Imports(g, v)[n].to in s.index
    ensures AllFollowedTo(g, s0, Lower(s, v, s.index[Imports(g, v)[n].to]), gray, v, n + 1)
  {
    FollowBack(g, s0, s, v, n);
    LowerKeepsInv(g, s, gray + {v}, v, s.index[Imports(g, v)[n].to]);
  }

  lemma GrayReaches(g: Graph, below: seq<File>, stack: seq<File>, gray: set<File>, v: File, to: File)
    requires Grown(below, stack, v) && gray <= Members(below) && ReachesUp(g, stack) && to in Succ(g, v)
    ensures forall x :: x in gray + {v} ==> Reach(g, x, to)
  {
    ReachEdge(g, v, to);
    forall x | x in gray
      ensures Reach(g, x, to)
    {
      var i :| 0 <= i < |below| && below[i] == x;
      assert Reach(g, stack[i], stack[|below|]);
      ReachTrans(g, x, v, to);
    }
  }

  /** `AllFollowed` with only the first `n` imports of `v` followed. */
  ghost predicate AllFollowedTo(g: Graph, s0: State, s: State, gray: set<File>, v: File, n: nat) {
    && Inv(g, s0, gray) && v !in s0.index
    && Inv(g, s, gray + {v})
    && Visiting(g, s0, s, v, n)
  }

  /** An unvisited import may be visited next. */
  lemma BeforeTree(g: Graph, s0: State, s: State, gray: set<File>, v: File, n: nat)
    requires AllFollowedTo(g, s0, s, gray, v, n)
    requires n < |Imports(g, v)| && Followed(g, Imports(g, v)[n])
    ensures Imports(g, v)[n].to in Vertices(g)
    ensures forall x :: x in gray + {v} ==> Reach(g, x, Imports(g, v)[n].to)
  {
    SuccInVertices(g, v);
    GrayReaches(g, s0.stack, s.stack, gray, v, Imports(g, v)[n].to);
  }

  function Head(c: seq<File>): File {
    if c == [] then "" else c[0]
  }

  lemma EmptyInv(g: Graph)
    ensures Inv(g, State(map[], map[], {}, [], [], 0), {})
  {
  }

  lemma EdgesInVertices(g: Graph)
    ensures g.edges.Keys <= Vertices(g)
  {
  }

  lemma StackedMeansGray(g: Graph, stack: seq<File>, gray: set<File>)
    requires stack != [] && ReachesDown(g, stack, gray)
    ensures gray != {}
  {
    assert ReachesGray(g, stack, gray, 0);
  }

  /** With no visit under way the stack is empty. */
  lemma IdleStackEmpty(g: Graph, s: State)
    requires Inv(g, s, {})
    ensures s.stack == []
  {
    if s.stack != [] {
      StackedMeansGray(g, s.stack, {});
      assert false;
    }
  }

  lemma CyclePartner(g: Graph, cycle: set<File>) returns (x: File, y: File)
    requires IsCycle(g, cycle)
    ensures x in cycle && x in g.edges && x != y && Mutual(g, x, y)
  {
    CycleIsClass(g, cycle);
    assert cycle != {};
    x :| x in cycle;
    assert cycle != {x};
    y :| y in cycle && y != x;
    assert Mutual(g, x, y);
    var p :| IsPath(g, p) && p[0] == x && p[|p| - 1] == y;
    assert p[1] in Succ(g, p[0]);
  }

  lemma SameCycle(g: Graph, a: set<File>, b: set<File>, x: File)
    requires IsCycle(g, a) && IsCycle(g, b) && x in a && x in b
    ensures a == b
  {
    CycleIsClass(g, a);
    CycleIsClass(g, b);
    forall y
      ensures y in a <==> y in b
    {
      assert y in a <==> Mutual(g, x, y);
    }
  }

  /** Once every importing file is indexed, the report misses no cycle. */
  lemma ReportMissesNone(g: Graph, s: State, cycle: set<File>)
    requires Inv(g, s, {}) && g.edges.Keys <= s.index.Keys && IsCycle(g, cycle)
    ensures exists i :: 0 <= i < |s.out| && Members(s.out[i]) == cycle
  {
    IdleStackEmpty(g, s);
    var x, y := CyclePartner(g, cycle);
    assert x in s.Done();
    var i :| 0 <= i < |s.out| && x in s.out[i];
    SameCycle(g, Members(s.out[i]), cycle, x);
  }

  ghost predicate AllCycles(g: Graph, cycles: seq<seq<File>>) {
    forall i :: 0 <= i < |cycles| ==> IsCycle(g, Members(cycles[i]))
  }

  ghost predicate NoneMissing(g: Graph, cycles: seq<seq<File>>) {
    forall s :: IsCycle(g, s) ==> exists i :: 0 <= i < |cycles| && Members(cycles[i]) == s
  }

  ghost predicate EachSorted(cycles: seq<seq<File>>) {
    forall i :: 0 <= i < |cycles| ==> SortedBy(StringLe, cycles[i]) && |cycles[i]| == |Members(cycles[i])|
  }

  ghost predicate PairwiseDisjoint(cycles: seq<seq<File>>) {
    forall i, j :: 0 <= i < j < |cycles| ==> Members(cycles[i]) !! Members(cycles[j])
  }

  /** `cycles` lists exactly the import cycles of `g`, each once and with its files in code unit order. */
  ghost predicate ListsCycles(g: Graph, cycles: seq<seq<File>>) {
    AllCycles(g, cycles) && NoneMissing(g, cycles) && EachSorted(cycles) && PairwiseDisjoint(cycles)
  }

  lemma SearchDone(g: Graph, s: State)
    requires Inv(g, s, {}) && g.edges.Keys <= s.index.Keys
    ensures ListsCycles(g, s.out)
  {
    forall cycle | IsCycle(g, cycle)
      ensures exists i :: 0 <= i < |s.out| && Members(s.out[i]) == cycle
    {
      ReportMissesNone(g, s, cycle);
    }
  }

  lemma MembersSlice(all: seq<File>, n: nat)
    requires n < |all|
    ensures Members(all[n..]) == {all[n]} + Members(all[n + 1..])
  {
    assert all[n..] == [all[n]] + all[n + 1..];
  }

  lemma MembersAppend(c: seq<File>, w: File)
    ensures Members(c + [w]) == Members(c) + {w}
  {
  }

  lemma NoMembers(all: seq<File>)
    ensures Members([]) == {} == Members(all[|all|..])
  {
  }

  lemma StackedOnce(s: State, i: nat, j: nat)
    requires Bookkeeping(s) && i < |s.stack| && j < |s.stack| && s.stack[i] == s.stack[j]
    ensures i == j
  {
    assert s.index[s.stack[i]] == s.index[s.stack[j]];
  }

  class Search {
    const edges: map<File, seq<Import>>
    const includeDynamic: bool
    var index: map<File, nat>
    var low: map<File, nat>
    var onStack: set<File>
    var stack: seq<File>
    var out: seq<seq<File>>
    var counter: nat

    constructor (edges: map<File, seq<Import>>, includeDynamic: bool)
      ensures this.edges == edges && this.includeDynamic == includeDynamic
      ensures Snap() == State(map[], map[], {}, [], [], 0)
    {
      this.edges, this.includeDynamic := edges, includeDynamic;
      index, low, onStack, stack, out, counter := map[], map[], {}, [], [], 0;
    }

    ghost function G(): Graph {
      Graph(edges, includeDynamic)
    }

    ghost function Snap(): State
      reads this
    {
      State(index, low, onStack, stack, out, counter)
    }

    /** The loop over the importing files. */
    method VisitAll(files: seq<File>)
      requires forall v :: v in files <==> v in edges
      requires Snap() == State(map[], map[], {}, [], [], 0)
      modifies this
      ensures Inv(G(), Snap(), {}) && edges.Keys <= index.Keys
    {
      hide Inv, Visited, Vertices;
      EmptyInv(G());
      EdgesInVertices(G());
      for n := 0 to |files|
        invariant Inv(G(), Snap(), {})
        invariant forall i :: 0 <= i < n ==> files[i] in index
      {
        if files[n] !in index {
          Visit(files[n], {});
        }
      }
    }

    /** The inner function `visit`. */
    method Visit(v: File, ghost gray: set<File>)
      requires Inv(G(), Snap(), gray)
      requires v in Vertices(G()) && v !in index
      requires forall x :: x in gray ==> Reach(G(), x, v)
      modifies this
      ensures Inv(G(), Snap(), gray)
      ensures Visited(G(), old(Snap()), Snap(), v)
      ensures v in index && old(index.Keys) <= index.Keys
      decreases Vertices(G()) - index.Keys, 1
    {
      ghost var s0 := Snap();
      OpenKeeps(G(), s0, gray, v);
      Begin(v);
      var imports := if v in edges then edges[v] else [];
      for n := 0 to |imports|
        invariant AllFollowedTo(G(), s0, Snap(), gray, v, n)
        invariant v in index && s0.index.Keys <= index.Keys
      {
        Follow(v, imports[n], s0, gray, n);
      }
      Finish(v, s0, gray);
    }

    method Begin(v: File)
      modifies this
      ensures Snap() == Open(old(Snap()), v)
    {
      index := index[v := counter];
      low := low[v := counter];
      counter := counter + 1;
      stack := stack + [v];
      onStack := onStack + {v};
    }

    /** `low.set(v, Math.min(low.get(v), x))`. */
    method LowerLow(v: File, x: nat)
      requires v in low
      modifies this`low
      ensures Snap() == Lower(old(Snap()), v, x)
    {
      low := low[v := if low[v] <= x then low[v] else x];
    }

    /** One round of the loop over the imports of `v`. */
    method Follow(v: File, i: Import, ghost s0: State, ghost gray: set<File>, ghost n: nat)
      requires AllFollowedTo(G(), s0, Snap(), gray, v, n)
      requires n < |Imports(G(), v)| && Imports(G(), v)[n] == i
      modifies this
      ensures AllFollowedTo(G(), s0, Snap(), gray, v, n + 1)
      decreases Vertices(G()) - index.Keys, 3
    {
      var to, kind := i.to, i.kind;
      ghost var s := Snap();
      if !includeDynamic && kind == Dynamic {
        FollowNothing(G(), s0, s, v, n);
        return;
      }
      if to !in index {
        FollowNew(v, to, s0, gray, n);
      } else if to in onStack {
        BackStep(G(), s0, s, gray, v, n);
        LowerLow(v, index[to]);
      } else {
        FollowNothing(G(), s0, s, v, n);
      }
    }

    /** The branch `!index.has(to)`. */
    method FollowNew(v: File, to: File, ghost s0: State, ghost gray: set<File>, ghost n: nat)
      requires AllFollowedTo(G(), s0, Snap(), gray, v, n)
      requires n < |Imports(G(), v)| && Followed(G(), Imports(G(), v)[n]) && Imports(G(), v)[n].to == to && to !in index
      modifies this
      ensures AllFollowedTo(G(), s0, Snap(), gray, v, n + 1)
      decreases Vertices(G()) - index.Keys, 2
    {
      ghost var s := Snap();
      BeforeTree(G(), s0, s, gray, v, n);
      Visit(to, gray + {v});
      TreeStep(G(), s0, s, Snap(), gray, v, n);
      LowerLow(v, low[to]);
    }

    /** The end of `visit`: pop and report the component if `v` heads one. */
    method Finish(v: File, ghost s0: State, ghost gray: set<File>)
      requires AllFollowed(G(), s0, Snap(), gray, v)
      modifies this
      ensures Inv(G(), Snap(), gray)
      ensures Visited(G(), s0, Snap(), v)
    {
      ghost var s := Snap();
      if low[v] == index[v] {
        ghost var component := PopComponent(v, |s0.stack|);
        PopKeeps(G(), s0, s, gray, v, component);
        PopVisits(G(), s0, s, v, component);
      } else {
        StayKeeps(G(), s0, s, gray, v);
      }
    }

    /** Take the component of `v`, which is at stack position `k`, off the stack and report it if it is a cycle. */
    method PopComponent(v: File, ghost k: nat) returns (ghost popped: seq<File>)
      requires Bookkeeping(Snap()) && k < |stack| && stack[k] == v
      modifies this`stack, this`onStack, this`out
      ensures Snap() == Popped(old(Snap()), k, popped)
      ensures Members(popped) == Members(old(stack)[k..]) && |popped| == old(|stack|) - k
    {
      hide Bookkeeping, Sort, Members;
      var component := [];
      ghost var all := stack;
      NoMembers(all);
      while true
        invariant k < |stack| <= |all| && stack == all[..|stack|]
        invariant Members(component) == Members(all[|stack|..]) && |component| == |all| - |stack|
        invariant onStack == old(onStack) - Members(component)
        invariant out == old(out)
        decreases |stack|
      {
        var w := stack[|stack| - 1];
        MembersSlice(all, |stack| - 1);
        MembersAppend(component, w);
        stack := stack[..|stack| - 1];
        onStack := onStack - {w};
        component := component + [w];
        if w == v {
          StackedOnce(old(Snap()), k, |stack|);
          break;
        }
      }
      if |component| > 1 {
        out := out + [Sort(StringLe, component)];
      }
      popped := component;
    }
  }

  /** Listing the cycles does not depend on where the filter is applied. */
  lemma ListsStaticCycles(edges: map<File, seq<Import>>, cycles: seq<seq<File>>)
    requires ListsCycles(Graph(edges, false), cycles)
    ensures ListsCycles(Graph(StaticOnly(edges), true), cycles)
  {
    hide IsCycle, Members, SortedBy;
    forall s
      ensures IsCycle(Graph(edges, false), s) <==> IsCycle(Graph(StaticOnly(edges), true), s)
    {
      StaticCycles(edges, s);
    }
  }

  /**
   * The reported lists are exactly the import cycles, those of static imports alone if dynamic ones are not included;
   * they are in the order of their first files under `collate`, the order of `localeCompare`.
   */
  method FindCycles(files: seq<File>, edges: map<File, seq<Import>>, includeDynamic: bool,
                    collate: (File, File) -> bool)
    returns (cycles: seq<seq<File>>)
    requires forall v :: v in files <==> v in edges
    requires TotalPreorder(collate)
    ensures ListsCycles(Graph(edges, includeDynamic), cycles)
    ensures !includeDynamic ==> ListsCycles(Graph(StaticOnly(edges), true), cycles)
    ensures forall i :: 0 <= i < |cycles| ==> |cycles[i]| >= 2
    ensures forall i, j :: 0 <= i < j < |cycles| ==> collate(cycles[i][0], cycles[j][0])
  {
    hide ListsCycles, Sort, Inv;
    ghost var g := Graph(edges, includeDynamic);
    var search := new Search(edges, includeDynamic);
    search.VisitAll(files);
    SearchDone(g, search.Snap());
    var le := (a: seq<File>, b: seq<File>) => collate(Head(a), Head(b));
    cycles := Sort(le, search.out);
    HeadOrder(le, collate);
    SortSorted(le, search.out);
    SortKeepsListing(g, le, search.out);
    assert forall i, j :: 0 <= i < j < |cycles| ==> le(cycles[i], cycles[j]);
    CyclesHaveTwo(g, cycles);
    if !includeDynamic {
      ListsStaticCycles(edges, cycles);
    }
  }

  lemma CyclesHaveTwo(g: Graph, cycles: seq<seq<File>>)
    requires ListsCycles(g, cycles)
    ensures forall i :: 0 <= i < |cycles| ==> |cycles[i]| >= 2
  {
  }

  lemma HeadOrder(le: (seq<File>, seq<File>) -> bool, collate: (File, File) -> bool)
    requires TotalPreorder(collate)
    requires forall a, b :: le(a, b) <==> collate(Head(a), Head(b))
    ensures TotalPreorder(le)
  {
    forall x, y, z | le(x, y) && le(y, z)
      ensures le(x, z)
    {
      assert collate(Head(x), Head(y)) && collate(Head(y), Head(z));
    }
    forall x, y
      ensures le(x, y) || le(y, x)
    {
      assert collate(Head(x), Head(y)) || collate(Head(y), Head(x));
    }
  }

  lemma SortKeepsListing(g: Graph, le: (seq<File>, seq<File>) -> bool, out: seq<seq<File>>)
    requires ListsCycles(g, out)
    ensures ListsCycles(g, Sort(le, out))
  {
    CyclesNotEmpty(g, out);
    hide AllCycles, NoneMissing, EachSorted, PairwiseDisjoint, Sort;
    SortKeepsCycles(g, le, out);
    SortKeepsComplete(g, le, out);
    SortKeepsSorted(le, out);
    SortKeepsDisjoint(le, out);
  }

  lemma CyclesNotEmpty(g: Graph, cycles: seq<seq<File>>)
    requires AllCycles(g, cycles)
    ensures forall i :: 0 <= i < |cycles| ==> Members(cycles[i]) != {}
  {
  }

  lemma SortKeepsSorted(le: (seq<File>, seq<File>) -> bool, out: seq<seq<File>>)
    requires EachSorted(out)
    ensures EachSorted(Sort(le, out))
  {
    hide Sort, SortedBy, Members;
    SortMembers(le, out);
    forall i | 0 <= i < |Sort(le, out)|
      ensures var c := Sort(le, out)[i]; SortedBy(StringLe, c) && |c| == |Members(c)|
    {
      assert Sort(le, out)[i] in out;
    }
  }

  lemma SortKeepsCycles(g: Graph, le: (seq<File>, seq<File>) -> bool, out: seq<seq<File>>)
    requires AllCycles(g, out)
    ensures AllCycles(g, Sort(le, out))
  {
    hide Sort, IsCycle, Members;
    SortMembers(le, out);
    forall i | 0 <= i < |Sort(le, out)|
      ensures IsCycle(g, Members(Sort(le, out)[i]))
    {
      assert Sort(le, out)[i] in out;
    }
  }

  lemma SortKeepsComplete(g: Graph, le: (seq<File>, seq<File>) -> bool, out: seq<seq<File>>)
    requires NoneMissing(g, out)
    ensures NoneMissing(g, Sort(le, out))
  {
    hide Sort, IsCycle, Members;
    forall s | IsCycle(g, s)
      ensures exists i :: 0 <= i < |Sort(le, out)| && Members(Sort(le, out)[i]) == s
    {
      SortKeepsOne(le, out, s);
    }
  }

  lemma SortKeepsOne(le: (seq<File>, seq<File>) -> bool, out: seq<seq<File>>, s: set<File>)
    requires exists i :: 0 <= i < |out| && Members(out[i]) == s
    ensures exists i :: 0 <= i < |Sort(le, out)| && Members(Sort(le, out)[i]) == s
  {
    hide Sort, Members;
    SortMembers(le, out);
    var i :| 0 <= i < |out| && Members(out[i]) == s;
    assert out[i] in Sort(le, out);
  }

  lemma SortKeepsDisjoint(le: (seq<File>, seq<File>) -> bool, out: seq<seq<File>>)
    requires forall i :: 0 <= i < |out| ==> Members(out[i]) != {}
    requires PairwiseDisjoint(out)
    ensures PairwiseDisjoint(Sort(le, out))
  {
    hide Sort, Members;
    var r := Sort(le, out);
    DisjointDistinct(out);
    SortDistinct(le, out);
    SortMembers(le, out);
    forall i, j | 0 <= i < j < |r|
      ensures Members(r[i]) !! Members(r[j])
    {
      assert r[i] in out && r[j] in out;
      DistinctDisjoint(out, r[i], r[j]);
    }
  }

  lemma DisjointDistinct(out: seq<seq<File>>)
    requires PairwiseDisjoint(out) && forall i :: 0 <= i < |out| ==> Members(out[i]) != {}
    ensures Distinct(out)
  {
    hide Members;
  }

  lemma DistinctDisjoint(out: seq<seq<File>>, a: seq<File>, b: seq<File>)
    requires PairwiseDisjoint(out) && a in out && b in out && a != b
    ensures Members(a) !! Members(b)
  {
    hide Members;
    var i :| 0 <= i < |out| && out[i] == a;
    var j :| 0 <= j < |out| && out[j] == b;
  }
}
