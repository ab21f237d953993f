/**
 * What Tarjan's search keeps true between any two statements that matter, as predicates on a
 * snapshot of its variables. `gray` is the set of files whose visit has begun and not ended.
 */
module TarjanInvariant {
  import opened ImportGraph
  import opened Sorting

  /** The variables of one search. */
  datatype State = State(index: map<File, nat>, low: map<File, nat>, onStack: set<File>, stack: seq<File>,
                         out: seq<seq<File>>, counter: nat)
  {
    /** Files whose component has been popped. */
    ghost function Done(): set<File> {
      index.Keys - onStack
    }
  }

  ghost function Members(c: seq<File>): set<File> {
    set x | x in c
  }

  /** Indices rise along the stack and stay below the counter. */
  ghost predicate Numbered(index: map<File, nat>, stack: seq<File>, counter: nat) {
    && (forall v :: v in index ==> index[v] < counter)
    && (forall i :: 0 <= i < |stack| ==> stack[i] in index)
    && (forall i, j :: 0 <= i < j < |stack| ==> index[stack[i]] < index[stack[j]])
  }

  ghost predicate Bookkeeping(s: State) {
    && s.low.Keys == s.index.Keys
    && s.onStack == Members(s.stack)
    && Numbered(s.index, s.stack, s.counter)
  }

  /** A finished file imports no unvisited file. */
  ghost predicate NoGap(g: Graph, seen: set<File>, gray: set<File>) {
    forall x :: x in seen && x !in gray ==> Succ(g, x) <= seen
  }

  /** Every stacked file reaches the files above it. */
  ghost predicate ReachesUp(g: Graph, stack: seq<File>) {
    forall i, j :: 0 <= i <= j < |stack| ==> Reach(g, stack[i], stack[j])
  }

  ghost predicate ReachesGray(g: Graph, stack: seq<File>, gray: set<File>, j: nat)
    requires j < |stack|
  {
    exists i :: 0 <= i <= j && stack[i] in gray && Reach(g, stack[j], stack[i])
  }

  /** Every stacked file reaches an unfinished file no higher than itself. */
  ghost predicate ReachesDown(g: Graph, stack: seq<File>, gray: set<File>) {
    forall j: nat :: j < |stack| ==> ReachesGray(g, stack, gray, j)
  }

  /** The reported components are cycles among the popped files, each sorted, and disjoint. */
  ghost predicate ReportedSound(g: Graph, done: set<File>, out: seq<seq<File>>) {
    && (forall i :: 0 <= i < |out| ==> IsCycle(g, Members(out[i])) && Members(out[i]) <= done)
    && (forall i :: 0 <= i < |out| ==> SortedBy(StringLe, out[i]) && |out[i]| == |Members(out[i])|)
    && (forall i, j :: 0 <= i < j < |out| ==> Members(out[i]) !! Members(out[j]))
  }

  /** No popped file that lies on a cycle is missing from the report. */
  ghost predicate ReportedComplete(g: Graph, done: set<File>, out: seq<seq<File>>) {
    forall x, y :: x in done && x != y && Mutual(g, x, y) ==> exists i :: 0 <= i < |out| && x in out[i]
  }

  ghost predicate Inv(g: Graph, s: State, gray: set<File>) {
    && Bookkeeping(s)
    && s.index.Keys <= Vertices(g)
    && gray <= s.onStack
    && NoGap(g, s.index.Keys, gray)
    && Closed(g, s.Done())
    && ReachesUp(g, s.stack)
    && ReachesDown(g, s.stack, gray)
    && ReportedSound(g, s.Done(), s.out)
    && ReportedComplete(g, s.Done(), s.out)
  }

  /** `s` extends `s0`: nothing recorded in `s0` changed and its stack is still there below. */
  ghost predicate Extends(s0: State, s: State) {
    && s0.counter <= s.counter
    && (forall x :: x in s0.index ==> x in s.index && s.index[x] == s0.index[x])
    && (forall x :: x in s0.low ==> x in s.low && s.low[x] == s0.low[x])
    && |s0.stack| <= |s.stack|
    && (forall i :: 0 <= i < |s0.stack| ==> s.stack[i] == s0.stack[i])
  }

  /** No file from stack position `from` on imports one of the lowest `k` with an index below `x`. */
  ghost predicate Bounds(g: Graph, index: map<File, nat>, stack: seq<File>, x: nat, k: nat, from: nat)
    requires k <= |stack| && forall i :: 0 <= i < |stack| ==> stack[i] in index
  {
    forall j, i :: from <= j < |stack| && 0 <= i < k && stack[i] in Succ(g, stack[j]) ==> x <= index[stack[i]]
  }

  /** `x` is the index of a file at stack position at most `k` that `v` reaches. */
  ghost predicate Attained(g: Graph, index: map<File, nat>, stack: seq<File>, v: File, x: nat, k: nat)
    requires k < |stack| && forall i :: 0 <= i < |stack| ==> stack[i] in index
  {
    exists m :: 0 <= m <= k && Reach(g, v, stack[m]) && x == index[stack[m]]
  }

  /** What visiting `v` from `s0` achieves. */
  ghost predicate Visited(g: Graph, s0: State, s: State, v: File) {
    && Bookkeeping(s)
    && Extends(s0, s)
    && v in s.index && s.index[v] == s0.counter
    && Bounds(g, s.index, s.stack, s.low[v], |s0.stack|, |s0.stack|)
    && (if v in s.onStack
        then |s0.stack| > 0 && Attained(g, s.index, s.stack, v, s.low[v], |s0.stack| - 1)
        else s.low[v] >= s0.counter)
  }

  /** An import of `v` has been accounted for. */
  ghost predicate Accounted(s0: State, s: State, v: File, to: File)
    requires v in s.low
  {
    to in s.index && (to in s0.onStack ==> s.low[v] <= s.index[to])
  }

  /** Midway through the imports of `v`, of which the first `n` have been followed. */
  ghost predicate Visiting(g: Graph, s0: State, s: State, v: File, n: nat) {
    var k := |s0.stack|;
    && Bookkeeping(s)
    && Extends(s0, s)
    && k < |s.stack| && s.stack[k] == v && s.index[v] == s0.counter
    && Attained(g, s.index, s.stack, v, s.low[v], k)
    && Bounds(g, s.index, s.stack, s.low[v], k, k + 1)
    && n <= |Imports(g, v)|
    && (forall i :: 0 <= i < n && Followed(g, Imports(g, v)[i]) ==> Accounted(s0, s, v, Imports(g, v)[i].to))
  }

  /** Opening a visit. */
  function Open(s: State, v: File): State {
    s.(index := s.index[v := s.counter], low := s.low[v := s.counter], counter := s.counter + 1,
       stack := s.stack + [v], onStack := s.onStack + {v})
  }

  lemma OpenReachesUp(g: Graph, stack: seq<File>, gray: set<File>, v: File)
    requires ReachesUp(g, stack) && ReachesDown(g, stack, gray)
    requires forall x :: x in gray ==> Reach(g, x, v)
    ensures ReachesUp(g, stack + [v])
  {
    ReachRefl(g, v);
    forall i | 0 <= i < |stack|
      ensures Reach(g, stack[i], v)
    {
      assert ReachesGray(g, stack, gray, i);
      var m :| 0 <= m <= i && stack[m] in gray && Reach(g, stack[i], stack[m]);
      ReachTrans(g, stack[i], stack[m], v);
    }
  }

  lemma OpenReachesDown(g: Graph, stack: seq<File>, gray: set<File>, v: File)
    requires ReachesDown(g, stack, gray)
    ensures ReachesDown(g, stack + [v], gray + {v})
  {
    ReachRefl(g, v);
    var t := stack + [v];
    forall j: nat | j < |t|
      ensures ReachesGray(g, t, gray + {v}, j)
    {
      if j < |stack| {
        assert ReachesGray(g, stack, gray, j);
        var m :| 0 <= m <= j && stack[m] in gray && Reach(g, stack[j], stack[m]);
        assert t[m] in gray + {v};
      } else {
        assert t[j] == v;
      }
    }
  }

  lemma OpenBookkeeping(s: State, v: File)
    requires Bookkeeping(s) && v !in s.index
    ensures Bookkeeping(Open(s, v)) && Open(s, v).Done() == s.Done()
    ensures Extends(s, Open(s, v))
  {
    var t := Open(s, v);
    assert Members(t.stack) == Members(s.stack) + {v} by {
      assert t.stack[|s.stack|] == v;
      assert forall i :: 0 <= i < |s.stack| ==> t.stack[i] == s.stack[i];
    }
  }

  lemma OpenKeeps(g: Graph, s: State, gray: set<File>, v: File)
    requires Inv(g, s, gray) && v !in s.index && v in Vertices(g)
    requires forall x :: x in gray ==> Reach(g, x, v)
    ensures Inv(g, Open(s, v), gray + {v})
    ensures Visiting(g, s, Open(s, v), v, 0)
  {
    var t := Open(s, v);
    OpenBookkeeping(s, v);
    OpenReachesUp(g, s.stack, gray, v);
    OpenReachesDown(g, s.stack, gray, v);
    assert NoGap(g, t.index.Keys, gray + {v});
    assert Attained(g, t.index, t.stack, v, t.low[v], |s.stack|) by {
      ReachRefl(g, v);
      assert t.stack[|s.stack|] == v;
    }
    assert Bounds(g, t.index, t.stack, t.low[v], |s.stack|, |s.stack| + 1);
  }

  /** `low.set(v, min(low.get(v), x))`. */
  function Lower(s: State, v: File, x: nat): State
    requires v in s.low
  {
    s.(low := s.low[v := if s.low[v] <= x then s.low[v] else x])
  }

  lemma LowerKeepsInv(g: Graph, s: State, gray: set<File>, v: File, x: nat)
    requires Inv(g, s, gray) && v in s.low
    ensures Inv(g, Lower(s, v, x), gray)
  {
    assert Lower(s, v, x).Done() == s.Done();
    assert Lower(s, v, x).low.Keys == s.low.Keys;
  }

  /** An import of an unvisited file, once visited and taken into account. */
  lemma FollowTree(g: Graph, s0: State, s: State, s': State, v: File, n: nat)
    requires v !in s0.index && Bookkeeping(s0)
    requires Visiting(g, s0, s, v, n)
    requires n < |Imports(g, v)| && Followed(g, Imports(g, v)[n]) && Imports(g, v)[n].to !in s.index
    requires Visited(g, s, s', Imports(g, v)[n].to)
    ensures v in s'.low && Imports(g, v)[n].to in s'.low
    ensures Visiting(g, s0, Lower(s', v, s'.low[Imports(g, v)[n].to]), v, n + 1)
  {
    var to := Imports(g, v)[n].to;
    AttainedAfterTree(g, s, s', v, to, |s0.stack|);
    BoundsAfterTree(g, s0, s, s', v, to);
    AccountedAfterTree(g, s0, s, s', v, n);
  }

  lemma BoundsAfterTree(g: Graph, s0: State, s: State, s': State, v: File, to: File)
    requires Bookkeeping(s) && Extends(s0, s) && v in s.index && Visited(g, s, s', to)
    requires Bounds(g, s.index, s.stack, s.low[v], |s0.stack|, |s0.stack| + 1)
    ensures var t := Lower(s', v, s'.low[to]);
            Bounds(g, t.index, t.stack, t.low[v], |s0.stack|, |s0.stack| + 1)
  {
    var k, t := |s0.stack|, Lower(s', v, s'.low[to]);
    forall j, i | k + 1 <= j < |t.stack| && 0 <= i < k && t.stack[i] in Succ(g, t.stack[j])
      ensures t.low[v] <= t.index[t.stack[i]]
    {
      assert t.stack[i] == s.stack[i];
      if j < |s.stack| {
        assert t.stack[j] == s.stack[j];
      }
    }
  }

  lemma AccountedAfterTree(g: Graph, s0: State, s: State, s': State, v: File, n: nat)
    requires Bookkeeping(s0) && n < |Imports(g, v)| && Imports(g, v)[n].to !in s.index
    requires Visiting(g, s0, s, v, n) && Visited(g, s, s', Imports(g, v)[n].to)
    ensures var t := Lower(s', v, s'.low[Imports(g, v)[n].to]);
            forall i :: 0 <= i < n + 1 && Followed(g, Imports(g, v)[i]) ==> Accounted(s0, t, v, Imports(g, v)[i].to)
  {
    var to := Imports(g, v)[n].to;
    var t := Lower(s', v, s'.low[to]);
    assert to !in s0.onStack;
    forall i | 0 <= i < n + 1 && Followed(g, Imports(g, v)[i])
      ensures Accounted(s0, t, v, Imports(g, v)[i].to)
    {
      assert i < n ==> Accounted(s0, s, v, Imports(g, v)[i].to);
    }
  }

  lemma AttainedAfterTree(g: Graph, s: State, s': State, v: File, to: File, k: nat)
    requires Bookkeeping(s) && k < |s.stack| && s.stack[k] == v && to in Succ(g, v)
    requires Attained(g, s.index, s.stack, v, s.low[v], k)
    requires Visited(g, s, s', to)
    requires s.low[v] <= s.index[v]
    ensures Bookkeeping(s')
    ensures Attained(g, s'.index, s'.stack, v, Lower(s', v, s'.low[to]).low[v], k)
  {
    if s'.low[to] < s.low[v] {
      var w :| 0 <= w < |s.stack| && Reach(g, to, s'.stack[w]) && s'.low[to] == s'.index[s'.stack[w]];
      assert s'.stack[w] == s.stack[w];
      assert w <= k;
      ReachEdge(g, v, to);
      ReachTrans(g, v, to, s'.stack[w]);
    } else {
      var m :| 0 <= m <= k && Reach(g, v, s.stack[m]) && s.low[v] == s.index[s.stack[m]];
      assert s'.stack[m] == s.stack[m];
    }
  }

  /** An import of a file already on the stack. */
  lemma FollowBack(g: Graph, s0: State, s: State, v: File, n: nat)
    requires v !in s0.index && Bookkeeping(s0)
    requires Visiting(g, s0, s, v, n)
    requires n < |Imports(g, v)| && Followed(g, Imports(g, v)[n])
    requires Imports(g, v)[n].to in s.onStack
    ensures Visiting(g, s0, Lower(s, v, s.index[Imports(g, v)[n].to]), v, n + 1)
  {
    var k, to := |s0.stack|, Imports(g, v)[n].to;
    var t := Lower(s, v, s.index[to]);
    assert Bookkeeping(t);
    assert Extends(s0, t);
    assert Attained(g, t.index, t.stack, v, t.low[v], k) by {
      if s.index[to] < s.low[v] {
        var w :| 0 <= w < |s.stack| && s.stack[w] == to;
        assert w <= k;
        ReachEdge(g, v, to);
      }
    }
    forall i | 0 <= i < n + 1 && Followed(g, Imports(g, v)[i])
      ensures Accounted(s0, t, v, Imports(g, v)[i].to)
    {
      assert i < n ==> Accounted(s0, s, v, Imports(g, v)[i].to);
    }
  }
}
