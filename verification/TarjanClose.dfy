/**
 * The end of a visit: either `v` heads a component, which is then exactly its class under mutual
 * reachability, or `v` stays on the stack above the file whose index is its low value.
 *
 * `below` is the stack when the visit of `v` began, `stack` the stack when all its imports have been
 * followed; `stack[|below|]` is `v`.
 */
module TarjanClose {
  import opened ImportGraph
  import opened Sorting
  import opened TarjanInvariant

  ghost predicate Grown(below: seq<File>, stack: seq<File>, v: File) {
    && |below| < |stack| && stack[|below|] == v
    && (forall i :: 0 <= i < |below| ==> stack[i] == below[i])
  }

  /** Every import of `v` has been seen, and those on the stack below `v` have an index of at least `x`. */
  ghost predicate ImportsSeen(g: Graph, index: map<File, nat>, below: seq<File>, v: File, x: nat) {
    forall y :: y in Succ(g, v) ==> y in index && (y in below ==> x <= index[y])
  }

  lemma VisitingImportsSeen(g: Graph, s0: State, s: State, v: File)
    requires Bookkeeping(s0) && Visiting(g, s0, s, v, |Imports(g, v)|)
    ensures ImportsSeen(g, s.index, s0.stack, v, s.low[v])
  {
    forall y | y in Succ(g, v)
      ensures y in s.index && (y in s0.stack ==> s.low[v] <= s.index[y])
    {
      var i :| 0 <= i < |Imports(g, v)| && Followed(g, Imports(g, v)[i]) && Imports(g, v)[i].to == y;
      assert Accounted(s0, s, v, Imports(g, v)[i].to);
    }
  }

  lemma PartsDisjoint(index: map<File, nat>, counter: nat, below: seq<File>, stack: seq<File>, v: File)
    requires Numbered(index, stack, counter) && Grown(below, stack, v)
    ensures Members(stack[|below|..]) !! Members(below)
    ensures Members(stack) == Members(below) + Members(stack[|below|..])
  {
    var k := |below|;
    assert stack == below + stack[k..];
    forall i, j | 0 <= i < k <= j < |stack|
      ensures below[i] != stack[j]
    {
      assert index[stack[i]] < index[stack[j]];
    }
  }

  /** Every file from `v` up is mutually reachable with `v`. */
  lemma AllReachV(g: Graph, below: seq<File>, stack: seq<File>, gray: set<File>, v: File)
    requires Grown(below, stack, v) && gray <= Members(below)
    requires ReachesUp(g, stack) && ReachesDown(g, stack, gray + {v})
    ensures forall x :: x in Members(stack[|below|..]) ==> Mutual(g, x, v)
  {
    hide Reach;
    var k := |below|;
    forall x | x in Members(stack[k..])
      ensures Mutual(g, x, v)
    {
      var j: nat :| k <= j < |stack| && stack[j] == x;
      assert ReachesGray(g, stack, gray + {v}, j);
      var m :| 0 <= m <= j && stack[m] in gray + {v} && Reach(g, stack[j], stack[m]);
      if stack[m] != v {
        var i :| 0 <= i < k && below[i] == stack[m];
        assert Reach(g, stack[i], stack[k]);
        ReachTrans(g, stack[j], stack[i], v);
      }
      assert Reach(g, stack[k], stack[j]);
    }
  }

  /** With the low value of `v` equal to its index, what the component imports is in it or popped. */
  lemma AboveClosed(g: Graph, index: map<File, nat>, counter: nat, below: seq<File>, stack: seq<File>,
                    gray: set<File>, v: File)
    requires Numbered(index, stack, counter) && Grown(below, stack, v) && gray <= Members(below)
    requires NoGap(g, index.Keys, gray + {v})
    requires ImportsSeen(g, index, below, v, index[v])
    requires Bounds(g, index, stack, index[v], |below|, |below| + 1)
    ensures forall x :: x in Members(stack[|below|..]) ==>
              Succ(g, x) <= Members(stack[|below|..]) + (index.Keys - Members(stack))
  {
    PartsDisjoint(index, counter, below, stack, v);
    var k := |below|;
    forall x, y | x in Members(stack[k..]) && y in Succ(g, x)
      ensures y in Members(stack[k..]) + (index.Keys - Members(stack))
    {
      var j :| k <= j < |stack| && stack[j] == x;
      assert y in index;
      assert forall i :: 0 <= i < k ==> index[stack[i]] < index[stack[k]];
      assert y !in below;
    }
  }

  /** A closed union of a closed set and files mutually reachable with `v` adds exactly the class of `v`. */
  lemma ComponentIsClass(g: Graph, part: set<File>, done: set<File>, v: File)
    requires part !! done && Closed(g, done)
    requires v in part && forall x :: x in part ==> Mutual(g, x, v)
    requires forall x :: x in part ==> Succ(g, x) <= part + done
    ensures IsClass(g, part)
  {
    assert Closed(g, part + done);
    forall x, y | x in part
      ensures y in part <==> Mutual(g, x, y)
    {
      if y in part {
        ReachTrans(g, x, v, y);
        ReachTrans(g, y, v, x);
      }
      if Mutual(g, x, y) {
        ClosedReach(g, part + done, x, y);
        if y in done {
          ClosedReach(g, done, y, x);
          assert false;
        }
      }
    }
  }

  /** `s` is the state in which all imports of `v`, opened in `s0`, have been followed. */
  ghost predicate AllFollowed(g: Graph, s0: State, s: State, gray: set<File>, v: File) {
    && Inv(g, s0, gray) && v !in s0.index
    && Inv(g, s, gray + {v})
    && Visiting(g, s0, s, v, |Imports(g, v)|)
  }

  lemma FollowedGrown(g: Graph, s0: State, s: State, gray: set<File>, v: File)
    requires AllFollowed(g, s0, s, gray, v)
    ensures Grown(s0.stack, s.stack, v) && gray <= Members(s0.stack)
  {
  }

  lemma AboveIsClass(g: Graph, s0: State, s: State, gray: set<File>, v: File)
    requires AllFollowed(g, s0, s, gray, v) && s.low[v] == s.index[v]
    ensures Grown(s0.stack, s.stack, v)
    ensures var part := Members(s.stack[|s0.stack|..]);
            IsClass(g, part) && Closed(g, part + s.Done()) && v in part && part !! s.Done()
  {
    FollowedGrown(g, s0, s, gray, v);
    VisitingImportsSeen(g, s0, s, v);
    PartsDisjoint(s.index, s.counter, s0.stack, s.stack, v);
    AllReachV(g, s0.stack, s.stack, gray, v);
    AboveClosed(g, s.index, s.counter, s0.stack, s.stack, gray, v);
    assert s.stack[|s0.stack|..][0] == v;
    ComponentIsClass(g, Members(s.stack[|s0.stack|..]), s.Done(), v);
  }

  lemma {:induction false} DistinctSize(index: map<File, nat>, xs: seq<File>)
    requires forall i :: 0 <= i < |xs| ==> xs[i] in index
    requires forall i, j :: 0 <= i < j < |xs| ==> index[xs[i]] < index[xs[j]]
    ensures |Members(xs)| == |xs|
  {
    if xs != [] {
      DistinctSize(index, xs[1..]);
      assert Members(xs) == {xs[0]} + Members(xs[1..]) by {
        assert xs == [xs[0]] + xs[1..];
      }
      forall j | 0 <= j < |xs[1..]|
        ensures xs[1..][j] != xs[0]
      {
        assert index[xs[0]] < index[xs[j + 1]];
      }
    }
  }

  /** `if (component.length > 1) out.push(component.sort())`. */
  function Report(out: seq<seq<File>>, component: seq<File>): seq<seq<File>> {
    if |component| > 1 then out + [Sort(StringLe, component)] else out
  }

  lemma SortedComponent(g: Graph, component: seq<File>)
    requires |Members(component)| == |component| && IsClass(g, Members(component))
    ensures var sorted := Sort(StringLe, component);
            && Members(sorted) == Members(component) && |sorted| == |Members(sorted)| && SortedBy(StringLe, sorted)
            && (|sorted| > 1 ==> IsCycle(g, Members(sorted)))
  {
    SortMembers(StringLe, component);
    assert Members(Sort(StringLe, component)) == Members(component);
    StringLePreorder();
    SortSorted(StringLe, component);
    if |component| > 1 {
      ClassIsCycle(g, Members(component));
    }
  }

  lemma ReportKeepsSound(g: Graph, done: set<File>, out: seq<seq<File>>, component: seq<File>)
    requires ReportedSound(g, done, out)
    requires |Members(component)| == |component| && IsClass(g, Members(component)) && Members(component) !! done
    ensures ReportedSound(g, done + Members(component), Report(out, component))
  {
    SortedComponent(g, component);
    var done', out' := done + Members(component), Report(out, component);
    assert forall i :: 0 <= i < |out'| ==> out'[i] == if i < |out| then out[i] else Sort(StringLe, component);
    forall i, j | 0 <= i < j < |out'|
      ensures Members(out'[i]) !! Members(out'[j])
    {
      assert Members(out[i]) <= done;
    }
  }

  lemma ReportKeepsComplete(g: Graph, done: set<File>, out: seq<seq<File>>, component: seq<File>)
    requires ReportedComplete(g, done, out)
    requires |Members(component)| == |component| && IsClass(g, Members(component))
    ensures ReportedComplete(g, done + Members(component), Report(out, component))
  {
    var part, out' := Members(component), Report(out, component);
    SortMembers(StringLe, component);
    forall x, y | x in done + part && x != y && Mutual(g, x, y)
      ensures exists i :: 0 <= i < |out'| && x in out'[i]
    {
      if x in done {
        var i :| 0 <= i < |out| && x in out[i];
        assert x in out'[i];
      } else {
        SubsetSize({x, y}, part);
        assert x in out'[|out|];
      }
    }
  }

  /** The state after popping the stack down to position `k` and reporting what was popped. */
  ghost function Popped(s: State, k: nat, component: seq<File>): State
    requires k <= |s.stack|
  {
    s.(stack := s.stack[..k], onStack := s.onStack - Members(component), out := Report(s.out, component))
  }

  lemma PoppedDone(g: Graph, s0: State, s: State, v: File, component: seq<File>)
    requires Bookkeeping(s0) && Bookkeeping(s) && Grown(s0.stack, s.stack, v) && Extends(s0, s)
    requires Members(component) == Members(s.stack[|s0.stack|..])
    ensures Popped(s, |s0.stack|, component).onStack == Members(s0.stack)
    ensures Popped(s, |s0.stack|, component).Done() == s.Done() + Members(component)
    ensures Bookkeeping(Popped(s, |s0.stack|, component)) && Extends(s0, Popped(s, |s0.stack|, component))
  {
    PartsDisjoint(s.index, s.counter, s0.stack, s.stack, v);
    assert s.stack[..|s0.stack|] == s0.stack;
  }

  lemma FollowedParts(g: Graph, s0: State, s: State, gray: set<File>, v: File)
    requires AllFollowed(g, s0, s, gray, v)
    ensures Bookkeeping(s) && |s0.stack| <= |s.stack|
    ensures ReportedSound(g, s.Done(), s.out) && ReportedComplete(g, s.Done(), s.out)
  {
  }

  lemma PopReports(g: Graph, s0: State, s: State, gray: set<File>, v: File, component: seq<File>)
    requires AllFollowed(g, s0, s, gray, v) && s.low[v] == s.index[v]
    requires Members(component) == Members(s.stack[|s0.stack|..]) && |component| == |s.stack| - |s0.stack|
    ensures var done := s.Done() + Members(component);
            Closed(g, done) && ReportedSound(g, done, Report(s.out, component))
                && ReportedComplete(g, done, Report(s.out, component))
  {
    hide *;
    FollowedParts(g, s0, s, gray, v);
    AboveIsClass(g, s0, s, gray, v);
    StackSliceSize(s, |s0.stack|);
    assert s.Done() + Members(component) == Members(component) + s.Done();
    ReportKeepsSound(g, s.Done(), s.out, component);
    ReportKeepsComplete(g, s.Done(), s.out, component);
  }

  lemma PopAssembles(g: Graph, s0: State, s: State, gray: set<File>, v: File, component: seq<File>)
    requires Bookkeeping(s0) && gray <= s0.onStack && ReachesUp(g, s0.stack) && ReachesDown(g, s0.stack, gray)
    requires Bookkeeping(s) && Grown(s0.stack, s.stack, v) && Extends(s0, s) && s.index.Keys <= Vertices(g)
    requires NoGap(g, s.index.Keys, gray)
    requires Members(component) == Members(s.stack[|s0.stack|..])
    requires var done := s.Done() + Members(component);
             Closed(g, done) && ReportedSound(g, done, Report(s.out, component))
                 && ReportedComplete(g, done, Report(s.out, component))
    ensures Inv(g, Popped(s, |s0.stack|, component), gray)
  {
    PoppedDone(g, s0, s, v, component);
    assert s.stack[..|s0.stack|] == s0.stack;
  }

  /** The branch `low.get(v) === index.get(v)`. */
  lemma PopKeeps(g: Graph, s0: State, s: State, gray: set<File>, v: File, component: seq<File>)
    requires AllFollowed(g, s0, s, gray, v) && s.low[v] == s.index[v]
    requires Members(component) == Members(s.stack[|s0.stack|..]) && |component| == |s.stack| - |s0.stack|
    ensures Inv(g, Popped(s, |s0.stack|, component), gray)
  {
    PopReports(g, s0, s, gray, v, component);
    VisitingImportsSeen(g, s0, s, v);
    CloseGap(g, s.index.Keys, gray, v);
    PopAssembles(g, s0, s, gray, v, component);
  }

  lemma PopVisits(g: Graph, s0: State, s: State, v: File, component: seq<File>)
    requires Bookkeeping(s0) && Visiting(g, s0, s, v, |Imports(g, v)|) && s.low[v] == s.index[v]
    requires Members(component) == Members(s.stack[|s0.stack|..]) && |component| == |s.stack| - |s0.stack|
    ensures Visited(g, s0, Popped(s, |s0.stack|, component), v)
  {
    PoppedDone(g, s0, s, v, component);
    PartsDisjoint(s.index, s.counter, s0.stack, s.stack, v);
    assert s.stack[|s0.stack|..][0] == v;
  }

  lemma CloseGap(g: Graph, seen: set<File>, gray: set<File>, v: File)
    requires NoGap(g, seen, gray + {v}) && forall y :: y in Succ(g, v) ==> y in seen
    ensures NoGap(g, seen, gray)
  {
  }

  lemma StackSliceSize(s: State, k: nat)
    requires Bookkeeping(s) && k <= |s.stack|
    ensures |Members(s.stack[k..])| == |s.stack| - k
  {
    DistinctSize(s.index, s.stack[k..]);
  }

  lemma ReachGrayFromBelow(g: Graph, below: seq<File>, stack: seq<File>, gray: set<File>, j: nat)
    requires |below| <= |stack| && forall i :: 0 <= i < |below| ==> stack[i] == below[i]
    requires j < |below| && ReachesGray(g, below, gray, j)
    ensures ReachesGray(g, stack, gray, j)
  {
    var h :| 0 <= h <= j && below[h] in gray && Reach(g, below[j], below[h]);
    assert stack[h] in gray;
  }

  lemma ReachGrayThrough(g: Graph, stack: seq<File>, gray: set<File>, v: File, m: nat, j: nat)
    requires m <= j < |stack| && ReachesGray(g, stack, gray, m)
    requires Reach(g, stack[j], v) && Reach(g, v, stack[m])
    ensures ReachesGray(g, stack, gray, j)
  {
    var i :| 0 <= i <= m && stack[i] in gray && Reach(g, stack[m], stack[i]);
    ReachTrans(g, stack[j], v, stack[m]);
    ReachTrans(g, stack[j], stack[m], stack[i]);
  }

  /** What is below the component of `v` keeps reaching an unfinished file, and so does the component. */
  lemma StayReachesDown(g: Graph, below: seq<File>, stack: seq<File>, gray: set<File>, v: File, m: nat)
    requires Grown(below, stack, v) && ReachesDown(g, below, gray)
    requires forall x :: x in Members(stack[|below|..]) ==> Mutual(g, x, v)
    requires m < |below| && Reach(g, v, stack[m])
    ensures ReachesDown(g, stack, gray)
  {
    forall j: nat | j < |stack|
      ensures ReachesGray(g, stack, gray, j)
    {
      if j < |below| {
        ReachGrayFromBelow(g, below, stack, gray, j);
      } else {
        ReachGrayFromBelow(g, below, stack, gray, m);
        assert stack[|below|..][j - |below|] == stack[j];
        assert Mutual(g, stack[j], v);
        ReachGrayThrough(g, stack, gray, v, m, j);
      }
    }
  }

  lemma StayBounds(g: Graph, index: map<File, nat>, below: seq<File>, stack: seq<File>, v: File, x: nat)
    requires Grown(below, stack, v) && forall i :: 0 <= i < |stack| ==> stack[i] in index
    requires Bounds(g, index, stack, x, |below|, |below| + 1) && ImportsSeen(g, index, below, v, x)
    ensures Bounds(g, index, stack, x, |below|, |below|)
  {
    forall j, i | |below| <= j < |stack| && 0 <= i < |below| && stack[i] in Succ(g, stack[j])
      ensures x <= index[stack[i]]
    {
      if j == |below| {
        assert below[i] in below;
      }
    }
  }

  /** The branch in which `v` stays on the stack. */
  lemma StayKeeps(g: Graph, s0: State, s: State, gray: set<File>, v: File)
    requires AllFollowed(g, s0, s, gray, v) && s.low[v] != s.index[v]
    ensures Inv(g, s, gray)
    ensures Visited(g, s0, s, v)
  {
    FollowedGrown(g, s0, s, gray, v);
    VisitingImportsSeen(g, s0, s, v);
    var m: nat :| m <= |s0.stack| && Reach(g, v, s.stack[m]) && s.low[v] == s.index[s.stack[m]];
    AllReachV(g, s0.stack, s.stack, gray, v);
    StayReachesDown(g, s0.stack, s.stack, gray, v, m);
    CloseGap(g, s.index.Keys, gray, v);
    StayBounds(g, s.index, s0.stack, s.stack, v, s.low[v]);
    assert s.stack[|s0.stack|] == v;
  }
}
