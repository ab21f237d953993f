/**
  * What awaiting review holds back over whole runs: who can make a held fragment an anchor, and who can move its end.
  */
module ReviewAnchors {
  import opened Options
  import opened ReviewStore
  import opened ReviewLaws

  predicate IsAnchor(s: State, id: string) {
    id in s.fragments && s.fragments[id].isAnchor
  }

  /** From event `a` on the fragment awaits review for as long as it has a row. */
  ghost predicate HeldFrom(run: seq<Event>, a: nat, id: string)
    requires a <= |run|
  {
    forall k :: a <= k <= |run| ==> Held(After(run[..k]), id)
  }

  predicate Held(s: State, id: string) {
    id in s.fragments ==> IsPending(s, id)
  }

  /** The event makes its row an anchor although the row is held: it goes by something else than the row. */
  predicate PassesBy(s: State, e: Event, id: string) {
    CanWrite(s, id) && (e == Upsert(id, true) || (e.Amend? && e.id == id && Grants(e.base, e.a)))
  }

  /** The gate let the amendment set the anchor, as the row it looked at was not under review. */
  predicate Grants(base: Fragment, a: Amendment) {
    base.state != Some(Pending) && a.wants == Some(true) && !a.review && (base.isAnchor || !a.overQuota)
  }

  /** A held row becomes an anchor in one step only by passing the review by. */
  lemma HeldStep(s: State, e: Event, id: string)
    requires CreatesFresh(s, e) && Held(s, id) && Held(Step(s, e), id)
    ensures !IsAnchor(s, id) && IsAnchor(Step(s, e), id) ==> PassesBy(s, e, id)
    ensures PassesBy(s, e, id) ==> IsAnchor(Step(s, e), id)
  {
    hide FindReplay, PickStale, AutoRecords, Latest;
  }

  /**
    * While a fragment awaits review it becomes an anchor exactly if somebody inserts its content again as an anchor, or
    * an amendment that asks for it and passed the gate before the fragment was put under review is written.
    */
  lemma HeldAnchorIff(run: seq<Event>, a: nat, id: string)
    requires Proper(run) && a <= |run| && HeldFrom(run, a, id) && !IsAnchor(After(run[..a]), id)
    ensures (exists k :: a <= k <= |run| && IsAnchor(After(run[..k]), id))
       <==> (exists k :: a <= k < |run| && PassesBy(After(run[..k]), run[k], id))
    ensures forall k :: a <= k < |run| && PassesBy(After(run[..k]), run[k], id) && run[k].Amend? ==>
            ReadEarlier(run, a, k)
  {
    hide *;
    if k :| a <= k <= |run| && IsAnchor(After(run[..k]), id) {
      FirstAnchored(run, a, k, id);
    }
    if k :| a <= k < |run| && PassesBy(After(run[..k]), run[k], id) {
      HeldRunStep(run, a, k, id);
      assert IsAnchor(After(run[..k + 1]), id);
    }
    forall k | a <= k < |run| && PassesBy(After(run[..k]), run[k], id)
        && run[k].Amend?
      ensures ReadEarlier(run, a, k)
    {
      ReadBeforeHold(run, a, k, id);
    }
  }

  /** The row the amendment was decided on was read before event `a`. */
  ghost predicate ReadEarlier(run: seq<Event>, a: nat, k: nat)
    requires a <= |run| && k < |run| && run[k].Amend?
  {
    exists g: nat :: g < a && ReadAt(run, g, run[k].id, run[k].base)
  }

  lemma ReadBeforeHold(run: seq<Event>, a: nat, k: nat, id: string)
    requires Proper(run) && a <= k < |run| && HeldFrom(run, a, id)
    requires run[k].Amend? && PassesBy(After(run[..k]), run[k], id)
    ensures ReadEarlier(run, a, k)
  {
    hide After, FreshRow, CanWrite;
    assert BaseWasRead(run, k);
    var g: nat :| g <= k && ReadAt(run, g, run[k].id, run[k].base);
    if g >= a {
      HeldAt(run, a, g, id);
      assert false;
    }
  }

  lemma HeldAt(run: seq<Event>, a: nat, k: nat, id: string)
    requires a <= k <= |run| && HeldFrom(run, a, id)
    ensures Held(After(run[..k]), id)
  {
    hide After, Held;
  }

  lemma HeldThroughout(run: seq<Event>, a: nat, id: string)
    requires a <= |run| && forall k :: a <= k <= |run| ==> Held(After(run[..k]), id)
    ensures HeldFrom(run, a, id)
  {
    hide After, Held;
  }

  lemma HeldRunStep(run: seq<Event>, a: nat, k: nat, id: string)
    requires Proper(run) && a <= k < |run| && HeldFrom(run, a, id)
    ensures var s, t := After(run[..k]), After(run[..k + 1]);
            && (!IsAnchor(s, id) && IsAnchor(t, id) ==> PassesBy(s, run[k], id))
            && (PassesBy(s, run[k], id) ==> IsAnchor(t, id))
  {
    hide *;
    AfterNext(run, k);
    assert Held(After(run[..k]), id) && Held(After(run[..k + 1]), id) by {
      HeldAt(run, a, k, id);
      HeldAt(run, a, k + 1, id);
    }
    HeldStep(After(run[..k]), run[k], id);
  }

  lemma {:induction false} FirstAnchored(run: seq<Event>, a: nat, k: nat, id: string)
    requires Proper(run) && a <= k <= |run| && HeldFrom(run, a, id)
    requires !IsAnchor(After(run[..a]), id) && IsAnchor(After(run[..k]), id)
    ensures exists i :: a <= i < k && PassesBy(After(run[..i]), run[i], id)
  {
    hide *;
    if IsAnchor(After(run[..k - 1]), id) {
      FirstAnchored(run, a, k - 1, id);
    } else {
      HeldRunStep(run, a, k - 1, id);
    }
  }

  /** One more event, which is one that can happen. */
  lemma AfterNext(run: seq<Event>, k: nat)
    requires Proper(run) && k < |run|
    ensures After(run[..k + 1]) == Step(After(run[..k]), run[k]) && CreatesFresh(After(run[..k]), run[k])
  {
    hide Step, Created, Proper, CreatesFresh, Inv, Known;
    var pre := run[..k + 1];
    assert pre[..k] == run[..k];
    ProperPrefix(run, k + 1);
    ProperPrefix(run, k);
    InvAlways(run[..k]);
    LastIsFresh(pre);
  }

  lemma {:induction false} ProperPrefix(run: seq<Event>, k: nat)
    requires Proper(run) && k <= |run|
    ensures Proper(run[..k])
  {
    hide Proper;
    if k < |run| {
      CreatedPrefix(run);
      ProperPrefix(run[..|run| - 1], k);
      assert run[..|run| - 1][..k] == run[..k];
    } else {
      assert run[..k] == run;
    }
  }

  /* ---------- A fragment nobody has decided ---------- */

  /** A fragment created under review and never decided is an anchor at some time exactly if an insert made it one. */
  lemma UndecidedAnchorIff(run: seq<Event>, c: nat, id: string)
    requires Proper(run) && c < |run| && run[c].Create? && run[c].id == id && run[c].f.state == Some(Pending)
    requires Count(After(run).decisions, id) == 0
    ensures (exists k :: 0 <= k <= |run| && IsAnchor(After(run[..k]), id))
       <==> (exists k :: 0 <= k < |run| && run[k] == Upsert(id, true) && CanWrite(After(run[..k]), id))
  {
    hide *;
    forall k | c < k <= |run|
      ensures Held(After(run[..k]), id)
    {
      StillHeld(run, c, k, id);
    }
    forall k | 0 <= k <= c
      ensures id !in After(run[..k]).fragments && !IsAnchor(After(run[..k]), id) && !CanWrite(After(run[..k]), id)
    {
      NotYetThere(run, c, k, id);
    }
    CreatedAsGiven(run, c, id);
    HeldThroughout(run, c + 1, id);
    HeldAnchorIff(run, c + 1, id);
    UndecidedPassing(run, c, id);
  }

  lemma UndecidedPassing(run: seq<Event>, c: nat, id: string)
    requires c < |run|
    requires forall k :: 0 <= k <= c ==> id !in After(run[..k]).fragments
    requires forall k :: c < k < |run| && PassesBy(After(run[..k]), run[k], id) && run[k].Amend? ==>
             ReadEarlier(run, c + 1, k)
    ensures (exists k :: c < k < |run| && PassesBy(After(run[..k]), run[k], id))
       <==> (exists k :: 0 <= k < |run| && run[k] == Upsert(id, true) && CanWrite(After(run[..k]), id))
  {
    hide After, Grants;
  }

  /** A fragment of which no decision exists is under review as it was created to be. */
  lemma StillHeld(run: seq<Event>, c: nat, k: nat, id: string)
    requires Proper(run) && c < k <= |run| && run[c].Create? && run[c].id == id && run[c].f.state == Some(Pending)
    requires Count(After(run).decisions, id) == 0
    ensures Held(After(run[..k]), id)
  {
    hide *;
    ProperPrefix(run, k);
    DecisionsStay(run, k);
    CountGrows(After(run[..k]).decisions, After(run).decisions, id);
    DecisionsPerPeriod(run[..k], id);
    PeriodBegins(run, c, k, id);
    HeldIfPending(After(run[..k]), id);
  }

  lemma HeldIfPending(s: State, id: string)
    ensures Held(s, id) <==> (id in s.fragments ==> IsPending(s, id))
  {
  }

  lemma {:induction false} CountGrows(before: seq<Decision>, after: seq<Decision>, id: string)
    requires before <= after
    ensures Count(before, id) <= Count(after, id)
  {
    if before != after {
      CountGrows(before, after[..|after| - 1], id);
    }
  }

  lemma {:induction false} PeriodBegins(run: seq<Event>, c: nat, k: nat, id: string)
    requires Proper(run) && c < k <= |run| && run[c].Create? && run[c].id == id && run[c].f.state == Some(Pending)
    ensures Periods(run[..k], id) >= 1
  {
    hide *;
    var pre := run[..k];
    assert pre[..k - 1] == run[..k - 1];
    LastPeriod(pre, id);
    if c < k - 1 {
      PeriodBegins(run, c, k - 1, id);
    } else {
      NotYetThere(run, c, c, id);
      CreatePends(After(run[..c]), run[c], id);
    }
  }

  lemma LastPeriod(run: seq<Event>, id: string)
    requires run != []
    ensures var before := After(run[..|run| - 1]);
            Periods(run, id) == Periods(run[..|run| - 1], id)
                                + if !IsPending(before, id) && IsPending(Step(before, run[|run| - 1]), id) then 1 else 0
  {
    hide After, Step, IsPending;
  }

  lemma CreatePends(s: State, e: Event, id: string)
    requires e.Create? && e.id == id && e.f.state == Some(Pending) && id !in s.fragments
    ensures !IsPending(s, id) && IsPending(Step(s, e), id)
  {
  }

  /** Before its creation there is no row. */
  lemma NotYetThere(run: seq<Event>, c: nat, k: nat, id: string)
    requires Proper(run) && k <= c < |run| && run[c].Create? && run[c].id == id
    ensures id !in After(run[..k]).fragments && !IsAnchor(After(run[..k]), id) && !CanWrite(After(run[..k]), id)
  {
    hide After;
    ProperPrefix(run, k);
    InvAlways(run[..k]);
    OnlyKnown(run[..k], id);
  }

  lemma CreatedAsGiven(run: seq<Event>, c: nat, id: string)
    requires Proper(run) && c < |run| && run[c].Create? && run[c].id == id && run[c].f.state == Some(Pending)
    ensures !IsAnchor(After(run[..c + 1]), id)
  {
    AfterNext(run, c);
    hide After, Created, BaseWasRead;
    var f := run[c].f;
    assert FreshRow(f);
  }

  /** An insert of the same content as an anchor makes a fragment an anchor that nobody has decided on. */
  lemma InsertedAnchor() returns (run: seq<Event>)
    ensures Proper(run) && "f" in After(run).fragments && After(run).decisions == []
    ensures var f := After(run).fragments["f"]; f.state == Some(Pending) && f.anchorRequested && f.isAnchor
  {
    var held := Fragment(None, Some(Pending), true, false, false, None, 0);
    run := [Create("f", held), Upsert("f", true)];
    AfterTwo(run);
  }

  /** So does an amendment that passed the gate just before another one put the fragment under review. */
  lemma OvertakenAnchor() returns (run: seq<Event>)
    ensures Proper(run) && "f" in After(run).fragments && After(run).decisions == []
    ensures After(run).fragments["f"].state == Some(Pending) && After(run).fragments["f"].isAnchor
    ensures forall e :: e in run ==> !e.Upsert? && !e.Promote?
  {
    var plain := Fragment(None, None, false, false, false, None, 0);
    var marking, asking := Amendment(None, true, false, false), Amendment(Some(true), false, false, false);
    run := [Create("f", plain), Amend("f", plain, marking), Amend("f", plain, asking)];
    assert After(run[..1]) == State(map["f" := plain], [], map[], 0) by {
      assert run[..1][..0] == [];
    }
    assert ReadAt(run, 1, "f", plain);
    AfterTwo(run[..2]);
    assert run[..2] == [Create("f", plain), Amend("f", plain, marking)];
  }

  lemma AfterTwo(run: seq<Event>)
    requires |run| == 2
    ensures After(run) == Step(Step(State(map[], [], map[], 0), run[0]), run[1])
  {
    assert run[..1][..0] == [] && run[..1][0] == run[0];
    assert After(run[..1]) == Step(After([]), run[0]);
    hide Step;
  }

  /* ---------- The end of a rejected fragment ---------- */

  /** The event moves the end of a fragment that was rejected before. */
  predicate MovesEnd(s: State, e: Event, id: string) {
    e.EndValidity? && e.id == id && e.split && CanWrite(s, id) && s.fragments[id].state == Some(Rejected)
  }

  /** Event `k` was the last to move the end, and the decision `d` was made before it. */
  ghost predicate LastMove(run: seq<Event>, k: nat, id: string, d: Option<Decision>)
    requires k < |run|
  {
    && MovesEnd(After(run[..k]), run[k], id) && Latest(After(run[..k]).decisions, id) == d
    && forall j :: k < j < |run| ==> !MovesEnd(After(run[..j]), run[j], id)
  }

  /** What one event makes of the end of a row that is rejected after it. */
  lemma EndStep(s: State, e: Event, id: string)
    requires Inv(s) && CreatesFresh(s, e)
    requires id in Step(s, e).fragments && Step(s, e).fragments[id].state == Some(Rejected)
    ensures var t := Step(s, e); var d, end := Latest(t.decisions, id), t.fragments[id].validTo;
            if MovesEnd(s, e, id) then end == Some(e.now) && Latest(s.decisions, id) == d
            else if id in s.fragments && s.fragments[id].state == Some(Rejected) then
              end == s.fragments[id].validTo && Latest(s.decisions, id) == d
            else d.Some? && end == Some(d.value.decidedAt) && d.value.id >= s.nextId
  {
    if !(e.Create? && e.id == id) {
      hide Inv, Latest, FinishStep, ExpireStep;
      if id !in s.fragments {
        OnlyCreated(s, e, id);
      }
      match e
      case Finish(f, now, allowed) =>
        if f in s.open {
          FinishEnd(s, f, now, allowed, id);
        }
      case Expire(order, now, maxAge, limit) => ExpireEnd(s, order, now, maxAge, limit, id);
      case _ =>
        if s.fragments[id].state == Some(Rejected) {
          RejectedHasEnd(s, id);
        }
        OtherEnd(s, e, id);
    }
  }

  lemma OtherEnd(s: State, e: Event, id: string)
    requires !e.Finish? && !e.Expire? && !(e.Create? && e.id == id)
    requires id in s.fragments && id in Step(s, e).fragments && Step(s, e).fragments[id].state == Some(Rejected)
    requires s.fragments[id].state == Some(Rejected) ==> s.fragments[id].validTo.Some?
    ensures var t := Step(s, e);
            && t.decisions == s.decisions && s.fragments[id].state == Some(Rejected)
            && t.fragments[id].validTo == if MovesEnd(s, e, id) then Some(e.now) else s.fragments[id].validTo
  {
    hide FindReplay;
  }

  lemma FinishEnd(s: State, f: string, now: int, allowed: bool, id: string)
    requires Inv(s) && f in s.open && id in s.fragments
    ensures var t := FinishStep(s, f, now, allowed).0; var d := Latest(t.decisions, id);
            && id in t.fragments
            && (t.fragments[id].state == Some(Rejected) ==>
                  if s.fragments[id].state == Some(Rejected)
                  then t.fragments[id].validTo == s.fragments[id].validTo && Latest(s.decisions, id) == d
                  else d.Some? && t.fragments[id].validTo == Some(d.value.decidedAt) && d.value.id >= s.nextId)
  {
    hide Latest, Agrees, KeysUnique, IdsUnique, AnchorApplies, FindReplay;
    LatestAppend(s.decisions, RecordOf(s, s.open[f], now), id);
  }

  lemma ExpireEnd(s: State, order: seq<string>, now: int, maxAge: int, limit: nat, id: string)
    requires Inv(s) && Distinct(order) && id in s.fragments
    ensures var t := ExpireStep(s, order, now, maxAge, limit); var d := Latest(t.decisions, id);
            && id in t.fragments
            && (t.fragments[id].state == Some(Rejected) ==>
                  if s.fragments[id].state == Some(Rejected)
                  then t.fragments[id].validTo == s.fragments[id].validTo && Latest(s.decisions, id) == d
                  else d.Some? && t.fragments[id].validTo == Some(d.value.decidedAt) && d.value.id >= s.nextId)
  {
    hide *;
    var ids := PickStale(s, order, now - maxAge, limit);
    PickedPending(s, order, now - maxAge, limit);
    AutoRecordsReject(s, ids, now);
    var records := AutoRecords(s, ids, now);
    LatestOfRejections(s.decisions, records, ids, now, s.nextId, id);
    ExpireParts(s, order, now, maxAge, limit);
    RejectedEnds(s, ids, now, id);
  }

  lemma RejectedEnds(s: State, ids: seq<string>, now: int, id: string)
    requires id in s.fragments && forall i :: i in ids ==> IsPending(s, i)
    ensures var rows := RejectRows(s.fragments, ids, now);
            && id in rows
            && (id in ids ==> s.fragments[id].state == Some(Pending) && rows[id].validTo == Some(now))
            && (id !in ids ==> rows[id] == s.fragments[id])
  {
  }

  /**
    * A rejected fragment ended when it was rejected, but if a split moved its end afterwards; then the last one set it.
    */
  lemma {:induction false} EndIsDecisionUnlessMoved(run: seq<Event>, id: string)
    requires Proper(run) && id in After(run).fragments && After(run).fragments[id].state == Some(Rejected)
    ensures var d, end := Latest(After(run).decisions, id), After(run).fragments[id].validTo;
            && d.Some? && end.Some?
            && (forall k :: 0 <= k < |run| && LastMove(run, k, id, d) ==> end == Some(run[k].now))
            && ((forall k :: 0 <= k < |run| ==> !LastMove(run, k, id, d)) ==> end == Some(d.value.decidedAt))
  {
    hide *;
    StartEmpty(run, id);
    var n := |run| - 1;
    var init, e := run[..n], run[n];
    var s, d := After(init), Latest(After(run).decisions, id);
    assert run[..n + 1] == run;
    CreatedPrefix(run);
    InvAlways(init);
    InvAlways(run);
    AfterNext(run, n);
    EndStep(s, e, id);
    RejectedHasEnd(After(run), id);
    LastMoveAt(run, id, d);
    if MovesEnd(s, e, id) {
      forall k | 0 <= k < n
        ensures !LastMove(run, k, id, d)
      {
        LastMoveBefore(run, k, id, d);
      }
    } else if id in s.fragments && s.fragments[id].state == Some(Rejected) {
      EndIsDecisionUnlessMoved(init, id);
      forall k | 0 <= k < n
        ensures LastMove(run, k, id, d) <==> LastMove(init, k, id, d)
      {
        LastMoveBefore(run, k, id, d);
      }
    } else {
      forall k | 0 <= k < n
        ensures !LastMove(run, k, id, d)
      {
        assert init[..k] == run[..k];
        NewDecision(init, k, id, d);
        LastMoveBefore(run, k, id, d);
        LastMoveMeans(init, k, id, d);
      }
    }
  }

  lemma StartEmpty(run: seq<Event>, id: string)
    requires id in After(run).fragments
    ensures run != []
  {
  }

  lemma RejectedHasEnd(s: State, id: string)
    requires Inv(s) && id in s.fragments && s.fragments[id].state == Some(Rejected)
    ensures Latest(s.decisions, id).Some? && s.fragments[id].validTo.Some?
  {
    hide Latest, KeysUnique, IdsUnique;
    RowAgrees(s, id);
  }

  lemma LastMoveAt(run: seq<Event>, id: string, d: Option<Decision>)
    requires run != []
    ensures var n := |run| - 1;
            LastMove(run, n, id, d) <==>
                MovesEnd(After(run[..n]), run[n], id) && Latest(After(run[..n]).decisions, id) == d
  {
    hide After, MovesEnd, Latest;
  }

  lemma LastMoveBefore(run: seq<Event>, k: nat, id: string, d: Option<Decision>)
    requires k < |run| - 1
    ensures LastMove(run, k, id, d)
       <==> LastMove(run[..|run| - 1], k, id, d) && !MovesEnd(After(run[..|run| - 1]), run[|run| - 1], id)
  {
    hide After, MovesEnd, Latest;
    var n := |run| - 1;
    assert forall j :: 0 <= j < n ==> run[..n][..j] == run[..j] && run[..n][j] == run[j];
  }

  lemma LastMoveMeans(run: seq<Event>, k: nat, id: string, d: Option<Decision>)
    requires k < |run|
    ensures LastMove(run, k, id, d) ==> Latest(After(run[..k]).decisions, id) == d
  {
    hide After, MovesEnd, Latest;
  }

  /** A decision with a new number was not there before. */
  lemma NewDecision(run: seq<Event>, k: nat, id: string, d: Option<Decision>)
    requires Inv(After(run)) && k <= |run| && d.Some? && d.value.id >= After(run).nextId
    ensures Latest(After(run[..k]).decisions, id) != d
  {
    hide After, Agrees, KeysUnique;
    DecisionsStay(run, k);
    var before, after := After(run[..k]).decisions, After(run).decisions;
    assert forall i :: 0 <= i < |before| ==> before[i] == after[i];
  }

  /**
    * So the end differs from the time of the rejection exactly when the last split to move it did so at another time.
    */
  lemma EndDiffersIff(run: seq<Event>, id: string)
    requires Proper(run) && id in After(run).fragments && After(run).fragments[id].state == Some(Rejected)
    ensures var d := Latest(After(run).decisions, id);
            && d.Some?
            && (After(run).fragments[id].validTo != Some(d.value.decidedAt)
                <==> exists k :: 0 <= k < |run| && LastMove(run, k, id, d) && run[k].now != d.value.decidedAt)
  {
    hide After, Proper, Latest;
    EndIsDecisionUnlessMoved(run, id);
  }

  /** A rejection at time 5 whose fragment, split while it was being rejected, ends at time 6. */
  lemma EndMoved() returns (run: seq<Event>)
    ensures Proper(run) && "f" in After(run).fragments && |After(run).decisions| == 1
    ensures var f, d := After(run).fragments["f"], After(run).decisions[0];
            f.state == Some(Rejected) && d.fragment == "f" && d.kind == AutoReject && d.decidedAt == 5
                && f.validTo == Some(6)
  {
    var held := Fragment(None, Some(Pending), false, false, false, None, 0);
    run := [Create("f", held), Expire(["f"], 5, 1, 1), EndValidity("f", 6, true)];
    assert After(run[..1]) == State(map["f" := held], [], map[], 0) by {
      assert run[..1][..0] == [];
    }
    AfterTwo(run[..2]);
    var s := After(run[..1]);
    assert PickStale(s, ["f"], 4, 1) == ["f"] + PickStale(s, [], 4, 0);
  }
}
