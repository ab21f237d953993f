/** What each transaction of the review store answers and writes, told from the request and the tables. */
module ReviewAnswers {
  import opened Options
  import opened ReviewStore
  import opened ReviewLaws

  /** `d` was decided under the request's idempotency key. */
  ghost predicate UnderKey(s: State, r: Request, d: Decision) {
    d in s.decisions && r.idempotencyKey.Some? && d.idempotencyKey == r.idempotencyKey
  }

  /** What a request gets whose key was used: its own decision again, or a conflict. */
  ghost predicate AnswersKey(s: State, r: Request, outcome: Outcome) {
    exists d :: UnderKey(s, r, d)
                && outcome == if d.fragment == r.fragment && Fulfils(d.kind, r) then Replayed(d) else KeyConflict
  }

  lemma ReplayMeaning(s: State, r: Request)
    ensures var replay := FindReplay(s.decisions, r);
            if exists d :: UnderKey(s, r, d) then replay.Some? && AnswersKey(s, r, replay.value) else replay.None?
  {
    if r.idempotencyKey.Some? {
      var found := FindKey(s.decisions, r.idempotencyKey.value);
      if found.Some? {
        assert UnderKey(s, r, found.value);
      }
      if d :| UnderKey(s, r, d) {
        var i :| 0 <= i < |s.decisions| && s.decisions[i] == d;
      }
    }
  }

  /**
    * A decision begins on a fragment that awaits review and is not locked; a key that was used is answered before
    * anything is looked at, and nothing is written in any other case.
    */
  lemma BeginTable(s: State, r: Request)
    ensures var (t, outcome) := BeginStep(s, r);
            if r.fragment in s.open then t == s && outcome == Waiting
            else if exists d :: UnderKey(s, r, d) then t == s && AnswersKey(s, r, outcome)
            else if r.fragment !in s.fragments then t == s && outcome == NotFound
            else
              var f := s.fragments[r.fragment];
              if f.state == Some(Pending) && f.validTo == None
              then t == s.(open := s.open[r.fragment := r]) && outcome == Opened
              else t == s && outcome == WrongState(f.state)
  {
    ReplayMeaning(s, r);
    hide UnderKey, AnswersKey, FindReplay;
  }

  /** A decision is written unless its key was used meanwhile; either way the row is unlocked. */
  lemma FinishTable(s: State, id: string, now: int, allowed: bool)
    requires id in s.open && s.open[id].fragment == id && id in s.fragments
    ensures var (t, outcome) := FinishStep(s, id, now, allowed);
            var r, f := s.open[id], s.fragments[id];
            && t.open == s.open - {id}
            && if exists d :: UnderKey(s, r, d) then
                 t.fragments == s.fragments && t.decisions == s.decisions && AnswersKey(s, r, outcome)
               else
                 && outcome.Decided? && t.decisions == s.decisions + [outcome.record]
                 && var d := outcome.record;
                    && d.fragment == id && Fulfils(d.kind, r) && d.reviewer == r.reviewer && d.decidedAt == now
                    && d.idempotencyKey == r.idempotencyKey && d.keyId == f.keyId && d.id == s.nextId
                    && t.fragments == s.fragments[id :=
                         if r.approve
                         then f.(state := Some(Approved), isAnchor := f.isAnchor || SetsAnchor(f, r, allowed))
                         else f.(state := Some(Rejected), validTo := Some(now))]
  {
    ReplayMeaning(s, s.open[id]);
    hide UnderKey, AnswersKey, FindReplay;
  }

  /* ---------- The other writers ---------- */

  /** The amendment puts its fragment under review: it has a reason to, or asks for an anchor of one under review. */
  predicate GoesToReview(base: Fragment, a: Amendment) {
    a.review || (base.state == Some(Pending) && a.wants == Some(true))
  }

  /** Whether the row is an anchor after an amendment that was not put under review. */
  function AnchorAfter(base: Fragment, current: Fragment, a: Amendment): bool {
    match a.wants
    case None => current.isAnchor
    case Some(false) => false
    case Some(true) => if a.overQuota && !base.isAnchor then current.isAnchor else true
  }

  /** What an amendment writes, by what it asks for and what its gate saw of the row. */
  lemma AmendTable(base: Fragment, current: Fragment, a: Amendment)
    ensures var f := Amended(base, current, a);
            var waited := base.state == Some(Pending);
            && f.keyId == current.keyId && f.validTo == current.validTo && f.createdAt == current.createdAt
            && if GoesToReview(base, a) then
                 && f.state == Some(Pending)
                 && (f.anchorRequested <==> a.wants == Some(true) || (waited && base.anchorRequested))
                 && (f.anchorUnauthorized <==> (a.review && a.unauthorized) || (waited && base.anchorUnauthorized))
                 && (f.isAnchor <==> current.isAnchor && a.wants != Some(false))
               else
                 && f.state == current.state && f.anchorRequested == current.anchorRequested
                 && f.anchorUnauthorized == current.anchorUnauthorized
                 && f.isAnchor == AnchorAfter(base, current, a)
  {
    match a.wants
    case None =>
    case Some(true) =>
    case Some(false) =>
  }

  /** A row that is locked, or not there, is not written to by anyone but the transaction that locks it. */
  lemma WritersWait(s: State, e: Event)
    requires e.Amend? || e.Upsert? || e.Promote? || e.EndValidity? || e.Delete?
    requires e.id !in s.fragments || e.id in s.open
    ensures Step(s, e) == s
  {
  }

  /** What the writers make of an unlocked row; they leave all else alone. */
  lemma WritersTable(s: State, e: Event)
    requires e.Amend? || e.Upsert? || e.Promote? || e.EndValidity? || e.Delete?
    requires e.id in s.fragments && e.id !in s.open
    ensures var t, f := Step(s, e), s.fragments[e.id];
            && t.decisions == s.decisions && t.open == s.open && t.nextId == s.nextId
            && match e
               case Amend(id, base, a) => t.fragments == s.fragments[id := Amended(base, f, a)]
               case Upsert(id, anchor) => t.fragments == s.fragments[id := if anchor then f.(isAnchor := true) else f]
               case Promote(id) =>
                 t.fragments == s.fragments[id := if f.state == Some(Pending) || f.state == Some(Rejected) then f
                                                  else f.(isAnchor := true)]
               case EndValidity(id, now, split) =>
                 t.fragments == s.fragments[id := if f.validTo == None || split then f.(validTo := Some(now)) else f]
               case _ => t.fragments == s.fragments - {e.id}
  {
    hide Amended;
    var f := s.fragments[e.id];
    assert s.fragments[e.id := f] == s.fragments;
    assert f.(isAnchor := f.isAnchor || true) == f.(isAnchor := true) && f.(isAnchor := f.isAnchor || false) == f;
    match f.state
    case None =>
    case Some(Pending) =>
    case Some(Approved) =>
    case Some(Rejected) =>
  }

  /** Only a decision that was begun can end. */
  lemma FinishNeedsLock(s: State, id: string, now: int, allowed: bool)
    ensures var t := Step(s, Finish(id, now, allowed));
            if id in s.open && s.open[id].fragment == id && id in s.fragments
            then t == FinishStep(s, id, now, allowed).0 else t == s
  {
    hide FinishStep;
  }

  /* ---------- Automatic rejection ---------- */

  /** Nobody is deciding on the fragment, and it has awaited review since before the cutoff. */
  predicate Overdue(s: State, id: string, cutoff: int) {
    && id in s.fragments && id !in s.open
    && s.fragments[id].state == Some(Pending) && s.fragments[id].validTo == None && s.fragments[id].createdAt < cutoff
  }

  /** How many of the identifiers are overdue. */
  function Overdues(s: State, order: seq<string>, cutoff: int): nat {
    if order == [] then 0
    else Overdues(s, order[..|order| - 1], cutoff) + if Overdue(s, order[|order| - 1], cutoff) then 1 else 0
  }

  lemma {:induction false} OverduesFirst(s: State, order: seq<string>, cutoff: int)
    requires order != []
    ensures Overdues(s, order, cutoff)
            == (if Overdue(s, order[0], cutoff) then 1 else 0) + Overdues(s, order[1..], cutoff)
  {
    hide Overdue;
    var n := |order| - 1;
    if n > 0 {
      OverduesFirst(s, order[..n], cutoff);
      assert order[..n][1..] == order[1..][..n - 1] && order[1..][n - 1] == order[n];
    } else {
      assert order[..n] == [] && order[1..] == [];
    }
  }

  /** Those picked are the overdue ones with fewer than `limit` overdue ones before them. */
  lemma {:induction false} PickMeaning(s: State, order: seq<string>, cutoff: int, limit: nat, i: nat)
    requires Distinct(order) && i < |order|
    ensures order[i] in PickStale(s, order, cutoff, limit)
            <==> Overdue(s, order[i], cutoff) && Overdues(s, order[..i], cutoff) < limit
  {
    hide Overdue, IsStale;
    assert IsStale(s, order[0], cutoff) <==> Overdue(s, order[0], cutoff) by {
      StaleIsOverdue(s, order[0], cutoff);
    }
    var picked := PickStale(s, order, cutoff, limit);
    assert order == [order[0]] + order[1..];
    if i > 0 {
      assert order[..i][1..] == order[1..][..i - 1] && order[1..][i - 1] == order[i] && order[..i][0] == order[0];
      OverduesFirst(s, order[..i], cutoff);
      if limit > 0 {
        var less: nat := if Overdue(s, order[0], cutoff) then limit - 1 else limit;
        PickMeaning(s, order[1..], cutoff, less, i - 1);
        assert order[i] != order[0];
      }
    } else if limit > 0 && !Overdue(s, order[0], cutoff) {
      assert order[0] !in order[1..];
    }
  }

  lemma StaleIsOverdue(s: State, id: string, cutoff: int)
    ensures IsStale(s, id, cutoff) <==> Overdue(s, id, cutoff)
  {
  }

  /**
    * The automatic rejection rejects, and records, exactly the fragments overdue by `maxAge` that come first in the
    * order, up to the limit; it leaves every other row and every lock as it is.
    */
  lemma ExpireTable(s: State, order: seq<string>, now: int, maxAge: int, limit: nat, id: string)
    requires Distinct(order)
    ensures var t, had := ExpireStep(s, order, now, maxAge, limit), |s.decisions|;
            var rejected := exists i :: 0 <= i < |order| && order[i] == id && Overdue(s, id, now - maxAge)
                                        && Overdues(s, order[..i], now - maxAge) < limit;
            && t.open == s.open && had <= |t.decisions| && t.decisions[..had] == s.decisions
            && (id in t.fragments <==> id in s.fragments)
            && (id in s.fragments ==>
                  var f := s.fragments[id];
                  t.fragments[id] == if rejected then f.(state := Some(Rejected), validTo := Some(now)) else f)
            && (rejected <==> exists k :: had <= k < |t.decisions| && t.decisions[k].fragment == id)
            && forall k :: had <= k < |t.decisions| ==>
                 t.decisions[k].kind == AutoReject && t.decisions[k].decidedAt == now
  {
    hide IsStale, Overdue, Overdues, PickStale;
    var ids := PickStale(s, order, now - maxAge, limit);
    forall i | 0 <= i < |order|
      ensures order[i] in ids <==> Overdue(s, order[i], now - maxAge) && Overdues(s, order[..i], now - maxAge) < limit
    {
      PickMeaning(s, order, now - maxAge, limit, i);
    }
    PickedPending(s, order, now - maxAge, limit);
    PickedRejected(s, ids, now, id);
  }

  lemma PickedRejected(s: State, ids: seq<string>, now: int, id: string)
    requires forall x :: x in ids ==> x in s.fragments
    ensures var rows := RejectRows(s.fragments, ids, now);
            && (id in rows <==> id in s.fragments)
            && (id in rows ==>
                  var f := s.fragments[id];
                  rows[id] == if id in ids then f.(state := Some(Rejected), validTo := Some(now)) else f)
    ensures Recorded(s.decisions, s.decisions + AutoRecords(s, ids, now), ids, now, id)
  {
    AutoRecordsReject(s, ids, now);
    RejectionsRecorded(s.decisions, AutoRecords(s, ids, now), ids, now, s.nextId, id);
    hide AutoRecords, Recorded;
  }

  /** `all` adds automatic rejections to the decisions `had`, one of `id` exactly if it is among those rejected. */
  ghost predicate Recorded(had: seq<Decision>, all: seq<Decision>, ids: seq<string>, now: int, id: string) {
    && |had| <= |all| && all[..|had|] == had
    && (id in ids <==> exists k :: |had| <= k < |all| && all[k].fragment == id)
    && forall k :: |had| <= k < |all| ==> all[k].kind == AutoReject && all[k].decidedAt == now
  }

  lemma RejectionsRecorded(had: seq<Decision>, records: seq<Decision>, ids: seq<string>, now: int, nextId: nat,
                           id: string)
    requires Rejections(records, ids, now, nextId)
    ensures Recorded(had, had + records, ids, now, id)
  {
    var all := had + records;
    assert forall k :: |had| <= k < |all| ==> all[k] == records[k - |had|];
    if id in ids {
      var i :| 0 <= i < |ids| && ids[i] == id;
      assert all[|had| + i].fragment == id;
    }
  }
}
