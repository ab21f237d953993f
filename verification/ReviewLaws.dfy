/** Decisions over whole runs: how many there are, what they leave behind, and what a repeated request gets. */
module ReviewLaws {
  import opened Options
  import opened ReviewStore

  /**
    * An amendment as it reaches the review step: the change of the anchor it asks for, whether it has reasons for a
    * review, whether a missing permission is one of them, and whether the key has too many anchors when it is written.
    */
  datatype Amendment = Amendment(wants: Option<bool>, review: bool, unauthorized: bool, overQuota: bool)

  /**
    * Halves of decision transactions, aborted ones, automatic rejections, and what other parts of the server do to a
    * fragment's review, anchor and validity: create it, amend it by what was decided of an earlier reading `base` of
    * its row, insert it again, promote it, end its validity, delete it. A locked row makes those wait. One writer,
    * which splits fragments, ends validity whether or not it has ended already.
    */
  datatype Event =
    | Begin(r: Request)
    | Finish(id: string, now: int, allowed: bool)
    | Abort(id: string)
    | Expire(order: seq<string>, now: int, maxAge: int, limit: nat)
    | Create(id: string, f: Fragment)
    | Amend(id: string, base: Fragment, a: Amendment)
    | Upsert(id: string, anchor: bool)
    | Promote(id: string)
    | EndValidity(id: string, now: int, split: bool)
    | Delete(id: string)

  function Step(s: State, e: Event): State {
    match e
    case Begin(r) => BeginStep(s, r).0
    case Finish(id, now, allowed) =>
      if id in s.open && s.open[id].fragment == id && id in s.fragments then FinishStep(s, id, now, allowed).0 else s
    case Abort(id) => s.(open := s.open - {id})
    case Expire(order, now, maxAge, limit) => ExpireStep(s, order, now, maxAge, limit)
    case Create(id, f) => s.(fragments := s.fragments[id := f])
    case Amend(id, base, a) =>
      if CanWrite(s, id) then s.(fragments := s.fragments[id := Amended(base, s.fragments[id], a)]) else s
    case Upsert(id, anchor) =>
      if CanWrite(s, id)
      then s.(fragments := s.fragments[id := s.fragments[id].(isAnchor := s.fragments[id].isAnchor || anchor)]) else s
    case Promote(id) =>
      if CanWrite(s, id) && s.fragments[id].state in {None, Some(Approved)}
      then s.(fragments := s.fragments[id := s.fragments[id].(isAnchor := true)]) else s
    case EndValidity(id, now, split) =>
      if CanWrite(s, id) && (split || s.fragments[id].validTo.None?)
      then s.(fragments := s.fragments[id := s.fragments[id].(validTo := Some(now))]) else s
    case Delete(id) => if CanWrite(s, id) then s.(fragments := s.fragments - {id}) else s
  }

  /**
    * The row `current` after amendment `a` that passed the gate when the row was `base`. Reasons put it under review,
    * and hold a request to anchor it back, as it is held back of a row that was under review already.
    */
  function Amended(base: Fragment, current: Fragment, a: Amendment): Fragment {
    var asks, waiting := a.wants == Some(true), base.state == Some(Pending);
    if a.review || (waiting && asks) then
      current.(
        state := Some(Pending),
        anchorRequested := asks || (waiting && base.anchorRequested),
        anchorUnauthorized := (a.review && a.unauthorized) || (waiting && base.anchorUnauthorized),
        isAnchor := if asks || a.wants.None? then current.isAnchor else false)
    else if a.wants.None? || (asks && a.overQuota && !base.isAnchor) then current
    else current.(isAnchor := asks)
  }

  predicate CanWrite(s: State, id: string) {
    id in s.fragments && id !in s.open
  }

  function After(run: seq<Event>): State {
    if run == [] then State(map[], [], map[], 0) else Step(After(run[..|run| - 1]), run[|run| - 1])
  }

  function Created(run: seq<Event>): set<string> {
    set i | 0 <= i < |run| && run[i].Create? :: run[i].id
  }

  /**
    * Identifiers are never used twice; new fragments are undecided, and no anchors where they await review; rows are
    * listed once per expiry; and what an amendment takes for the row is what the row was at some time before.
    */
  ghost predicate Proper(run: seq<Event>) {
    && (forall i, j :: 0 <= i < j < |run| && run[i].Create? && run[j].Create? ==> run[i].id != run[j].id)
    && (forall i :: 0 <= i < |run| && run[i].Create? ==> FreshRow(run[i].f))
    && (forall i :: 0 <= i < |run| && run[i].Amend? ==> BaseWasRead(run, i))
    && (forall i :: 0 <= i < |run| && run[i].Expire? ==> Distinct(run[i].order))
  }

  predicate FreshRow(f: Fragment) {
    f.state == None || (f.state == Some(Pending) && !f.isAnchor)
  }

  ghost predicate BaseWasRead(run: seq<Event>, i: nat)
    requires i < |run| && run[i].Amend?
  {
    exists g: nat :: g <= i && ReadAt(run, g, run[i].id, run[i].base)
  }

  /** The row of `id` after the first `g` events is `f`. */
  predicate ReadAt(run: seq<Event>, g: nat, id: string, f: Fragment)
    requires g <= |run|
  {
    var s := After(run[..g]);
    id in s.fragments && s.fragments[id] == f
  }

  ghost predicate Distinct(ids: seq<string>) {
    forall i, j :: 0 <= i < j < |ids| ==> ids[i] != ids[j]
  }

  function Count(decisions: seq<Decision>, id: string): nat {
    if decisions == [] then 0
    else Count(decisions[..|decisions| - 1], id) + if decisions[|decisions| - 1].fragment == id then 1 else 0
  }

  function Latest(decisions: seq<Decision>, id: string): (d: Option<Decision>)
    ensures d.None? <==> forall i :: 0 <= i < |decisions| ==> decisions[i].fragment != id
    ensures d.Some? ==> d.value in decisions && d.value.fragment == id
  {
    if decisions == [] then None
    else if decisions[|decisions| - 1].fragment == id then Some(decisions[|decisions| - 1])
    else Latest(decisions[..|decisions| - 1], id)
  }

  predicate IsPending(s: State, id: string) {
    id in s.fragments && s.fragments[id].state == Some(Pending)
  }

  /** How often `id` became pending. */
  function Periods(run: seq<Event>, id: string): nat {
    if run == [] then 0
    else
      var before := After(run[..|run| - 1]);
      Periods(run[..|run| - 1], id)
      + if !IsPending(before, id) && IsPending(Step(before, run[|run| - 1]), id) then 1 else 0
  }

  /** A fragment's state is what its latest decision made it, and a rejected one has ended. */
  ghost predicate Agrees(f: Fragment, d: Option<Decision>) {
    match f.state
    case None => d.None?
    case Some(Pending) => true
    case Some(Approved) => d.Some? && d.value.kind.Approve?
    case Some(Rejected) => d.Some? && !d.value.kind.Approve? && f.validTo.Some?
  }

  ghost predicate KeysUnique(decisions: seq<Decision>) {
    forall i, j :: 0 <= i < j < |decisions| && decisions[i].idempotencyKey.Some? ==>
      decisions[i].idempotencyKey != decisions[j].idempotencyKey
  }

  ghost predicate IdsUnique(decisions: seq<Decision>, nextId: nat) {
    && (forall i, j :: 0 <= i < j < |decisions| ==> decisions[i].id < decisions[j].id)
    && (forall i :: 0 <= i < |decisions| ==> decisions[i].id < nextId)
  }

  ghost predicate Inv(s: State) {
    && (forall id :: id in s.open ==>
        s.open[id].fragment == id && id in s.fragments && IsOpenForReview(s.fragments[id]))
    && (forall id :: id in s.fragments ==> Agrees(s.fragments[id], Latest(s.decisions, id)))
    && KeysUnique(s.decisions) && IdsUnique(s.decisions, s.nextId)
  }

  /* ---------- Single steps ---------- */

  /** Setting one unlocked row, or the row just decided, keeps the invariant when the row agrees with the decisions. */
  lemma RowKeepsInv(s: State, id: string, f: Fragment)
    requires Inv(s) && id !in s.open && Agrees(f, Latest(s.decisions, id))
    ensures Inv(s.(fragments := s.fragments[id := f]))
  {
    hide Agrees, Latest, KeysUnique, IdsUnique, IsOpenForReview;
  }

  lemma RemovalKeepsInv(s: State, id: string)
    requires Inv(s) && id !in s.open
    ensures Inv(s.(fragments := s.fragments - {id}))
  {
    hide Agrees, Latest, KeysUnique, IdsUnique, IsOpenForReview;
  }

  lemma BeginKeepsInv(s: State, r: Request)
    requires Inv(s)
    ensures Inv(BeginStep(s, r).0)
  {
    hide Agrees, Latest, KeysUnique, IdsUnique, FindReplay;
  }

  lemma AppendKeepsUnique(decisions: seq<Decision>, d: Decision)
    requires KeysUnique(decisions) && IdsUnique(decisions, d.id)
    requires d.idempotencyKey.Some? ==> FindKey(decisions, d.idempotencyKey.value).None?
    ensures KeysUnique(decisions + [d]) && IdsUnique(decisions + [d], d.id + 1)
  {
  }

  lemma FinishKeepsInv(s: State, id: string, now: int, allowed: bool)
    requires Inv(s) && id in s.open
    ensures Inv(FinishStep(s, id, now, allowed).0)
  {
    hide KeysUnique, IdsUnique, AnchorApplies, Latest, Inv;
    OpenRow(s, id);
    var r := s.open[id];
    if FindReplay(s.decisions, r).None? {
      CommitKeepsInv(s, id, DecidedFragment(s.fragments[id], r, now, allowed), RecordOf(s, r, now));
    } else {
      AbortKeepsInv(s.(nextId := s.nextId + 1), id) by {
        SkipIdKeepsInv(s);
      }
    }
  }

  lemma OpenRow(s: State, id: string)
    requires Inv(s) && id in s.open
    ensures s.open[id].fragment == id && id in s.fragments && IsOpenForReview(s.fragments[id])
  {
  }

  lemma SkipIdKeepsInv(s: State)
    requires Inv(s)
    ensures Inv(s.(nextId := s.nextId + 1))
  {
    hide Agrees, Latest, KeysUnique;
  }

  lemma CommitKeepsInv(s: State, id: string, f: Fragment, record: Decision)
    requires Inv(s) && id in s.open && record.fragment == id && record.id == s.nextId
    requires record.idempotencyKey.Some? ==> FindKey(s.decisions, record.idempotencyKey.value).None?
    requires Agrees(f, Some(record))
    ensures Inv(State(s.fragments[id := f], s.decisions + [record], s.open - {id}, s.nextId + 1))
  {
    hide Agrees, Latest, KeysUnique, IdsUnique, FindKey, IsOpenForReview;
    AppendKeepsUnique(s.decisions, record);
    var rows := s.fragments[id := f];
    forall x | x in rows
      ensures Agrees(rows[x], Latest(s.decisions + [record], x))
    {
      LatestAppend(s.decisions, record, x);
    }
  }

  lemma LatestAppend(decisions: seq<Decision>, d: Decision, id: string)
    ensures Latest(decisions + [d], id) == if d.fragment == id then Some(d) else Latest(decisions, id)
    ensures Count(decisions + [d], id) == Count(decisions, id) + if d.fragment == id then 1 else 0
  {
    assert (decisions + [d])[..|decisions|] == decisions;
  }

  /** `records` are automatic rejections of `ids` at `now`. */
  ghost predicate Rejections(records: seq<Decision>, ids: seq<string>, now: int, nextId: nat) {
    && |records| == |ids|
    && forall i :: 0 <= i < |ids| ==>
         records[i].fragment == ids[i] && records[i].kind == AutoReject && records[i].decidedAt == now
         && records[i].idempotencyKey == None && records[i].id == nextId + i
  }

  lemma {:induction false} LatestOfRejections(decisions: seq<Decision>, records: seq<Decision>, ids: seq<string>,
                                              now: int, nextId: nat, id: string)
    requires Rejections(records, ids, now, nextId)
    ensures var d := Latest(decisions + records, id);
            if id in ids then d.Some? && d.value.kind == AutoReject && d.value.decidedAt == now && d.value.id >= nextId
            else d == Latest(decisions, id)
    ensures Distinct(ids) ==> Count(decisions + records, id) == Count(decisions, id) + if id in ids then 1 else 0
  {
    hide Latest, Count;
    if ids == [] {
      assert decisions + records == decisions;
    } else {
      var n := |ids| - 1;
      LatestOfRejections(decisions, records[..n], ids[..n], now, nextId, id);
      assert decisions + records == decisions + records[..n] + [records[n]];
      assert id in ids <==> id in ids[..n] || id == ids[n] by {
        assert ids == ids[..n] + [ids[n]];
      }
      LatestAppend(decisions + records[..n], records[n], id);
    }
  }

  lemma {:induction false} RejectionsKeepUnique(decisions: seq<Decision>, records: seq<Decision>, ids: seq<string>,
                                                now: int, nextId: nat)
    requires Rejections(records, ids, now, nextId) && KeysUnique(decisions) && IdsUnique(decisions, nextId)
    ensures KeysUnique(decisions + records) && IdsUnique(decisions + records, nextId + |ids|)
  {
  }

  lemma ExpireKeepsInv(s: State, order: seq<string>, now: int, maxAge: int, limit: nat)
    requires Inv(s)
    ensures Inv(ExpireStep(s, order, now, maxAge, limit))
  {
    hide *;
    var ids := PickStale(s, order, now - maxAge, limit);
    PickedPending(s, order, now - maxAge, limit);
    AutoRecordsReject(s, ids, now);
    var records := AutoRecords(s, ids, now);
    InvUnique(s);
    RejectionsKeepUnique(s.decisions, records, ids, now, s.nextId);
    forall id
      ensures Superseded(Latest(s.decisions, id), Latest(s.decisions + records, id), id in ids, now)
    {
      RejectionsSupersede(s.decisions, records, ids, now, s.nextId, id);
    }
    RejectRowsKeepInv(s, ids, s.decisions + records, s.nextId + |ids|, now);
    ExpireParts(s, order, now, maxAge, limit);
  }

  lemma InvUnique(s: State)
    requires Inv(s)
    ensures KeysUnique(s.decisions) && IdsUnique(s.decisions, s.nextId)
  {
  }

  lemma RejectionsSupersede(decisions: seq<Decision>, records: seq<Decision>, ids: seq<string>, now: int, nextId: nat,
                            id: string)
    requires Rejections(records, ids, now, nextId)
    ensures Superseded(Latest(decisions, id), Latest(decisions + records, id), id in ids, now)
  {
    hide Latest, Rejections;
    LatestOfRejections(decisions, records, ids, now, nextId, id);
  }

  /** The latest decision after an automatic rejection at `now`, where there was one. */
  ghost predicate Superseded(before: Option<Decision>, after: Option<Decision>, rejected: bool, now: int) {
    if rejected then after.Some? && after.value.kind == AutoReject && after.value.decidedAt == now else after == before
  }

  lemma RejectRowsKeepInv(s: State, ids: seq<string>, decisions: seq<Decision>, nextId: nat, now: int)
    requires Inv(s) && KeysUnique(decisions) && IdsUnique(decisions, nextId)
    requires forall id :: id in ids ==> id in s.fragments && id !in s.open
    requires forall id :: Superseded(Latest(s.decisions, id), Latest(decisions, id), id in ids, now)
    ensures Inv(State(RejectRows(s.fragments, ids, now), decisions, s.open, nextId))
  {
    hide Latest, KeysUnique, IdsUnique;
    var rows := RejectRows(s.fragments, ids, now);
    forall id | id in rows
      ensures Agrees(rows[id], Latest(decisions, id))
    {
      assert Superseded(Latest(s.decisions, id), Latest(decisions, id), id in ids, now);
    }
    hide Agrees, Superseded;
  }

  /** A new fragment was never there before and no decision names it. */
  ghost predicate CreatesFresh(s: State, e: Event) {
    && (e.Create? ==> e.id !in s.fragments && FreshRow(e.f) && Latest(s.decisions, e.id).None?)
    && (e.Expire? ==> Distinct(e.order))
  }

  lemma StepKeepsInv(s: State, e: Event)
    requires Inv(s) && CreatesFresh(s, e)
    ensures Inv(Step(s, e))
  {
    hide Inv, Latest, BeginStep, FinishStep, ExpireStep;
    match e
    case Begin(r) => BeginKeepsInv(s, r);
    case Finish(id, now, allowed) =>
      if id in s.open {
        FinishKeepsInv(s, id, now, allowed);
      }
    case Abort(id) => AbortKeepsInv(s, id);
    case Expire(order, now, maxAge, limit) => ExpireKeepsInv(s, order, now, maxAge, limit);
    case Create(id, f) =>
      OpenExists(s, id);
      RowKeepsInv(s, id, f);
    case Amend(id, base, a) =>
      if CanWrite(s, id) {
        RowAgrees(s, id);
        RowKeepsInv(s, id, Amended(base, s.fragments[id], a));
      }
    case Upsert(id, anchor) =>
      if CanWrite(s, id) {
        RowAgrees(s, id);
        RowKeepsInv(s, id, s.fragments[id].(isAnchor := s.fragments[id].isAnchor || anchor));
      }
    case Promote(id) =>
      if CanWrite(s, id) && s.fragments[id].state in {None, Some(Approved)} {
        RowAgrees(s, id);
        RowKeepsInv(s, id, s.fragments[id].(isAnchor := true));
      }
    case EndValidity(id, now, split) =>
      if CanWrite(s, id) && (split || s.fragments[id].validTo.None?) {
        RowAgrees(s, id);
        RowKeepsInv(s, id, s.fragments[id].(validTo := Some(now)));
      }
    case Delete(id) =>
      if CanWrite(s, id) {
        RemovalKeepsInv(s, id);
      }
  }

  lemma AbortKeepsInv(s: State, id: string)
    requires Inv(s)
    ensures Inv(s.(open := s.open - {id}))
  {
    hide Agrees, Latest, KeysUnique, IdsUnique;
  }

  lemma OpenExists(s: State, id: string)
    requires Inv(s) && id !in s.fragments
    ensures id !in s.open
  {
  }

  lemma RowAgrees(s: State, id: string)
    requires Inv(s) && id in s.fragments
    ensures Agrees(s.fragments[id], Latest(s.decisions, id))
  {
  }

  /** A fragment that stays stops being pending exactly with one decision about it; nothing else adds a decision. */
  lemma StepCounts(s: State, e: Event, id: string)
    requires Inv(s) && CreatesFresh(s, e)
    ensures var t := Step(s, e);
            Count(t.decisions, id) == Count(s.decisions, id)
                                      + if id in t.fragments && IsPending(s, id) && !IsPending(t, id) then 1 else 0
  {
    match e
    case Finish(f, now, allowed) =>
      if f in s.open {
        FinishCounts(s, f, now, allowed, id);
      }
    case Expire(order, now, maxAge, limit) => ExpireCounts(s, order, now, maxAge, limit, id);
    case _ => hide Count, Latest, FindReplay, Agrees, KeysUnique, IdsUnique;
  }

  lemma FinishCounts(s: State, f: string, now: int, allowed: bool, id: string)
    requires Inv(s) && f in s.open
    ensures var t := FinishStep(s, f, now, allowed).0;
            Count(t.decisions, id) == Count(s.decisions, id)
                                      + if id in t.fragments && IsPending(s, id) && !IsPending(t, id) then 1 else 0
  {
    hide *;
    OpenRow(s, f);
    LatestAppend(s.decisions, RecordOf(s, s.open[f], now), id);
    FinishParts(s, f, now, allowed, id);
  }

  lemma FinishParts(s: State, f: string, now: int, allowed: bool, id: string)
    requires f in s.open && s.open[f].fragment == f && f in s.fragments && IsOpenForReview(s.fragments[f])
    ensures var t, record := FinishStep(s, f, now, allowed).0, RecordOf(s, s.open[f], now);
            && record.fragment == f
            && if t.decisions == s.decisions then id in t.fragments ==> (IsPending(s, id) <==> IsPending(t, id))
               else t.decisions == s.decisions + [record]
                    && (f == id <==> id in t.fragments && IsPending(s, id) && !IsPending(t, id))
  {
    hide FindReplay, AnchorApplies;
  }

  lemma {:induction false} PickDistinct(s: State, order: seq<string>, cutoff: int, limit: nat)
    requires Distinct(order)
    ensures Distinct(PickStale(s, order, cutoff, limit))
  {
    hide IsStale;
    if order != [] && limit > 0 {
      PickDistinct(s, order[1..], cutoff, limit - 1);
      PickDistinct(s, order[1..], cutoff, limit);
    }
  }

  lemma ExpireCounts(s: State, order: seq<string>, now: int, maxAge: int, limit: nat, id: string)
    requires Inv(s) && Distinct(order)
    ensures var t := ExpireStep(s, order, now, maxAge, limit);
            Count(t.decisions, id) == Count(s.decisions, id)
                                      + if id in t.fragments && IsPending(s, id) && !IsPending(t, id) then 1 else 0
  {
    hide *;
    var ids := PickStale(s, order, now - maxAge, limit);
    PickDistinct(s, order, now - maxAge, limit);
    PickedPending(s, order, now - maxAge, limit);
    AutoRecordsReject(s, ids, now);
    LatestOfRejections(s.decisions, AutoRecords(s, ids, now), ids, now, s.nextId, id);
    ExpireParts(s, order, now, maxAge, limit);
    RejectedRow(s, ids, now, ExpireStep(s, order, now, maxAge, limit), id);
  }

  lemma AutoRecordsReject(s: State, ids: seq<string>, now: int)
    requires forall id :: id in ids ==> id in s.fragments
    ensures Rejections(AutoRecords(s, ids, now), ids, now, s.nextId)
  {
    hide AutoRecords;
  }

  lemma PickedPending(s: State, order: seq<string>, cutoff: int, limit: nat)
    ensures forall id :: id in PickStale(s, order, cutoff, limit) ==>
            id in s.fragments && id !in s.open && IsPending(s, id)
  {
    hide PickStale;
  }

  lemma ExpireParts(s: State, order: seq<string>, now: int, maxAge: int, limit: nat)
    ensures var ids, t := PickStale(s, order, now - maxAge, limit), ExpireStep(s, order, now, maxAge, limit);
            t == State(RejectRows(s.fragments, ids, now), s.decisions + AutoRecords(s, ids, now), s.open,
                       s.nextId + |ids|)
  {
    hide PickStale, AutoRecords, RejectRows;
  }

  lemma RejectedRow(s: State, ids: seq<string>, now: int, t: State, id: string)
    requires forall i :: i in ids ==> IsPending(s, i)
    requires t.fragments == RejectRows(s.fragments, ids, now)
    ensures id in ids <==> id in t.fragments && IsPending(s, id) && !IsPending(t, id)
  {
  }

  /** Decisions are only added. */
  lemma StepAppends(s: State, e: Event)
    ensures s.decisions <= Step(s, e).decisions
  {
    hide AutoRecords, PickStale, FindReplay;
  }

  /* ---------- Runs ---------- */

  /** Rows and decisions belong to fragments that were created. */
  ghost predicate Known(s: State, ids: set<string>) {
    && (forall id :: id in s.fragments ==> id in ids)
    && (forall d :: d in s.decisions ==> d.fragment in ids)
  }

  lemma StepKnown(s: State, e: Event, ids: set<string>)
    requires Known(s, ids) && Inv(s)
    ensures Known(Step(s, e), ids + if e.Create? then {e.id} else {})
  {
    hide Latest, FindReplay, Agrees, KeysUnique, IdsUnique, AnchorApplies;
    if e.Expire? {
      ExpireKnown(s, e.order, e.now, e.maxAge, e.limit, ids);
      hide ExpireStep;
    }
  }

  lemma ExpireKnown(s: State, order: seq<string>, now: int, maxAge: int, limit: nat, ids: set<string>)
    requires Known(s, ids)
    ensures Known(ExpireStep(s, order, now, maxAge, limit), ids)
  {
    var picked := PickStale(s, order, now - maxAge, limit);
    var records := AutoRecords(s, picked, now);
    hide AutoRecords, PickStale;
    forall d | d in records
      ensures d.fragment in ids
    {
      var i :| 0 <= i < |records| && records[i] == d;
      assert picked[i] in picked;
    }
  }

  lemma ReadBefore(run: seq<Event>, i: nat)
    requires i + 1 < |run| && run[i].Amend? && BaseWasRead(run, i)
    ensures BaseWasRead(run[..|run| - 1], i)
  {
    hide After;
    var g: nat :| g <= i && ReadAt(run, g, run[i].id, run[i].base);
    assert run[..|run| - 1][..g] == run[..g];
    assert ReadAt(run[..|run| - 1], g, run[i].id, run[i].base);
  }

  lemma CreatedPrefix(run: seq<Event>)
    requires run != []
    ensures var e := run[|run| - 1]; Created(run) == Created(run[..|run| - 1]) + if e.Create? then {e.id} else {}
    ensures Proper(run) ==> Proper(run[..|run| - 1])
    ensures Proper(run) && run[|run| - 1].Create? ==> run[|run| - 1].id !in Created(run[..|run| - 1])
  {
    hide BaseWasRead, FreshRow, Distinct;
    var n := |run| - 1;
    var init, e := run[..n], run[n];
    forall i: nat | i < n && run[i].Amend? && Proper(run)
      ensures BaseWasRead(init, i)
    {
      ReadBefore(run, i);
    }
    forall id | id in Created(run)
      ensures id in Created(init) + if e.Create? then {e.id} else {}
    {
      var i :| 0 <= i < |run| && run[i].Create? && run[i].id == id;
      if i < n {
        assert init[i] == run[i];
      }
    }
    forall id | id in Created(init) + if e.Create? then {e.id} else {}
      ensures id in Created(run)
    {
      if id in Created(init) {
        var i :| 0 <= i < n && init[i].Create? && init[i].id == id;
        assert run[i] == init[i];
      } else {
        assert run[n] == e;
      }
    }
  }

  lemma {:induction false} InvAlways(run: seq<Event>)
    requires Proper(run)
    ensures Inv(After(run)) && Known(After(run), Created(run))
  {
    hide Inv, Step, Created, Proper, Known, Latest;
    if run == [] {
      StartInv();
    } else {
      var init, e := run[..|run| - 1], run[|run| - 1];
      CreatedPrefix(run);
      InvAlways(init);
      LastIsFresh(run);
      StepKeepsInv(After(init), e);
      StepKnown(After(init), e, Created(init));
    }
  }

  lemma StartInv()
    ensures Inv(State(map[], [], map[], 0)) && forall ids: set<string> :: Known(State(map[], [], map[], 0), ids)
  {
  }

  lemma LastIsFresh(run: seq<Event>)
    requires run != [] && Proper(run) && Known(After(run[..|run| - 1]), Created(run[..|run| - 1]))
    ensures CreatesFresh(After(run[..|run| - 1]), run[|run| - 1])
  {
    hide After, Created, Latest;
    CreatedPrefix(run);
  }

  /** There is one decision for every time a fragment became pending and is so no longer, or its row is gone. */
  lemma {:induction false} DecisionsPerPeriod(run: seq<Event>, id: string)
    requires Proper(run)
    ensures var s := After(run);
            && (id in s.fragments ==> Count(s.decisions, id) + (if IsPending(s, id) then 1 else 0) == Periods(run, id))
            && Count(s.decisions, id) <= Periods(run, id)
            && (id !in Created(run) ==> Periods(run, id) == 0)
  {
    hide Inv, Step, Created, Proper, Known, Latest;
    if run != [] {
      var init, e := run[..|run| - 1], run[|run| - 1];
      CreatedPrefix(run);
      InvAlways(init);
      InvAlways(run);
      LastIsFresh(run);
      DecisionsPerPeriod(init, id);
      StepCounts(After(init), e, id);
      OnlyKnown(init, id);
      OnlyKnown(run, id);
      if id !in After(init).fragments && id in After(run).fragments {
        OnlyCreated(After(init), e, id);
      }
    }
  }

  lemma OnlyKnown(run: seq<Event>, id: string)
    requires Known(After(run), Created(run))
    ensures id !in Created(run) ==> id !in After(run).fragments
  {
    hide After, Created;
  }

  /** A row appears only by being created. */
  lemma OnlyCreated(s: State, e: Event, id: string)
    requires id !in s.fragments && id in Step(s, e).fragments
    ensures e.Create? && e.id == id
  {
    hide PickStale, AutoRecords, FindReplay;
  }

  /** The amendment puts its row under review. */
  predicate Marks(e: Event, id: string) {
    e.Amend? && e.id == id && (e.a.review || (e.base.state == Some(Pending) && e.a.wants == Some(true)))
  }

  /** Without an amendment that puts it under review again a fragment is decided at most once. */
  lemma AtMostOneDecision(run: seq<Event>, id: string)
    requires Proper(run) && forall i :: 0 <= i < |run| ==> !Marks(run[i], id)
    ensures Count(After(run).decisions, id) <= 1
  {
    hide After, Count, Periods, Proper;
    DecisionsPerPeriod(run, id);
    OnePeriod(run, id);
  }

  lemma {:induction false} OnePeriod(run: seq<Event>, id: string)
    requires Proper(run) && forall i :: 0 <= i < |run| ==> !Marks(run[i], id)
    ensures Periods(run, id) <= if id in Created(run) then 1 else 0
  {
    hide Step, Created, Proper, IsPending, Known, Inv, Count;
    if run != [] {
      var init, e := run[..|run| - 1], run[|run| - 1];
      CreatedPrefix(run);
      OnePeriod(init, id);
      if !IsPending(After(init), id) && IsPending(Step(After(init), e), id) {
        BecomesPending(After(init), e, id);
      }
    }
  }

  lemma BecomesPending(s: State, e: Event, id: string)
    requires !IsPending(s, id) && IsPending(Step(s, e), id)
    ensures (e.Create? && e.id == id) || Marks(e, id)
  {
    hide PickStale, AutoRecords, FindReplay;
  }

  lemma {:induction false} DecisionsStay(run: seq<Event>, k: nat)
    requires k <= |run|
    ensures After(run[..k]).decisions <= After(run).decisions
  {
    hide Step;
    if k == |run| {
      assert run[..k] == run;
    } else {
      var n := |run| - 1;
      assert run[..n][..k] == run[..k];
      DecisionsStay(run[..n], k);
      StepAppends(After(run[..n]), run[n]);
    }
  }

  /** Each row and end of validity agrees with the latest decision, and each idempotency key names one decision. */
  lemma RowsAgree(run: seq<Event>)
    requires Proper(run)
    ensures var s := After(run);
            && (forall id :: id in s.fragments ==> Agrees(s.fragments[id], Latest(s.decisions, id)))
            && KeysUnique(s.decisions) && IdsUnique(s.decisions, s.nextId)
  {
    hide After, Proper, Agrees, Latest, KeysUnique, IdsUnique, Known;
    InvAlways(run);
  }

  /**
    * A decision once made under a key is what every later request with that key gets, and that request alters nothing.
    */
  lemma ReplayIsStable(run: seq<Event>, k: nat, d: Decision, r: Request)
    requires Proper(run) && k <= |run| && d in After(run[..k]).decisions
    requires d.idempotencyKey.Some? && r.idempotencyKey == d.idempotencyKey && r.fragment !in After(run).open
    ensures BeginStep(After(run), r)
         == (After(run), if r.fragment == d.fragment && KindOf(r) == d.kind then Replayed(d) else KeyConflict)
  {
    hide After, Proper, Agrees, Latest, KeysUnique, IdsUnique;
    InvAlways(run);
    DecisionsStay(run, k);
    KeyNamesOne(After(run).decisions, d);
  }

  lemma KeyNamesOne(decisions: seq<Decision>, d: Decision)
    requires KeysUnique(decisions) && d in decisions && d.idempotencyKey.Some?
    ensures FindKey(decisions, d.idempotencyKey.value) == Some(d)
  {
    var f := FindKey(decisions, d.idempotencyKey.value).value;
    var i :| 0 <= i < |decisions| && decisions[i] == d;
    var j :| 0 <= j < |decisions| && decisions[j] == f;
  }

  /**
    * A transaction commits exactly when no decision was made under its key meanwhile; beaten, it writes nothing and
    * gets the decision that beat it, or a conflict.
    */
  lemma CommitsIffNotBeaten(s: State, id: string, now: int, allowed: bool)
    requires Inv(s) && id in s.open
    ensures var (t, outcome) := FinishStep(s, id, now, allowed); var key := s.open[id].idempotencyKey;
            && (outcome.Decided? <==> key.None? || forall d :: d in s.decisions ==> d.idempotencyKey != key)
            && (!outcome.Decided? ==>
                  && t.fragments == s.fragments && t.decisions == s.decisions
                  && (outcome.KeyConflict? || (outcome.Replayed? && outcome.record in s.decisions
                                               && outcome.record.fragment == id
                                               && outcome.record.idempotencyKey == key)))
  {
    hide *;
    OpenRow(s, id);
    ReplayIff(s.decisions, s.open[id]);
    FinishMeans(s, id, now, allowed);
  }

  lemma FinishMeans(s: State, id: string, now: int, allowed: bool)
    requires id in s.open && s.open[id].fragment == id && id in s.fragments
    ensures var (t, outcome) := FinishStep(s, id, now, allowed); var replay := FindReplay(s.decisions, s.open[id]);
            && (outcome.Decided? <==> replay.None? || replay.value.Decided?)
            && (replay.Some? ==> outcome == replay.value && t.fragments == s.fragments && t.decisions == s.decisions)
  {
    hide FindReplay, DecidedFragment;
  }

  /** A request is answered from an earlier decision exactly when its key has one. */
  lemma ReplayIff(decisions: seq<Decision>, r: Request)
    ensures var replay := FindReplay(decisions, r);
            && (replay.None? <==>
                  r.idempotencyKey.None? || forall d :: d in decisions ==> d.idempotencyKey != r.idempotencyKey)
            && (replay.Some? ==>
                  || replay.value.KeyConflict?
                  || (replay.value.Replayed? && replay.value.record in decisions
                      && replay.value.record.fragment == r.fragment
                      && replay.value.record.idempotencyKey == r.idempotencyKey))
  {
  }

  /**
    * An approval sets an anchor that was asked for, if the check allows it and the reviewer does not decline; one that
    * the writer had no permission for, only if the reviewer asks for it.
    */
  predicate SetsAnchor(f: Fragment, r: Request, allowed: bool) {
    match r.applyAnchor
    case None => r.approve && f.anchorRequested && allowed && !f.anchorUnauthorized
    case Some(wanted) => r.approve && f.anchorRequested && allowed && wanted
  }

  /** The decision is of the kind the request asks for. */
  predicate Fulfils(kind: Kind, r: Request) {
    match kind
    case Approve => r.approve
    case Reject => !r.approve
    case AutoReject => false
  }

  /**
    * A committed decision is the latest of its fragment and records what the request asked, at the time of the change.
    */
  lemma DecisionIsRecorded(s: State, id: string, now: int, allowed: bool)
    requires Inv(s) && id in s.open
    requires s.open[id].idempotencyKey.Some? ==> FindKey(s.decisions, s.open[id].idempotencyKey.value).None?
    ensures var (t, outcome) := FinishStep(s, id, now, allowed); var r := s.open[id];
            && id !in t.open && t.nextId > s.nextId
            && Latest(t.decisions, id).Some? && outcome == Decided(Latest(t.decisions, id).value)
            && (var d := outcome.record;
                Fulfils(d.kind, r) && d.reviewer == r.reviewer && d.idempotencyKey == r.idempotencyKey
                && d.keyId == s.fragments[id].keyId && d.decidedAt == now)
            && t.fragments[id].state == Some(if r.approve then Approved else Rejected)
            && t.fragments[id].validTo == (if r.approve then None else Some(now))
            && t.fragments[id].isAnchor
               == (s.fragments[id].isAnchor || SetsAnchor(s.fragments[id], r, allowed))
            && forall other :: other in s.fragments && other != id ==>
               other in t.fragments && t.fragments[other] == s.fragments[other]
  {
    hide KeysUnique, IdsUnique, Latest, Agrees;
    LatestAppend(s.decisions, RecordOf(s, s.open[id], now), id);
  }

  /* ---------- Where decisions come from ---------- */

  /** The step that turned `s` into `t` made decision `d`: as it was asked for, of the row as it was, and on the row. */
  ghost predicate Makes(s: State, e: Event, d: Decision, t: State) {
    var id := d.fragment;
    && id in s.fragments && id in t.fragments && IsPending(s, id) && s.fragments[id].validTo.None?
    && d.keyId == s.fragments[id].keyId
    && if e.Finish? then
         && id == e.id && id in s.open && d.decidedAt == e.now
         && (var r := s.open[id];
             && Fulfils(d.kind, r) && d.reviewer == r.reviewer && d.idempotencyKey == r.idempotencyKey
             && (d.idempotencyKey.Some? ==> forall x :: x in s.decisions ==> x.idempotencyKey != d.idempotencyKey)
             && t.fragments[id] ==
                if r.approve then
                  var anchor := s.fragments[id].isAnchor || SetsAnchor(s.fragments[id], r, e.allowed);
                  s.fragments[id].(state := Some(Approved), isAnchor := anchor)
                else s.fragments[id].(state := Some(Rejected), validTo := Some(e.now)))
       else
         && e.Expire? && d.kind == AutoReject && d.reviewer == "system" && d.idempotencyKey.None?
            && d.decidedAt == e.now
         && id !in s.open && s.fragments[id].createdAt < e.now - e.maxAge
         && t.fragments[id] == s.fragments[id].(state := Some(Rejected), validTo := Some(e.now))
  }

  lemma StepMakes(s: State, e: Event, i: nat)
    requires Inv(s) && |s.decisions| <= i < |Step(s, e).decisions|
    ensures Makes(s, e, Step(s, e).decisions[i], Step(s, e))
  {
    match e
    case Finish(id, now, allowed) => FinishMakes(s, id, now, allowed, i);
    case Expire(order, now, maxAge, limit) => ExpireMakes(s, order, now, maxAge, limit, i);
    case _ => hide Makes, Inv;
  }

  lemma FinishMakes(s: State, id: string, now: int, allowed: bool, i: nat)
    requires Inv(s) && |s.decisions| <= i < |Step(s, Finish(id, now, allowed)).decisions|
    ensures Makes(s, Finish(id, now, allowed), Step(s, Finish(id, now, allowed)).decisions[i],
                  Step(s, Finish(id, now, allowed)))
  {
    OpenRow(s, id);
    ReplayIff(s.decisions, s.open[id]);
    hide Inv, FindReplay;
  }

  lemma ExpireMakes(s: State, order: seq<string>, now: int, maxAge: int, limit: nat, i: nat)
    requires |s.decisions| <= i < |ExpireStep(s, order, now, maxAge, limit).decisions|
    ensures var t := ExpireStep(s, order, now, maxAge, limit);
            Makes(s, Expire(order, now, maxAge, limit), t.decisions[i], t)
  {
    var ids := PickStale(s, order, now - maxAge, limit);
    ExpireParts(s, order, now, maxAge, limit);
    hide ExpireStep, PickStale, AnchorApplies;
    var id := ids[i - |s.decisions|];
    assert id in ids && IsStale(s, id, now - maxAge);
    hide AutoRecords;
  }

  /** Event `k` of the run made decision `i` of its end. */
  ghost predicate MadeAt(run: seq<Event>, k: nat, i: nat)
    requires k < |run| && i < |After(run).decisions|
  {
    var s := After(run[..k]);
    |s.decisions| <= i < |Step(s, run[k]).decisions| && Makes(s, run[k], After(run).decisions[i], Step(s, run[k]))
  }

  /**
    * Over any run every recorded decision was made by one event: the commit of a request that was let in, or an
    * automatic rejection. It says who asked for what under which key, of the pending fragment as it was then, and
    * changed its row so; and it stays.
    */
  lemma {:induction false} EveryDecisionWasMade(run: seq<Event>, i: nat) returns (k: nat)
    requires Proper(run) && i < |After(run).decisions|
    ensures k < |run| && MadeAt(run, k, i)
    ensures forall j: nat :: j < |run| && MadeAt(run, j, i) ==> j == k
  {
    hide Step, Proper, Makes, Inv, Known;
    k := FirstMade(run, i);
    forall j: nat | j < |run| && MadeAt(run, j, i)
      ensures j == k
    {
      if j < k {
        DecisionsGrow(run, j, k);
        assert false;
      } else if k < j {
        DecisionsGrow(run, k, j);
        assert false;
      }
    }
  }

  /** What is decided after one event is so before every later one. */
  lemma DecisionsGrow(run: seq<Event>, j: nat, k: nat)
    requires j < k <= |run|
    ensures |Step(After(run[..j]), run[j]).decisions| <= |After(run[..k]).decisions|
  {
    hide Step;
    assert run[..k][..j + 1] == run[..j + 1] && run[..j + 1][..j] == run[..j];
    DecisionsStay(run[..k], j + 1);
  }

  lemma {:induction false} FirstMade(run: seq<Event>, i: nat) returns (k: nat)
    requires Proper(run) && i < |After(run).decisions|
    ensures k < |run| && MadeAt(run, k, i)
  {
    hide Step, Proper, Makes, Inv, Known;
    var n := |run| - 1;
    CreatedPrefix(run);
    InvAlways(run[..n]);
    StepAppends(After(run[..n]), run[n]);
    if i < |After(run[..n]).decisions| {
      k := FirstMade(run[..n], i);
      assert run[..n][..k] == run[..k];
    } else {
      k := n;
      StepMakes(After(run[..n]), run[n], i);
    }
  }
}
