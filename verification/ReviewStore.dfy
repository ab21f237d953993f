/**
  * Review decisions of `lib/admin/ReviewStore.js`: transactions that hold a fragment's row lock between check and
  * write.
  */
module ReviewStore {
  import opened Options

  datatype ReviewState = Pending | Approved | Rejected

  /** A row of `fragments`; the two marks are those its review reason may carry. */
  datatype Fragment = Fragment(
    keyId: Option<string>,
    state: Option<ReviewState>,
    anchorRequested: bool,
    anchorUnauthorized: bool,
    isAnchor: bool,
    validTo: Option<int>,
    createdAt: int)

  datatype Kind = Approve | Reject | AutoReject

  /** A row of `memory_review_decisions`. */
  datatype Decision = Decision(
    id: nat,
    fragment: string,
    kind: Kind,
    reviewer: string,
    idempotencyKey: Option<string>,
    keyId: Option<string>,
    decidedAt: int)

  datatype Request = Request(fragment: string, approve: bool, reviewer: string, idempotencyKey: Option<string>,
                             applyAnchor: Option<bool>)

  datatype Outcome =
    | Opened
    | Waiting
    | Decided(record: Decision)
    | Replayed(record: Decision)
    | KeyConflict
    | NotFound
    | WrongState(state: Option<ReviewState>)

  /** The tables, and the transactions that hold a fragment's row lock and are about to write. */
  datatype State = State(fragments: map<string, Fragment>, decisions: seq<Decision>, open: map<string, Request>,
                         nextId: nat)

  function KindOf(r: Request): Kind {
    if r.approve then Approve else Reject
  }

  function FindKey(decisions: seq<Decision>, key: string): (d: Option<Decision>)
    ensures d.None? <==> forall i :: 0 <= i < |decisions| ==> decisions[i].idempotencyKey != Some(key)
    ensures d.Some? ==> d.value in decisions && d.value.idempotencyKey == Some(key)
  {
    if decisions == [] then None
    else if decisions[0].idempotencyKey == Some(key) then Some(decisions[0])
    else FindKey(decisions[1..], key)
  }

  /** `findReplay`: an earlier decision under the request's key, or a conflict with it. */
  function FindReplay(decisions: seq<Decision>, r: Request): Option<Outcome> {
    if r.idempotencyKey.None? || FindKey(decisions, r.idempotencyKey.value).None? then None
    else
      var d := FindKey(decisions, r.idempotencyKey.value).value;
      if d.fragment != r.fragment || d.kind != KindOf(r) then Some(KeyConflict) else Some(Replayed(d))
  }

  /** `resolveHeldAnchor`, with the verdict of the decision-time check. */
  predicate AnchorApplies(f: Fragment, applyAnchor: Option<bool>, allowed: bool) {
    f.anchorRequested && applyAnchor != Some(false) && (f.anchorUnauthorized ==> applyAnchor == Some(true)) && allowed
  }

  predicate IsOpenForReview(f: Fragment) {
    f.state == Some(Pending) && f.validTo.None?
  }

  /** The first half of `applyDecision`: lock the row, look for a replay, check the state. */
  function BeginStep(s: State, r: Request): (State, Outcome) {
    var replay := FindReplay(s.decisions, r);
    if r.fragment in s.open then (s, Waiting)
    else if replay.Some? then (s, replay.value)
    else if r.fragment !in s.fragments then (s, NotFound)
    else if !IsOpenForReview(s.fragments[r.fragment]) then (s, WrongState(s.fragments[r.fragment].state))
    else (s.(open := s.open[r.fragment := r]), Opened)
  }

  function RecordOf(s: State, r: Request, now: int): Decision
    requires r.fragment in s.fragments
  {
    Decision(s.nextId, r.fragment, KindOf(r), r.reviewer, r.idempotencyKey, s.fragments[r.fragment].keyId, now)
  }

  function DecidedFragment(f: Fragment, r: Request, now: int, allowed: bool): Fragment {
    if r.approve then f.(state := Some(Approved), isAnchor := f.isAnchor || AnchorApplies(f, r.applyAnchor, allowed))
    else f.(state := Some(Rejected), validTo := Some(now))
  }

  /** The second half: write and commit, or, beaten to the idempotency key, roll back and look for a replay again. */
  function FinishStep(s: State, id: string, now: int, allowed: bool): (State, Outcome)
    requires id in s.open && s.open[id].fragment == id && id in s.fragments
  {
    var r := s.open[id];
    var closed := s.(open := s.open - {id}, nextId := s.nextId + 1);
    var replay := FindReplay(s.decisions, r);
    if replay.Some? then (closed, replay.value)
    else
      var record := RecordOf(s, r, now);
      (closed.(fragments := s.fragments[id := DecidedFragment(s.fragments[id], r, now, allowed)],
               decisions := s.decisions + [record]),
       Decided(record))
  }

  predicate IsStale(s: State, id: string, cutoff: int) {
    id in s.fragments && id !in s.open && IsOpenForReview(s.fragments[id]) && s.fragments[id].createdAt < cutoff
  }

  /** The first `limit` stale fragments in the given order of identifiers; locked rows are skipped. */
  function PickStale(s: State, order: seq<string>, cutoff: int, limit: nat): (ids: seq<string>)
    ensures |ids| <= limit && forall id :: id in ids ==> id in order && IsStale(s, id, cutoff)
  {
    if order == [] || limit == 0 then []
    else if IsStale(s, order[0], cutoff) then [order[0]] + PickStale(s, order[1..], cutoff, limit - 1)
    else PickStale(s, order[1..], cutoff, limit)
  }

  function AutoRecords(s: State, ids: seq<string>, now: int): (records: seq<Decision>)
    requires forall id :: id in ids ==> id in s.fragments
    ensures |records| == |ids|
    ensures forall i :: 0 <= i < |ids| ==>
              records[i] == Decision(s.nextId + i, ids[i], AutoReject, "system", None, s.fragments[ids[i]].keyId, now)
  {
    seq(|ids|, i requires 0 <= i < |ids| => Decision(s.nextId + i, ids[i], AutoReject, "system", None,
                                                     s.fragments[ids[i]].keyId, now))
  }

  /** The rows of `ids` rejected at `now`, the others as they are. */
  function RejectRows(fragments: map<string, Fragment>, ids: seq<string>, now: int): map<string, Fragment> {
    map id | id in fragments ::
      if id in ids then fragments[id].(state := Some(Rejected), validTo := Some(now)) else fragments[id]
  }

  /** `expireStaleReviews`, one transaction. */
  function ExpireStep(s: State, order: seq<string>, now: int, maxAge: int, limit: nat): State {
    var ids := PickStale(s, order, now - maxAge, limit);
    s.(fragments := RejectRows(s.fragments, ids, now),
       decisions := s.decisions + AutoRecords(s, ids, now),
       nextId := s.nextId + |ids|)
  }

  class ReviewStore {
    var fragments: map<string, Fragment>
    var decisions: seq<Decision>
    var open: map<string, Request>
    var nextId: nat

    function Tables(): State
      reads this
    {
      State(fragments, decisions, open, nextId)
    }

    /** A transaction of `applyDecision` up to its writes. */
    method Begin(r: Request) returns (outcome: Outcome)
      modifies this
      ensures (Tables(), outcome) == BeginStep(old(Tables()), r)
    {
      if r.fragment in open {
        return Waiting;
      }
      var replay := FindReplay(decisions, r);
      if replay.Some? {
        return replay.value;
      }
      if r.fragment !in fragments {
        return NotFound;
      }
      var current := fragments[r.fragment];
      if current.state != Some(Pending) || current.validTo.Some? {
        return WrongState(current.state);
      }
      open := open[r.fragment := r];
      return Opened;
    }

    /** Its writes and its end; `now` is the transaction's time, `allowed` the verdict on a held anchor. */
    method Finish(id: string, now: int, allowed: bool) returns (outcome: Outcome)
      requires id in open && open[id].fragment == id && id in fragments
      modifies this
      ensures (Tables(), outcome) == FinishStep(old(Tables()), id, now, allowed)
    {
      var r, current := open[id], fragments[id];
      var kind := if r.approve then Approve else Reject;
      var record := Decision(nextId, id, kind, r.reviewer, r.idempotencyKey, current.keyId, now);
      nextId := nextId + 1;
      open := open - {id};
      if r.idempotencyKey.Some? && FindKey(decisions, r.idempotencyKey.value).Some? {
        return FindReplay(decisions, r).value;
      }
      if r.approve {
        var anchor := AnchorApplies(current, r.applyAnchor, allowed);
        fragments := fragments[id := current.(state := Some(Approved), isAnchor := current.isAnchor || anchor)];
      } else {
        fragments := fragments[id := current.(state := Some(Rejected), validTo := Some(now))];
      }
      decisions := decisions + [record];
      return Decided(record);
    }

    /** The automatic rejection of what nobody decided in time. */
    method ExpireStale(order: seq<string>, now: int, maxAge: int, limit: nat) returns (ids: seq<string>)
      modifies this
      ensures ids == PickStale(old(Tables()), order, now - maxAge, limit)
      ensures Tables() == ExpireStep(old(Tables()), order, now, maxAge, limit)
    {
      ids := PickStale(Tables(), order, now - maxAge, limit);
      var records := AutoRecords(Tables(), ids, now);
      fragments := RejectRows(fragments, ids, now);
      decisions := decisions + records;
      nextId := nextId + |ids|;
    }
  }
}
