/** The reliable queue of `lib/redis.js`: Redis lists, pushed at the head and popped from the tail. */
module RedisQueue {
  import opened Options

  /** How a command fared: answered, lost on the way there, or carried out with its answer lost. */
  datatype Wire = Answered | RequestLost | ReplyLost

  /** The waiting items, those handed to a worker, and those given up on. */
  datatype Lists<T> = Lists(main: seq<T>, processing: seq<T>, dead: seq<T>)

  function PushHead<T>(l: Lists<T>, v: T): Lists<T> {
    l.(main := [v] + l.main)
  }

  function PushTail<T>(l: Lists<T>, v: T): Lists<T> {
    l.(main := l.main + [v])
  }

  function Bury<T>(l: Lists<T>, v: T): Lists<T> {
    l.(dead := [v] + l.dead)
  }

  /** RPOPLPUSH from the waiting list to the processing list. */
  function Take<T>(l: Lists<T>): Lists<T> {
    if l.main == [] then l
    else var n := |l.main| - 1; l.(main := l.main[..n], processing := [l.main[n]] + l.processing)
  }

  /** RPOPLPUSH from the processing list back to the waiting list. */
  function GiveBack<T>(l: Lists<T>): Lists<T> {
    if l.processing == [] then l
    else var n := |l.processing| - 1; l.(processing := l.processing[..n], main := [l.processing[n]] + l.main)
  }

  /** LREM with count 1: the first match counted from the head. */
  function RemoveFirst<T(==)>(s: seq<T>, v: T): (r: seq<T>)
    ensures v !in s ==> r == s
    ensures v in s ==> multiset(s) == multiset(r) + multiset{v}
  {
    if s == [] then []
    else
      assert s == [s[0]] + s[1..];
      if s[0] == v then s[1..] else [s[0]] + RemoveFirst(s[1..], v)
  }

  function Acknowledge<T(==)>(l: Lists<T>, v: T): Lists<T> {
    l.(processing := RemoveFirst(l.processing, v))
  }

  /** `k` moves back, done at once. */
  function GiveBackMany<T>(l: Lists<T>, k: nat): Lists<T>
    requires k <= |l.processing|
  {
    var n := |l.processing| - k;
    l.(processing := l.processing[..n], main := l.processing[n..] + l.main)
  }

  /** The recovery loop makes its moves one after the other. */
  lemma GiveBackOneMore<T>(l: Lists<T>, k: nat)
    requires k < |l.processing|
    ensures GiveBack(GiveBackMany(l, k)) == GiveBackMany(l, k + 1)
  {
    var n := |l.processing| - k;
    assert [l.processing[n - 1]] + (l.processing[n..] + l.main) == l.processing[n - 1..] + l.main;
    assert l.processing[..n][..n - 1] == l.processing[..n - 1];
  }

  lemma GiveBackEnds<T>(l: Lists<T>)
    ensures GiveBackMany(l, 0) == l
    ensures GiveBackMany(l, |l.processing|) == Lists(l.processing + l.main, [], l.dead)
  {
    assert l.processing[|l.processing|..] + l.main == l.main;
    assert l.processing[0..] == l.processing;
  }

  class Queue<T(==)> {
    var main: seq<T>
    var processing: seq<T>
    var dead: seq<T>

    constructor ()
      ensures State() == Lists([], [], [])
    {
      main, processing, dead := [], [], [];
    }

    function State(): Lists<T>
      reads this
    {
      Lists(main, processing, dead)
    }

    /** `pushToQueue`. */
    method Push(v: T, wire: Wire) returns (ok: bool)
      modifies this
      ensures ok == wire.Answered?
      ensures State() == if wire.RequestLost? then old(State()) else PushHead(old(State()), v)
    {
      if !wire.RequestLost? {
        main := [v] + main;
      }
      return wire.Answered?;
    }

    /** `pushToQueuePriority`. */
    method PushPriority(v: T, wire: Wire) returns (ok: bool)
      modifies this
      ensures ok == wire.Answered?
      ensures State() == if wire.RequestLost? then old(State()) else PushTail(old(State()), v)
    {
      if !wire.RequestLost? {
        main := main + [v];
      }
      return wire.Answered?;
    }

    /** `pushToQueueDead`. */
    method PushDead(v: T, wire: Wire) returns (ok: bool)
      modifies this
      ensures ok == wire.Answered?
      ensures State() == if wire.RequestLost? then old(State()) else Bury(old(State()), v)
    {
      if !wire.RequestLost? {
        dead := [v] + dead;
      }
      return wire.Answered?;
    }

    /** `popFromQueueReliable`: an item that does not parse is reported as nothing, yet stays in processing. */
    method PopReliable<D>(parse: T -> Option<D>, wire: Wire) returns (r: Option<(D, T)>)
      modifies this
      ensures State() == if wire.RequestLost? then old(State()) else Take(old(State()))
      ensures r.Some? <==> wire.Answered? && old(main) != [] && parse(old(main)[|old(main)| - 1]).Some?
      ensures r.Some? ==> r.value.1 == processing[0] && parse(processing[0]) == Some(r.value.0)
    {
      var raw: Option<T> := None;
      if !wire.RequestLost? && |main| > 0 {
        raw := Some(main[|main| - 1]);
        main, processing := main[..|main| - 1], [main[|main| - 1]] + processing;
      }
      if !wire.Answered? || raw.None? {
        return None;
      }
      var data := parse(raw.value);
      return if data.Some? then Some((data.value, raw.value)) else None;
    }

    /** `ackQueueItem`. */
    method Ack(raw: T, wire: Wire) returns (ok: bool)
      modifies this
      ensures ok == (wire.Answered? && raw in old(processing))
      ensures State() == if wire.RequestLost? then old(State()) else Acknowledge(old(State()), raw)
    {
      ok := wire.Answered? && raw in processing;
      if !wire.RequestLost? {
        processing := RemoveFirst(processing, raw);
      }
    }

    /**
      * `requeueProcessing`; command number `failAt` is the one that fails, if it is reached at all.
      * Undisturbed, it puts the whole processing list before the waiting one and returns its length.
      */
    method RequeueProcessing(failAt: Option<nat>, wire: Wire) returns (moved: nat)
      requires !wire.Answered?
      modifies this
      ensures var n := |old(processing)|;
              if failAt.None? || failAt.value > n
              then moved == n && State() == Lists(old(processing) + old(main), [], old(dead))
              else moved == 0 &&
                   State() == GiveBackMany(old(State()),
                                           failAt.value + if wire.ReplyLost? && failAt.value < n then 1 else 0)
    {
      hide GiveBackMany;
      moved := 0;
      ghost var start := State();
      GiveBackEnds(start);
      while true
        invariant moved <= |start.processing| && |processing| == |start.processing| - moved
        invariant State() == GiveBackMany(start, moved)
        invariant failAt.Some? ==> moved <= failAt.value
        decreases |processing|
      {
        var effect := !(failAt == Some(moved) && wire.RequestLost?);
        var v: Option<T> := None;
        if effect && |processing| > 0 {
          v := Some(processing[|processing| - 1]);
          GiveBackOneMore(start, moved);
          main, processing := [processing[|processing| - 1]] + main, processing[..|processing| - 1];
        }
        if failAt == Some(moved) {
          return 0;
        }
        if v.None? {
          break;
        }
        moved := moved + 1;
      }
    }
  }
}
