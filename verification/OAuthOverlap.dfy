/** Refreshes of one token that overlap: how a spent token can still yield pairs, and when it no longer can. */
module OAuthOverlap {
  import opened Options
  import opened OAuth
  import opened OAuthLaws

  /** A refresh of `token` has looked it up and waits for the answer about its key. */
  predicate Waiting(s: State, token: string) {
    exists id :: id in s.pending && s.pending[id].token == token
  }

  /** How many pairs the run issued in place of `token`. */
  function PairsFor(g: Config, run: seq<Event>, token: string): nat {
    if run == [] then 0
    else
      var init := run[..|run| - 1];
      PairsFor(g, init, token) + if token in Replaced(g, After(g, init), run[|run| - 1]) then 1 else 0
  }

  /** The run goes on by `more`. */
  ghost predicate GoesOn(run: seq<Event>, more: seq<Event>) {
    Ordered(run + more) && FreshRun(run + more)
  }

  lemma GoesOnLess(run: seq<Event>, more: seq<Event>)
    requires more != [] && GoesOn(run, more)
    ensures GoesOn(run, more[..|more| - 1])
    ensures (run + more)[..|run + more| - 1] == run + more[..|more| - 1]
            && (run + more)[|run + more| - 1] == more[|more| - 1]
  {
    hide Names;
    assert (run + more)[..|run + more| - 1] == run + more[..|more| - 1];
    OrderedPrefix(run + more);
  }

  lemma SpentGrows(g: Config, run: seq<Event>)
    requires run != []
    ensures Spent(g, run[..|run| - 1]) <= Spent(g, run)
  {
    hide After, Replaced;
  }

  /** A pair in place of a token takes a waiting refresh of it, and a spent token gets no new one. */
  lemma SpentStep(g: Config, run: seq<Event>, e: Event, token: string)
    requires Ordered(run + [e]) && FreshRun(run) && token in Spent(g, run)
    ensures token in Replaced(g, After(g, run), e) ==> Waiting(After(g, run), token)
    ensures Waiting(After(g, run + [e]), token) ==> Waiting(After(g, run), token)
  {
    hide Spent, FreshRun, Ordered;
    var s, t := After(g, run), After(g, run + [e]);
    assert (run + [e])[..|run|] == run;
    hide After;
    ReplacedPending(g, s, e);
    if Waiting(t, token) && !Waiting(s, token) {
      var id :| id in t.pending && t.pending[id].token == token;
      hide Step, Replaced;
      StepPending(g, s, e, id);
      if e.token == "" {
        EmptyStarts(g, s, e);
      } else {
        SpentRefused(g, run, e);
      }
      assert false;
    }
  }

  lemma EmptyStarts(g: Config, s: State, e: Event)
    requires e.Start? && e.token == ""
    ensures Step(g, s, e).0 == s
  {
  }

  /** Once a token is spent and no refresh of it waits, no continuation of the run issues another pair for it. */
  lemma {:induction false} NoFurtherPair(g: Config, run: seq<Event>, more: seq<Event>, token: string)
    requires FreshRun(run) && GoesOn(run, more) && token in Spent(g, run) && !Waiting(After(g, run), token)
    ensures PairsFor(g, run + more, token) == PairsFor(g, run, token) && !Waiting(After(g, run + more), token)
    ensures token in Spent(g, run + more) && FreshRun(run + more)
  {
    hide *;
    if more == [] {
      assert run + more == run;
    } else {
      var n := |more| - 1;
      var init := run + more[..n];
      GoesOnLess(run, more);
      NoFurtherPair(g, run, more[..n], token);
      assert init + [more[n]] == run + more;
      GoesOnMeans(run, more);
      SpentStep(g, init, more[n], token);
      SpentGrows(g, run + more);
      PairsStep(g, run + more, token);
    }
  }

  lemma GoesOnMeans(run: seq<Event>, more: seq<Event>)
    ensures GoesOn(run, more) <==> Ordered(run + more) && FreshRun(run + more)
  {
    hide Ordered, FreshRun;
  }

  lemma PairsStep(g: Config, run: seq<Event>, token: string)
    requires run != []
    ensures var n := |run| - 1;
            PairsFor(g, run, token) == PairsFor(g, run[..n], token)
                                       + if token in Replaced(g, After(g, run[..n]), run[n]) then 1 else 0
  {
    hide After, Replaced;
  }

  /* ---------- The waiting refresh ---------- */

  lemma {:induction false} LongerThan(names: set<string>) returns (n: nat)
    ensures forall x :: x in names ==> |x| < n
  {
    n := 0;
    if names != {} {
      var x :| x in names;
      n := LongerThan(names - {x});
      n := if n > |x| then n else |x| + 1;
    }
  }

  /** Two names no run has drawn. */
  lemma NewNames(run: seq<Event>) returns (a: string, b: string)
    ensures a !in Names(run) && b !in Names(run) && a != b
  {
    hide Names;
    var n := LongerThan(Names(run));
    a, b := seq(n, i => 'a'), seq(n + 1, i => 'a');
    assert |a| != |b|;
  }

  /** A waiting refresh of a token can be answered, with one more pair for it. */
  lemma WaitingYields(g: Config, run: seq<Event>, token: string) returns (more: seq<Event>)
    requires Ordered(run) && FreshRun(run) && Waiting(After(g, run), token)
    ensures GoesOn(run, more) && PairsFor(g, run + more, token) == PairsFor(g, run, token) + 1
  {
    hide After, Names, PairsFor, Replaced, FreshRun, GoesOn, Ordered;
    var s := After(g, run);
    var id :| id in s.pending && s.pending[id].token == token;
    var a, b := NewNames(run);
    var now := if run == [] then 0 else run[|run| - 1].now;
    var e := Finish(now, id, false, a, b);
    more := [e];
    assert (run + more)[..|run|] == run && (run + more)[|run|] == e;
    AnswerReplaces(g, s, id, now, a, b);
    FreshFinish(run, id, now, a, b);
    PairsStep(g, run + more, token);
  }

  lemma AnswerReplaces(g: Config, s: State, id: nat, now: int, a: string, b: string)
    requires id in s.pending
    ensures Replaced(g, s, Finish(now, id, false, a, b)) == {s.pending[id].token}
  {
    hide TokenOfRefresh;
  }

  lemma FreshFinish(run: seq<Event>, id: nat, now: int, a: string, b: string)
    requires Ordered(run) && FreshRun(run) && a !in Names(run) && b !in Names(run) && a != b
    requires run != [] ==> now == run[|run| - 1].now
    ensures GoesOn(run, [Finish(now, id, false, a, b)])
  {
    hide Names;
    var e := Finish(now, id, false, a, b);
    assert (run + [e])[..|run|] == run && (run + [e])[|run|] == e;
  }

  /** A spent token yields another pair in some continuation exactly when another refresh of it is still waiting. */
  lemma AnotherPairIff(g: Config, run: seq<Event>, token: string)
    requires Ordered(run) && FreshRun(run) && token in Spent(g, run)
    ensures Waiting(After(g, run), token)
       <==> exists more :: GoesOn(run, more) && PairsFor(g, run + more, token) > PairsFor(g, run, token)
  {
    hide *;
    if Waiting(After(g, run), token) {
      var more := WaitingYields(g, run, token);
    }
    if exists more :: GoesOn(run, more) && PairsFor(g, run + more, token) > PairsFor(g, run, token) {
      var more :| GoesOn(run, more) && PairsFor(g, run + more, token) > PairsFor(g, run, token);
      if !Waiting(After(g, run), token) {
        NoFurtherPair(g, run, more, token);
        assert false;
      }
    }
  }

  /* ---------- Two pairs for one token ---------- */

  lemma AfterOneMore(g: Config, run: seq<Event>, e: Event)
    ensures After(g, run + [e]) == Step(g, After(g, run), e).0
  {
    hide Step;
    assert (run + [e])[..|run|] == run;
  }

  /** Two refreshes that look a token up before either is answered are both answered with a pair. */
  lemma TwoPairs(g: Config, s: State, now: int, token: string, i: nat, j: nat, one: (string, string),
                 two: (string, string))
    requires token != "" && token in s.tokens && s.tokens[token].kind.Refresh? && now <= s.tokens[token].expiresAt
             && i != j
    ensures var s1 := Step(g, s, Start(now, i, token, None, "")).0;
            var s2 := Step(g, s1, Start(now, j, token, None, "")).0;
            var e3 := Finish(now, i, false, one.0, one.1);
            var s3 := Step(g, s2, e3).0;
            var e4 := Finish(now, j, false, two.0, two.1);
            && Step(g, s2, e3).1 == TokensIssued(one.0, one.1, s.tokens[token].scope)
            && Step(g, s3, e4).1 == TokensIssued(two.0, two.1, s.tokens[token].scope)
            && token in Replaced(g, s2, e3) && token in Replaced(g, s3, e4)
  {
    hide TokenOfRefresh;
  }

  lemma FreshMore(run: seq<Event>, e: Event)
    requires FreshRun(run) && Introduced(e) !! Names(run) && (e.Exchange? || e.Finish? ==> e.access != e.refresh)
    ensures FreshRun(run + [e]) && Names(run + [e]) == Names(run) + Introduced(e)
  {
    assert (run + [e])[..|run|] == run;
  }

  lemma PairsMore(g: Config, run: seq<Event>, e: Event, token: string)
    ensures PairsFor(g, run + [e], token)
         == PairsFor(g, run, token) + if token in Replaced(g, After(g, run), e) then 1 else 0
    ensures Spent(g, run + [e]) == Spent(g, run) + Replaced(g, After(g, run), e)
  {
    hide After, Replaced;
    assert (run + [e])[..|run|] == run;
  }

  /** A login up to its tokens, of which "r" is the refresh token. */
  function Login(g: Config): seq<Event> {
    [Authorize(0, AuthRequest("code", "client", "to", g.s256("v"), "S256", "", ""), Client(true, false, None, true),
               "c"),
     Exchange(0, CodeRequest("c", "to", "v", None, ""), "a", "r")]
  }

  const Waits: seq<Event> := [Start(0, 1, "r", None, ""), Start(0, 2, "r", None, "")]

  const Replies: seq<Event> := [Finish(0, 1, false, "a1", "r1"), Finish(0, 2, false, "a2", "r2")]

  lemma LoggedIn(g: Config)
    requires g.s256("v") != "" && g.refreshTtlMs >= 0
    ensures var s := After(g, Login(g));
            "r" in s.tokens && s.tokens["r"].kind.Refresh? && 0 <= s.tokens["r"].expiresAt
    ensures FreshRun(Login(g)) && Names(Login(g)) == {"a", "r"}
    ensures Spent(g, Login(g)) == {} && PairsFor(g, Login(g), "r") == 0
  {
    var one, two := Login(g)[..1], Login(g);
    assert one[..0] == [] && one == [two[0]] && one + [two[1]] == two;
    AfterOneMore(g, [], two[0]);
    AfterOneMore(g, one, two[1]);
    PairsMore(g, [], two[0], "r");
    PairsMore(g, one, two[1], "r");
    FreshMore([], two[0]);
    assert "a"[0] != "r"[0];
    FreshMore(one, two[1]);
    assert [] + [two[0]] == one;
    LoginState(g);
  }

  lemma LoginState(g: Config)
    requires g.s256("v") != "" && g.refreshTtlMs >= 0
    ensures var s := Step(g, Step(g, State(map[], map[], map[]), Login(g)[0]).0, Login(g)[1]).0;
            "r" in s.tokens && s.tokens["r"].kind.Refresh? && 0 <= s.tokens["r"].expiresAt
  {
  }

  /** From a login on: one code, one refresh token, and two pairs in its place, the second after it was spent. */
  lemma SpentTwice(g: Config)
    requires g.s256("v") != "" && g.refreshTtlMs >= 0
    ensures var run := Login(g) + Waits + Replies;
            && FreshRun(run) && Ordered(run) && "r" in Spent(g, run[..5]) && PairsFor(g, run, "r") == 2
  {
    hide Step, Replaced, After, PairsFor, Spent, FreshRun, Names, Login;
    LoggedIn(g);
    var two := Login(g);
    var three, four := two + [Waits[0]], two + [Waits[0]] + [Waits[1]];
    var five := four + [Replies[0]];
    TwoPairs(g, After(g, two), 0, "r", 1, 2, ("a1", "r1"), ("a2", "r2"));
    AfterOneMore(g, two, Waits[0]);
    AfterOneMore(g, three, Waits[1]);
    AfterOneMore(g, four, Replies[0]);
    PairsMore(g, two, Waits[0], "r");
    PairsMore(g, three, Waits[1], "r");
    PairsMore(g, four, Replies[0], "r");
    PairsMore(g, five, Replies[1], "r");
    StartReplacesNothing(g, After(g, two), Waits[0]);
    StartReplacesNothing(g, After(g, three), Waits[1]);
    FreshAnswers(two);
    AllAtZero(g);
    assert five + [Replies[1]] == two + Waits + Replies;
    assert (two + Waits + Replies)[..5] == five;
  }

  lemma StartReplacesNothing(g: Config, s: State, e: Event)
    requires e.Start?
    ensures Replaced(g, s, e) == {}
  {
  }

  lemma AllAtZero(g: Config)
    ensures |Login(g)| == 2 && Ordered(Login(g) + Waits + Replies)
  {
  }

  lemma FreshAnswers(two: seq<Event>)
    requires FreshRun(two) && Names(two) == {"a", "r"}
    ensures FreshRun(two + [Waits[0]] + [Waits[1]] + [Replies[0]] + [Replies[1]])
  {
    hide FreshRun, Names;
    assert |"a1"| == |"a2"| == |"r1"| == |"r2"| == 2 && |"a"| == |"r"| == 1;
    assert "a1"[0] != "r1"[0] && "a2"[0] != "r2"[0] && "a1"[1] != "a2"[1] && "r1"[1] != "r2"[1];
    assert "a1"[0] != "r2"[0] && "a2"[0] != "r1"[0];
    FreshMore(two, Waits[0]);
    FreshMore(two + [Waits[0]], Waits[1]);
    FreshMore(two + [Waits[0]] + [Waits[1]], Replies[0]);
    FreshMore(two + [Waits[0]] + [Waits[1]] + [Replies[0]], Replies[1]);
  }
}
