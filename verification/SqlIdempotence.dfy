/** Stripping twice is stripping once, for every input. */
module SqlIdempotence {
  import opened Options
  import opened SqlLexemes
  import opened SqlStripper
  import opened SqlPieces

  /* ---------- What the stripper does with each kind of text it has emitted ---------- */

  lemma StripStep(s: string, out: string)
    requires s != ""
    ensures Strip(s, out) == Emitted(s, out) + Strip(s[Lex(s).End()..], out + Emitted(s, out))
  {
  }

  /** What is emitted unchanged for the first `n` characters stays in front of what is emitted for the rest. */
  lemma HeadStays(e: string, r: string, out: string)
    requires e != "" && Lex(e + r).End() == |e| && Emitted(e + r, out) == e
    ensures Strip(e + r, out) == e + Strip(r, out + e)
  {
    StripStep(e + r, out);
    assert (e + r)[|e|..] == r;
  }

  lemma CodeStays(c: string, r: string, out: string)
    requires |c| == 1 && Lex(c + r) == Code
    ensures Strip(c + r, out) == c + Strip(r, out + c)
  {
    assert (c + r)[..1] == c;
    HeadStays(c, r, out);
  }

  lemma BlankIsCode(c: string, r: string)
    requires |c| == 1 && (c[0] == ' ' || c[0] == '\n')
    ensures Lex(c + r) == Code
  {
    assert (c + r)[0] == c[0];
  }

  lemma {:induction false} BlanksStay(e: string, r: string, out: string)
    requires forall i :: 0 <= i < |e| ==> e[i] == ' ' || e[i] == '\n'
    ensures Strip(e + r, out) == e + Strip(r, out + e)
    decreases |e|
  {
    hide *;
    if e == "" {
      assert e + r == r && out + e == out;
    } else {
      var head, tail := e[..1], e[1..];
      BlankIsCode(head, tail + r);
      CodeStays(head, tail + r, out);
      BlanksStay(tail, r, out + head);
      assert e + r == head + (tail + r) && e == head + tail && (out + head) + tail == out + e;
    }
  }

  lemma LiteralStays(b: string, r: string, out: string)
    requires QuoteRest((b + "'") + r) == |b| + 1
    requires AfterExecute(out) || b == Blank(b)
    ensures var e := "'" + b + "'"; Strip(e + r, out) == e + Strip(r, out + e)
  {
    hide Strip;
    var e := "'" + b + "'";
    var s := e + r;
    assert s[1..] == (b + "'") + r;
    assert Lex(s) == Quoted(|e|);
    assert s[..|e|] == e && e[1..|e| - 1] == b;
    HeadStays(e, r, out);
  }

  lemma LexLevel(tag: string, x: string, closed: bool, r: string)
    requires IsTag(tag)
    requires if closed then forall k: nat :: k < |x| ==> !OccursAt(tag, x + (tag + r), k)
             else r == "" && forall k: nat :: !OccursAt(tag, x, k)
    ensures var n := |tag|;
            Lex(tag + (x + (CloseTag(tag, closed) + r))) == Dollar(n, n + |x|, n + |x| + |CloseTag(tag, closed)|)
  {
    hide Strip;
    var n, t := |tag|, x + (CloseTag(tag, closed) + r);
    var s := tag + t;
    assert s[..n] == tag && s[n..] == t;
    TagFound(tag, s);
    assert s[0] == '$';
    if closed {
      OccursShift(tag, x, tag + r, 0);
      assert OccursAt(tag, tag + r, 0);
      assert OccursAt(tag, t, |x|);
      assert IndexOf(tag, t) == Some(|x|);
    } else {
      assert t == x;
    }
  }

  lemma LevelStays(tag: string, x: string, closed: bool, r: string, out: string)
    requires IsTag(tag) && Strip(x, "") == x
    requires if closed then forall k: nat :: k < |x| ==> !OccursAt(tag, x + (tag + r), k)
             else r == "" && forall k: nat :: !OccursAt(tag, x, k)
    ensures var e := tag + (x + CloseTag(tag, closed)); Strip(e + r, out) == e + Strip(r, out + e)
  {
    hide Strip, Emitted, Lex;
    var close := CloseTag(tag, closed);
    var e := tag + (x + close);
    var s, n := e + r, |tag|;
    assert s == tag + (x + (close + r));
    LexLevel(tag, x, closed, r);
    EmittedDollar(s, out);
    assert s[..n] == tag && s[n..n + |x|] == x;
    assert Emitted(s, out) == e;
    HeadStays(e, r, out);
  }

  /* ---------- What the source lexeme says about the emitted one ---------- */

  lemma StripShows(s: string, out: string, t': string, t: string)
    requires Shows(t', t)
    ensures Shows(Strip(s, out) + t', s + t)
  {
    CutMeaning(s, out);
    OutputShows(Cut(s, out), t', t);
  }

  lemma StripOccurrence(s: string, out: string, t': string, t: string, w: string, k: nat)
    requires Shows(t', t) && SolidText(w) && w != ""
    requires k < |Strip(s, out)| && OccursAt(w, Strip(s, out) + t', k)
    ensures exists m: nat :: m < |s| && OccursAt(w, s + t, m)
  {
    CutMeaning(s, out);
    OutputOccurrence(Cut(s, out), t', t, w, k);
  }

  /** Stripped text opens with a quote only if the source does. */
  lemma FirstNotQuote(s: string, out: string)
    requires s != "" ==> s[0] != '\''
    ensures Strip(s, out) != "" ==> Strip(s, out)[0] != '\''
  {
    if s != "" {
      assert Strip(s, out)[0] == Emitted(s, out)[0];
    }
  }

  lemma DoubledBlank(b: string)
    ensures Doubled(Blank(b))
    decreases |b|
  {
    if b != "" {
      DoubledBlank(b[1..]);
      assert Blank(b)[1..] == Blank(b[1..]);
    }
  }

  lemma DoubledThenQuote(b: string, r: string)
    requires Doubled(b) && (r != "" ==> r[0] != '\'')
    ensures QuoteRest((b + "'") + r) == |b| + 1
  {
    var s := (b + "'") + r;
    assert s[..|b|] == b;
    QuoteClosesMeaning(s, |b| + 1);
  }

  /** An unclosed literal whose last character gave way to a quote still runs to its end. */
  lemma {:induction false} DropLastRest(u: string)
    requires Doubled(u) && u != ""
    ensures QuoteRest(u[..|u| - 1] + "'") == |u|
    decreases |u|
  {
    var v := u[..|u| - 1] + "'";
    if PairAt(u, 0, '\'', '\'') {
      if |u| > 2 {
        DropLastRest(u[2..]);
        assert v[2..] == u[2..][..|u| - 3] + "'";
      } else {
        assert v[2..] == "";
      }
    } else if |u| > 1 {
      DropLastRest(u[1..]);
      assert v[1..] == u[1..][..|u| - 2] + "'";
    } else {
      assert v == "'";
    }
  }

  lemma QuotedEmitted(s: string, out: string)
    requires s != "" && Lex(s).Quoted?
    ensures var n := Lex(s).end;
            s[0] == '\'' && n == 1 + QuoteRest(s[1..]) && Emitted(s, out) == QuotedText(s[..n], AfterExecute(out))
  {
  }

  /** The literal at the start of `s`, as emitted, is again the literal a second pass finds. */
  lemma LiteralFoundAgain(s: string, out: string)
    requires s != "" && Lex(s).Quoted?
    ensures var n := Lex(s).end; var e := Emitted(s, out); var r := Strip(s[n..], out + e);
            && |e| >= 2 && e[0] == '\'' && e == "'" + e[1..|e| - 1] + "'"
            && QuoteRest((e[1..|e| - 1] + "'") + r) == |e| - 1
            && (AfterExecute(out) || e[1..|e| - 1] == Blank(e[1..|e| - 1]))
  {
    hide Strip, Lex, Emitted, QuoteRest, QuoteCloses;
    QuotedEmitted(s, out);
    var n, e, executed := Lex(s).end, Emitted(s, out), AfterExecute(out);
    var u := s[1..];
    var body := if n < 2 then "" else s[..n][1..n - 1];
    var b := if executed then body else Blank(body);
    assert e == "'" + b + "'" && e[1..|e| - 1] == b;
    if QuoteCloses(u) {
      QuoteClosesMeaning(u, n - 1);
      assert s[n..] != "" ==> s[n..][0] == u[n - 1];
      FirstNotQuote(s[n..], out + e);
      assert body == u[..n - 2];
      ClosedLiteral(body, executed, Strip(s[n..], out + e));
    } else {
      assert s[n..] == "";
      StripEmpty(out + e);
      UnclosedLiteral(u, body, executed);
      assert (b + "'") + "" == b + "'";
    }
  }

  lemma ClosedLiteral(body: string, executed: bool, r: string)
    requires Doubled(body) && (r != "" ==> r[0] != '\'')
    ensures var b := if executed then body else Blank(body); QuoteRest((b + "'") + r) == |b| + 1
  {
    DoubledBlank(body);
    DoubledThenQuote(if executed then body else Blank(body), r);
  }

  lemma StripEmpty(out: string)
    ensures Strip("", out) == ""
  {
  }

  /** The body of an unclosed literal, its last character cut off, runs up to the quote appended to it. */
  lemma UnclosedLiteral(u: string, body: string, executed: bool)
    requires !QuoteCloses(u) && body == if u == "" then "" else u[..|u| - 1]
    ensures var b := if executed then body else Blank(body); QuoteRest(b + "'") == |b| + 1
  {
    if executed {
      UnclosedIsDoubled(u);
      if u != "" {
        DropLastRest(u);
      }
    } else {
      DoubledBlank(body);
      DoubledThenQuote(Blank(body), "");
      assert (Blank(body) + "'") + "" == Blank(body) + "'";
    }
  }

  lemma LevelFoundAgain(s: string, out: string)
    requires s != "" && Lex(s).Dollar?
    ensures var Dollar(open, close, end) := Lex(s); var tag := s[..open];
            var x := Strip(s[open..close], ""); var r := Strip(s[end..], out + Emitted(s, out));
            && IsTag(tag)
            && (if close < end then forall k: nat :: k < |x| ==> !OccursAt(tag, x + (tag + r), k)
                else r == "" && forall k: nat :: !OccursAt(tag, x, k))
  {
    hide Strip, Emitted, Lex;
    var Dollar(open, close, end) := Lex(s);
    FirstClose(s);
    if close < end {
      ClosedAgain(s[..open], s[open..close], s[end..], out + Emitted(s, out));
    } else {
      StripEmpty(out + Emitted(s, out));
      UnclosedAgain(s[..open], s[open..close]);
    }
  }

  /** The body of a dollar quote holds no occurrence of its tag that begins before its end. */
  lemma FirstClose(s: string)
    requires s != "" && Lex(s).Dollar?
    ensures var Dollar(open, close, end) := Lex(s); var tag, inner, rest := s[..open], s[open..close], s[end..];
            && IsTag(tag)
            && (if close < end then forall k: nat :: k < |inner| ==> !OccursAt(tag, inner + (tag + rest), k)
                else rest == "" && forall k: nat :: !OccursAt(tag, inner, k))
  {
    hide Lex;
    LexDollar(s);
    var Dollar(open, close, end) := Lex(s);
    TailParts(s, open, close, end);
  }

  lemma TailParts(s: string, i: nat, j: nat, k: nat)
    requires i <= j <= k <= |s|
    ensures s[i..] == s[i..j] + (s[j..k] + s[k..])
    ensures j == |s| ==> s[i..] == s[i..j] && s[k..] == ""
  {
  }

  lemma ClosedAgain(tag: string, inner: string, rest: string, out: string)
    requires IsTag(tag) && forall k: nat :: k < |inner| ==> !OccursAt(tag, inner + (tag + rest), k)
    ensures var x := Strip(inner, "");
            forall k: nat :: k < |x| ==> !OccursAt(tag, x + (tag + Strip(rest, out)), k)
  {
    hide Strip;
    var x, r := Strip(inner, ""), Strip(rest, out);
    ShowsNothing(rest, out);
    ShowsCopied(tag, r, rest);
    forall k: nat | k < |x|
      ensures !OccursAt(tag, x + (tag + r), k)
    {
      if OccursAt(tag, x + (tag + r), k) {
        StripOccurrence(inner, "", tag + r, tag + rest, tag, k);
        assert false;
      }
    }
  }

  lemma UnclosedAgain(tag: string, inner: string)
    requires IsTag(tag) && forall k: nat :: !OccursAt(tag, inner, k)
    ensures forall k: nat :: !OccursAt(tag, Strip(inner, ""), k)
  {
    hide Strip;
    var x := Strip(inner, "");
    assert x + "" == x && inner + "" == inner;
    forall k: nat
      ensures !OccursAt(tag, x, k)
    {
      if OccursAt(tag, x, k) {
        StripOccurrence(inner, "", "", "", tag, k);
        assert false;
      }
    }
  }

  lemma ShowsNothing(s: string, out: string)
    ensures Shows(Strip(s, out), s)
  {
    StripShows(s, out, "", "");
    assert Strip(s, out) + "" == Strip(s, out) && s + "" == s;
  }

  lemma FirstSolid(s: string, out: string)
    requires Strip(s, out) != "" && Solid(Strip(s, out)[0])
    ensures s != "" && s[0] == Strip(s, out)[0]
  {
    hide Strip;
    var r := Strip(s, out);
    ShowsNothing(s, out);
    assert r[..1] <= r && SolidText(r[..1]);
    assert r[..1][0] == r[0];
  }

  lemma TagInSource(c: string, s: string, out: string)
    requires TagLength(c + Strip(s, out)) > 0
    ensures TagLength(c + s) > 0
  {
    hide Strip;
    var r := Strip(s, out);
    var n := TagLength(c + r);
    ShowsNothing(s, out);
    ShowsCopied(c, r, s);
    assert SolidText((c + r)[..n]) && (c + r)[..n] <= c + r;
    TagFound((c + r)[..n], c + s);
  }

  /** One character of code is code again in the output. */
  lemma CodeFoundAgain(s: string, out: string)
    requires s != "" && Lex(s).Code?
    ensures Lex(s[..1] + Strip(s[1..], out)) == Code
  {
    hide Strip;
    var c, r := s[..1], Strip(s[1..], out);
    assert c + s[1..] == s && (c + r)[0] == s[0] && (r != "" ==> (c + r)[1] == r[0]);
    if r != "" && Solid(r[0]) {
      FirstSolid(s[1..], out);
      assert s[1] == r[0];
    }
    assert !PairAt(c + r, 0, '-', '-') && !PairAt(c + r, 0, '/', '*');
    if TagLength(c + r) > 0 {
      TagInSource(c, s[1..], out);
      assert false;
    }
  }

  lemma CommentEmitted(s: string, out: string)
    requires s != "" && Lex(s).Comment?
    ensures forall i :: 0 <= i < |Emitted(s, out)| ==> Emitted(s, out)[i] == ' ' || Emitted(s, out)[i] == '\n'
  {
  }

  lemma CodeEmitted(s: string, out: string)
    requires s != "" && Lex(s).Code?
    ensures Emitted(s, out) == s[..1]
  {
  }

  /** Stripping is idempotent, at every level and whatever was emitted before. */
  lemma {:induction false} StripTwice(s: string, out: string)
    ensures Strip(Strip(s, out), out) == Strip(s, out)
    decreases |s|
  {
    hide Strip, Emitted, Lex;
    if s == "" {
      StripEmpty(out);
    } else {
      var l, e := Lex(s), Emitted(s, out);
      var r := Strip(s[l.End()..], out + e);
      StripTwice(s[l.End()..], out + e);
      StripStep(s, out);
      match l
      case Comment(_) =>
        CommentEmitted(s, out);
        BlanksStay(e, r, out);
      case Quoted(_) =>
        LiteralFoundAgain(s, out);
        LiteralStays(e[1..|e| - 1], r, out);
      case Dollar(open, close, end) =>
        StripTwice(s[open..close], "");
        LevelFoundAgain(s, out);
        EmittedDollar(s, out);
        LevelStays(s[..open], Strip(s[open..close], ""), close < end, r, out);
        assert e == s[..open] + (Strip(s[open..close], "") + CloseTag(s[..open], close < end));
      case Code =>
        CodeEmitted(s, out);
        CodeFoundAgain(s, out + e);
        CodeStays(s[..1], r, out);
    }
  }

  /** `stripSqlComments(stripSqlComments(sql)) == stripSqlComments(sql)`. */
  lemma Idempotent(sql: string)
    ensures Strip(Strip(sql, ""), "") == Strip(sql, "")
  {
    StripTwice(sql, "");
  }
}
