/**
 * Which inputs keep their character positions and line numbers under stripping, and what stripped
 * text looks like.
 */
module SqlPositions {
  import opened Options
  import opened SqlLexemes
  import opened SqlStripper
  import opened SqlPieces
  import opened SqlIdempotence

  /** Same length, and position by position related by `same`. */
  ghost predicate Kept(t: string, e: string, same: (char, char) -> bool) {
    |e| == |t| && forall i :: 0 <= i < |t| ==> same(t[i], e[i])
  }

  /**
   * Every literal that its level does not close has a character after its quote, and `ok` holds of the
   * last one. Levels are the whole text and the bodies of its dollar quotes.
   */
  ghost predicate OpenLiteralsEnd(s: string, ok: char -> bool)
    decreases |s|
  {
    s != "" ==>
      var l := Lex(s);
      && (l.Quoted? && !QuoteCloses(s[1..]) ==> |s| >= 2 && ok(s[|s| - 1]))
      && (l.Dollar? ==> OpenLiteralsEnd(s[l.open..l.close], ok))
      && OpenLiteralsEnd(s[l.End()..], ok)
  }

  lemma KeptConcat(t1: string, t2: string, e1: string, e2: string, same: (char, char) -> bool)
    requires |e1| >= |t1| && |e2| >= |t2|
    ensures Kept(t1 + t2, e1 + e2, same) <==> Kept(t1, e1, same) && Kept(t2, e2, same)
  {
    var t, e := t1 + t2, e1 + e2;
    if Kept(t, e, same) {
      assert forall i :: 0 <= i < |t1| ==> t[i] == t1[i] && e[i] == e1[i];
      assert forall i :: 0 <= i < |t2| ==> t[|t1| + i] == t2[i] && e[|t1| + i] == e2[i];
    }
  }

  /** Stripping never shortens a text. */
  lemma {:induction false} StripNotShorter(s: string, out: string)
    ensures |Strip(s, out)| >= |s|
    decreases |s|
  {
    hide Strip, Emitted, Lex;
    if s != "" {
      StripStep(s, out);
      EmittedNotShorter(s, out);
      StripNotShorter(s[Lex(s).End()..], out + Emitted(s, out));
    }
  }

  lemma {:induction false} EmittedNotShorter(s: string, out: string)
    requires s != ""
    ensures |Emitted(s, out)| >= Lex(s).End()
    decreases |s|, 0
  {
    hide Strip;
    var l := Lex(s);
    if l.Dollar? {
      StripNotShorter(s[l.open..l.close], "");
    }
  }

  /** A blanked or copied character may be read as unchanged. */
  ghost predicate Blankable(same: (char, char) -> bool) {
    forall c :: same(c, c) && same(c, BlankChar(c))
  }

  lemma QuotedTextShape(text: string, executed: bool)
    requires text != ""
    ensures var e, n := QuotedText(text, executed), |text|;
            && |e| == (if n == 1 then 2 else n) && e[0] == '\'' && e[|e| - 1] == '\''
            && forall i :: 0 < i < n - 1 ==> e[i] == if executed then text[i] else BlankChar(text[i])
  {
  }

  lemma QuotedTextKept(text: string, executed: bool, same: (char, char) -> bool)
    requires text != "" && text[0] == '\'' && Blankable(same)
    ensures Kept(text, QuotedText(text, executed), same) <==> |text| >= 2 && same(text[|text| - 1], '\'')
  {
    QuotedTextShape(text, executed);
    hide QuotedText;
    var e, n := QuotedText(text, executed), |text|;
    if n >= 2 {
      assert forall i :: 0 < i < n - 1 ==> same(text[i], e[i]);
    }
  }

  lemma QuotedKept(s: string, out: string, same: (char, char) -> bool)
    requires s != "" && Lex(s).Quoted? && Blankable(same)
    ensures Kept(s[..Lex(s).end], Emitted(s, out), same)
            <==> (!QuoteCloses(s[1..]) ==> |s| >= 2 && same(s[|s| - 1], '\''))
  {
    hide Strip, Lex, Emitted, QuoteRest, QuoteCloses, Kept;
    QuotedEmitted(s, out);
    var n := Lex(s).end;
    QuotedTextKept(s[..n], AfterExecute(out), same);
    if QuoteCloses(s[1..]) {
      QuoteClosesMeaning(s[1..], n - 1);
      assert s[..n][n - 1] == s[1..][n - 2] == '\'';
    }
  }

  lemma DollarParts(s: string, out: string)
    requires s != "" && Lex(s).Dollar?
    ensures var Dollar(open, close, end) := Lex(s);
            && s[..end] == s[..open] + (s[open..close] + s[close..end])
            && Emitted(s, out) == s[..open] + (Strip(s[open..close], "") + s[close..end])
  {
    hide Strip, Lex;
    var Dollar(open, close, end) := Lex(s);
    Rejoin(s[..open], Strip(s[open..close], ""), s[close..end]);
    Rejoin(s[..open], s[open..close], s[close..end]);
  }

  lemma Rejoin(a: string, b: string, c: string)
    ensures a + b + c == a + (b + c)
  {
  }

  lemma DollarKept(s: string, out: string, same: (char, char) -> bool)
    requires s != "" && Lex(s).Dollar? && Blankable(same)
    ensures var Dollar(open, close, end) := Lex(s);
            Kept(s[..end], Emitted(s, out), same) <==> Kept(s[open..close], Strip(s[open..close], ""), same)
  {
    hide Strip, Lex, Emitted;
    var Dollar(open, close, end) := Lex(s);
    var tag, inner, last := s[..open], s[open..close], s[close..end];
    DollarParts(s, out);
    StripNotShorter(inner, "");
    KeptConcat(tag, inner + last, tag, Strip(inner, "") + last, same);
    KeptConcat(inner, last, Strip(inner, ""), last, same);
  }

  lemma FlatKept(s: string, out: string, same: (char, char) -> bool)
    requires s != "" && (Lex(s).Comment? || Lex(s).Code?) && Blankable(same)
    ensures Kept(s[..Lex(s).End()], Emitted(s, out), same)
  {
  }

  /** `same` relates text and output throughout exactly when it relates the end of each open literal to a quote. */
  lemma {:induction false} KeptIff(s: string, out: string, same: (char, char) -> bool)
    requires Blankable(same)
    ensures Kept(s, Strip(s, out), same) <==> OpenLiteralsEnd(s, c => same(c, '\''))
    decreases |s|
  {
    hide Strip, Emitted, Lex;
    if s == "" {
      StripEmpty(out);
    } else {
      var l, e := Lex(s), Emitted(s, out);
      var rest := s[l.End()..];
      StripStep(s, out);
      EmittedNotShorter(s, out);
      StripNotShorter(rest, out + e);
      assert s == s[..l.End()] + rest;
      KeptConcat(s[..l.End()], rest, e, Strip(rest, out + e), same);
      KeptIff(rest, out + e, same);
      match l
      case Quoted(_) => QuotedKept(s, out, same);
      case Dollar(open, close, _) =>
        DollarKept(s, out, same);
        KeptIff(s[open..close], "", same);
      case _ => FlatKept(s, out, same);
    }
  }

  /* ---------- Line numbers ---------- */

  ghost predicate SameLines(t: string, e: string) {
    |e| == |t| && forall i :: 0 <= i < |t| ==> (t[i] == '\n' <==> e[i] == '\n')
  }

  /** Line feeds keep their offsets exactly when no open literal is a lone quote or ends in a line feed. */
  lemma LinesKeptIff(sql: string)
    ensures SameLines(sql, Strip(sql, "")) <==> OpenLiteralsEnd(sql, c => c != '\n')
  {
    hide Strip;
    var same := (c, d) => c == '\n' <==> d == '\n';
    KeptIff(sql, "", same);
    SameEnds(sql, c => same(c, '\''), c => c != '\n');
  }

  /** Characters are only ever copied or blanked exactly when every open literal ends in a quote character. */
  lemma OnlyBlankedIff(sql: string)
    ensures (|Strip(sql, "")| == |sql| && forall i :: 0 <= i < |sql| ==>
               Strip(sql, "")[i] == sql[i] || (Strip(sql, "")[i] == ' ' && sql[i] != '\n'))
            <==> OpenLiteralsEnd(sql, c => c == '\'')
  {
    hide Strip;
    var same := (c, d) => d == c || (d == ' ' && c != '\n');
    KeptIff(sql, "", same);
    SameEnds(sql, c => same(c, '\''), c => c == '\'');
    var e := Strip(sql, "");
    assert Kept(sql, e, same) <==>
        |e| == |sql| && forall i :: 0 <= i < |sql| ==> e[i] == sql[i] || (e[i] == ' ' && sql[i] != '\n');
  }

  lemma {:induction false} SameEnds(s: string, ok: char -> bool, ok': char -> bool)
    requires forall c :: ok(c) <==> ok'(c)
    ensures OpenLiteralsEnd(s, ok) <==> OpenLiteralsEnd(s, ok')
    decreases |s|
  {
    hide Lex;
    if s != "" {
      if Lex(s).Dollar? {
        SameEnds(s[Lex(s).open..Lex(s).close], ok, ok');
      }
      SameEnds(s[Lex(s).End()..], ok, ok');
    }
  }

  lemma {:induction false} WeakerEnds(s: string, ok: char -> bool, ok': char -> bool)
    requires OpenLiteralsEnd(s, ok) && forall c :: ok(c) ==> ok'(c)
    ensures OpenLiteralsEnd(s, ok')
    decreases |s|
  {
    hide Lex;
    if s != "" {
      if Lex(s).Dollar? {
        WeakerEnds(s[Lex(s).open..Lex(s).close], ok, ok');
      }
      WeakerEnds(s[Lex(s).End()..], ok, ok');
    }
  }

  /** If every literal is closed at its level, stripping only ever turns characters into spaces. */
  lemma ClosedLiteralsOnlyBlanked(sql: string)
    requires OpenLiteralsEnd(sql, c => false)
    ensures |Strip(sql, "")| == |sql|
    ensures forall i :: 0 <= i < |sql| ==>
              Strip(sql, "")[i] == sql[i] || (Strip(sql, "")[i] == ' ' && sql[i] != '\n')
  {
    hide Strip;
    WeakerEnds(sql, c => false, c => c == '\'');
    OnlyBlankedIff(sql);
  }

  /** `sql.slice(0, i).split("\n").length`. */
  function LineNumber(s: string, i: nat): nat
    requires i <= |s|
  {
    if i == 0 then 1 else LineNumber(s, i - 1) + if s[i - 1] == '\n' then 1 else 0
  }

  /** The line computed for a position of the stripped text is the line of that position of the file. */
  lemma {:induction false} LineNumbersKept(sql: string, i: nat)
    requires OpenLiteralsEnd(sql, c => c != '\n') && i <= |sql|
    ensures |Strip(sql, "")| == |sql| && LineNumber(Strip(sql, ""), i) == LineNumber(sql, i)
  {
    LinesKeptIff(sql);
    if i > 0 {
      LineNumbersKept(sql, i - 1);
    }
  }

  lemma OpenQuoteExample(body: string)
    requires body == "'\n"
    ensures Strip(body, "") == "''"
  {
    assert body[1..] == "\n" && QuoteRest("\n") == 1;
    assert body[..2] == body && Emitted(body, "") == "''";
    assert body[2..] == "";
    StripStep(body, "");
  }

  lemma DollarExampleLexeme(tag: string, body: string, rest: string)
    requires tag == "$$" && body == "'\n" && rest == "x"
    ensures Lex(tag + (body + (tag + rest))) == Dollar(2, 4, 6)
  {
    hide Lex;
    var t := body + (tag + rest);
    assert t[0..][0] == '\'' && t[1..][0] == '\n';
    LexLevel(tag, body, true, rest);
  }

  lemma StripLetter(x: string, out: string)
    requires x == "x"
    ensures Strip(x, out) == "x"
  {
    assert x[..1] == x && x[1..] == "" && Lex(x) == Code;
  }

  lemma StripExample(sql: string, tag: string, body: string, rest: string)
    requires tag == "$$" && body == "'\n" && rest == "x" && sql == tag + (body + (tag + rest))
    ensures Strip(sql, "") == tag + ("''" + (tag + rest))
  {
    hide Strip, Lex, Emitted;
    DollarExampleLexeme(tag, body, rest);
    StripDollarUnfold(sql, "");
    assert sql[..2] == tag && sql[2..4] == body && sql[6..] == rest;
    OpenQuoteExample(body);
    StripLetter(rest, "" + Emitted(sql, ""));
  }

  lemma {:induction false} CountLines(s: string, i: nat, k: nat)
    requires i <= |s| && forall j :: 0 <= j < i ==> (s[j] == '\n' <==> j == k)
    ensures LineNumber(s, i) == if k < i then 2 else 1
  {
    if i > 0 {
      CountLines(s, i - 1, k);
    }
  }

  /** An unclosed quote in a dollar body can swallow the body's last line feed: what follows moves up a line. */
  lemma LineNumberLost(sql: string)
    requires sql == "$$'\n$$x"
    ensures |Strip(sql, "")| == |sql| && LineNumber(sql, 6) == 2 && LineNumber(Strip(sql, ""), 6) == 1
  {
    hide Strip;
    StripExample(sql, sql[..2], sql[2..4], sql[6..]);
    CountLines(sql, 6, 3);
    CountLines(Strip(sql, ""), 6, 6);
  }

  /* ---------- What stripped text looks like ---------- */

  /**
   * No comment at any level, and every literal is closed by a quote character and, unless it is executed,
   * blank. `out` is the text before `s` at its level.
   */
  ghost predicate Clean(s: string, out: string)
    decreases |s|
  {
    s != "" ==>
      var l := Lex(s);
      && !l.Comment?
      && (l.Quoted? ==> var n := l.end;
            n >= 2 && s[n - 1] == '\'' && (AfterExecute(out) || s[1..n - 1] == Blank(s[1..n - 1])))
      && (l.Dollar? ==> Clean(s[l.open..l.close], ""))
      && Clean(s[l.End()..], out + s[..l.End()])
  }

  lemma SplitEqual(a: string, b: string, a': string, b': string)
    requires a + b == a' + b' && |a'| >= |a| && |b'| >= |b|
    ensures a == a' && b == b'
  {
    assert |a| == |a'|;
    assert a == (a + b)[..|a|] && a' == (a' + b')[..|a|];
    assert b == (a + b)[|a|..] && b' == (a' + b')[|a|..];
  }

  lemma SliceOfPrefix(s: string, n: nat)
    requires 2 <= n <= |s|
    ensures s[..n][1..n - 1] == s[1..n - 1]
  {
  }

  /** Whether the lexeme at the start of `s` is emitted as it stands. */
  lemma EmittedSame(s: string, out: string)
    requires s != "" && !Lex(s).Dollar?
    ensures var l := Lex(s); Emitted(s, out) == s[..l.End()] <==>
            && !l.Comment?
            && (l.Quoted? ==> var n := l.end;
                  n >= 2 && s[n - 1] == '\'' && (AfterExecute(out) || s[1..n - 1] == Blank(s[1..n - 1])))
  {
    hide Strip;
    var l := Lex(s);
    if l.Comment? {
      assert Emitted(s, out)[0] == BlankChar(s[0]);
    } else if l.Quoted? {
      QuotedTextSame(s[..l.end], AfterExecute(out));
      if l.end >= 2 {
        SliceOfPrefix(s, l.end);
      }
    }
  }

  lemma QuotedTextSame(text: string, executed: bool)
    requires text != "" && text[0] == '\''
    ensures QuotedText(text, executed) == text <==>
            var n := |text|; n >= 2 && text[n - 1] == '\'' && (executed || text[1..n - 1] == Blank(text[1..n - 1]))
  {
    QuotedTextShape(text, executed);
    hide QuotedText;
    var e, n := QuotedText(text, executed), |text|;
    if n >= 2 {
      assert e[1..n - 1] == if executed then text[1..n - 1] else Blank(text[1..n - 1]);
      assert e == [e[0]] + e[1..n - 1] + [e[n - 1]];
      assert text == [text[0]] + text[1..n - 1] + [text[n - 1]];
    }
  }

  lemma DollarSame(s: string, out: string)
    requires s != "" && Lex(s).Dollar?
    ensures var Dollar(open, close, end) := Lex(s);
            Emitted(s, out) == s[..end] <==> Strip(s[open..close], "") == s[open..close]
  {
    hide Strip, Lex, Emitted;
    var Dollar(open, close, end) := Lex(s);
    var tag, inner, last := s[..open], s[open..close], s[close..end];
    DollarParts(s, out);
    StripNotShorter(inner, "");
    if Emitted(s, out) == s[..end] {
      SplitEqual(tag, inner + last, tag, Strip(inner, "") + last);
      SplitEqual(inner, last, Strip(inner, ""), last);
    }
  }

  /** The texts stripping leaves alone are exactly the clean ones. */
  lemma {:induction false} FixedIffClean(s: string, out: string)
    ensures Strip(s, out) == s <==> Clean(s, out)
    decreases |s|
  {
    hide Strip, Emitted, Lex;
    if s == "" {
      StripEmpty(out);
    } else {
      var l, e := Lex(s), Emitted(s, out);
      var head, rest := s[..l.End()], s[l.End()..];
      StripStep(s, out);
      EmittedNotShorter(s, out);
      StripNotShorter(rest, out + e);
      assert s == head + rest;
      if Strip(s, out) == s {
        SplitEqual(head, rest, e, Strip(rest, out + e));
      }
      FixedIffClean(rest, out + head);
      if l.Dollar? {
        DollarSame(s, out);
        FixedIffClean(s[l.open..l.close], "");
      } else {
        EmittedSame(s, out);
      }
    }
  }

  /** No comment and no literal content outside EXECUTE survives stripping. */
  lemma StrippedIsClean(sql: string)
    ensures Clean(Strip(sql, ""), "")
  {
    hide Strip;
    Idempotent(sql);
    FixedIffClean(Strip(sql, ""), "");
  }
}
