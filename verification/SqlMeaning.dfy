/**
 * What stripping does to each kind of lexeme, told from the characters of the text alone: one law for
 * every way a text can begin. Together they determine the stripped text.
 */
module SqlMeaning {
  import opened CharClasses
  import opened Options
  import opened SqlLexemes
  import opened SqlStripper
  import opened SqlPieces
  import opened SqlIdempotence

  /* ---------- Characters ---------- */

  lemma WordCharMeaning(c: char)
    ensures var code := c as int;
            && (IsIdentStart(c) <==> 65 <= code < 91 || 97 <= code < 123 || code == 95)
            && (IsWordChar(c) <==> 65 <= code < 91 || 97 <= code < 123 || code == 95 || 48 <= code < 58)
  {
  }

  /** `e` is `t` with every character but line feeds turned into a space. */
  ghost predicate Blanked(t: string, e: string) {
    |e| == |t| && forall i :: 0 <= i < |t| ==> e[i] == if t[i] == '\n' then '\n' else ' '
  }

  /** The word EXECUTE, each letter in either case. */
  ghost predicate IsExecute(w: string) {
    |w| == 7 && forall i :: 0 <= i < 7 ==> w[i] == "EXECUTE"[i] || w[i] == "execute"[i]
  }

  ghost predicate AllSpace(t: string) {
    forall i :: 0 <= i < |t| ==> IsSpace(t[i])
  }

  /** The text ends in the whole word EXECUTE, in any case, and white space. */
  ghost predicate ExecuteEnds(a: string, w: string, sp: string) {
    IsExecute(w) && AllSpace(sp) && (a != "" ==> !IsWordChar(a[|a| - 1]))
  }

  ghost predicate EndsInExecute(out: string) {
    exists j: nat :: j + 7 <= |out| && ExecuteEnds(out[..j], out[j..j + 7], out[j + 7..])
  }

  lemma ExecuteLetter(c: char, d: char)
    requires 'A' <= d <= 'Z'
    ensures Upper(c) == d <==> c == d || c as int == d as int + 32
  {
  }

  lemma ExecuteLetters(i: nat)
    requires i < 7
    ensures 'A' <= "EXECUTE"[i] <= 'Z' && "execute"[i] as int == "EXECUTE"[i] as int + 32
  {
  }

  lemma ExecuteWord(w: string)
    requires |w| == 7
    ensures (forall i :: 0 <= i < 7 ==> Upper(w[i]) == "EXECUTE"[i]) <==> IsExecute(w)
  {
    forall i | 0 <= i < 7
      ensures Upper(w[i]) == "EXECUTE"[i] <==> w[i] == "EXECUTE"[i] || w[i] == "execute"[i]
    {
      ExecuteLetters(i);
      ExecuteLetter(w[i], "EXECUTE"[i]);
    }
  }

  /** The test before a literal holds exactly of the texts that end so. */
  lemma {:induction false} AfterExecuteMeaning(out: string)
    ensures AfterExecute(out) <==> EndsInExecute(out)
    decreases |out|
  {
    if out != "" {
      var n := |out|;
      if IsSpace(out[n - 1]) {
        AfterExecuteMeaning(out[..n - 1]);
        LastSpace(out);
      } else {
        LastWord(out);
      }
    }
  }

  lemma LastSpace(out: string)
    requires out != "" && IsSpace(out[|out| - 1])
    ensures EndsInExecute(out) <==> EndsInExecute(out[..|out| - 1])
  {
    hide IsSpace, IsWordChar;
    var n := |out|;
    var t := out[..n - 1];
    forall j: nat | j + 7 <= n
      ensures ExecuteEnds(out[..j], out[j..j + 7], out[j + 7..])
              <==> j + 7 < n && ExecuteEnds(t[..j], t[j..j + 7], t[j + 7..])
    {
      if j + 7 == n {
        SpaceIsNoExecute(out[j..j + 7]);
      } else {
        assert t[..j] == out[..j] && t[j..j + 7] == out[j..j + 7];
        assert out[j + 7..] == t[j + 7..] + [out[n - 1]];
      }
    }
  }

  lemma SpaceIsNoExecute(w: string)
    requires |w| == 7 && IsSpace(w[6])
    ensures !IsExecute(w)
  {
  }

  lemma LastWord(out: string)
    requires out != "" && !IsSpace(out[|out| - 1])
    ensures AfterExecute(out) <==> EndsInExecute(out)
  {
    hide IsSpace, IsWordChar, IsExecute, AllSpace;
    var n := |out|;
    if n >= 7 {
      LastSevenLetters(out);
    }
    forall j: nat | j + 7 < n
      ensures !ExecuteEnds(out[..j], out[j..j + 7], out[j + 7..])
    {
      LastIsNoSpace(out[j + 7..]);
    }
  }

  lemma LastIsNoSpace(t: string)
    requires t != "" && !IsSpace(t[|t| - 1])
    ensures !AllSpace(t)
  {
  }

  lemma LastSevenLetters(out: string)
    requires |out| >= 7 && !IsSpace(out[|out| - 1])
    ensures var j := |out| - 7;
            AfterExecute(out) <==> ExecuteEnds(out[..j], out[j..j + 7], out[j + 7..])
  {
    hide IsSpace, IsWordChar, IsExecute;
    var j := |out| - 7;
    var w := out[j..j + 7];
    assert forall i :: 0 <= i < 7 ==> w[i] == out[j + i];
    ExecuteWord(w);
    assert out[j + 7..] == "";
  }

  /* ---------- One law for each way a text can begin ---------- */

  /** `--`: blanked up to the line feed or the end. */
  lemma LineCommentBlanked(c: string, r: string, out: string) returns (e: string)
    requires "--" <= c && '\n' !in c && (r == "" || r[0] == '\n')
    ensures Blanked(c, e) && Strip(c + r, out) == e + Strip(r, out + e)
  {
    e := Blank(c);
    var s := c + r;
    LineEndIs(c, r);
    assert Lex(s) == Comment(|c|) && s[..|c|] == c && s[|c|..] == r;
    StripStep(s, out);
  }

  lemma {:induction false} LineEndIs(c: string, r: string)
    requires '\n' !in c && (r == "" || r[0] == '\n')
    ensures LineEnd(c + r) == |c|
  {
    if c != "" {
      assert (c + r)[1..] == c[1..] + r && c[0] in c;
      LineEndIs(c[1..], r);
    }
  }

  /** A block comment: blanked up to the mark that balances it, or to the end if none does. */
  lemma BlockCommentBlanked(c: string, r: string, out: string) returns (e: string)
    requires var s := c + r;
             && "/*" <= c
             && (forall m: nat :: m < |c| ==> !Balances(s, 2, m, 1))
             && (Balances(s, 2, |c|, 1) || (r == "" && forall m: nat :: !Balances(s, 2, m, 1)))
    ensures Blanked(c, e) && Strip(c + r, out) == e + Strip(r, out + e)
  {
    e := Blank(c);
    var s := c + r;
    assert c[0] == "/*"[0] && c[1] == "/*"[1];
    BlockStopIs(s, |c|);
    assert Lex(s) == Comment(|c|) && s[..|c|] == c && s[|c|..] == r;
    StripStep(s, out);
  }

  lemma BlockStopIs(s: string, n: nat)
    requires 2 <= n <= |s| && forall m: nat :: m < n ==> !Balances(s, 2, m, 1)
    requires Balances(s, 2, n, 1) || (n == |s| && forall m: nat :: !Balances(s, 2, m, 1))
    ensures BlockStop(s, 2, 1) == n
  {
    BlockStopMeaning(s, 2, 1);
    hide Balances;
  }

  /** A literal: its quotes stand, and its content is kept behind EXECUTE and blanked otherwise. */
  lemma LiteralKeptOrBlanked(b: string, r: string, out: string) returns (e: string)
    requires Doubled(b) && (r == "" || r[0] != '\'')
    ensures if EndsInExecute(out) then e == b else Blanked(b, e)
    ensures Strip("'" + b + "'" + r, out) == "'" + e + "'" + Strip(r, out + ("'" + e + "'"))
  {
    hide AfterExecute, EndsInExecute, Doubled;
    AfterExecuteMeaning(out);
    e := if AfterExecute(out) then b else Blank(b);
    var s, u, n := "'" + b + "'" + r, b + "'" + r, |b| + 2;
    assert s[1..] == u && u[n - 2] == '\'' && u[..n - 2] == b && (n - 1 < |u| ==> u[n - 1] == r[0]);
    QuoteClosesMeaning(u, n - 1);
    assert Lex(s) == Quoted(n);
    assert s[..n] == "'" + b + "'" && s[n..] == r && s[..n][1..n - 1] == b;
    QuotedEmitted(s, out);
    StripStep(s, out);
  }

  /** A literal that is not closed loses its last character to the quote put behind it. */
  lemma OpenLiteralStripped(b: string, out: string) returns (e: string)
    requires Doubled(b)
    ensures var body := if b == "" then "" else b[..|b| - 1];
            if EndsInExecute(out) then e == body else Blanked(body, e)
    ensures Strip("'" + b, out) == "'" + e + "'"
  {
    hide AfterExecute, EndsInExecute, Doubled;
    AfterExecuteMeaning(out);
    var body := if b == "" then "" else b[..|b| - 1];
    e := if AfterExecute(out) then body else Blank(body);
    var s, n := "'" + b, |b| + 1;
    assert s[1..] == b;
    DoubledIsOpen(b);
    assert Lex(s) == Quoted(n) && s[..n] == s && s[n..] == "";
    assert n >= 2 ==> s[1..n - 1] == body;
    QuotedEmitted(s, out);
    StripStep(s, out);
  }

  lemma {:induction false} DoubledIsOpen(b: string)
    requires Doubled(b)
    ensures !QuoteCloses(b) && QuoteRest(b) == |b|
    decreases |b|
  {
    if PairAt(b, 0, '\'', '\'') {
      DoubledIsOpen(b[2..]);
    } else if b != "" {
      DoubledIsOpen(b[1..]);
    }
  }

  /** A dollar quote: its tags stand, and its body, up to the tag's first recurrence, is stripped by itself. */
  lemma DollarBodyStripped(tag: string, x: string, r: string, out: string)
    requires IsTag(tag) && forall k: nat :: k < |x| ==> !OccursAt(tag, x + (tag + r), k)
    ensures var e := tag + Strip(x, "") + tag;
            Strip(tag + (x + (tag + r)), out) == e + Strip(r, out + e)
  {
    hide *;
    LevelStripped(tag, x, true, r, out);
    hide *;
  }

  /** Without a recurrence the body reaches to the end. */
  lemma OpenDollarBodyStripped(tag: string, x: string, out: string)
    requires IsTag(tag) && forall k: nat :: !OccursAt(tag, x, k)
    ensures Strip(tag + x, out) == tag + Strip(x, "")
  {
    hide *;
    LevelStripped(tag, x, false, "", out);
    StripEmpty(out + (tag + Strip(x, "") + ""));
    assert x + ("" + "") == x;
  }

  lemma LevelStripped(tag: string, x: string, closed: bool, r: string, out: string)
    requires IsTag(tag)
    requires if closed then forall k: nat :: k < |x| ==> !OccursAt(tag, x + (tag + r), k)
             else r == "" && forall k: nat :: !OccursAt(tag, x, k)
    ensures var end := if closed then tag else "";
            var e := tag + Strip(x, "") + end;
            Strip(tag + (x + (end + r)), out) == e + Strip(r, out + e)
  {
    hide Strip, Lex, OccursAt, IsTag;
    var end := CloseTag(tag, closed);
    var s := tag + (x + (end + r));
    LexLevel(tag, x, closed, r);
    var n := |tag|;
    assert s[..n] == tag && s[n..n + |x|] == x && s[n + |x|..n + |x| + |end|] == end && s[n + |x| + |end|..] == r;
    StripStep(s, out);
  }

  /** Any other character is copied. */
  lemma CodeCopied(s: string, out: string)
    requires s != "" && s[0] != '\'' && !("--" <= s) && !("/*" <= s)
    requires forall t :: IsTag(t) ==> !(t <= s)
    ensures Strip(s, out) == s[..1] + Strip(s[1..], out + s[..1])
  {
    hide Strip;
    if TagLength(s) > 0 {
      assert s[..TagLength(s)] <= s;
    }
    TwoCharacters(s, "--");
    TwoCharacters(s, "/*");
    StripStep(s, out);
  }

  lemma TwoCharacters(s: string, w: string)
    requires |w| == 2
    ensures PairAt(s, 0, w[0], w[1]) <==> w <= s
  {
  }

  /* ---------- Witnesses ---------- */

  /** A literal behind a lower-case execute stays to be checked. */
  lemma LowerCaseExecuteKeeps(b: string)
    requires b == "CREATE INDEX i ON t (c)"
    ensures Strip("'" + b + "'", "BEGIN execute ") == "'" + b + "'"
  {
    hide *;
    PlainIsDoubled(b);
    var e := LiteralKeptOrBlanked(b, "", "BEGIN execute ");
    ExecuteWitness();
    StripEmpty("BEGIN execute " + ("'" + e + "'"));
    assert "'" + b + "'" + "" == "'" + b + "'";
  }

  lemma {:induction false} PlainIsDoubled(b: string)
    requires '\'' !in b
    ensures Doubled(b)
  {
    if b != "" {
      assert b[0] in b;
      PlainIsDoubled(b[1..]);
    }
  }

  lemma ExecuteWitness()
    ensures EndsInExecute("BEGIN execute ")
  {
    var out := "BEGIN execute ";
    assert out[..6] == "BEGIN " && out[6..6 + 7] == "execute" && out[6 + 7..] == " ";
    assert ExecuteEnds(out[..6], out[6..6 + 7], out[6 + 7..]);
  }

  /** A word that only ends in EXECUTE does not keep the literal. */
  lemma LongerWordBlanks()
    ensures Strip("'x'", "REEXECUTE ") == "' '"
  {
    hide *;
    var out := "REEXECUTE ";
    PlainIsDoubled("x");
    var e := LiteralKeptOrBlanked("x", "", out);
    LongerWord();
    StripEmpty(out + ("'" + e + "'"));
    BlankLetter(e);
    assert "'" + "x" + "'" + "" == "'x'" && "'" + " " + "'" + "" == "' '";
  }

  lemma BlankLetter(e: string)
    requires Blanked("x", e)
    ensures e == " "
  {
  }

  lemma LongerWord()
    ensures !EndsInExecute("REEXECUTE ")
  {
    AfterExecuteMeaning("REEXECUTE ");
    assert "REEXECUTE "[..9] == "REEXECUTE";
    assert !AfterExecute("REEXECUTE");
  }
}
