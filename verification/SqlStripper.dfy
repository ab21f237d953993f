/** `stripSqlComments` of `scripts/lint-migrations.js` and what a second pass over its output does. */
module SqlStripper {
  import opened Options
  import opened SqlLexemes

  /** A quoted literal as emitted: `sql.slice(i + 1, stop - 1)` between quotes, blanked unless executed. */
  function QuotedText(text: string, executed: bool): (r: string)
    requires |text| > 0
  {
    var body := if |text| < 2 then "" else text[1..|text| - 1];
    "'" + (if executed then body else Blank(body)) + "'"
  }

  /** What the stripper emits for `s` after having emitted `out` at the same level. */
  function Strip(s: string, out: string): string
    decreases |s|, 1
  {
    if s == "" then "" else Emitted(s, out) + Strip(s[Lex(s).End()..], out + Emitted(s, out))
  }

  /** The lexeme at the start of `s`, as emitted. The body of a dollar quote is a level of its own. */
  function Emitted(s: string, out: string): string
    requires s != ""
    decreases |s|, 0
  {
    match Lex(s)
    case Comment(n) => Blank(s[..n])
    case Quoted(n) => QuotedText(s[..n], AfterExecute(out))
    case Dollar(open, close, n) => s[..open] + Strip(s[open..close], "") + s[close..n]
    case Code => s[..1]
  }

  /** The result of the loop of the source when it has emitted `out` and stands at `i`. */
  ghost function StripFrom(sql: string, i: nat, out: string): string
    requires i <= |sql|
  {
    out + Strip(sql[i..], out)
  }

  lemma StripFromEnds(sql: string, out: string)
    ensures StripFrom(sql, 0, "") == Strip(sql, "") && StripFrom(sql, |sql|, out) == out
  {
    assert sql[0..] == sql && sql[|sql|..] == "";
  }

  lemma StripFromStep(sql: string, i: nat, out: string)
    requires i < |sql|
    ensures StripFrom(sql, i, out) == StripFrom(sql, i + Lex(sql[i..]).End(), out + Emitted(sql[i..], out))
  {
    assert sql[i..][Lex(sql[i..]).End()..] == sql[i + Lex(sql[i..]).End()..];
  }

  lemma EmittedDollar(s: string, out: string)
    requires s != "" && Lex(s).Dollar?
    ensures var Dollar(open, close, end) := Lex(s);
            Emitted(s, out) == s[..open] + Strip(s[open..close], "") + (if close < end then s[..open] else "")
  {
    LexDollar(s);
  }

  /* ---------- The loops of the source ---------- */

  method BlockCommentEnd(sql: string, i: nat) returns (stop: nat)
    requires PairAt(sql, i, '/', '*')
    ensures stop == BlockStop(sql, i + 2, 1)
  {
    var depth: nat := 0;
    var j := i;
    while j < |sql|
      invariant i <= j <= |sql|
      invariant if depth == 0 then j == i else BlockStop(sql, i + 2, 1) == BlockStop(sql, j, depth)
    {
      if PairAt(sql, j, '/', '*') {
        depth := depth + 1;
        j := j + 2;
      } else if PairAt(sql, j, '*', '/') {
        depth := depth - 1;
        j := j + 2;
        if depth == 0 {
          return j;
        }
      } else {
        j := j + 1;
      }
    }
    return |sql|;
  }

  method QuotedEnd(sql: string, i: nat) returns (stop: nat)
    requires i < |sql| && sql[i] == '\''
    ensures stop == QuoteStop(sql, i + 1)
  {
    var j := i + 1;
    while j < |sql|
      invariant i < j <= |sql|
      invariant QuoteStop(sql, j) == QuoteStop(sql, i + 1)
    {
      QuoteStopStep(sql, j);
      if sql[j] == '\'' {
        if j + 1 < |sql| && sql[j + 1] == '\'' {
          j := j + 2;
          continue;
        }
        return j + 1;
      }
      j := j + 1;
    }
    return |sql|;
  }

  method StripSqlComments(sql: string) returns (out: string)
    ensures out == Strip(sql, "")
    decreases |sql|, 2
  {
    hide *;
    out := "";
    var i := 0;
    StripFromEnds(sql, "");
    while i < |sql|
      invariant 0 <= i <= |sql|
      invariant StripFrom(sql, i, out) == Strip(sql, "")
    {
      var e, stop := StripLexeme(sql, i, out);
      StripFromStep(sql, i, out);
      out := out + e;
      i := stop;
    }
    StripFromEnds(sql, out);
  }

  /** The body of the loop: what is appended to `out`, and where the loop goes on. */
  method StripLexeme(sql: string, i: nat, out: string) returns (e: string, stop: nat)
    requires i < |sql|
    ensures e == Emitted(sql[i..], out) && stop == i + Lex(sql[i..]).End()
    decreases |sql|, 1
  {
    var rest := sql[i..];
    var tag := TagLength(rest);
    if PairAt(sql, i, '-', '-') {
      stop := i + LineEnd(rest);
      e := Blank(rest[..stop - i]);
    } else if PairAt(sql, i, '/', '*') {
      stop := BlockCommentEnd(sql, i);
      BlockStopShift(sql, i, 2, 1);
      e := Blank(rest[..stop - i]);
    } else if rest[0] == '\'' {
      stop := QuotedEnd(sql, i);
      assert rest[1..] == sql[i + 1..];
      e := QuotedText(rest[..stop - i], AfterExecute(out));
    } else if tag > 0 {
      e, stop := StripDollar(sql, i, tag);
    } else {
      e, stop := [sql[i]], i + 1;
    }
  }

  /** The dollar quote branch: the body is stripped as a text of its own. */
  method StripDollar(sql: string, i: nat, tag: nat) returns (e: string, stop: nat)
    requires i < |sql| && Lex(sql[i..]).Dollar? && tag == TagLength(sql[i..])
    ensures e == Emitted(sql[i..], "") && stop == i + Lex(sql[i..]).End()
    decreases |sql|, 0
  {
    var rest := sql[i..];
    LexDollar(rest);
    var close := IndexOf(rest[..tag], rest[tag..]);
    EmittedDollar(rest, "");
    var inner := if close.None? then rest[tag..] else rest[tag..tag + close.value];
    assert inner == rest[Lex(rest).open..Lex(rest).close];
    var body := StripSqlComments(inner);
    e := rest[..tag] + body + (if close.None? then "" else rest[..tag]);
    stop := if close.None? then |sql| else i + tag + close.value + tag;
  }
}
