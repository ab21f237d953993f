/** Which characters stripping hides: a reading of the source, and of the text emitted before it, beside the output. */
module SqlRoles {
  import opened Options
  import opened SqlLexemes
  import opened SqlStripper
  import opened SqlPieces
  import opened SqlIdempotence
  import opened SqlPositions

  datatype Role = Hidden | Shown

  function AllOf(r: Role, n: nat): seq<Role> {
    seq(n, _ => r)
  }

  /**
   * The role of each character: the characters of comments and of literals that are not executed are
   * hidden; code, quote marks, dollar tags and executed literals are shown. `out` is the text before.
   */
  function Roles(s: string, out: string): (r: seq<Role>)
    ensures |r| == |s|
    decreases |s|
  {
    if s == "" then []
    else
      var l := Lex(s);
      var head := match l
        case Comment(n) => AllOf(Hidden, n)
        case Quoted(n) =>
          if n < 2 then AllOf(Shown, n)
          else [Shown] + AllOf(if AfterExecute(out) then Shown else Hidden, n - 2) + [Shown]
        case Dollar(open, close, n) => AllOf(Shown, open) + Roles(s[open..close], "") + AllOf(Shown, n - close)
        case Code => [Shown];
      head + Roles(s[l.End()..], out + Emitted(s, out))
  }

  function Show(c: char, r: Role): char {
    if r == Hidden then BlankChar(c) else c
  }

  /** `e` is `s` with the hidden characters blanked. */
  ghost predicate Shows(s: string, e: string, r: seq<Role>) {
    |e| == |s| == |r| && forall i :: 0 <= i < |s| ==> e[i] == Show(s[i], r[i])
  }

  lemma ShowsConcat(s1: string, e1: string, r1: seq<Role>, s2: string, e2: string, r2: seq<Role>)
    requires Shows(s1, e1, r1) && Shows(s2, e2, r2)
    ensures Shows(s1 + s2, e1 + e2, r1 + r2)
  {
  }

  lemma QuotedShows(text: string, executed: bool)
    requires |text| >= 2 && text[0] == '\'' && text[|text| - 1] == '\''
    ensures Shows(text, QuotedText(text, executed),
                  [Shown] + AllOf(if executed then Shown else Hidden, |text| - 2) + [Shown])
  {
    hide QuotedText;
    var role, n := if executed then Shown else Hidden, |text|;
    var e, body := QuotedText(text, executed), text[1..n - 1];
    QuotedParts(text, executed);
    BodyShows(body, role);
    ShowsConcat("'", "'", [Shown], body, e[1..n - 1], AllOf(role, n - 2));
    ShowsConcat("'" + body, "'" + e[1..n - 1], [Shown] + AllOf(role, n - 2), "'", "'", [Shown]);
    assert text == "'" + body + "'" && e == "'" + e[1..n - 1] + "'";
  }

  /** The quotes stand, and what is between them is kept or blanked. */
  lemma QuotedParts(text: string, executed: bool)
    requires |text| >= 2 && text[0] == '\'' && text[|text| - 1] == '\''
    ensures var n, e := |text|, QuotedText(text, executed);
            && |e| == n && e[0] == '\'' && e[n - 1] == '\''
            && e[1..n - 1] == if executed then text[1..n - 1] else Blank(text[1..n - 1])
  {
  }

  lemma BodyShows(body: string, r: Role)
    ensures Shows(body, if r == Shown then body else Blank(body), AllOf(r, |body|))
  {
  }

  lemma RolesStep(s: string, out: string)
    requires s != ""
    ensures var l := Lex(s);
            Roles(s, out) == Roles(s, out)[..l.End()] + Roles(s[l.End()..], out + Emitted(s, out))
    ensures Lex(s).Dollar? ==> var Dollar(open, close, n) := Lex(s);
            Roles(s, out)[..n] == AllOf(Shown, open) + (Roles(s[open..close], "") + AllOf(Shown, n - close))
  {
    hide Lex, Emitted;
    var l := Lex(s);
    var rest := Roles(s[l.End()..], out + Emitted(s, out));
    assert Roles(s, out)[l.End()..] == rest;
  }

  lemma FlatShows(s: string, out: string)
    requires s != "" && !Lex(s).Dollar? && (Lex(s).Quoted? ==> QuoteCloses(s[1..]))
    ensures Shows(s[..Lex(s).End()], Emitted(s, out), Roles(s, out)[..Lex(s).End()])
  {
    hide Strip;
    var l := Lex(s);
    if l.Quoted? {
      QuoteClosesMeaning(s[1..], l.end - 1);
      assert s[..l.end][l.end - 1] == '\'';
      QuotedShows(s[..l.end], AfterExecute(out));
    }
  }

  lemma LevelShows(s: string, out: string)
    requires s != "" && Lex(s).Dollar?
    requires var inner := s[Lex(s).open..Lex(s).close]; Shows(inner, Strip(inner, ""), Roles(inner, ""))
    ensures Shows(s[..Lex(s).end], Emitted(s, out), Roles(s, out)[..Lex(s).end])
  {
    hide Strip, Lex, Emitted, Roles;
    var Dollar(open, close, n) := Lex(s);
    var inner, last := s[open..close], s[close..n];
    RolesStep(s, out);
    DollarParts(s, out);
    ShowsConcat(inner, Strip(inner, ""), Roles(inner, ""), last, last, AllOf(Shown, n - close));
    ShowsConcat(s[..open], s[..open], AllOf(Shown, open), inner + last, Strip(inner, "") + last,
                Roles(inner, "") + AllOf(Shown, n - close));
  }

  lemma {:induction false} StripShowsRoles(s: string, out: string)
    requires OpenLiteralsEnd(s, c => false)
    ensures Shows(s, Strip(s, out), Roles(s, out))
    decreases |s|
  {
    hide Strip, Lex, Emitted, Roles;
    if s == "" {
      StripEmpty(out);
    } else {
      var l, e := Lex(s), Emitted(s, out);
      var rest := s[l.End()..];
      if l.Dollar? {
        StripShowsRoles(s[l.open..l.close], "");
        LevelShows(s, out);
      } else {
        FlatShows(s, out);
      }
      StripShowsRoles(rest, out + e);
      RolesStep(s, out);
      StripStep(s, out);
      assert s == s[..l.End()] + rest;
      ShowsConcat(s[..l.End()], e, Roles(s, out)[..l.End()], rest, Strip(rest, out + e), Roles(rest, out + e));
    }
  }

  /** With every literal closed at its level, exactly the hidden characters are blanked. */
  lemma ExactlyHiddenBlanked(sql: string)
    requires OpenLiteralsEnd(sql, c => false)
    ensures |Strip(sql, "")| == |sql|
    ensures forall i :: 0 <= i < |sql| ==>
              Strip(sql, "")[i] == if Roles(sql, "")[i] == Hidden then BlankChar(sql[i]) else sql[i]
  {
    hide Strip, Roles;
    StripShowsRoles(sql, "");
  }
}
