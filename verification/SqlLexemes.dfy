/**
 * The lexemes `stripSqlComments` distinguishes, each found at the start of the remaining text, with
 * what it means for the scanners to have found them. Part of `scripts/lint-migrations.js`.
 */
module SqlLexemes {
  import opened CharClasses
  import opened Options

  predicate IsIdentStart(c: char) {
    'A' <= c <= 'Z' || 'a' <= c <= 'z' || c == '_'
  }

  /** `\w`. */
  predicate IsWordChar(c: char) {
    IsIdentStart(c) || '0' <= c <= '9'
  }

  function BlankChar(c: char): char {
    if c == '\n' then '\n' else ' '
  }

  /** `blank`: keep line feeds, turn everything else into spaces. */
  function Blank(text: string): (r: string)
    ensures |r| == |text| && forall i :: 0 <= i < |r| ==> r[i] == BlankChar(text[i])
  {
    seq(|text|, i requires 0 <= i < |text| => BlankChar(text[i]))
  }

  /** How far a line comment reaches: up to the line feed, which is not part of it. */
  function LineEnd(s: string): (n: nat)
    ensures n <= |s| && '\n' !in s[..n] && (n < |s| ==> s[n] == '\n')
  {
    if s == "" || s[0] == '\n' then 0 else 1 + LineEnd(s[1..])
  }

  predicate PairAt(s: string, j: nat, a: char, b: char) {
    j + 1 < |s| && s[j] == a && s[j + 1] == b
  }

  /** Where the block comment ends when `depth` comments are open at `j`; at the end of `s` if it is not closed. */
  function BlockStop(s: string, j: nat, depth: nat): (n: nat)
    requires j <= |s|
    ensures j <= n <= |s|
    decreases |s| - j
  {
    if j == |s| then |s|
    else if PairAt(s, j, '/', '*') then BlockStop(s, j + 2, depth + 1)
    else if PairAt(s, j, '*', '/') then if depth <= 1 then j + 2 else BlockStop(s, j + 2, depth - 1)
    else BlockStop(s, j + 1, depth)
  }

  lemma {:induction false} BlockStopShift(s: string, i: nat, j: nat, depth: nat)
    requires i <= |s| && j <= |s| - i
    ensures i + BlockStop(s[i..], j, depth) == BlockStop(s, i + j, depth)
    decreases |s| - j
  {
    if i + j < |s| {
      if PairAt(s, i + j, '/', '*') {
        BlockStopShift(s, i, j + 2, depth + 1);
      } else if PairAt(s, i + j, '*', '/') {
        if depth > 1 {
          BlockStopShift(s, i, j + 2, depth - 1);
        }
      } else {
        BlockStopShift(s, i, j + 1, depth);
      }
    }
  }

  /** Where the next symbol begins: a comment mark is one symbol, as is any other character. */
  function Next(s: string, j: nat): (k: nat)
    requires j < |s|
    ensures j < k <= |s|
  {
    if PairAt(s, j, '/', '*') || PairAt(s, j, '*', '/') then j + 2 else j + 1
  }

  /** Reading symbol after symbol from `j` on, a symbol ends at `n`. */
  predicate SymbolEnds(s: string, j: nat, n: nat)
    requires j <= |s|
    decreases |s| - j
  {
    j == n || (j < |s| && SymbolEnds(s, Next(s, j), n))
  }

  /** How many of the symbols from `j` to `n` are the mark `ab`. */
  function Marks(s: string, j: nat, n: nat, a: char, b: char): nat
    requires j <= |s|
    decreases |s| - j
  {
    if j >= n || j == |s| then 0 else (if PairAt(s, j, a, b) then 1 else 0) + Marks(s, Next(s, j), n, a, b)
  }

  /** As many comments were closed between `j` and `n` as opened there and before. */
  predicate Balances(s: string, j: nat, n: nat, depth: nat)
    requires j <= |s|
  {
    SymbolEnds(s, j, n) && depth + Marks(s, j, n, '/', '*') == Marks(s, j, n, '*', '/')
  }

  lemma NextBalances(s: string, j: nat, n: nat, depth: nat)
    requires j < |s| && j < n && depth > 0
    ensures var after := if PairAt(s, j, '/', '*') then depth + 1
                         else if PairAt(s, j, '*', '/') then depth - 1 else depth;
            Balances(s, j, n, depth) <==> Balances(s, Next(s, j), n, after)
  {
  }

  /** Symbols end behind where they begin. */
  lemma {:induction false} EndsBehind(s: string, j: nat, n: nat)
    requires j <= |s| && SymbolEnds(s, j, n)
    ensures j <= n <= |s|
    decreases |s| - j
  {
    if j != n {
      EndsBehind(s, Next(s, j), n);
    }
  }

  /** A comment ends at the first symbol that balances the marks, and at the end of the text if none does. */
  lemma {:induction false} BlockStopMeaning(s: string, j: nat, depth: nat)
    requires j <= |s| && depth > 0
    ensures var n := BlockStop(s, j, depth);
            && (forall m: nat :: m < n ==> !Balances(s, j, m, depth))
            && (Balances(s, j, n, depth) || (n == |s| && forall m: nat :: !Balances(s, j, m, depth)))
    decreases |s| - j
  {
    forall m: nat | m <= j || m > |s|
      ensures !Balances(s, j, m, depth)
    {
      if SymbolEnds(s, j, m) {
        EndsBehind(s, j, m);
      }
    }
    if j < |s| {
      forall m: nat | m > j
        ensures Balances(s, j, m, depth) <==> Balances(s, Next(s, j), m,
                  if PairAt(s, j, '/', '*') then depth + 1 else if PairAt(s, j, '*', '/') then depth - 1 else depth)
      {
        NextBalances(s, j, m, depth);
      }
      hide Balances;
      if PairAt(s, j, '/', '*') {
        BlockStopMeaning(s, j + 2, depth + 1);
      } else if PairAt(s, j, '*', '/') && depth == 1 {
        BalancedAtOnce(s, j + 2);
      } else if PairAt(s, j, '*', '/') {
        BlockStopMeaning(s, j + 2, depth - 1);
      } else {
        BlockStopMeaning(s, j + 1, depth);
      }
    }
  }

  lemma BalancedAtOnce(s: string, j: nat)
    requires j <= |s|
    ensures Balances(s, j, j, 0)
    ensures forall m: nat :: m < j ==> !Balances(s, j, m, 0)
  {
    forall m: nat | m < j
      ensures !Balances(s, j, m, 0)
    {
      if SymbolEnds(s, j, m) {
        EndsBehind(s, j, m);
      }
    }
  }

  /** A literal's content as written: each quote in it is doubled. */
  ghost predicate Doubled(b: string) {
    || b == ""
    || (b[0] != '\'' && Doubled(b[1..]))
    || (PairAt(b, 0, '\'', '\'') && Doubled(b[2..]))
  }

  /** What follows an opening quote contains the closing one. */
  predicate QuoteCloses(s: string) {
    if s == "" then false
    else if PairAt(s, 0, '\'', '\'') then QuoteCloses(s[2..])
    else s[0] == '\'' || QuoteCloses(s[1..])
  }

  /** How far the rest of a literal reaches, its closing quote included; all of `s` if it is not closed. */
  function QuoteRest(s: string): (n: nat)
    ensures n <= |s| && (QuoteCloses(s) ==> n > 0) && (!QuoteCloses(s) ==> n == |s|)
    decreases |s|
  {
    if s == "" then 0
    else if PairAt(s, 0, '\'', '\'') then 2 + QuoteRest(s[2..])
    else if s[0] == '\'' then 1
    else 1 + QuoteRest(s[1..])
  }

  /** `QuoteRest` as a position of the whole text. */
  function QuoteStop(s: string, j: nat): nat
    requires j <= |s|
  {
    j + QuoteRest(s[j..])
  }

  lemma QuoteStopStep(s: string, j: nat)
    requires j < |s|
    ensures QuoteStop(s, j) == if PairAt(s, j, '\'', '\'') then QuoteStop(s, j + 2)
                               else if s[j] == '\'' then j + 1 else QuoteStop(s, j + 1)
  {
    assert s[j..][1..] == s[j + 1..];
    if PairAt(s, j, '\'', '\'') {
      assert s[j..][2..] == s[j + 2..];
    }
  }

  /** A literal closes exactly at the first quote that is not doubled. */
  lemma {:induction false} QuoteClosesMeaning(s: string, n: nat)
    ensures QuoteCloses(s) && QuoteRest(s) == n <==>
            0 < n <= |s| && s[n - 1] == '\'' && Doubled(s[..n - 1]) && (n < |s| ==> s[n] != '\'')
    decreases |s|
  {
    if PairAt(s, 0, '\'', '\'') {
      if n >= 2 {
        QuoteClosesMeaning(s[2..], n - 2);
        assert 2 < n <= |s| ==> s[..n - 1][2..] == s[2..][..n - 3];
      }
    } else if s != "" && s[0] != '\'' {
      if n >= 1 {
        QuoteClosesMeaning(s[1..], n - 1);
        assert 1 < n <= |s| ==> s[..n - 1][1..] == s[1..][..n - 2];
      }
    }
  }

  lemma {:induction false} UnclosedIsDoubled(s: string)
    requires !QuoteCloses(s)
    ensures Doubled(s)
    decreases |s|
  {
    if PairAt(s, 0, '\'', '\'') {
      UnclosedIsDoubled(s[2..]);
    } else if s != "" {
      UnclosedIsDoubled(s[1..]);
    }
  }

  /** Length of the longest prefix of identifier characters. */
  function IdentLength(s: string): (n: nat)
    ensures n <= |s| && (forall i :: 0 <= i < n ==> IsWordChar(s[i])) && (n < |s| ==> !IsWordChar(s[n]))
  {
    if s == "" || !IsWordChar(s[0]) then 0 else 1 + IdentLength(s[1..])
  }

  /** `$`, an optional identifier, `$`. */
  predicate IsTag(t: string) {
    && |t| >= 2 && t[0] == '$' && t[|t| - 1] == '$'
    && (|t| > 2 ==> IsIdentStart(t[1]))
    && forall i :: 1 <= i < |t| - 1 ==> IsWordChar(t[i])
  }

  /** Length of the dollar tag at the start of `s`, 0 if there is none. */
  function TagLength(s: string): (n: nat)
    ensures n <= |s| && (n > 0 ==> IsTag(s[..n]))
  {
    if s == "" || s[0] != '$' then 0
    else
      var k := if |s| > 1 && IsIdentStart(s[1]) then 1 + IdentLength(s[1..]) else 1;
      if k < |s| && s[k] == '$' then k + 1 else 0
  }

  /** A tag at the start of a text is the tag the scanner finds. */
  lemma TagFound(t: string, s: string)
    requires IsTag(t) && t <= s
    ensures TagLength(s) == |t|
  {
    if |t| > 2 {
      var n := IdentLength(s[1..]);
      assert s[1..][|t| - 2] == s[|t| - 1] == t[|t| - 1];
      assert forall i :: 0 <= i < |t| - 2 ==> s[1..][i] == t[i + 1];
    }
  }

  ghost predicate OccursAt(t: string, s: string, k: nat) {
    k <= |s| && t <= s[k..]
  }

  /** `s.indexOf(t)`: the first occurrence. */
  function IndexOf(t: string, s: string): (r: Option<nat>)
    ensures r.Some? ==>
              OccursAt(t, s, r.value) && r.value + |t| <= |s| && forall j: nat :: j < r.value ==> !OccursAt(t, s, j)
    ensures r.None? ==> forall j: nat :: !OccursAt(t, s, j)
  {
    if t <= s then Some(0)
    else if s == "" then None
    else
      var r := IndexOf(t, s[1..]);
      assert forall j: nat :: j > 0 && OccursAt(t, s, j) ==> s[j..] == s[1..][j - 1..] && OccursAt(t, s[1..], j - 1);
      if r.None? then None
      else
        assert s[1..][r.value..] == s[r.value + 1..];
        Some(r.value + 1)
  }

  function Upper(c: char): char {
    if 'a' <= c <= 'z' then (c as int - 32) as char else c
  }

  /** `/\bEXECUTE\s*$/i.test(out)`. */
  predicate AfterExecute(out: string)
    decreases |out|
  {
    if out == "" then false
    else
      var n := |out|;
      if IsSpace(out[n - 1]) then AfterExecute(out[..n - 1])
      else
        && n >= 7
        && (forall i :: 0 <= i < 7 ==> Upper(out[n - 7 + i]) == "EXECUTE"[i])
        && (n > 7 ==> !IsWordChar(out[n - 8]))
  }

  /** The lexeme at the start of a text: its kind and where it, and the body of a dollar quote, end. */
  datatype Lexeme =
    | Comment(end: nat)
    | Quoted(end: nat)
    | Dollar(open: nat, close: nat, end: nat)
    | Code
  {
    function End(): nat {
      if Code? then 1 else end
    }
  }

  function Lex(s: string): (l: Lexeme)
    requires s != ""
    ensures 0 < l.End() <= |s|
    ensures l.Dollar? ==> 0 < l.open <= l.close <= l.end
  {
    if PairAt(s, 0, '-', '-') then
      Comment(LineEnd(s))
    else if PairAt(s, 0, '/', '*') then
      Comment(BlockStop(s, 2, 1))
    else if s[0] == '\'' then
      Quoted(1 + QuoteRest(s[1..]))
    else
      var n := TagLength(s);
      if n > 0 then
        match IndexOf(s[..n], s[n..])
        case Some(k) => Dollar(n, n + k, n + k + n)
        case None => Dollar(n, |s|, |s|)
      else
        Code
  }

  /** A dollar quote opens with a tag and closes at the first later occurrence of that tag. */
  lemma LexDollar(s: string)
    requires s != "" && Lex(s).Dollar?
    ensures TagLength(s) == Lex(s).open && IsTag(s[..Lex(s).open])
    ensures var Dollar(open, close, end) := Lex(s);
            if end == close then close == |s| && IndexOf(s[..open], s[open..]) == None
            else end == close + open && s[close..end] == s[..open]
                 && IndexOf(s[..open], s[open..]) == Some(close - open)
  {
    var n := TagLength(s);
    match IndexOf(s[..n], s[n..])
    case Some(k) => assert s[n..][k..] == s[n + k..];
    case None =>
  }
}
