/**
 * A text cut into what the stripper treats as one piece each, beside what it emits for the piece.
 * The cut is a reading of `Strip` that the proofs below can follow without the scanners.
 */
module SqlPieces {
  import opened Options
  import opened SqlLexemes
  import opened SqlStripper

  datatype Pieces =
    | Done
    | Flat(text: string, emitted: string, rest: Pieces)
    | Level(tag: string, inner: Pieces, closed: bool, rest: Pieces)

  function CloseTag(tag: string, closed: bool): string {
    if closed then tag else ""
  }

  ghost function Source(p: Pieces): string {
    match p
    case Done => ""
    case Flat(text, _, rest) => text + Source(rest)
    case Level(tag, inner, closed, rest) => tag + (Source(inner) + (CloseTag(tag, closed) + Source(rest)))
  }

  ghost function Output(p: Pieces): string {
    match p
    case Done => ""
    case Flat(_, emitted, rest) => emitted + Output(rest)
    case Level(tag, inner, closed, rest) => tag + (Output(inner) + (CloseTag(tag, closed) + Output(rest)))
  }

  /** A character the stripper can only have copied: neither a blank nor a quote. */
  predicate Solid(c: char) {
    c != ' ' && c != '\n' && c != '\''
  }

  /** Solid characters are emitted where they stood. */
  ghost predicate Faithful(text: string, emitted: string) {
    forall i :: 0 <= i < |emitted| && Solid(emitted[i]) ==> i < |text| && text[i] == emitted[i]
  }

  /** One character of code. */
  predicate IsCopy(text: string, emitted: string) {
    text == emitted && |text| == 1
  }

  /** A blanked comment or a literal begins and ends with a blank or a quote. */
  predicate IsFramed(emitted: string) {
    emitted != "" && !Solid(emitted[0]) && !Solid(emitted[|emitted| - 1])
  }

  ghost predicate WellCut(p: Pieces) {
    match p
    case Done => true
    case Flat(text, emitted, rest) =>
      && text != "" && emitted != "" && Faithful(text, emitted)
      && (IsCopy(text, emitted) || IsFramed(emitted))
      && WellCut(rest)
    case Level(tag, inner, _, rest) => IsTag(tag) && WellCut(inner) && WellCut(rest)
  }

  function Cut(s: string, out: string): Pieces
    decreases |s|
  {
    if s == "" then Done
    else
      var l, e := Lex(s), Emitted(s, out);
      var rest := Cut(s[l.End()..], out + e);
      match l
      case Dollar(open, close, end) => Level(s[..open], Cut(s[open..close], ""), close < end, rest)
      case _ => Flat(s[..l.End()], e, rest)
  }

  lemma FlatCut(s: string, out: string)
    requires s != "" && !Lex(s).Dollar?
    ensures var text, e := s[..Lex(s).End()], Emitted(s, out);
            && e != "" && Faithful(text, e)
            && (IsCopy(text, e) || IsFramed(e))
  {
  }

  lemma DollarCut(s: string, out: string)
    requires s != "" && Lex(s).Dollar?
    ensures var Dollar(open, close, end) := Lex(s);
            && s == s[..open] + (s[open..close] + (CloseTag(s[..open], close < end) + s[end..]))
            && IsTag(s[..open])
  {
    var Dollar(open, close, end) := Lex(s);
    LexDollar(s);
    FourParts(s, open, close, end);
  }

  lemma FourParts(s: string, i: nat, j: nat, k: nat)
    requires i <= j <= k <= |s|
    ensures s == s[..i] + (s[i..j] + (s[j..k] + s[k..]))
  {
  }

  lemma StripDollarUnfold(s: string, out: string)
    requires s != "" && Lex(s).Dollar?
    ensures var Dollar(open, close, end) := Lex(s);
            Strip(s, out) == s[..open] + (Strip(s[open..close], "")
                             + (CloseTag(s[..open], close < end) + Strip(s[end..], out + Emitted(s, out))))
  {
    EmittedDollar(s, out);
    var Dollar(open, close, end) := Lex(s);
    Reassociate(s[..open], Strip(s[open..close], ""), CloseTag(s[..open], close < end),
                Strip(s[end..], out + Emitted(s, out)));
  }

  lemma Reassociate(a: string, b: string, c: string, d: string)
    ensures (a + b + c) + d == a + (b + (c + d))
  {
  }

  /** The cut puts the text together again, and what is emitted piece by piece is what the stripper emits. */
  lemma {:induction false} CutMeaning(s: string, out: string)
    ensures Source(Cut(s, out)) == s && Output(Cut(s, out)) == Strip(s, out) && WellCut(Cut(s, out))
    decreases |s|
  {
    hide *;
    if s == "" {
      EmptyCutMeaning(out);
    } else {
      var l, e := Lex(s), Emitted(s, out);
      CutMeaning(s[LexEnd(s)..], out + e);
      if l.Dollar? {
        DollarEnd(s);
        CutMeaning(s[l.open..l.close], "");
        LevelCutMeaning(s, out);
      } else {
        FlatCutMeaning(s, out);
      }
    }
  }

  function LexEnd(s: string): (n: nat)
    requires s != ""
    ensures 0 < n <= |s|
  {
    Lex(s).End()
  }

  lemma DollarEnd(s: string)
    requires s != "" && Lex(s).Dollar?
    ensures LexEnd(s) == Lex(s).end
  {
  }

  lemma EmptyCutMeaning(out: string)
    ensures Source(Cut("", out)) == "" && Output(Cut("", out)) == Strip("", out) && WellCut(Cut("", out))
  {
  }

  lemma FlatCutMeaning(s: string, out: string)
    requires s != "" && !Lex(s).Dollar?
    requires var rest, out' := s[LexEnd(s)..], out + Emitted(s, out);
             Source(Cut(rest, out')) == rest && Output(Cut(rest, out')) == Strip(rest, out') && WellCut(Cut(rest, out'))
    ensures Source(Cut(s, out)) == s && Output(Cut(s, out)) == Strip(s, out) && WellCut(Cut(s, out))
  {
    hide *;
    var n, e := LexEnd(s), Emitted(s, out);
    FlatCut(s, out);
    EndIsLexEnd(s);
    assert s == s[..n] + s[n..];
    FlatStep(s, out);
    FlatMeaning(s[..n], e, Cut(s[n..], out + e));
  }

  lemma EndIsLexEnd(s: string)
    requires s != ""
    ensures LexEnd(s) == Lex(s).End()
  {
  }

  lemma FlatStep(s: string, out: string)
    requires s != "" && !Lex(s).Dollar?
    ensures var n, e := LexEnd(s), Emitted(s, out);
            Cut(s, out) == Flat(s[..n], e, Cut(s[n..], out + e)) && Strip(s, out) == e + Strip(s[n..], out + e)
  {
    hide Lex, Emitted;
  }

  lemma FlatMeaning(text: string, e: string, rest: Pieces)
    ensures var p := Flat(text, e, rest);
            && Source(p) == text + Source(rest) && Output(p) == e + Output(rest)
            && (WellCut(p) <==>
                  && text != "" && e != "" && Faithful(text, e) && (IsCopy(text, e) || IsFramed(e))
                  && WellCut(rest))
  {
  }

  lemma LevelCutMeaning(s: string, out: string)
    requires s != "" && Lex(s).Dollar?
    requires var inner, p := s[Lex(s).open..Lex(s).close], Cut(s[Lex(s).open..Lex(s).close], "");
             Source(p) == inner && Output(p) == Strip(inner, "") && WellCut(p)
    requires var rest, out' := s[Lex(s).end..], out + Emitted(s, out);
             Source(Cut(rest, out')) == rest && Output(Cut(rest, out')) == Strip(rest, out') && WellCut(Cut(rest, out'))
    ensures Source(Cut(s, out)) == s && Output(Cut(s, out)) == Strip(s, out) && WellCut(Cut(s, out))
  {
    DollarCut(s, out);
    StripDollarUnfold(s, out);
  }

  ghost predicate SolidText(w: string) {
    forall i :: 0 <= i < |w| ==> Solid(w[i])
  }

  /** Every solid text that `t'` starts with, `t` starts with too. */
  ghost predicate Shows(t': string, t: string) {
    forall w :: SolidText(w) && w <= t' ==> w <= t
  }

  lemma ShowsBlank(t': string, t: string)
    requires t' != "" && !Solid(t'[0])
    ensures Shows(t', t)
  {
    forall w | SolidText(w) && w <= t'
      ensures w <= t
    {
      if w != "" {
        assert false;
      }
    }
  }

  lemma ShowsCopied(p: string, t': string, t: string)
    requires Shows(t', t)
    ensures Shows(p + t', p + t)
  {
    forall w | SolidText(w) && w <= p + t'
      ensures w <= p + t
    {
      if |w| > |p| {
        var v := w[|p|..];
        assert w == p + v;
        assert v == (p + t')[|p|..|w|] == t'[..|v|];
        assert forall i :: 0 <= i < |v| ==> v[i] == w[|p| + i];
        assert SolidText(v) && v <= t';
        assert v <= t;
      } else {
        assert w == (p + t')[..|w|] == p[..|w|];
        assert w == (p + t)[..|w|];
      }
    }
  }

  lemma LevelParts(p: Pieces, t': string, t: string)
    requires p.Level?
    ensures var end := CloseTag(p.tag, p.closed);
            && Output(p) + t' == p.tag + (Output(p.inner) + (end + (Output(p.rest) + t')))
            && Source(p) + t == p.tag + (Source(p.inner) + (end + (Source(p.rest) + t)))
  {
    hide CloseTag;
    var end := CloseTag(p.tag, p.closed);
    AppendFour(p.tag, Output(p.inner), end, Output(p.rest), t');
    AppendFour(p.tag, Source(p.inner), end, Source(p.rest), t);
  }

  lemma AppendFour(a: string, b: string, c: string, d: string, t: string)
    ensures (a + (b + (c + d))) + t == a + (b + (c + (d + t)))
  {
  }

  lemma FlatParts(p: Pieces, t': string, t: string)
    requires p.Flat?
    ensures Output(p) + t' == p.emitted + (Output(p.rest) + t') && Source(p) + t == p.text + (Source(p.rest) + t)
  {
    assert (p.emitted + Output(p.rest)) + t' == p.emitted + (Output(p.rest) + t');
    assert (p.text + Source(p.rest)) + t == p.text + (Source(p.rest) + t);
  }

  /** The output shows no solid text that the source does not show. */
  lemma {:induction false} OutputShows(p: Pieces, t': string, t: string)
    requires WellCut(p) && Shows(t', t)
    ensures Shows(Output(p) + t', Source(p) + t)
  {
    hide Shows, Faithful, IsTag, CloseTag;
    match p
    case Done =>
      assert Output(p) + t' == t' && Source(p) + t == t;
    case Flat(text, emitted, rest) =>
      OutputShows(rest, t', t);
      FlatParts(p, t', t);
      hide Output, Source;
      if IsCopy(text, emitted) {
        ShowsCopied(text, Output(rest) + t', Source(rest) + t);
      } else {
        ShowsBlank(emitted + (Output(rest) + t'), text + (Source(rest) + t));
      }
    case Level(tag, inner, closed, rest) =>
      hide Output, Source;
      var end := CloseTag(tag, closed);
      OutputShows(rest, t', t);
      ShowsCopied(end, Output(rest) + t', Source(rest) + t);
      OutputShows(inner, end + (Output(rest) + t'), end + (Source(rest) + t));
      ShowsCopied(tag, Output(inner) + (end + (Output(rest) + t')), Source(inner) + (end + (Source(rest) + t)));
      LevelParts(p, t', t);
  }

  lemma OccursShift(w: string, a: string, b: string, k: nat)
    ensures OccursAt(w, a + b, |a| + k) <==> OccursAt(w, b, k)
  {
    if k <= |b| {
      assert (a + b)[|a| + k..] == b[k..];
    }
  }

  lemma OccursShift2(w: string, a: string, b: string, c: string, k: nat)
    ensures OccursAt(w, a + (b + c), |a| + |b| + k) <==> OccursAt(w, c, k)
  {
    OccursShift(w, a, b + c, |b| + k);
    OccursShift(w, b, c, k);
  }

  lemma OccursInPrefix(w: string, a: string, b: string, k: nat)
    requires k <= |a|
    ensures OccursAt(w, a + b, k) <==> w <= a[k..] + b
  {
    assert (a + b)[k..] == a[k..] + b;
  }

  /** Solid text found inside a flat piece stands at the same place of the source. */
  lemma OccursInFlat(w: string, text: string, emitted: string, t': string, t: string, k: nat)
    requires SolidText(w) && w != "" && k < |emitted| && OccursAt(w, emitted + t', k)
    requires Faithful(text, emitted) && !Solid(emitted[|emitted| - 1])
    ensures k < |text| && OccursAt(w, text + t, k)
  {
    var u := (emitted + t')[k..];
    assert forall i :: 0 <= i < |w| ==> w[i] == u[i] == (emitted + t')[k + i];
    var whole, end := emitted + t', |emitted| - 1;
    assert forall m :: k <= m < k + |w| ==> whole[m] == w[m - k] && Solid(whole[m]);
    assert whole[end] == emitted[end];
    forall i | 0 <= i < |w|
      ensures k + i < |text| && w[i] == text[k + i]
    {
      assert Solid(w[i]) && w[i] == emitted[k + i];
    }
    var last := w[|w| - 1];
    assert last == text[k + (|w| - 1)];
    assert w == (text + t)[k..][..|w|];
  }

  /** Solid text found in the output is found in the source. */
  lemma {:induction false} OutputOccurrence(p: Pieces, t': string, t: string, w: string, k: nat)
    requires WellCut(p) && Shows(t', t) && SolidText(w) && w != ""
    requires k < |Output(p)| && OccursAt(w, Output(p) + t', k)
    ensures exists m: nat :: m < |Source(p)| && OccursAt(w, Source(p) + t, m)
    decreases p, 2
  {
    match p
    case Flat(text, emitted, rest) =>
      assert Output(p) + t' == emitted + (Output(rest) + t');
      assert Source(p) + t == text + (Source(rest) + t);
      if k >= |emitted| {
        OccursShift(w, emitted, Output(rest) + t', k - |emitted|);
        OutputOccurrence(rest, t', t, w, k - |emitted|);
        var m: nat :| m < |Source(rest)| && OccursAt(w, Source(rest) + t, m);
        OccursShift(w, text, Source(rest) + t, m);
        assert OccursAt(w, Source(p) + t, |text| + m);
      } else if IsCopy(text, emitted) {
        OutputShows(p, t', t);
        assert k == 0 && w <= Output(p) + t';
        assert OccursAt(w, Source(p) + t, 0);
      } else {
        OccursInFlat(w, text, emitted, Output(rest) + t', Source(rest) + t, k);
      }
    case Level(tag, inner, closed, rest) =>
      OccurrenceInLevel(p, t', t, w, k);
  }

  lemma {:induction false} OccurrenceInLevel(p: Pieces, t': string, t: string, w: string, k: nat)
    requires p.Level? && WellCut(p) && Shows(t', t) && SolidText(w) && w != ""
    requires k < |Output(p)| && OccursAt(w, Output(p) + t', k)
    ensures exists m: nat :: m < |Source(p)| && OccursAt(w, Source(p) + t, m)
    decreases p, 1
  {
    var tag, end := p.tag, CloseTag(p.tag, p.closed);
    var u', u := Output(p.inner) + (end + (Output(p.rest) + t')), Source(p.inner) + (end + (Source(p.rest) + t));
    LevelParts(p, t', t);
    assert |Output(p)| == |tag| + |Output(p.inner)| + |end| + |Output(p.rest)|;
    assert |Source(p)| == |tag| + |Source(p.inner)| + |end| + |Source(p.rest)|;
    hide Output, Source, WellCut, CloseTag, OccursAt, Shows, SolidText;
    if k < |tag| {
      AfterTagShows(p, t', t);
      OccurrenceInCopied(w, tag, u', u, k);
      assert OccursAt(w, Source(p) + t, k);
    } else {
      OccursShift(w, tag, u', k - |tag|);
      var m := OccurrenceAfterTag(p, t', t, w, k - |tag|);
      OccursShift(w, tag, u, m);
      assert OccursAt(w, Source(p) + t, |tag| + m);
    }
  }

  lemma OccurrenceInCopied(w: string, a: string, t': string, t: string, k: nat)
    requires k <= |a| && SolidText(w) && Shows(t', t) && OccursAt(w, a + t', k)
    ensures OccursAt(w, a + t, k)
  {
    ShowsCopied(a[k..], t', t);
    OccursInPrefix(w, a, t', k);
    OccursInPrefix(w, a, t, k);
  }

  lemma AfterTagShows(p: Pieces, t': string, t: string)
    requires p.Level? && WellCut(p) && Shows(t', t)
    ensures Shows(Output(p.inner) + (CloseTag(p.tag, p.closed) + (Output(p.rest) + t')),
                  Source(p.inner) + (CloseTag(p.tag, p.closed) + (Source(p.rest) + t)))
  {
    var end := CloseTag(p.tag, p.closed);
    OutputShows(p.rest, t', t);
    ShowsCopied(end, Output(p.rest) + t', Source(p.rest) + t);
    OutputShows(p.inner, end + (Output(p.rest) + t'), end + (Source(p.rest) + t));
  }

  lemma {:induction false} OccurrenceAfterTag(p: Pieces, t': string, t: string, w: string, k: nat) returns (m: nat)
    requires p.Level? && WellCut(p) && Shows(t', t) && SolidText(w) && w != ""
    requires k < |Output(p)| - |p.tag|
    requires OccursAt(w, Output(p.inner) + (CloseTag(p.tag, p.closed) + (Output(p.rest) + t')), k)
    ensures m < |Source(p)| - |p.tag|
    ensures OccursAt(w, Source(p.inner) + (CloseTag(p.tag, p.closed) + (Source(p.rest) + t)), m)
    decreases p, 0
  {
    var end := CloseTag(p.tag, p.closed);
    var r', r := Output(p.rest) + t', Source(p.rest) + t;
    var i', i := Output(p.inner), Source(p.inner);
    OutputShows(p.rest, t', t);
    ShowsCopied(end, r', r);
    if k < |i'| {
      OutputOccurrence(p.inner, end + r', end + r, w, k);
      m :| m < |i| && OccursAt(w, i + (end + r), m);
    } else if k < |i'| + |end| {
      var j := k - |i'|;
      OccursShift(w, i', end + r', j);
      OccurrenceInCopied(w, end, r', r, j);
      OccursShift(w, i, end + r, j);
      m := |i| + j;
    } else {
      var j := k - |i'| - |end|;
      OccursShift2(w, i', end, r', j);
      OutputOccurrence(p.rest, t', t, w, j);
      var h: nat :| h < |Source(p.rest)| && OccursAt(w, r, h);
      OccursShift2(w, i, end, r, h);
      m := |i| + |end| + h;
    }
  }
}
