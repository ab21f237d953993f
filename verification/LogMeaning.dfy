/** What the tail of a log and its entries are, told from the lines of the file alone. */
module LogMeaning {
  import opened Options
  import opened LogTail

  /** Two hundred lines unless a number is asked for, and from one to a thousand in any case. */
  lemma TailMeaning(rawTail: Option<int>)
    ensures var asked := match rawTail case None => 200 case Some(n) => n;
            && (asked <= 1 ==> Tail(rawTail) == 1)
            && (1 <= asked <= 1000 ==> Tail(rawTail) == asked)
            && (1000 <= asked ==> Tail(rawTail) == 1000)
  {
  }

  /** `r` holds the lines at the places `at`, in order, which are those of the lines that are not empty. */
  ghost predicate Picks(lines: seq<string>, at: seq<nat>, r: seq<string>) {
    && |at| == |r| && (forall j, k :: 0 <= j < k < |at| ==> at[j] < at[k])
    && (forall k :: 0 <= k < |at| ==> at[k] < |lines| && |lines[at[k]]| > 0 && r[k] == lines[at[k]])
    && forall i: nat :: i < |lines| && |lines[i]| > 0 ==> i in at
  }

  /** The filter keeps exactly the lines that are not empty, in their order. */
  lemma {:induction false} NonEmptyMeaning(lines: seq<string>) returns (at: seq<nat>)
    ensures Picks(lines, at, NonEmpty(lines))
  {
    hide *;
    at := [];
    if lines == [] {
      NothingPicked();
    } else {
      var n := |lines| - 1;
      var front := lines[..n];
      var before := NonEmptyMeaning(front);
      at := if |lines[n]| > 0 then before + [n] else before;
      assert lines == front + [lines[n]];
      NonEmptyConcat(front, [lines[n]]);
      NonEmptyOne(lines[n]);
      PicksLast(front, before, NonEmpty(front), lines[n]);
    }
  }

  lemma NothingPicked()
    ensures Picks([], [], NonEmpty([]))
  {
  }

  lemma NonEmptyOne(line: string)
    ensures NonEmpty([line]) == if |line| > 0 then [line] else []
  {
  }

  lemma PicksLast(front: seq<string>, at: seq<nat>, r: seq<string>, last: string)
    requires Picks(front, at, r)
    ensures if |last| > 0 then Picks(front + [last], at + [|front|], r + [last]) else Picks(front + [last], at, r + [])
  {
    assert r + [] == r;
    var more := at + [|front|];
    assert |front| in more;
    assert forall i :: i in at ==> i in more;
  }

  /** What is read is the end of the lines that are not empty: as many as asked for, or all there are. */
  lemma LastMeaning(lines: seq<string>, n: nat)
    ensures var r := Last(lines, n);
            && |r| == (if |lines| < n then |lines| else n)
            && lines[|lines| - |r|..] == r
  {
  }

  /* ---------- Entries ---------- */

  /** `d` stands for a digit, any other character for itself. */
  predicate StampChar(t: char, c: char) {
    if t == 'd' then c in "0123456789" else c == t
  }

  predicate FitsTemplate(template: string, s: string) {
    |s| == |template| && forall i :: 0 <= i < |s| ==> StampChar(template[i], s[i])
  }

  predicate IsStamp(s: string) {
    FitsTemplate("dddd-dd-dd dd:dd:dd", s)
  }

  lemma DigitMeaning(c: char)
    ensures IsDigit(c) <==> c in "0123456789"
  {
    var all := "0123456789";
    if IsDigit(c) {
      assert all[c as int - '0' as int] == c;
    }
  }

  lemma StampMeaning(s: string)
    ensures IsTimestamp(s) <==> IsStamp(s)
  {
    hide IsDigit;
    var template := "dddd-dd-dd dd:dd:dd";
    assert |template| == 19 && forall i :: 0 <= i < 19 ==>
      (template[i] == 'd' <==> i != 4 && i != 7 && i != 10 && i != 13 && i != 16);
    forall i | 0 <= i < |s|
      ensures IsDigit(s[i]) <==> s[i] in "0123456789"
    {
      DigitMeaning(s[i]);
    }
  }

  lemma WordMeaning(c: char)
    ensures IsWord(c) <==>
            var code := c as int; 48 <= code < 58 || 65 <= code < 91 || 97 <= code < 123 || code == 95
  {
  }

  lemma LineEndMeaning(c: char)
    ensures EndsLine(c) <==> c as int in {10, 13, 0x2028, 0x2029}
  {
  }

  /** The line is `timestamp [level]: message`. */
  ghost predicate IsEntry(line: string, e: Entry) {
    && line == e.timestamp + " [" + e.level + "]: " + e.message
    && IsStamp(e.timestamp)
    && e.level != "" && (forall i :: 0 <= i < |e.level| ==> IsWord(e.level[i]))
    && forall i :: 0 <= i < |e.message| ==> !EndsLine(e.message[i])
  }

  /** A line is recognised exactly if it has the form of an entry, and as that entry. */
  lemma MatchIff(line: string, e: Entry)
    ensures Match(line) == Some(e) <==> IsEntry(line, e)
  {
    hide IsTimestamp, IsStamp, IsWord, EndsLine;
    if Match(line) == Some(e) {
      MatchIsEntry(line);
    }
    if IsEntry(line, e) {
      EntryMatches(line, e);
    }
  }

  lemma MatchIsEntry(line: string)
    requires Match(line).Some?
    ensures IsEntry(line, Match(line).value)
  {
    hide IsTimestamp, IsStamp, IsWord, EndsLine;
    MatchRenders(line);
    StampMeaning(line[..19]);
    var rest := line[21..];
    var n := WordLength(rest);
    LevelIs(rest);
    SuffixHasNoEnd(rest, n + 3);
    hide WordLength;
  }

  lemma LevelIs(rest: string)
    ensures var level := rest[..WordLength(rest)]; forall i :: 0 <= i < |level| ==> IsWord(level[i])
  {
    hide IsWord;
  }

  lemma SuffixHasNoEnd(rest: string, k: nat)
    requires k <= |rest| && forall i :: k <= i < |rest| ==> !EndsLine(rest[i])
    ensures forall i :: 0 <= i < |rest[k..]| ==> !EndsLine(rest[k..][i])
  {
    hide EndsLine;
  }

  lemma EntryMatches(line: string, e: Entry)
    requires IsEntry(line, e)
    ensures Match(line) == Some(e)
  {
    hide IsTimestamp, IsStamp, EndsLine, IsWord;
    StampMeaning(e.timestamp);
    StampLength(e.timestamp);
    var rest := e.level + "]: " + e.message;
    assert line == e.timestamp + " [" + rest;
    assert line[..19] == e.timestamp && line[19..21] == " [" && line[21..] == rest;
    RestParts(e.level, e.message);
    NoLineEnd(rest, |e.level| + 3, e.message);
    hide WordLength;
  }

  lemma RestParts(level: string, message: string)
    requires level != "" && forall i :: 0 <= i < |level| ==> IsWord(level[i])
    ensures var rest, n := level + "]: " + message, |level|;
            WordLength(rest) == n && rest[..n] == level && "]: " <= rest[n..] && rest[n + 3..] == message
  {
    var rest, n := level + "]: " + message, |level|;
    assert rest == level + ("]: " + message);
    LevelEnds(level, "]: " + message);
    hide WordLength, IsWord;
    assert rest[n..] == "]: " + message;
  }

  lemma NoLineEnd(rest: string, k: nat, message: string)
    requires k <= |rest| && rest[k..] == message && forall i :: 0 <= i < |message| ==> !EndsLine(message[i])
    ensures forall i :: k <= i < |rest| ==> !EndsLine(rest[i])
  {
    hide EndsLine;
    assert forall i :: k <= i < |rest| ==> rest[i] == message[i - k];
  }

  lemma StampLength(s: string)
    requires IsStamp(s)
    ensures |s| == 19
  {
  }

  lemma {:induction false} LevelEnds(level: string, rest: string)
    requires rest != "" && !IsWord(rest[0]) && forall i :: 0 <= i < |level| ==> IsWord(level[i])
    ensures WordLength(level + rest) == |level|
  {
    hide IsWord;
    if level == "" {
      assert level + rest == rest;
    } else {
      assert (level + rest)[1..] == level[1..] + rest;
      LevelEnds(level[1..], rest);
    }
  }

  /* ---------- Entries of several lines ---------- */

  ghost predicate NoneMatch(lines: seq<string>) {
    forall i :: 0 <= i < |lines| ==> Match(lines[i]).None?
  }

  /** Lines before the first recognised one are dropped. */
  lemma {:induction false} UnrecognisedDropped(lines: seq<string>)
    requires NoneMatch(lines)
    ensures Parsed(lines) == []
  {
    hide Match;
    if lines != [] {
      UnrecognisedDropped(lines[..|lines| - 1]);
    }
  }

  /** A recognised line and the unrecognised ones behind it make one entry, its message joined from them. */
  lemma {:induction false} EntryOfBlock(before: seq<string>, line: string, block: seq<string>)
    requires Match(line).Some? && NoneMatch(block)
    ensures var e := Match(line).value;
            Parsed(before + [line] + block)
            == Parsed(before) + [Entry(e.timestamp, e.level, Join([e.message] + block))]
  {
    hide Match, Join;
    var e := Match(line).value;
    var lines := before + [line] + block;
    if block == [] {
      assert lines == before + [line] && lines[..|before|] == before;
      JoinOne(e.message);
      assert [e.message] + block == [e.message];
    } else {
      var k := |block| - 1;
      var most := block[..k];
      EntryOfBlock(before, line, most);
      assert lines[..|lines| - 1] == before + [line] + most && lines[|lines| - 1] == block[k];
      assert [e.message] + block == ([e.message] + most) + [block[k]];
      JoinLast([e.message] + most, block[k]);
    }
  }
}
