/** The base32 round trip, the length of an encoding, and what decoding ignores and loses. */
module Base32Laws {
  import opened Options
  import opened BitArithmetic
  import opened CharClasses
  import opened Base32

  /** Zero bits that fill the last group of five. */
  function Padding(n: nat): nat {
    (5 - n % 5) % 5
  }

  /** Symbols are in the alphabet and stand for the bits they were made from, filled up with zeros. */
  lemma {:induction false} SymbolsMeaning(bits: seq<bool>)
    ensures InAlphabet(Symbols(bits))
    ensures SymbolBits(Symbols(bits)) == bits + Zeros(Padding(|bits|))
    ensures 5 * |Symbols(bits)| == |bits| + Padding(|bits|)
  {
    if bits == [] {
      assert Symbols(bits) == "" && SymbolBits("") == [] == bits + Zeros(0);
    } else if |bits| < 5 {
      LastGroup(bits);
    } else {
      SymbolsMeaning(bits[5..]);
      FirstGroup(bits);
    }
  }

  lemma OneSymbol(bits: seq<bool>)
    requires |bits| == 5
    ensures Symbol(bits) in ALPHABET && SymbolBits([Symbol(bits)]) == bits
  {
    hide IndexIn, Symbol;
    ValueOfSymbol(bits);
    assert [Symbol(bits)][1..] == "" && [Symbol(bits)][0] == Symbol(bits);
    assert SymbolBits("") == [];
  }

  lemma LastGroup(bits: seq<bool>)
    requires 0 < |bits| < 5
    ensures InAlphabet(Symbols(bits)) && |Symbols(bits)| == 1
    ensures SymbolBits(Symbols(bits)) == bits + Zeros(5 - |bits|) && Padding(|bits|) == 5 - |bits|
  {
    hide Symbol, SymbolBits, IndexIn;
    SymbolsLast(bits);
    OneSymbol(bits + Zeros(5 - |bits|));
  }

  lemma {:induction false} SymbolBitsConcat(a: string, b: string)
    ensures SymbolBits(a + b) == SymbolBits(a) + SymbolBits(b)
  {
    hide CharBits;
    if a == "" {
      assert a + b == b;
    } else {
      assert (a + b)[1..] == a[1..] + b;
      SymbolBitsConcat(a[1..], b);
    }
  }

  lemma FirstGroup(bits: seq<bool>)
    requires |bits| >= 5
    requires var rest := bits[5..];
             InAlphabet(Symbols(rest)) && SymbolBits(Symbols(rest)) == rest + Zeros(Padding(|rest|))
             && 5 * |Symbols(rest)| == |rest| + Padding(|rest|)
    ensures InAlphabet(Symbols(bits)) && SymbolBits(Symbols(bits)) == bits + Zeros(Padding(|bits|))
    ensures 5 * |Symbols(bits)| == |bits| + Padding(|bits|)
  {
    hide Symbols, Symbol, SymbolBits, IndexIn;
    SymbolsFirst(bits);
    OneSymbol(bits[..5]);
    SymbolBitsConcat([Symbol(bits[..5])], Symbols(bits[5..]));
    assert bits == bits[..5] + bits[5..];
    assert Padding(|bits|) == Padding(|bits[5..]|);
  }

  lemma {:induction false} ByteBitsLength(bytes: seq<Byte>)
    ensures |ByteBits(bytes)| == 8 * |bytes|
  {
    if bytes != [] {
      ByteBitsLength(bytes[1..]);
    }
  }

  /** The encoding has as many symbols as groups of five bits are begun, all from the alphabet. */
  lemma EncodedLength(bytes: seq<Byte>)
    ensures |Encode(bytes)| == (8 * |bytes| + 4) / 5
    ensures InAlphabet(Encode(bytes))
  {
    SymbolsMeaning(ByteBits(bytes));
    ByteBitsLength(bytes);
  }

  /** Fewer than eight bits after the last byte are dropped. */
  lemma {:induction false} BytesOfByteBits(bytes: seq<Byte>, rest: seq<bool>)
    requires |rest| < 8
    ensures Bytes(ByteBits(bytes) + rest) == bytes
  {
    hide FromBits, ToBits;
    if bytes == [] {
      assert ByteBits(bytes) + rest == rest;
    } else {
      var bits := ByteBits(bytes) + rest;
      Masks();
      FromToBits(bytes[0], 8);
      BytesOfByteBits(bytes[1..], rest);
      assert bits[..8] == ToBits(bytes[0], 8) && bits[8..] == ByteBits(bytes[1..]) + rest;
      assert bytes == [bytes[0]] + bytes[1..];
    }
  }

  /** Decoding undoes encoding, on every byte sequence. */
  lemma RoundTrip(bytes: seq<Byte>)
    ensures DecodeClean(Encode(bytes)) == Ok(bytes)
  {
    hide Symbols, SymbolBits, Bytes, ByteBits, IndexIn;
    SymbolsMeaning(ByteBits(bytes));
    BytesOfByteBits(bytes, Zeros(Padding(|ByteBits(bytes)|)));
  }

  /* ---------- What decoding ignores ---------- */

  lemma {:induction false} CleanConcat(fold: Fold, a: string, b: string)
    ensures Clean(fold, a + b) == Clean(fold, a) + Clean(fold, b)
  {
    if a == "" {
      assert a + b == b;
    } else {
      assert (a + b)[1..] == a[1..] + b;
      CleanConcat(fold, a[1..], b);
    }
  }

  /** Any run of white space and `=` signs may stand anywhere in the text. */
  lemma {:induction false} IgnoredAnywhere(fold: Fold, a: string, ignored: string, b: string)
    requires forall i :: 0 <= i < |ignored| ==>
               (IsSpace(ignored[i]) || ignored[i] == '=') && (ignored[i] < '\U{80}' || fold(ignored[i]) == [ignored[i]])
    ensures Decode(fold, a + ignored + b) == Decode(fold, a + b)
  {
    hide DecodeClean;
    CleanIgnored(fold, ignored);
    CleanConcat(fold, a + ignored, b);
    CleanConcat(fold, a, ignored);
    CleanConcat(fold, a, b);
    assert Clean(fold, a) + "" == Clean(fold, a);
  }

  lemma {:induction false} CleanIgnored(fold: Fold, s: string)
    requires forall i :: 0 <= i < |s| ==>
               (IsSpace(s[i]) || s[i] == '=') && (s[i] < '\U{80}' || fold(s[i]) == [s[i]])
    ensures Clean(fold, s) == ""
  {
    if s != "" {
      CleanIgnored(fold, s[1..]);
      assert Upper(fold, s[0]) == [s[0]];
      assert [s[0]][1..] == "" && DropIgnored("") == "";
      assert DropIgnored([s[0]]) == "";
    }
  }

  /** `s` and `t` differ only in the case of ASCII letters. */
  ghost predicate SameButCase(s: string, t: string) {
    |s| == |t| && forall i :: 0 <= i < |s| ==>
      s[i] == t[i] || ('a' <= s[i] <= 'z' && t[i] as int == s[i] as int - 32)
          || ('a' <= t[i] <= 'z' && s[i] as int == t[i] as int - 32)
  }

  lemma {:induction false} CaseIgnored(fold: Fold, s: string, t: string)
    requires SameButCase(s, t)
    ensures Decode(fold, s) == Decode(fold, t)
  {
    hide DecodeClean;
    CleanCase(fold, s, t);
  }

  lemma {:induction false} CleanCase(fold: Fold, s: string, t: string)
    requires SameButCase(s, t)
    ensures Clean(fold, s) == Clean(fold, t)
  {
    if s != "" {
      CleanCase(fold, s[1..], t[1..]);
      assert Upper(fold, s[0]) == Upper(fold, t[0]);
    }
  }

  /** A letter of either case, or one of the digits used. */
  predicate IsSymbolAnyCase(c: char) {
    'A' <= c <= 'Z' || 'a' <= c <= 'z' || '2' <= c <= '7'
  }

  predicate IsIgnored(c: char) {
    IsSpace(c) || c == '='
  }

  /** A character that decoding does not accept, by itself or by one that upper-casing turns it into. */
  ghost predicate IsForeign(fold: Fold, c: char) {
    if c < '\U{80}' then !IsIgnored(c) && !IsSymbolAnyCase(c)
    else exists d :: d in fold(c) && !IsIgnored(d) && d !in ALPHABET
  }

  /** Decoding reports a format error exactly if some character is foreign. */
  lemma ErrorIff(fold: Fold, text: string)
    ensures Decode(fold, text).Err? <==> exists i :: 0 <= i < |text| && IsForeign(fold, text[i])
  {
    hide Clean, InAlphabet;
    CleanForeign(fold, text);
    assert DecodeClean(Clean(fold, text)).Err? <==> !InAlphabet(Clean(fold, text)) by {
      DecodeErrs(Clean(fold, text));
    }
  }

  lemma DecodeErrs(s: string)
    ensures DecodeClean(s).Err? <==> !InAlphabet(s)
  {
  }

  lemma {:induction false} CleanForeign(fold: Fold, text: string)
    ensures InAlphabet(Clean(fold, text)) <==> forall i :: 0 <= i < |text| ==> !IsForeign(fold, text[i])
  {
    hide IsForeign, Upper, DropIgnored;
    if text != "" {
      CleanForeign(fold, text[1..]);
      ForeignMeaning(fold, text[0]);
      var kept := DropIgnored(Upper(fold, text[0]));
      assert forall i :: 0 < i < |text| ==> text[i] == text[1..][i - 1];
      BothInAlphabet(kept, Clean(fold, text[1..]));
    }
  }

  lemma BothInAlphabet(a: string, b: string)
    ensures InAlphabet(a + b) <==> InAlphabet(a) && InAlphabet(b)
  {
    assert forall i :: 0 <= i < |a| ==> (a + b)[i] == a[i];
    assert forall i :: 0 <= i < |b| ==> (a + b)[|a| + i] == b[i];
  }

  lemma ForeignMeaning(fold: Fold, c: char)
    ensures InAlphabet(DropIgnored(Upper(fold, c))) <==> !IsForeign(fold, c)
  {
    KeptInAlphabet(Upper(fold, c));
    if c < '\U{80}' {
      hide DropIgnored, IsSpace;
      var d := Upper(fold, c)[0];
      AlphabetMeaning(d);
      LettersAreKept(c, d);
    }
  }

  lemma LettersAreKept(c: char, d: char)
    requires if 'a' <= c <= 'z' then d as int == c as int - 32 else d == c
    ensures (IsSpace(d) || d == '=') <==> (IsSpace(c) || c == '=')
    ensures IsSymbolAnyCase(c) <==> 'A' <= d <= 'Z' || '2' <= d <= '7'
  {
  }

  lemma AlphabetMeaning(c: char)
    ensures c in ALPHABET <==> 'A' <= c <= 'Z' || '2' <= c <= '7'
  {
    if c in ALPHABET {
      SymbolIsPlain(c);
    }
    AlphabetSize();
    if 'A' <= c <= 'Z' {
      AlphabetAt(c as int - 'A' as int);
      assert ALPHABET[c as int - 'A' as int] == c;
    } else if '2' <= c <= '7' {
      AlphabetAt(c as int - '2' as int + 26);
      assert ALPHABET[c as int - '2' as int + 26] == c;
    }
  }

  lemma {:induction false} KeptInAlphabet(s: string)
    ensures InAlphabet(DropIgnored(s)) <==> forall d :: d in s && !IsSpace(d) && d != '=' ==> d in ALPHABET
  {
    hide IsSpace;
    if s != "" {
      KeptInAlphabet(s[1..]);
      var head := if IsSpace(s[0]) || s[0] == '=' then "" else [s[0]];
      BothInAlphabet(head, DropIgnored(s[1..]));
      assert DropIgnored(s) == head + DropIgnored(s[1..]);
      hide DropIgnored;
      assert InAlphabet(head) <==> IsSpace(s[0]) || s[0] == '=' || s[0] in ALPHABET;
      FirstOrRest(s);
      hide InAlphabet;
    }
  }

  lemma FirstOrRest(s: string)
    requires s != ""
    ensures forall d :: d in s <==> d == s[0] || d in s[1..]
  {
    assert s == [s[0]] + s[1..];
  }

  /** A character beyond ASCII is read as the characters that upper-casing turns it into. */
  lemma FoldedAlike(fold: Fold, a: string, c: char, b: string)
    requires c >= '\U{80}' && forall d :: d in fold(c) ==> d < '\U{80}' && !('a' <= d <= 'z')
    ensures Decode(fold, a + [c] + b) == Decode(fold, a + fold(c) + b)
  {
    hide DecodeClean;
    CleanPlain(fold, fold(c));
    CleanConcat(fold, a + [c], b);
    CleanConcat(fold, a, [c]);
    CleanConcat(fold, a + fold(c), b);
    CleanConcat(fold, a, fold(c));
    assert [c][1..] == "" && DropIgnored(fold(c)) + "" == DropIgnored(fold(c));
  }

  lemma DropOne(c: char)
    ensures DropIgnored([c]) == if IsSpace(c) || c == '=' then "" else [c]
  {
    assert [c][1..] == "" && DropIgnored("") == "";
  }

  lemma {:induction false} CleanPlain(fold: Fold, s: string)
    requires forall d :: d in s ==> d < '\U{80}' && !('a' <= d <= 'z')
    ensures Clean(fold, s) == DropIgnored(s)
  {
    hide IsSpace;
    if s != "" {
      assert s[0] in s;
      FirstOrRest(s);
      CleanPlain(fold, s[1..]);
      DropOne(s[0]);
      assert Upper(fold, s[0]) == [s[0]];
    }
  }

  lemma {:induction false} CleanOfSymbols(fold: Fold, s: string)
    requires InAlphabet(s)
    ensures Clean(fold, s) == s
  {
    if s != "" {
      CleanOfSymbols(fold, s[1..]);
      SymbolIsPlain(s[0]);
      assert Upper(fold, s[0]) == [s[0]] && [s[0]][1..] == "";
      assert DropIgnored("") == "" && DropIgnored([s[0]]) == [s[0]];
    }
  }

  lemma SymbolIsPlain(c: char)
    requires c in ALPHABET
    ensures 'A' <= c <= 'Z' || '2' <= c <= '7'
    ensures !IsSpace(c) && c != '='
  {
    hide *;
    var i :| 0 <= i < |ALPHABET| && ALPHABET[i] == c;
    AlphabetSize();
    AlphabetAt(i);
    PlainIsKept(c);
  }

  lemma PlainIsKept(c: char)
    requires 'A' <= c <= 'Z' || '2' <= c <= '7'
    ensures !IsSpace(c) && c != '='
  {
  }

  /** The codec as called: encoding and then decoding gives the bytes back. */
  lemma DecodeOfEncode(fold: Fold, bytes: seq<Byte>)
    ensures Decode(fold, Encode(bytes)) == Ok(bytes)
  {
    hide Encode, DecodeClean, Clean, InAlphabet;
    EncodedLength(bytes);
    CleanOfSymbols(fold, Encode(bytes));
    RoundTrip(bytes);
  }

  /* ---------- What decoding loses ---------- */

  lemma {:induction false} SymbolBitsLength(s: string)
    ensures |SymbolBits(s)| == 5 * |s|
  {
    if s != "" {
      SymbolBitsLength(s[1..]);
    }
  }

  /** The whole bytes of a stream and the bits that are left over make the stream up. */
  lemma {:induction false} ByteBitsOfBytes(bits: seq<bool>)
    ensures ByteBits(Bytes(bits)) + bits[|bits| - |bits| % 8..] == bits
    ensures |Bytes(bits)| == |bits| / 8
  {
    hide FromBits, ToBits;
    if |bits| >= 8 {
      var rest := bits[8..];
      ByteBitsOfBytes(rest);
      ToFromBits(bits[..8]);
      Masks();
      assert Bytes(bits)[1..] == Bytes(rest);
      assert bits == bits[..8] + rest;
      assert bits[|bits| - |bits| % 8..] == rest[|rest| - |rest| % 8..];
      Assoc(bits[..8], ByteBits(Bytes(rest)), rest[|rest| - |rest| % 8..]);
    } else {
      assert bits[|bits| - |bits| % 8..] == bits;
    }
  }

  /** Two texts over the alphabet with the same bits are the same text. */
  lemma {:induction false} SymbolBitsInjective(s: string, t: string)
    requires InAlphabet(s) && InAlphabet(t) && SymbolBits(s) == SymbolBits(t)
    ensures s == t
  {
    hide CharBits;
    SymbolBitsLength(s);
    SymbolBitsLength(t);
    if s != "" {
      assert SymbolBits(s)[..5] == CharBits(s[0]) && SymbolBits(t)[..5] == CharBits(t[0]);
      assert SymbolBits(s)[5..] == SymbolBits(s[1..]) && SymbolBits(t)[5..] == SymbolBits(t[1..]);
      CharBitsInjective(s[0], t[0]);
      SymbolBitsInjective(s[1..], t[1..]);
      assert s == [s[0]] + s[1..] && t == [t[0]] + t[1..];
    }
  }

  lemma CharBitsInjective(c: char, d: char)
    requires c in ALPHABET && d in ALPHABET && CharBits(c) == CharBits(d)
    ensures c == d
  {
    hide ToBits, FromBits;
    AlphabetSize();
    Masks();
    FromToBits(Value(c), 5);
    FromToBits(Value(d), 5);
  }

  /** The bits decoding drops: those after the last whole byte. */
  function Dropped(s: string): seq<bool> {
    var bits := SymbolBits(s);
    bits[|bits| - |bits| % 8..]
  }

  /** Encoding restores a decoded text exactly when fewer than five bits were dropped and all were zero. */
  lemma CanonicalIff(s: string)
    requires InAlphabet(s)
    ensures DecodeClean(s).Ok?
    ensures Encode(DecodeClean(s).value) == s <==> |Dropped(s)| < 5 && Dropped(s) == Zeros(|Dropped(s)|)
  {
    hide Symbols, SymbolBits, ByteBits, Bytes, IndexIn;
    var bits := SymbolBits(s);
    var bytes, rest := Bytes(bits), Dropped(s);
    assert DecodeClean(s) == Ok(bytes);
    SymbolBitsLength(s);
    ByteBitsOfBytes(bits);
    ByteBitsLength(bytes);
    SymbolsMeaning(ByteBits(bytes));
    var pad := Padding(|ByteBits(bytes)|);
    assert SymbolBits(Encode(bytes)) == ByteBits(bytes) + Zeros(pad);
    assert bits == ByteBits(bytes) + rest;
    if Encode(bytes) == s {
      assert bits[|ByteBits(bytes)|..] == Zeros(pad) && bits[|ByteBits(bytes)|..] == rest;
    }
    if |rest| < 5 && rest == Zeros(|rest|) {
      assert pad == |rest|;
      SymbolBitsInjective(Encode(bytes), s);
    }
  }
}
