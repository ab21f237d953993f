/** `base32Encode` and `base32Decode` of `lib/admin/admin-totp.js`, against section 6 of RFC 4648. */
module Base32 {
  import opened Options
  import opened BitArithmetic
  import opened CharClasses

  type Byte = b: nat | b < 256

  const ALPHABET := "ABCDEFGHIJKLMNOPQRSTUVWXYZ234567"

  lemma AlphabetSize()
    ensures |ALPHABET| == 32
  {
  }

  /** The 40 bit groups of the RFC as one stream: the bits of the bytes, in order. */
  function ByteBits(bytes: seq<Byte>): seq<bool> {
    if bytes == [] then [] else ToBits(bytes[0], 8) + ByteBits(bytes[1..])
  }

  function Zeros(n: nat): seq<bool> {
    seq(n, _ => false)
  }

  function Symbol(bits: seq<bool>): (c: char)
    requires |bits| == 5
  {
    AlphabetSize();
    ToFromBits(bits);
    Masks();
    ALPHABET[FromBits(bits)]
  }

  /** The symbols of a bit stream: five bits each, the last group filled up with zeros. */
  function Symbols(bits: seq<bool>): string {
    if bits == [] then ""
    else if |bits| < 5 then [Symbol(bits + Zeros(5 - |bits|))]
    else [Symbol(bits[..5])] + Symbols(bits[5..])
  }

  function Encode(bytes: seq<Byte>): string {
    Symbols(ByteBits(bytes))
  }

  /** The symbol `ALPHABET[(value >>> (bits - 5)) & 31]`. */
  lemma TakeSymbol(value: nat, bits: nat)
    requires bits >= 5
    ensures BitAnd(Shr(value, bits - 5), 31) < 32
    ensures ALPHABET[BitAnd(Shr(value, bits - 5), 31)] == Symbol(ToBits(value, bits)[..5])
    ensures ToBits(value, bits)[5..] == ToBits(value, bits - 5)
  {
    var v := Shr(value, bits - 5);
    Masks();
    AndOnes(v, 5);
    ToBitsLow(v, 5, 5);
    FromToBits(Low(v, 5), 5);
    ToBitsShr(value, bits - 5, 5);
    assert ToBits(value, bits)[..5] == ToBits(v, 5);
  }

  /** `value = (value << 8) | byte` appends the byte's bits to the pending ones. */
  lemma PushByte(value: nat, bits: nat, byte: Byte)
    requires bits <= 24
    ensures ToBits(BitOr(Shl(value, 8), byte), bits + 8) == ToBits(value, bits) + ToBits(byte, 8)
  {
    Masks();
    LowDouble(value, 8, 32);
    OrIntoVacated(Low(value, 24), byte, 8);
    ToBitsAppend(Low(value, 24), byte, bits, 8);
    ToBitsLow(value, 24, bits);
  }

  lemma LastBits(value: nat, bits: nat)
    requires bits < 5
    ensures Low(Shl(value, 5 - bits), 5) == FromBits(ToBits(value, bits) + Zeros(5 - bits))
  {
    var v := Shl(value, 5 - bits);
    FromToBits(Low(v, 5), 5);
    ToBitsLow(v, 5, 5);
    ToBitsLow(Double(value, 5 - bits), 32, 5);
    ZeroBits(5 - bits);
    ToBitsAppend(value, 0, bits, 5 - bits);
  }

  lemma SymbolsLast(bits: seq<bool>)
    requires 0 < |bits| < 5
    ensures Symbols(bits) == [Symbol(bits + Zeros(5 - |bits|))]
  {
  }

  lemma SymbolsFirst(bits: seq<bool>)
    requires |bits| >= 5
    ensures Symbols(bits) == [Symbol(bits[..5])] + Symbols(bits[5..])
  {
  }

  /** The last symbol `ALPHABET[(value << (5 - bits)) & 31]`. */
  lemma LastSymbol(value: nat, bits: nat)
    requires 0 < bits < 5
    ensures BitAnd(Shl(value, 5 - bits), 31) < 32
    ensures [ALPHABET[BitAnd(Shl(value, 5 - bits), 31)]] == Symbols(ToBits(value, bits))
  {
    hide Symbols, Shl, ToBits, FromBits, BitAnd, Low;
    Masks();
    AndOnes(Shl(value, 5 - bits), 5);
    LastBits(value, bits);
    SymbolsLast(ToBits(value, bits));
  }

  lemma {:induction false} ZeroBits(n: nat)
    ensures ToBits(0, n) == Zeros(n) && 0 < Pow2(n)
  {
    if n > 0 {
      ZeroBits(n - 1);
    }
  }

  /** One byte moves from the input to the pending bits. */
  lemma ByteStep(value: nat, bits: nat, buf: seq<Byte>, i: nat)
    requires bits <= 24 && i < |buf|
    ensures ToBits(value, bits) + ByteBits(buf[i..]) ==
            ToBits(BitOr(Shl(value, 8), buf[i]), bits + 8) + ByteBits(buf[i + 1..])
  {
    hide Shl, BitOr, ToBits;
    PushByte(value, bits, buf[i]);
    assert buf[i..][1..] == buf[i + 1..];
  }

  /** Five pending bits move to the output. */
  lemma SymbolStep(value: nat, bits: nat, rest: seq<bool>)
    requires bits >= 5
    ensures BitAnd(Shr(value, bits - 5), 31) < 32
    ensures Symbols(ToBits(value, bits) + rest) ==
            [ALPHABET[BitAnd(Shr(value, bits - 5), 31)]] + Symbols(ToBits(value, bits - 5) + rest)
  {
    hide Symbols, Shr, ToBits, BitAnd;
    TakeSymbol(value, bits);
    var pending := ToBits(value, bits);
    assert (pending + rest)[..5] == pending[..5] && (pending + rest)[5..] == pending[5..] + rest;
    SymbolsFirst(pending + rest);
  }

  lemma EncodeEnds(buf: seq<Byte>, bits: seq<bool>)
    ensures Symbols(ToBits(0, 0) + ByteBits(buf[0..])) == Encode(buf)
    ensures Symbols(bits + ByteBits(buf[|buf|..])) == Symbols(bits) && Symbols([]) == ""
  {
    assert buf[0..] == buf && buf[|buf|..] == [] && ToBits(0, 0) == [];
    assert [] + ByteBits(buf) == ByteBits(buf) && bits + [] == bits;
  }

  method Base32Encode(buf: seq<Byte>) returns (out: string)
    ensures out == Encode(buf)
  {
    hide Symbols, Encode, ByteBits, BitOr, BitAnd, Shl, Shr;
    out := "";
    var bits: nat, value: nat := 0, 0;
    EncodeEnds(buf, []);
    for i := 0 to |buf|
      invariant bits < 5
      invariant out + Symbols(ToBits(value, bits) + ByteBits(buf[i..])) == Encode(buf)
    {
      ByteStep(value, bits, buf, i);
      value := BitOr(Shl(value, 8), buf[i]);
      bits := bits + 8;
      while bits >= 5
        invariant out + Symbols(ToBits(value, bits) + ByteBits(buf[i + 1..])) == Encode(buf)
      {
        SymbolStep(value, bits, ByteBits(buf[i + 1..]));
        out := out + [ALPHABET[BitAnd(Shr(value, bits - 5), 31)]];
        bits := bits - 5;
      }
    }
    EncodeEnds(buf, ToBits(value, bits));
    if bits > 0 {
      LastSymbol(value, bits);
      out := out + [ALPHABET[BitAnd(Shl(value, 5 - bits), 31)]];
    } else {
      assert ToBits(value, bits) == [];
    }
  }

  /* ---------- Decoding ---------- */

  /** `BASE32_ALPHABET.indexOf(c)`. */
  function IndexIn(s: string, c: char): (i: int)
    ensures -1 <= i < |s|
    ensures i >= 0 ==> s[i] == c && c !in s[..i]
    ensures i == -1 <==> c !in s
  {
    if s == "" then -1
    else if s[0] == c then 0
    else
      var i := IndexIn(s[1..], c);
      assert s == [s[0]] + s[1..];
      assert i >= 0 ==> s[..i + 1] == [s[0]] + s[1..][..i];
      if i == -1 then -1 else i + 1
  }

  function Value(c: char): int {
    IndexIn(ALPHABET, c)
  }

  ghost predicate InAlphabet(s: string) {
    forall i :: 0 <= i < |s| ==> s[i] in ALPHABET
  }

  lemma ValueOfSymbol(bits: seq<bool>)
    requires |bits| == 5
    ensures Symbol(bits) in ALPHABET && ToBits(Value(Symbol(bits)), 5) == bits
  {
    ToFromBits(bits);
    Masks();
    AlphabetDistinct(FromBits(bits));
  }

  /** No symbol occurs twice in the alphabet. */
  lemma AlphabetDistinct(i: nat)
    requires i < 32
    ensures Value(ALPHABET[i]) == i
  {
    var j := Value(ALPHABET[i]);
    assert ALPHABET[j] == ALPHABET[i];
    AlphabetAt(i);
    AlphabetAt(j);
  }

  lemma AlphabetAt(i: nat)
    requires i < 32
    ensures ALPHABET[i] as int == if i < 26 then 'A' as int + i else '2' as int + i - 26
  {
  }

  /** The five bits a symbol stands for. */
  function CharBits(c: char): (r: seq<bool>)
    ensures |r| == 5
  {
    ToBits(if Value(c) < 0 then 0 else Value(c), 5)
  }

  /** The bits the symbols stand for. */
  function SymbolBits(s: string): seq<bool> {
    if s == "" then [] else CharBits(s[0]) + SymbolBits(s[1..])
  }

  /** The whole bytes of a bit stream; what is left over is dropped. */
  function Bytes(bits: seq<bool>): seq<Byte> {
    if |bits| < 8 then []
    else
      ToFromBits(bits[..8]);
      Masks();
      [FromBits(bits[..8])] + Bytes(bits[8..])
  }

  datatype TotpFormatError = TotpFormatError

  /** Decoding of text already cleaned. */
  function DecodeClean(s: string): Result<seq<Byte>, TotpFormatError> {
    if exists i :: 0 <= i < |s| && s[i] !in ALPHABET then Err(TotpFormatError) else Ok(Bytes(SymbolBits(s)))
  }

  /** What `toUpperCase` makes of characters beyond ASCII. */
  type Fold = char -> string

  function Upper(fold: Fold, c: char): string {
    if 'a' <= c <= 'z' then [(c as int - 32) as char]
    else if c < '\U{80}' then [c]
    else fold(c)
  }

  function DropIgnored(s: string): string {
    if s == "" then ""
    else (if IsSpace(s[0]) || s[0] == '=' then "" else [s[0]]) + DropIgnored(s[1..])
  }

  /** `text.toUpperCase().replace(/[\s=]/g, "")`. */
  function Clean(fold: Fold, text: string): string {
    if text == "" then "" else DropIgnored(Upper(fold, text[0])) + Clean(fold, text[1..])
  }

  function Decode(fold: Fold, text: string): Result<seq<Byte>, TotpFormatError> {
    DecodeClean(Clean(fold, text))
  }

  /** `value = ((value << 5) | idx) & 0xffff` appends the symbol's bits to the pending ones. */
  lemma PushSymbol(value: nat, bits: nat, idx: nat)
    requires bits <= 11 && idx < 32
    ensures ToBits(BitAnd(BitOr(Shl(value, 5), idx), 0xffff), bits + 5) == ToBits(value, bits) + ToBits(idx, 5)
  {
    Masks();
    LowDouble(value, 5, 32);
    OrIntoVacated(Low(value, 27), idx, 5);
    var v := BitOr(Shl(value, 5), idx);
    AndOnes(v, 16);
    ToBitsLow(v, 16, bits + 5);
    ToBitsAppend(Low(value, 27), idx, bits, 5);
    ToBitsLow(value, 27, bits);
  }

  /** The byte `(value >>> (bits - 8)) & 0xff`. */
  lemma TakeByte(value: nat, bits: nat)
    requires bits >= 8
    ensures BitAnd(Shr(value, bits - 8), 0xff) < 256
    ensures BitAnd(Shr(value, bits - 8), 0xff) == FromBits(ToBits(value, bits)[..8])
    ensures ToBits(value, bits)[8..] == ToBits(value, bits - 8)
  {
    var v := Shr(value, bits - 8);
    Masks();
    AndOnes(v, 8);
    ToBitsLow(v, 8, 8);
    FromToBits(Low(v, 8), 8);
    ToBitsShr(value, bits - 8, 8);
    assert ToBits(value, bits)[..8] == ToBits(v, 8);
  }

  lemma SymbolReadStep(value: nat, bits: nat, s: string, i: nat)
    requires bits <= 11 && i < |s| && Value(s[i]) >= 0
    ensures ToBits(value, bits) + SymbolBits(s[i..]) ==
            ToBits(BitAnd(BitOr(Shl(value, 5), Value(s[i])), 0xffff), bits + 5) + SymbolBits(s[i + 1..])
  {
    hide *;
    PushChar(value, bits, s[i]);
    SymbolBitsAt(s, i);
    Assoc(ToBits(value, bits), CharBits(s[i]), SymbolBits(s[i + 1..]));
  }

  lemma SymbolBitsAt(s: string, i: nat)
    requires i < |s|
    ensures SymbolBits(s[i..]) == CharBits(s[i]) + SymbolBits(s[i + 1..])
  {
    hide CharBits;
    assert s[i..][1..] == s[i + 1..];
  }

  lemma Assoc(a: seq<bool>, b: seq<bool>, c: seq<bool>)
    ensures a + (b + c) == (a + b) + c
  {
  }

  lemma PushChar(value: nat, bits: nat, c: char)
    requires bits <= 11 && Value(c) >= 0
    ensures ToBits(BitAnd(BitOr(Shl(value, 5), Value(c)), 0xffff), bits + 5) == ToBits(value, bits) + CharBits(c)
  {
    hide Shl, BitOr, BitAnd, ToBits, IndexIn;
    AlphabetSize();
    PushSymbol(value, bits, Value(c));
  }

  lemma ByteWriteStep(value: nat, bits: nat, rest: seq<bool>)
    requires bits >= 8
    ensures BitAnd(Shr(value, bits - 8), 0xff) < 256
    ensures Bytes(ToBits(value, bits) + rest) ==
            [BitAnd(Shr(value, bits - 8), 0xff)] + Bytes(ToBits(value, bits - 8) + rest)
  {
    hide Shr, ToBits, BitAnd;
    TakeByte(value, bits);
    var pending := ToBits(value, bits);
    assert (pending + rest)[..8] == pending[..8] && (pending + rest)[8..] == pending[8..] + rest;
  }

  lemma DecodeEnds(s: string, bits: seq<bool>)
    ensures ToBits(0, 0) + SymbolBits(s[0..]) == SymbolBits(s)
    ensures |bits| < 8 ==> Bytes(bits + SymbolBits(s[|s|..])) == []
  {
    hide CharBits;
    assert s[0..] == s && ToBits(0, 0) == [] && [] + SymbolBits(s) == SymbolBits(s);
    assert s[|s|..] == "" && bits + [] == bits;
  }

  lemma DecodeCases(s: string)
    ensures (exists i :: 0 <= i < |s| && Value(s[i]) < 0) ==> DecodeClean(s) == Err(TotpFormatError)
    ensures (forall i :: 0 <= i < |s| ==> Value(s[i]) >= 0) ==> DecodeClean(s) == Ok(Bytes(SymbolBits(s)))
  {
    hide IndexIn, Bytes, SymbolBits;
  }

  method Base32Decode(fold: Fold, text: string) returns (result: Result<seq<Byte>, TotpFormatError>)
    ensures result == Decode(fold, text)
  {
    hide SymbolBits, Bytes, BitOr, BitAnd, Shl, Shr, ToBits, Clean, Value, DecodeClean;
    var clean := Clean(fold, text);
    var bytes: seq<Byte> := [];
    var bits: nat, value: nat := 0, 0;
    DecodeEnds(clean, []);
    DecodeCases(clean);
    for i := 0 to |clean|
      invariant bits < 8
      invariant forall j :: 0 <= j < i ==> Value(clean[j]) >= 0
      invariant bytes + Bytes(ToBits(value, bits) + SymbolBits(clean[i..])) == Bytes(SymbolBits(clean))
    {
      var idx := Value(clean[i]);
      if idx < 0 {
        return Err(TotpFormatError);
      }
      SymbolReadStep(value, bits, clean, i);
      value := BitAnd(BitOr(Shl(value, 5), idx), 0xffff);
      bits := bits + 5;
      if bits >= 8 {
        ByteWriteStep(value, bits, SymbolBits(clean[i + 1..]));
        bytes := bytes + [BitAnd(Shr(value, bits - 8), 0xff)];
        bits := bits - 8;
      }
    }
    DecodeEnds(clean, ToBits(value, bits));
    assert bytes + [] == bytes;
    result := Ok(bytes);
  }
}
