// Unpadded base64url (RFC 4648, section 5) with the canonical trailing bits of section 3.5.
module Base64Url {
  import opened Text
  import opened Bytes

  type Sextet = n: int | 0 <= n < 64

  function Symbol(n: Sextet): char {
    if n < 26 then (n + 'A' as int) as char
    else if n < 52 then (n - 26 + 'a' as int) as char
    else if n < 62 then (n - 52 + '0' as int) as char
    else if n == 62 then '-' else '_'
  }

  function ValueOf(c: char): Option<Sextet> {
    if 'A' <= c <= 'Z' then Some(c as int - 'A' as int)
    else if 'a' <= c <= 'z' then Some(c as int - 'a' as int + 26)
    else if '0' <= c <= '9' then Some(c as int - '0' as int + 52)
    else if c == '-' then Some(62) else if c == '_' then Some(63) else None
  }

  lemma SymbolsAreInverse(n: Sextet, c: char)
    ensures ValueOf(Symbol(n)) == Some(n)
    ensures ValueOf(c).Some? ==> Symbol(ValueOf(c).value) == c
  {
  }

  function Encode(b: seq<Byte>): string {
    if b == [] then ""
    else if |b| == 1 then [Symbol(b[0] / 4), Symbol(b[0] % 4 * 16)]
    else if |b| == 2 then [Symbol(b[0] / 4), Symbol(b[0] % 4 * 16 + b[1] / 16), Symbol(b[1] % 16 * 4)]
    else
      [Symbol(b[0] / 4), Symbol(b[0] % 4 * 16 + b[1] / 16), Symbol(b[1] % 16 * 4 + b[2] / 64), Symbol(b[2] % 64)]
      + Encode(b[3..])
  }

  // Padding, foreign characters, an impossible length and non-zero trailing bits are errors.
  function Decode(t: string): Option<seq<Byte>> {
    if t == "" then Some([])
    else if |t| == 1 || ValueOf(t[0]).None? || ValueOf(t[1]).None? then None
    else
      var v0, v1 := ValueOf(t[0]).value, ValueOf(t[1]).value;
      if |t| == 2 then
        if v1 % 16 != 0 then None else Some([v0 * 4 + v1 / 16])
      else if ValueOf(t[2]).None? then None
      else
        var v2 := ValueOf(t[2]).value;
        if |t| == 3 then
          if v2 % 4 != 0 then None else Some([v0 * 4 + v1 / 16, v1 % 16 * 16 + v2 / 4])
        else if ValueOf(t[3]).None? then None
        else
          match Decode(t[4..])
          case None => None
          case Some(rest) => Some([v0 * 4 + v1 / 16, v1 % 16 * 16 + v2 / 4, v2 % 4 * 64 + ValueOf(t[3]).value] + rest)
  }

  // Three bytes are four sextets: the shifts and masks of both directions are inverse.
  lemma BytesToSextets(b0: Byte, b1: Byte, b2: Byte)
    ensures var v0, v1, v2, v3 := b0 / 4, b0 % 4 * 16 + b1 / 16, b1 % 16 * 4 + b2 / 64, b2 % 64;
            && v0 < 64 && v1 < 64 && v2 < 64 && v3 < 64
            && v0 * 4 + v1 / 16 == b0 && v1 % 16 * 16 + v2 / 4 == b1 && v2 % 4 * 64 + v3 == b2
  {
  }

  lemma SextetsToBytes(v0: Sextet, v1: Sextet, v2: Sextet, v3: Sextet)
    ensures var b0, b1, b2 := v0 * 4 + v1 / 16, v1 % 16 * 16 + v2 / 4, v2 % 4 * 64 + v3;
            && b0 < 256 && b1 < 256 && b2 < 256
            && b0 / 4 == v0 && b0 % 4 * 16 + b1 / 16 == v1 && b1 % 16 * 4 + b2 / 64 == v2 && b2 % 64 == v3
  {
  }

  // ---- The encoding, bit by bit ----

  const ALPHABET := UPPER_CASE + LOWER_CASE + "0123456789-_"

  const WEIGHTS := [128, 64, 32, 16, 8, 4, 2, 1]

  // Bit i of a byte string, the most significant of each byte first; zero beyond its end
  function Bit(b: seq<Byte>, i: nat): (bit: nat)
    ensures bit < 2
  {
    if i / 8 < |b| then b[i / 8] / WEIGHTS[i % 8] % 2 else 0
  }

  function SixBits(b: seq<Byte>, i: nat): (n: nat)
    ensures n < 64
  {
    32 * Bit(b, i) + 16 * Bit(b, i + 1) + 8 * Bit(b, i + 2) + 4 * Bit(b, i + 3) + 2 * Bit(b, i + 4) + Bit(b, i + 5)
  }

  lemma SymbolsFollowTheAlphabet(n: Sextet)
    ensures |ALPHABET| == 64 && Symbol(n) == ALPHABET[n]
  {
    LettersAreConsecutive();
  }

  // Section 4 of RFC 4648: symbol k stands for bits 6k to 6k + 5, the unused ones zero.
  lemma {:induction false} EncodedBits(b: seq<Byte>, k: nat)
    requires k < |Encode(b)|
    ensures Encode(b)[k] == Symbol(SixBits(b, 6 * k))
    ensures 6 * k < 8 * |b| <= 6 * |Encode(b)|
    decreases |b|
  {
    hide Symbol, SixBits, Encode;
    EncodedLength(b);
    if k < 4 {
      FirstBits(b, k);
    } else {
      BlocksAreIndependent(b, k);
      EncodedBits(b[3..], k - 4);
      BitsMove(b, 6 * (k - 4));
    }
  }

  lemma {:induction false} BlocksAreIndependent(b: seq<Byte>, k: nat)
    requires 4 <= k < |Encode(b)|
    ensures |b| > 2 && k - 4 < |Encode(b[3..])| && Encode(b)[k] == Encode(b[3..])[k - 4]
  {
    hide Symbol;
  }

  lemma {:induction false} EncodedLength(b: seq<Byte>)
    ensures 8 * |b| <= 6 * |Encode(b)| < 8 * |b| + 6
  {
    if |b| > 2 { EncodedLength(b[3..]); }
  }

  lemma BitsMove(b: seq<Byte>, i: nat)
    requires |b| >= 3
    ensures SixBits(b, i + 24) == SixBits(b[3..], i)
  {
    hide Bit;
    BitMoves(b, i);
    BitMoves(b, i + 1);
    BitMoves(b, i + 2);
    BitMoves(b, i + 3);
    BitMoves(b, i + 4);
    BitMoves(b, i + 5);
  }

  lemma BitMoves(b: seq<Byte>, i: nat)
    requires |b| >= 3
    ensures Bit(b, i + 24) == Bit(b[3..], i)
  {
  }

  lemma FirstBits(b: seq<Byte>, k: nat)
    requires k < 4 && k < |Encode(b)|
    ensures Encode(b)[k] == Symbol(SixBits(b, 6 * k))
  {
    hide Symbol, SixBits;
    FirstSextets(b);
  }

  lemma FirstSextets(b: seq<Byte>)
    requires b != []
    ensures var x, y, z := b[0], if |b| > 1 then b[1] else 0, if |b| > 2 then b[2] else 0;
            && SixBits(b, 0) == x / 4 && SixBits(b, 6) == x % 4 * 16 + y / 16
            && SixBits(b, 12) == y % 16 * 4 + z / 64 && SixBits(b, 18) == z % 64
  {
    hide Bit;
    ByteIsItsBits(b, 0);
    ByteIsItsBits(b, 1);
    ByteIsItsBits(b, 2);
  }

  // Byte n in terms of its bits
  lemma ByteIsItsBits(b: seq<Byte>, n: nat)
    ensures var x, i := if n < |b| then b[n] else 0, 8 * n;
            && x / 64 == 2 * Bit(b, i) + Bit(b, i + 1)
            && x / 16 == 4 * (x / 64) + 2 * Bit(b, i + 2) + Bit(b, i + 3)
            && x / 4 == 4 * (x / 16) + 2 * Bit(b, i + 4) + Bit(b, i + 5)
            && x == 4 * (x / 4) + 2 * Bit(b, i + 6) + Bit(b, i + 7)
  {
    hide Bit;
    var x, i := if n < |b| then b[n] else 0, 8 * n;
    BitOfByte(b, n, 0);
    BitOfByte(b, n, 1);
    BitOfByte(b, n, 2);
    BitOfByte(b, n, 3);
    BitOfByte(b, n, 4);
    BitOfByte(b, n, 5);
    BitOfByte(b, n, 6);
    BitOfByte(b, n, 7);
    BytesAreBits(x);
  }

  lemma BitOfByte(b: seq<Byte>, n: nat, r: nat)
    requires r < 8
    ensures Bit(b, 8 * n + r) == (if n < |b| then b[n] else 0) / WEIGHTS[r] % 2
  {
    assert (8 * n + r) / 8 == n && (8 * n + r) % 8 == r;
  }

  lemma BytesAreBits(x: Byte)
    ensures x / 64 == 2 * (x / 128 % 2) + x / 64 % 2
    ensures x / 16 == 4 * (x / 64) + 2 * (x / 32 % 2) + x / 16 % 2
    ensures x / 4 == 4 * (x / 16) + 2 * (x / 8 % 2) + x / 4 % 2
    ensures x == 4 * (x / 4) + 2 * (x / 2 % 2) + x % 2
  {
    ShiftsAdd(x);
    TwoBits(x);
    TwoBits(x / 4);
    TwoBits(x / 16);
    TwoBits(x / 64);
  }

  lemma TwoBits(q: nat)
    ensures q == 4 * (q / 4) + 2 * (q / 2 % 2) + q % 2
  {
  }

  lemma ShiftsAdd(x: Byte)
    ensures x / 4 / 2 == x / 8 && x / 4 / 4 == x / 16
    ensures x / 16 / 2 == x / 32 && x / 16 / 4 == x / 64
    ensures x / 64 / 2 == x / 128 && x / 64 / 4 == 0
  {
  }

  // ---- Decoding inverts it ----

  lemma {:induction false} DecodeEncoded(b: seq<Byte>)
    ensures Decode(Encode(b)) == Some(b)
  {
    hide Symbol, ValueOf;
    if |b| > 2 {
      DecodeEncoded(b[3..]);
      BlockIsDecoded(b);
    } else if b != [] {
      LastBytesAreDecoded(b);
    }
  }

  lemma {:induction false} BlockIsDecoded(b: seq<Byte>)
    requires |b| > 2 && Decode(Encode(b[3..])) == Some(b[3..])
    ensures Decode(Encode(b)) == Some(b)
  {
    hide Symbol, ValueOf;
    BytesToSextets(b[0], b[1], b[2]);
    SymbolsAreInverse(b[0] / 4, ' ');
    SymbolsAreInverse(b[0] % 4 * 16 + b[1] / 16, ' ');
    SymbolsAreInverse(b[1] % 16 * 4 + b[2] / 64, ' ');
    SymbolsAreInverse(b[2] % 64, ' ');
    assert Encode(b)[4..] == Encode(b[3..]);
    assert b == [b[0], b[1], b[2]] + b[3..];
  }

  lemma {:induction false} LastBytesAreDecoded(b: seq<Byte>)
    requires 0 < |b| < 3
    ensures Decode(Encode(b)) == Some(b)
  {
    hide Symbol, ValueOf;
    var b1 := if |b| > 1 then b[1] else 0;
    SymbolsAreInverse(b[0] / 4, ' ');
    SymbolsAreInverse(b[0] % 4 * 16 + b1 / 16, ' ');
    if |b| == 2 {
      LastBlock(b[1]);
      SymbolsAreInverse(b[1] % 16 * 4, ' ');
      assert (b[0] % 4 * 16 + b[1] / 16) / 16 == b[0] % 4 && (b[0] % 4 * 16 + b[1] / 16) % 16 == b[1] / 16;
      assert b == [b[0], b[1]];
    } else {
      LastBlock(b[0]);
      assert b == [b[0]];
    }
  }

  // The unused bits of the last symbol are zero.
  lemma LastBlock(b: Byte)
    ensures b % 16 * 4 % 4 == 0 && b % 16 * 4 / 4 == b % 16
    ensures b % 4 * 16 % 16 == 0 && b % 4 * 16 / 16 == b % 4
  {
  }

  lemma {:induction false} EncodeDecoded(t: string)
    requires Decode(t).Some?
    ensures Encode(Decode(t).value) == t
    decreases |t|, 1
  {
    hide Symbol, ValueOf;
    if t != "" {
      forall i | 0 <= i < |t| && ValueOf(t[i]).Some? ensures Symbol(ValueOf(t[i]).value) == t[i] {
        SymbolsAreInverse(0, t[i]);
      }
      if |t| > 3 {
        FullBlock(t);
      } else if |t| == 3 {
        SextetsToBytes(ValueOf(t[0]).value, ValueOf(t[1]).value, ValueOf(t[2]).value, 0);
      } else {
        SextetsToBytes(ValueOf(t[0]).value, ValueOf(t[1]).value, 0, 0);
      }
    }
  }

  lemma {:induction false} FullBlock(t: string)
    requires |t| > 3 && Decode(t).Some?
    ensures Encode(Decode(t).value) == t
    decreases |t|, 0
  {
    hide Symbol, ValueOf;
    SymbolsAreInverse(0, t[0]);
    SymbolsAreInverse(0, t[1]);
    SymbolsAreInverse(0, t[2]);
    SymbolsAreInverse(0, t[3]);
    SextetsToBytes(ValueOf(t[0]).value, ValueOf(t[1]).value, ValueOf(t[2]).value, ValueOf(t[3]).value);
    EncodeDecoded(t[4..]);
    assert Decode(t).value[3..] == Decode(t[4..]).value;
    assert t == [t[0], t[1], t[2], t[3]] + t[4..];
  }

  predicate IsSymbol(c: char) {
    'A' <= c <= 'Z' || 'a' <= c <= 'z' || '0' <= c <= '9' || c == '-' || c == '_'
  }

  predicate InAlphabet(t: string) {
    forall i :: 0 <= i < |t| ==> IsSymbol(t[i])
  }

  // decode_canonical_base64url
  function DecodeCanonical(text: string, expected: nat): Option<seq<Byte>> {
    var value := Trim(text);
    if value == "" || !InAlphabet(value) then None
    else
      match Decode(value)
      case None => None
      case Some(decoded) => if |decoded| != expected || Encode(decoded) != value then None else Some(decoded)
  }

  lemma SymbolsAreSymbols(n: Sextet)
    ensures IsSymbol(Symbol(n))
  {
  }

  lemma AlphabetHasNoSpaces(t: string)
    requires InAlphabet(t)
    ensures IsTrimmed(t)
  {
    assert t != "" ==> IsSymbol(t[0]) && IsSymbol(t[|t| - 1]);
  }

  lemma {:induction false} EncodedAlphabet(b: seq<Byte>)
    ensures InAlphabet(Encode(b)) && (b != [] ==> Encode(b) != "")
  {
    hide Symbol, IsSymbol;
    forall n: Sextet ensures IsSymbol(Symbol(n)) { SymbolsAreSymbols(n); }
    if |b| > 2 { EncodedAlphabet(b[3..]); }
  }

  // After trimming, the accepted texts are exactly the encodings of the byte strings of the
  // expected length: one text per byte string and one byte string per text.
  lemma CanonicalIff(text: string, expected: nat, b: seq<Byte>)
    ensures DecodeCanonical(text, expected) == Some(b) <==> |b| == expected && b != [] && Trim(text) == Encode(b)
  {
    if DecodeCanonical(text, expected) == Some(b) {
      EncodeDecoded(Trim(text));
    }
    if |b| == expected && b != [] && Trim(text) == Encode(b) {
      DecodeEncoded(b);
      EncodedAlphabet(b);
      AlphabetHasNoSpaces(Encode(b));
    }
  }

  // The comparison with the re-encoded text rejects nothing the strict decoder accepts.
  lemma ReencodingNeverRejects(text: string, expected: nat)
    requires Trim(text) != "" && Decode(Trim(text)).Some?
    ensures DecodeCanonical(text, expected).Some? <==> |Decode(Trim(text)).value| == expected
  {
    EncodeDecoded(Trim(text));
    EncodedAlphabet(Decode(Trim(text)).value);
  }
}
