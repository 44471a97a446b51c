// Bytes, big-endian integers, and a byte source that arrives in arbitrary pieces.
module Bytes {
  import opened Text

  type Byte = b: int | 0 <= b < 256
  type U64 = n: int | 0 <= n < 0x1_0000_0000_0000_0000

  function Pow256(k: nat): (p: nat)
    ensures p > 0
  {
    if k == 0 then 1 else 256 * Pow256(k - 1)
  }

  // The `width` bytes of an unsigned integer, the most significant first
  function BigEndian(n: nat, width: nat): (b: seq<Byte>)
    ensures |b| == width
  {
    if width == 0 then [] else BigEndian(n / 256, width - 1) + [n % 256]
  }

  function FromBigEndian(b: seq<Byte>): (n: nat)
  {
    if b == [] then 0 else 256 * FromBigEndian(b[..|b| - 1]) + b[|b| - 1]
  }

  lemma {:induction false} FromBigEndianFits(b: seq<Byte>)
    ensures FromBigEndian(b) < Pow256(|b|)
  {
    if b != [] { FromBigEndianFits(b[..|b| - 1]); }
  }

  lemma {:induction false} BigEndianRoundTrip(n: nat, width: nat)
    requires n < Pow256(width)
    ensures FromBigEndian(BigEndian(n, width)) == n
  {
    if width > 0 {
      BigEndianRoundTrip(n / 256, width - 1);
      assert BigEndian(n, width)[..width - 1] == BigEndian(n / 256, width - 1);
    }
  }

  lemma {:induction false} FromBigEndianRoundTrip(b: seq<Byte>)
    ensures BigEndian(FromBigEndian(b), |b|) == b
  {
    if b != [] {
      FromBigEndianRoundTrip(b[..|b| - 1]);
      var n := FromBigEndian(b);
      assert n / 256 == FromBigEndian(b[..|b| - 1]) && n % 256 == b[|b| - 1];
    }
  }

  lemma Widths()
    ensures Pow256(2) == 0x1_0000 && Pow256(4) == 0x1_0000_0000 && Pow256(8) == 0x1_0000_0000_0000_0000
  {
    assert Pow256(1) == 256 && Pow256(3) == 0x100_0000;
    assert Pow256(5) == 0x100_0000_0000 && Pow256(6) == 0x1_0000_0000_0000 && Pow256(7) == 0x100_0000_0000_0000;
  }

  // Byte i counts the multiples of its power of 256.
  lemma {:induction false} BigEndianByte(n: nat, width: nat, i: nat)
    requires i < width
    ensures BigEndian(n, width)[i] == n / Pow256(width - 1 - i) % 256
  {
    if i == width - 1 {
      assert Pow256(0) == 1;
    } else {
      BigEndianByte(n / 256, width - 1, i);
      DivideTwice(n, Pow256(width - 2 - i));
    }
  }

  lemma DivideTwice(n: nat, p: nat)
    requires p > 0
    ensures n / 256 / p == n / (256 * p)
  {
    var a, q := n / 256, n / 256 / p;
    assert n == 256 * a + n % 256 && a == p * q + a % p;
    assert n == (256 * p) * q + (256 * (a % p) + n % 256);
    assert 256 * (a % p) + n % 256 < 256 * p;
    QuotientIs(n, 256 * p, q, 256 * (a % p) + n % 256);
  }

  lemma QuotientIs(n: nat, d: nat, q: nat, r: nat)
    requires n == d * q + r && r < d
    ensures n / d == q
  {
    var k := n / d;
    assert n == d * k + n % d;
    MultiplesGrow(d, q + 1, k);
    MultiplesGrow(d, k + 1, q);
  }

  lemma MultiplesGrow(d: nat, a: nat, b: nat)
    ensures a <= b ==> d * a <= d * b
  {
  }

  // ---- Pieces ----

  function Joined(pieces: seq<seq<Byte>>): seq<Byte> {
    if pieces == [] then [] else pieces[0] + Joined(pieces[1..])
  }

  // After the last piece the connection is closed, or reading fails.
  datatype Ending = Closed | Broken

  // What fill_buf hands out: buffered bytes, none at the end of a closed connection.
  datatype Filled = Buffer(bytes: seq<Byte>) | Failure

  class ByteSource {
    var pieces: seq<seq<Byte>>
    const ending: Ending

    constructor (pieces: seq<seq<Byte>>, ending: Ending)
      requires forall i :: 0 <= i < |pieces| ==> pieces[i] != []
      ensures Valid() && Pending() == Joined(pieces) && this.ending == ending
    {
      this.pieces := pieces;
      this.ending := ending;
    }

    ghost predicate Valid()
      reads this
    {
      forall i :: 0 <= i < |pieces| ==> pieces[i] != []
    }

    // All bytes still to be read, however they are cut.
    ghost function Pending(): seq<Byte>
      reads this
    {
      Joined(pieces)
    }

    method FillBuf() returns (r: Filled)
      requires Valid()
      ensures r.Failure? <==> Pending() == [] && ending == Broken
      ensures r.Buffer? ==> r.bytes <= Pending() && (r.bytes == [] <==> Pending() == [])
      ensures r.Buffer? && r.bytes != [] ==> pieces != [] && pieces[0] == r.bytes
    {
      if pieces == [] {
        r := if ending == Broken then Failure else Buffer([]);
      } else {
        r := Buffer(pieces[0]);
      }
    }

    method Consume(n: nat)
      requires Valid() && (n > 0 ==> pieces != [] && n <= |pieces[0]|)
      modifies this`pieces
      ensures Valid() && n <= |old(Pending())| && Pending() == old(Pending())[n..]
    {
      if n == 0 { return; }
      var first := pieces[0];
      if n == |first| {
        pieces := pieces[1..];
        assert old(Pending()) == first + Pending();
      } else {
        pieces := [first[n..]] + pieces[1..];
        assert pieces[1..] == old(pieces)[1..];
      }
    }

    // Fills a buffer of n bytes, or fails when the source ends before.
    method ReadExact(n: nat) returns (r: Option<seq<Byte>>)
      requires Valid()
      modifies this`pieces
      ensures Valid()
      ensures r.Some? <==> n <= |old(Pending())|
      ensures r.Some? ==> r.value == old(Pending())[..n] && Pending() == old(Pending())[n..]
    {
      var got: seq<Byte> := [];
      while |got| < n
        invariant Valid() && |got| <= n && |got| <= |old(Pending())|
        invariant got == old(Pending())[..|got|] && Pending() == old(Pending())[|got|..]
      {
        var filled := FillBuf();
        if filled.Failure? || filled.bytes == [] { return None; }
        var take := if |filled.bytes| < n - |got| then |filled.bytes| else n - |got|;
        got := got + filled.bytes[..take];
        Consume(take);
      }
      r := Some(got);
    }
  }
}
