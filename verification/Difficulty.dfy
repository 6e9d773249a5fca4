/** sha256ToAscii and the difficulty test of the miner. */
module Difficulty {
  import opened Bytes
  import opened Arithmetic

  function HexChar(n: int): Byte
    requires 0 <= n < 16
  {
    if n < 10 then n + 48 else n - 10 + 97
  }

  /** Two lower-case hexadecimal characters for each byte, high half first. */
  function Hex(d: seq<Byte>): (s: CString)
    ensures |s| == 2 * |d|
  {
    seq(2 * |d|, i requires 0 <= i < 2 * |d| => HexChar(if i % 2 == 0 then d[i / 2] / 16 else d[i / 2] % 16))
  }

  // sha256ToAscii
  method ToAscii(hash: Digest) returns (buf: array<Byte>)
    ensures fresh(buf) && buf[..] == Hex(hash)
  {
    buf := new Byte[64];
    for i := 0 to 32
      invariant forall k | 0 <= k < 2 * i :: buf[k] == Hex(hash)[k]
    {
      var byte := hash[i];
      var var1 := byte / 16;
      var var2 := byte % 16;
      if var1 < 10 {
        buf[i * 2] := var1 + 48;
      } else {
        buf[i * 2] := var1 - 10 + 97;
      }
      if var2 < 10 {
        buf[i * 2 + 1] := var2 + 48;
      } else {
        buf[i * 2 + 1] := var2 - 10 + 97;
      }
    }
  }

  lemma HexInjective(a: seq<Byte>, b: seq<Byte>)
    requires Hex(a) == Hex(b)
    ensures a == b
  {
    assert |a| == |b|;
    forall i | 0 <= i < |a|
      ensures a[i] == b[i]
    {
      assert Hex(a)[2 * i] == Hex(b)[2 * i] && Hex(a)[2 * i + 1] == Hex(b)[2 * i + 1];
      assert (2 * i + 1) / 2 == i;
    }
  }

  /** What a lower-case hexadecimal character stands for. */
  function Digit(c: Byte): int {
    if 48 <= c <= 57 then c - 48 else if 97 <= c <= 102 then c - 87 else -1
  }

  /** Characters 2i and 2i + 1 are the high and the low half of byte i. */
  lemma HexReads(d: seq<Byte>, i: nat)
    requires i < |d|
    ensures 0 <= Digit(Hex(d)[2 * i]) < 16 && 0 <= Digit(Hex(d)[2 * i + 1]) < 16
    ensures 16 * Digit(Hex(d)[2 * i]) + Digit(Hex(d)[2 * i + 1]) == d[i]
  {
    assert (2 * i + 1) / 2 == i;
  }

  /** A digest read as one big-endian integer. */
  function BigEndianValue(d: seq<Byte>): nat {
    if d == [] then 0 else 256 * BigEndianValue(d[..|d| - 1]) + d[|d| - 1]
  }

  function Pow16(k: nat): (r: nat)
    ensures r > 0
  {
    if k == 0 then 1 else if k == 1 then 16 else 256 * Pow16(k - 2)
  }

  lemma {:induction false} Pow16Step(k: nat)
    ensures Pow16(k + 1) == 16 * Pow16(k)
  {
    if k >= 2 {
      Pow16Step(k - 2);
    }
  }

  /** What the difficulty promises: the last diff hexadecimal characters are '0'. */
  predicate EndsInZeros(diff: nat, d: seq<Byte>)
    requires diff <= 2 * |d|
  {
    forall i | 2 * |d| - diff <= i < 2 * |d| :: Hex(d)[i] == 48
  }

  /**
   The byte loop and the nibble test, as they stand in thread_mining and in testproof.
   For a diff above 64 the C code reads outside buf.
   */
  method DifficultyTest(diff: nat, buf: Digest) returns (res: nat)
    requires diff <= 64
    ensures res == 0 || res == 1
    ensures res == 0 <==> EndsInZeros(diff, buf)
    ensures res == 0 <==> BigEndianValue(buf) % Pow16(diff) == 0
  {
    res := 0;
    for i := 32 - diff / 2 to 32
      invariant res == 0 || res == 1
      invariant res == 0 <==> forall j | 32 - diff / 2 <= j < i :: buf[j] == 0
    {
      if buf[i] != 0 {
        res := 1;
      }
    }
    if diff % 2 == 1 && res != 1 {
      if buf[32 - diff / 2 - 1] % 16 != 0 {
        res := 1;
      }
    }
    ByteTestMeansZeros(diff, buf);
    ByteTestDivides(diff, buf);
  }

  /** What the C code tests: zero bytes at the end, and for an odd diff a zero low half before them. */
  predicate ByteTest(diff: nat, d: seq<Byte>)
    requires diff <= 2 * |d|
  {
    && (forall j | |d| - diff / 2 <= j < |d| :: d[j] == 0)
    && (diff % 2 == 1 ==> d[|d| - diff / 2 - 1] % 16 == 0)
  }

  lemma ByteTestMeansZeros(diff: nat, d: seq<Byte>)
    requires diff <= 2 * |d|
    ensures ByteTest(diff, d) <==> EndsInZeros(diff, d)
  {
    var n := |d|;
    if EndsInZeros(diff, d) {
      forall j | n - diff / 2 <= j < n
        ensures d[j] == 0
      {
        assert Hex(d)[2 * j] == 48 && Hex(d)[2 * j + 1] == 48;
      }
      if diff % 2 == 1 {
        var j := n - diff / 2 - 1;
        assert Hex(d)[2 * j + 1] == 48;
      }
    }
  }

  /** The hexadecimal reading of the difficulty agrees with the arithmetic one. */
  lemma {:induction false} ByteTestDivides(diff: nat, d: seq<Byte>)
    requires diff <= 2 * |d|
    ensures ByteTest(diff, d) <==> BigEndianValue(d) % Pow16(diff) == 0
  {
    hide ByteTest;
    if diff == 0 {
      assert ByteTest(0, d) by { ByteTestZero(d); }
    } else if diff == 1 {
      LastNibble(d);
    } else {
      ByteTestDivides(diff - 2, d[..|d| - 1]);
      DropLastByte(diff, d);
      DivisibleByOctets(BigEndianValue(d), Pow16(diff - 2));
      LastByte(d);
    }
  }

  lemma ByteTestZero(d: seq<Byte>)
    ensures ByteTest(0, d)
  {
  }

  lemma LastByte(d: seq<Byte>)
    requires d != []
    ensures BigEndianValue(d) % 256 == d[|d| - 1]
    ensures BigEndianValue(d) / 256 == BigEndianValue(d[..|d| - 1])
  {
    JoinOctet(BigEndianValue(d[..|d| - 1]), d[|d| - 1]);
  }

  lemma LastNibble(d: seq<Byte>)
    requires d != []
    ensures ByteTest(1, d) <==> BigEndianValue(d) % 16 == 0
  {
    LastByte(d);
    var n := BigEndianValue(d);
    assert n == 256 * (n / 256) + n % 256;
  }

  lemma DropLastByte(diff: nat, d: seq<Byte>)
    requires 2 <= diff <= 2 * |d|
    ensures ByteTest(diff, d) <==> d[|d| - 1] == 0 && ByteTest(diff - 2, d[..|d| - 1])
  {
    var front := d[..|d| - 1];
    assert |d| - diff / 2 == |front| - (diff - 2) / 2;
    assert forall j | 0 <= j < |front| :: front[j] == d[j];
  }
}
