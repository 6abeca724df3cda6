/** Fixed-width little-endian integers (the host layout the log and the snapshots are written in). */
module Bytes {
  import opened Types

  function Pow256(n: nat): nat {
    if n == 0 then 1 else 256 * Pow256(n - 1)
  }

  /** `x` in `n` bytes, lowest first. */
  function Put(x: nat, n: nat): (s: seq<byte>)
    ensures |s| == n
    decreases n, x
  {
    if n == 0 then [] else [x % 256] + Put(x / 256, n - 1)
  }

  function Get(s: seq<byte>): (x: nat)
    ensures x < Pow256(|s|)
  {
    if s == [] then 0 else s[0] + 256 * Get(s[1..])
  }

  lemma {:induction false} GetPut(x: nat, n: nat)
    requires x < Pow256(n)
    ensures Get(Put(x, n)) == x
    decreases n
  {
    if n != 0 {
      GetPut(x / 256, n - 1);
    }
  }

  lemma {:induction false} PutGet(s: seq<byte>)
    ensures Put(Get(s), |s|) == s
  {
    if s != [] {
      PutGet(s[1..]);
      assert Get(s) / 256 == Get(s[1..]) && Get(s) % 256 == s[0];
    }
  }

  lemma Widths()
    ensures Pow256(2) == 0x1_0000 && Pow256(4) == 0x1_0000_0000 && Pow256(8) == U64_LIMIT
  {
    assert Pow256(4) == 256 * (256 * Pow256(2));
    assert Pow256(8) == 256 * (256 * (256 * (256 * Pow256(4))));
  }

  // 64-bit values, unsigned and two's complement.

  function PutU64(x: u64): (s: seq<byte>)
    ensures |s| == 8
  {
    Put(x, 8)
  }

  function GetU64(s: seq<byte>): (x: u64)
    requires |s| == 8
  {
    Widths();
    Get(s)
  }

  function PutI64(x: i64): (s: seq<byte>)
    ensures |s| == 8
  {
    Put(if x < 0 then x + U64_LIMIT else x, 8)
  }

  function GetI64(s: seq<byte>): (x: i64)
    requires |s| == 8
  {
    var u := GetU64(s);
    if u > I64_MAX then u - U64_LIMIT else u
  }

  lemma GetPutU64(x: u64)
    ensures GetU64(PutU64(x)) == x
  {
    Widths();
    GetPut(x, 8);
  }

  lemma PutGetU64(s: seq<byte>)
    requires |s| == 8
    ensures PutU64(GetU64(s)) == s
  {
    PutGet(s);
  }

  lemma GetPutI64(x: i64)
    ensures GetI64(PutI64(x)) == x
  {
    Widths();
    GetPut(if x < 0 then x + U64_LIMIT else x, 8);
  }

  lemma PutGetI64(s: seq<byte>)
    requires |s| == 8
    ensures PutI64(GetI64(s)) == s
  {
    PutGet(s);
  }

  /** Negative values are stored in two's complement. */
  lemma TwosComplement(x: i64)
    ensures GetU64(PutI64(x)) == if x < 0 then x + U64_LIMIT else x
  {
    Widths();
    GetPut(if x < 0 then x + U64_LIMIT else x, 8);
  }

  // 32-bit and 16-bit unsigned values.

  lemma GetPutU32(x: nat)
    requires x < 0x1_0000_0000
    ensures Get(Put(x, 4)) == x
  {
    Widths();
    GetPut(x, 4);
  }

  lemma GetPutU16(x: nat)
    requires x < 0x1_0000
    ensures Get(Put(x, 2)) == x
  {
    Widths();
    GetPut(x, 2);
  }

  lemma Within(s: seq<byte>, from: nat, to: nat, i: nat, j: nat)
    requires i <= j <= to - from && from <= to <= |s|
    ensures s[from..to][i..j] == s[from + i..from + j]
  {
    var a, b := s[from..to][i..j], s[from + i..from + j];
    assert |a| == |b|;
    forall k | 0 <= k < |a| ensures a[k] == b[k] {
      assert a[k] == s[from..to][i + k] == s[from + (i + k)];
    }
  }

  // Byte by byte, lowest first.

  lemma PutBytes(x: nat)
    ensures Put(x, 2) == [x % 256, x / 256 % 256]
    ensures Put(x, 4) == [x % 256, x / 256 % 256, x / 256 / 256 % 256, x / 256 / 256 / 256 % 256]
  {
    assert Put(x / 256, 1) == [x / 256 % 256] + Put(x / 256 / 256, 0);
    var y := x / 256 / 256;
    assert Put(y / 256, 1) == [y / 256 % 256] + Put(y / 256 / 256, 0);
    assert Put(y, 2) == [y % 256] + Put(y / 256, 1);
    assert Put(x / 256, 3) == [x / 256 % 256] + Put(y, 2);
  }

  lemma GetTwo(s: seq<byte>)
    requires |s| == 2
    ensures Get(s) == s[0] as int + 256 * (s[1] as int)
  {
    assert Get(s[1..]) == s[1..][0] + 256 * Get(s[1..][1..]);
  }

  lemma GetFour(s: seq<byte>)
    requires |s| == 4
    ensures Get(s) == s[0] as int + 256 * (s[1] as int) + 65536 * (s[2] as int) + 16777216 * (s[3] as int)
  {
    GetTwo(s[2..]);
    assert s[1..][1..] == s[2..];
    assert Get(s[1..]) == s[1..][0] + 256 * Get(s[1..][1..]);
  }

  // Writing through a moving offset.

  /** `put`: copies `chunk` into the buffer and moves the offset past it. */
  method Store(dst: array<byte>, offset: nat, chunk: seq<byte>) returns (next: nat)
    requires offset + |chunk| <= dst.Length
    modifies dst
    ensures next == offset + |chunk|
    ensures dst[..next] == old(dst[..offset]) + chunk
    ensures dst[next..] == old(dst[next..])
  {
    forall i | 0 <= i < |chunk| {
      dst[offset + i] := chunk[i];
    }
    next := offset + |chunk|;
  }
}
