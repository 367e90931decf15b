/** Bytes and little-endian fields, as a Node Buffer reads and writes them. */
module Bytes {
  type byte = x: int | 0 <= x < 256

  const U16_LIMIT := 0x1_0000
  const U32_LIMIT := 0x1_0000_0000

  predicate IsU16(v: int) { 0 <= v < U16_LIMIT }

  predicate IsU32(v: int) { 0 <= v < U32_LIMIT }

  function U16(v: int): seq<byte>
    requires IsU16(v)
  {
    [v % 256, v / 256]
  }

  function U32(v: int): seq<byte>
    requires IsU32(v)
  {
    [v % 256, v / 256 % 256, v / 0x1_0000 % 256, v / 0x100_0000]
  }

  function Read16(b: seq<byte>, i: nat): (v: int)
    requires i + 2 <= |b|
    ensures IsU16(v)
  {
    b[i] as int + 256 * b[i + 1] as int
  }

  function Read32(b: seq<byte>, i: nat): (v: int)
    requires i + 4 <= |b|
    ensures IsU32(v)
  {
    b[i] as int + 256 * b[i + 1] as int + 0x1_0000 * b[i + 2] as int + 0x100_0000 * b[i + 3] as int
  }

  /** `s` lies in `b` at position `i`. */
  ghost predicate HoldsAt(b: seq<byte>, i: nat, s: seq<byte>) {
    i + |s| <= |b| && b[i..i + |s|] == s
  }

  lemma HoldConcat(b: seq<byte>, i: nat, s: seq<byte>, t: seq<byte>)
    ensures HoldsAt(b, i, s + t) <==> HoldsAt(b, i, s) && HoldsAt(b, i + |s|, t)
  {
    if i + |s| + |t| <= |b| {
      var held := b[i..i + |s| + |t|];
      assert held[..|s|] == b[i..i + |s|] && held[|s|..] == b[i + |s|..i + |s| + |t|];
      assert (s + t)[..|s|] == s && (s + t)[|s|..] == t;
    }
  }

  lemma HeldByPrefix(a: seq<byte>, b: seq<byte>, i: nat, s: seq<byte>)
    requires HoldsAt(a, i, s)
    ensures HoldsAt(a + b, i, s)
  {
    assert (a + b)[i..i + |s|] == a[i..i + |s|];
  }

  lemma HeldBySuffix(a: seq<byte>, b: seq<byte>, i: nat, s: seq<byte>)
    requires HoldsAt(b, i, s)
    ensures HoldsAt(a + b, |a| + i, s)
  {
    assert (a + b)[|a| + i..|a| + i + |s|] == b[i..i + |s|];
  }

  lemma HeldAtEnd(a: seq<byte>, b: seq<byte>)
    ensures HoldsAt(a + b, |a|, b)
  {
    assert (a + b)[|a|..|a| + |b|] == b;
  }

  /** Bytes written one by one hold the field. */
  lemma Held16(b: seq<byte>, i: nat, v: int)
    requires IsU16(v) && i + 2 <= |b| && b[i] == v % 256 && b[i + 1] == v / 256
    ensures HoldsAt(b, i, U16(v))
  {
    assert b[i..i + 2] == [b[i], b[i + 1]];
  }

  lemma Held32(b: seq<byte>, i: nat, v: int)
    requires IsU32(v) && i + 4 <= |b| && b[i] == v % 256 && b[i + 1] == v / 256 % 256
    requires b[i + 2] == v / 0x1_0000 % 256 && b[i + 3] == v / 0x100_0000
    ensures HoldsAt(b, i, U32(v))
  {
    assert b[i..i + 4] == [b[i], b[i + 1], b[i + 2], b[i + 3]];
  }

  /** A field is written and read back at any position of any buffer. */
  lemma Read16Written(b: seq<byte>, i: nat, v: int)
    requires IsU16(v) && HoldsAt(b, i, U16(v))
    ensures Read16(b, i) == v
  {
    var s := b[i..i + 2];
    assert b[i] == s[0] && b[i + 1] == s[1];
  }

  lemma Read32Written(b: seq<byte>, i: nat, v: int)
    requires IsU32(v) && HoldsAt(b, i, U32(v))
    ensures Read32(b, i) == v
  {
    var s := b[i..i + 4];
    assert b[i] == s[0] && b[i + 1] == s[1] && b[i + 2] == s[2] && b[i + 3] == s[3];
    assert v / 0x1_0000 == v / 256 / 256;
    assert v / 0x100_0000 == v / 0x1_0000 / 256;
  }

  /** `Buffer.alloc(n)`: zeros. */
  method Alloc(n: nat) returns (buf: array<byte>)
    ensures fresh(buf) && buf.Length == n && forall k :: 0 <= k < n ==> buf[k] == 0
  {
    buf := new byte[n](_ => 0);
  }

  /** `buf.writeUInt16LE(v, at)`: throws, writing nothing, when `v` is out of range. */
  method WriteUInt16LE(buf: array<byte>, v: int, at: nat) returns (ok: bool)
    requires at + 2 <= buf.Length
    modifies buf
    ensures ok == IsU16(v)
    ensures ok ==> buf[at] == v % 256 && buf[at + 1] == v / 256
    ensures forall k :: 0 <= k < buf.Length && (ok ==> !(at <= k < at + 2)) ==> buf[k] == old(buf[k])
  {
    if !IsU16(v) {
      return false;
    }
    buf[at] := v % 256;
    buf[at + 1] := v / 256;
    return true;
  }

  /** `buf.writeUInt32LE(v, at)`. */
  method WriteUInt32LE(buf: array<byte>, v: int, at: nat) returns (ok: bool)
    requires at + 4 <= buf.Length
    modifies buf
    ensures ok == IsU32(v)
    ensures ok ==> buf[at] == v % 256 && buf[at + 1] == v / 256 % 256
    ensures ok ==> buf[at + 2] == v / 0x1_0000 % 256 && buf[at + 3] == v / 0x100_0000
    ensures forall k :: 0 <= k < buf.Length && (ok ==> !(at <= k < at + 4)) ==> buf[k] == old(buf[k])
  {
    if !IsU32(v) {
      return false;
    }
    buf[at] := v % 256;
    buf[at + 1] := v / 256 % 256;
    buf[at + 2] := v / 0x1_0000 % 256;
    buf[at + 3] := v / 0x100_0000;
    return true;
  }
}
