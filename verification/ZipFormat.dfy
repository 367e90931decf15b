/** The archive layout: records, their order and their offsets. */
module ZipFormat {
  import opened Bytes

  const LOCAL_SIGNATURE := 0x04034b50
  const CENTRAL_SIGNATURE := 0x02014b50
  const END_SIGNATURE := 0x06054b50

  /** One entry with every field decided: what both of its headers carry. */
  datatype Entry = Entry(name: seq<byte>, flags: int, compression: int, crc: int, body: seq<byte>, size: int)

  /** Every field of the entry is in the range of its slot. */
  predicate Fits(e: Entry) {
    && IsU16(|e.name|)
    && IsU16(e.flags)
    && IsU16(e.compression)
    && IsU32(e.crc)
    && IsU32(|e.body|)
    && IsU32(e.size)
  }

  /** The run of fields that both headers of an entry carry: version needed to extra field length. */
  function Common(e: Entry): (h: seq<byte>)
    requires Fits(e)
    ensures |h| == 26
  {
    U16(20) + (U16(e.flags) + (U16(e.compression) + (U32(0) + (U32(e.crc) +
    (U32(|e.body|) + (U32(e.size) + (U16(|e.name|) + U16(0))))))))
  }

  /** Section 4.3.7 of the PKWARE .ZIP File Format Specification. */
  function LocalHeader(e: Entry): (h: seq<byte>)
    requires Fits(e)
    ensures |h| == 30
  {
    U32(LOCAL_SIGNATURE) + Common(e)
  }

  /** Section 4.3.12 of the same specification: no comment, disk 0, no attributes. */
  function CentralHeader(e: Entry, offset: int): (h: seq<byte>)
    requires Fits(e) && IsU32(offset)
    ensures |h| == 46
  {
    U32(CENTRAL_SIGNATURE) + (U16(20) + (Common(e) + (U16(0) + (U32(0) + (U32(0) + U32(offset))))))
  }

  /** Section 4.3.16 of the same specification, without a comment. */
  function EndRecord(count: int, directorySize: int, directoryOffset: int): (r: seq<byte>)
    requires IsU16(count) && IsU32(directorySize) && IsU32(directoryOffset)
    ensures |r| == 22
  {
    U32(END_SIGNATURE) + (U32(0) + (U16(count) + (U16(count) + (U32(directorySize) + (U32(directoryOffset) + U16(0))))))
  }

  function LocalSize(e: Entry): nat { 30 + |e.name| + |e.body| }

  /** The bytes an entry takes in the local area. */
  function LocalRecord(e: Entry): (r: seq<byte>)
    requires Fits(e)
    ensures |r| == LocalSize(e)
  {
    LocalHeader(e) + e.name + e.body
  }

  /** The bytes an entry takes in the central directory. */
  function CentralRecord(e: Entry, offset: int): (r: seq<byte>)
    requires Fits(e) && IsU32(offset)
    ensures |r| == 46 + |e.name|
  {
    CentralHeader(e, offset) + e.name
  }

  /** Where the local record of entry `n` starts: after those of the entries before it. */
  function Offset(es: seq<Entry>, n: nat): nat
    requires n <= |es|
  {
    if n == 0 then 0 else Offset(es, n - 1) + LocalSize(es[n - 1])
  }

  /** Where the central record of entry `n` starts inside the directory. */
  function DirectoryOffset(es: seq<Entry>, n: nat): nat
    requires n <= |es|
  {
    if n == 0 then 0 else DirectoryOffset(es, n - 1) + 46 + |es[n - 1].name|
  }

  lemma {:induction false} OffsetMonotone(es: seq<Entry>, i: nat, n: nat)
    requires i <= n <= |es|
    ensures Offset(es, i) <= Offset(es, n)
  {
    if i < n { OffsetMonotone(es, i, n - 1); }
  }

  predicate FirstFit(es: seq<Entry>, n: nat)
    requires n <= |es|
  {
    forall i :: 0 <= i < n ==> Fits(es[i])
  }

  /** The local area of the first `n` entries. */
  function Locals(es: seq<Entry>, n: nat): (r: seq<byte>)
    requires n <= |es| && FirstFit(es, n)
    ensures |r| == Offset(es, n)
  {
    if n == 0 then [] else Locals(es, n - 1) + LocalRecord(es[n - 1])
  }

  /** The central directory of the first `n` entries, each with the offset of its local record. */
  function Directory(es: seq<Entry>, n: nat): (r: seq<byte>)
    requires n <= |es| && FirstFit(es, n) && (n > 0 ==> IsU32(Offset(es, n - 1)))
    ensures |r| == DirectoryOffset(es, n)
  {
    if n == 0 then [] else Directory(es, n - 1) + CentralRecord(es[n - 1], Offset(es, n - 1))
  }

  /** Every number of the archive of `es` fits the slot it goes to. */
  predicate Writable(es: seq<Entry>) {
    FirstFit(es, |es|) && IsU16(|es|) && IsU32(DirectoryOffset(es, |es|)) && IsU32(Offset(es, |es|))
  }

  function Archive(es: seq<Entry>): (r: seq<byte>)
    requires Writable(es)
    ensures |r| == Offset(es, |es|) + DirectoryOffset(es, |es|) + 22
  {
    var n := |es|;
    Locals(es, n) + (Directory(es, n) + EndRecord(n, DirectoryOffset(es, n), Offset(es, n)))
  }

  /** The local records tile the front of the archive: each starts where the one before it ends. */
  lemma {:induction false} LocalRecordHeld(es: seq<Entry>, n: nat, i: nat)
    requires i < n <= |es| && FirstFit(es, n)
    ensures Offset(es, i) + LocalSize(es[i]) == Offset(es, i + 1) <= Offset(es, n)
    ensures HoldsAt(Locals(es, n), Offset(es, i), LocalRecord(es[i]))
  {
    if i < n - 1 {
      LocalRecordHeld(es, n - 1, i);
      HeldByPrefix(Locals(es, n - 1), LocalRecord(es[n - 1]), Offset(es, i), LocalRecord(es[i]));
    } else {
      HeldAtEnd(Locals(es, n - 1), LocalRecord(es[n - 1]));
    }
  }

  lemma {:induction false} CentralRecordHeld(es: seq<Entry>, n: nat, i: nat)
    requires i < n <= |es| && FirstFit(es, n) && IsU32(Offset(es, n))
    ensures Offset(es, i) <= Offset(es, n)
    ensures DirectoryOffset(es, i) + 46 + |es[i].name| == DirectoryOffset(es, i + 1) <= DirectoryOffset(es, n)
    ensures HoldsAt(Directory(es, n), DirectoryOffset(es, i), CentralRecord(es[i], Offset(es, i)))
  {
    var last := CentralRecord(es[n - 1], Offset(es, n - 1));
    if i < n - 1 {
      CentralRecordHeld(es, n - 1, i);
      HeldByPrefix(Directory(es, n - 1), last, DirectoryOffset(es, i), CentralRecord(es[i], Offset(es, i)));
    } else {
      HeldAtEnd(Directory(es, n - 1), last);
    }
  }

  /** Where each part of the archive lies. */
  lemma ArchiveLayout(es: seq<Entry>, i: nat)
    requires Writable(es) && i < |es|
    ensures Offset(es, i) + LocalSize(es[i]) == Offset(es, i + 1) <= Offset(es, |es|)
    ensures DirectoryOffset(es, i) + 46 + |es[i].name| == DirectoryOffset(es, i + 1) <= DirectoryOffset(es, |es|)
    ensures HoldsAt(Archive(es), Offset(es, i), LocalRecord(es[i]))
    ensures HoldsAt(Archive(es), Offset(es, |es|) + DirectoryOffset(es, i), CentralRecord(es[i], Offset(es, i)))
  {
    var n := |es|;
    var locals, directory, end := Locals(es, n), Directory(es, n), EndRecord(n, DirectoryOffset(es, n), Offset(es, n));
    LocalRecordHeld(es, n, i);
    CentralRecordHeld(es, n, i);
    HeldByPrefix(locals, directory + end, Offset(es, i), LocalRecord(es[i]));
    HeldByPrefix(directory, end, DirectoryOffset(es, i), CentralRecord(es[i], Offset(es, i)));
    HeldBySuffix(locals, directory + end, DirectoryOffset(es, i), CentralRecord(es[i], Offset(es, i)));
  }

  lemma EndRecordHeld(es: seq<Entry>)
    requires Writable(es)
    ensures HoldsAt(Archive(es), |Archive(es)| - 22, EndRecord(|es|, DirectoryOffset(es, |es|), Offset(es, |es|)))
  {
    var n := |es|;
    var locals, directory, end := Locals(es, n), Directory(es, n), EndRecord(n, DirectoryOffset(es, n), Offset(es, n));
    HeldAtEnd(directory, end);
    HeldBySuffix(locals, directory + end, |directory|, end);
  }

  // A record is its fields, each at the offset the specification gives it. Read from left to
  // right this decodes a record; from right to left it recognises one that was just written.

  lemma CommonFields(b: seq<byte>, at: nat, e: Entry)
    requires Fits(e)
    ensures HoldsAt(b, at, Common(e)) <==>
            && HoldsAt(b, at, U16(20)) && HoldsAt(b, at + 2, U16(e.flags)) && HoldsAt(b, at + 4, U16(e.compression))
            && HoldsAt(b, at + 6, U32(0)) && HoldsAt(b, at + 10, U32(e.crc)) && HoldsAt(b, at + 14, U32(|e.body|))
            && HoldsAt(b, at + 18, U32(e.size)) && HoldsAt(b, at + 22, U16(|e.name|)) && HoldsAt(b, at + 24, U16(0))
  {
    var h22 := U16(|e.name|) + U16(0);
    var h18 := U32(e.size) + h22;
    var h14 := U32(|e.body|) + h18;
    var h10 := U32(e.crc) + h14;
    var h6 := U32(0) + h10;
    var h4 := U16(e.compression) + h6;
    var h2 := U16(e.flags) + h4;
    HoldConcat(b, at, U16(20), h2);
    HoldConcat(b, at + 2, U16(e.flags), h4);
    HoldConcat(b, at + 4, U16(e.compression), h6);
    HoldConcat(b, at + 6, U32(0), h10);
    HoldConcat(b, at + 10, U32(e.crc), h14);
    HoldConcat(b, at + 14, U32(|e.body|), h18);
    HoldConcat(b, at + 18, U32(e.size), h22);
    HoldConcat(b, at + 22, U16(|e.name|), U16(0));
  }

  lemma LocalHeaderFields(b: seq<byte>, at: nat, e: Entry)
    requires Fits(e)
    ensures HoldsAt(b, at, LocalHeader(e)) <==> HoldsAt(b, at, U32(LOCAL_SIGNATURE)) && HoldsAt(b, at + 4, Common(e))
  {
    HoldConcat(b, at, U32(LOCAL_SIGNATURE), Common(e));
  }

  lemma CentralHeaderFields(b: seq<byte>, at: nat, e: Entry, offset: int)
    requires Fits(e) && IsU32(offset)
    ensures HoldsAt(b, at, CentralHeader(e, offset)) <==>
            && HoldsAt(b, at, U32(CENTRAL_SIGNATURE)) && HoldsAt(b, at + 4, U16(20)) && HoldsAt(b, at + 6, Common(e))
            && HoldsAt(b, at + 32, U16(0)) && HoldsAt(b, at + 34, U32(0)) && HoldsAt(b, at + 38, U32(0))
            && HoldsAt(b, at + 42, U32(offset))
  {
    var h38 := U32(0) + U32(offset);
    var h34 := U32(0) + h38;
    var h32 := U16(0) + h34;
    var h6 := Common(e) + h32;
    HoldConcat(b, at, U32(CENTRAL_SIGNATURE), U16(20) + h6);
    HoldConcat(b, at + 4, U16(20), h6);
    HoldConcat(b, at + 6, Common(e), h32);
    HoldConcat(b, at + 32, U16(0), h34);
    HoldConcat(b, at + 34, U32(0), h38);
    HoldConcat(b, at + 38, U32(0), U32(offset));
  }

  lemma EndRecordFields(b: seq<byte>, at: nat, count: int, size: int, offset: int)
    requires IsU16(count) && IsU32(size) && IsU32(offset)
    ensures HoldsAt(b, at, EndRecord(count, size, offset)) <==>
            && HoldsAt(b, at, U32(END_SIGNATURE)) && HoldsAt(b, at + 4, U32(0)) && HoldsAt(b, at + 8, U16(count))
            && HoldsAt(b, at + 10, U16(count)) && HoldsAt(b, at + 12, U32(size)) && HoldsAt(b, at + 16, U32(offset))
            && HoldsAt(b, at + 20, U16(0))
  {
    var h16 := U32(offset) + U16(0);
    var h12 := U32(size) + h16;
    var h10 := U16(count) + h12;
    var h8 := U16(count) + h10;
    var h4 := U32(0) + h8;
    HoldConcat(b, at, U32(END_SIGNATURE), h4);
    HoldConcat(b, at + 4, U32(0), h8);
    HoldConcat(b, at + 8, U16(count), h10);
    HoldConcat(b, at + 10, U16(count), h12);
    HoldConcat(b, at + 12, U32(size), h16);
    HoldConcat(b, at + 16, U32(offset), U16(0));
  }
}
