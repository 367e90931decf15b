/** Any archive as the specification describes one: extra fields, comments, records anywhere. Bytes only. */
module ZipLayout {
  import opened Bytes
  import opened ZipFormat

  /** Where the two records of an entry are, and what they carry besides the entry. */
  datatype Place = Place(local: nat, central: nat, localExtra: seq<byte>, centralExtra: seq<byte>, comment: seq<byte>)

  /** Sections 4.3.7 and 4.3.8 of the PKWARE .ZIP File Format Specification, byte offsets written out. */
  ghost predicate LocalHeld(buf: seq<byte>, e: Entry, x: Place)
    requires Fits(e)
  {
    var at, n := x.local, |e.name|;
    && IsU16(|x.localExtra|)
    && HoldsAt(buf, at, [0x50, 0x4b, 0x03, 0x04])
    && HoldsAt(buf, at + 6, U16(e.flags)) && HoldsAt(buf, at + 8, U16(e.compression))
    && HoldsAt(buf, at + 14, U32(e.crc)) && HoldsAt(buf, at + 18, U32(|e.body|)) && HoldsAt(buf, at + 22, U32(e.size))
    && HoldsAt(buf, at + 26, U16(n)) && HoldsAt(buf, at + 28, U16(|x.localExtra|))
    && HoldsAt(buf, at + 30, e.name) && HoldsAt(buf, at + 30 + n, x.localExtra)
    && HoldsAt(buf, at + 30 + n + |x.localExtra|, e.body)
  }

  /** Section 4.3.12 of the same specification. */
  ghost predicate CentralHeld(buf: seq<byte>, e: Entry, x: Place)
    requires Fits(e)
  {
    var at, n := x.central, |e.name|;
    && IsU16(|x.centralExtra|) && IsU16(|x.comment|) && IsU32(x.local)
    && HoldsAt(buf, at, [0x50, 0x4b, 0x01, 0x02])
    && HoldsAt(buf, at + 8, U16(e.flags)) && HoldsAt(buf, at + 10, U16(e.compression))
    && HoldsAt(buf, at + 16, U32(e.crc)) && HoldsAt(buf, at + 20, U32(|e.body|)) && HoldsAt(buf, at + 24, U32(e.size))
    && HoldsAt(buf, at + 28, U16(n)) && HoldsAt(buf, at + 30, U16(|x.centralExtra|))
    && HoldsAt(buf, at + 32, U16(|x.comment|)) && HoldsAt(buf, at + 42, U32(x.local))
    && HoldsAt(buf, at + 46, e.name) && HoldsAt(buf, at + 46 + n, x.centralExtra)
    && HoldsAt(buf, at + 46 + n + |x.centralExtra|, x.comment)
  }

  /** No end signature lies at `from` or later with room for an end record behind it. */
  ghost predicate NoEndFrom(buf: seq<byte>, from: nat) {
    forall i: nat :: from <= i && i + 22 <= |buf| ==> !HoldsAt(buf, i, [0x50, 0x4b, 0x05, 0x06])
  }

  /** Section 4.3.16 of the same specification; the rest of the buffer is the archive comment. */
  ghost predicate EndHeld(buf: seq<byte>, end: nat, count: int, size: int, at: int)
    requires IsU16(count) && IsU32(size) && IsU32(at)
  {
    && end + 22 <= |buf| <= end + 22 + 0xffff
    && HoldsAt(buf, end, [0x50, 0x4b, 0x05, 0x06]) && HoldsAt(buf, end + 10, U16(count))
    && HoldsAt(buf, end + 12, U32(size)) && HoldsAt(buf, end + 16, U32(at))
    && NoEndFrom(buf, end + 1)
  }

  /** The position behind a directory record. */
  function Next(e: Entry, x: Place): nat {
    x.central + 46 + |e.name| + |x.centralExtra| + |x.comment|
  }

  /** Where directory record `i` begins: at `at`, or behind the one before it. */
  function DirectoryAt(es: seq<Entry>, xs: seq<Place>, at: nat, i: nat): nat
    requires i <= |es| == |xs|
  {
    if i == 0 then at else Next(es[i - 1], xs[i - 1])
  }

  ghost predicate EntryHeld(buf: seq<byte>, e: Entry, x: Place) {
    Fits(e) && LocalHeld(buf, e, x) && CentralHeld(buf, e, x)
  }

  /** The buffer is an archive of `es`, whose end record is at `end` and whose directory is at `at`. */
  ghost predicate Held(buf: seq<byte>, es: seq<Entry>, xs: seq<Place>, end: nat, size: int, at: int) {
    && |es| == |xs| && IsU16(|es|) && IsU32(size) && IsU32(at)
    && (forall i :: 0 <= i < |es| ==> EntryHeld(buf, es[i], xs[i]))
    && (forall i :: 0 <= i < |es| ==> xs[i].central == DirectoryAt(es, xs, at, i))
    && EndHeld(buf, end, |es|, size, at)
  }

  // ---- Records with extra fields and comments, as bytes.

  function LocalBytes(e: Entry, extra: seq<byte>): (r: seq<byte>)
    requires Fits(e) && IsU16(|extra|)
    ensures |r| == 30 + |e.name| + |extra| + |e.body|
  {
    [0x50, 0x4b, 0x03, 0x04] + (U16(20) + (U16(e.flags) + (U16(e.compression) + (U32(0) + (U32(e.crc) +
    (U32(|e.body|) + (U32(e.size) + (U16(|e.name|) + (U16(|extra|) + (e.name + (extra + e.body)))))))))))
  }

  function CentralBytes(e: Entry, extra: seq<byte>, comment: seq<byte>, offset: int): (r: seq<byte>)
    requires Fits(e) && IsU16(|extra|) && IsU16(|comment|) && IsU32(offset)
    ensures |r| == 46 + |e.name| + |extra| + |comment|
  {
    [0x50, 0x4b, 0x01, 0x02] + (U32(0) + (U16(e.flags) + (U16(e.compression) + (U32(0) + (U32(e.crc) +
    (U32(|e.body|) + (U32(e.size) + (U16(|e.name|) + (U16(|extra|) + (U16(|comment|) + (U32(0) + (U32(0) +
    (U32(offset) + (e.name + (extra + comment)))))))))))))))
  }

  function EndBytes(count: int, size: int, at: int, comment: int): (r: seq<byte>)
    requires IsU16(count) && IsU32(size) && IsU32(at) && IsU16(comment)
    ensures |r| == 22
  {
    [0x50, 0x4b, 0x05, 0x06] + (U32(0) + (U16(count) + (U16(count) + (U32(size) + (U32(at) + U16(comment))))))
  }

  lemma LocalBytesHeld(buf: seq<byte>, e: Entry, x: Place)
    requires Fits(e) && IsU16(|x.localExtra|) && HoldsAt(buf, x.local, LocalBytes(e, x.localExtra))
    ensures LocalHeld(buf, e, x)
  {
    hide HoldsAt;
    var at, n, extra := x.local, |e.name|, x.localExtra;
    var s30 := e.name + (extra + e.body);
    var s26 := U16(n) + (U16(|extra|) + s30);
    var s22 := U32(e.size) + s26;
    var s18 := U32(|e.body|) + s22;
    var s14 := U32(e.crc) + s18;
    var s10 := U32(0) + s14;
    var s8 := U16(e.compression) + s10;
    var s6 := U16(e.flags) + s8;
    HoldConcat(buf, at, [0x50, 0x4b, 0x03, 0x04], U16(20) + s6);
    HoldConcat(buf, at + 4, U16(20), s6);
    HoldConcat(buf, at + 6, U16(e.flags), s8);
    HoldConcat(buf, at + 8, U16(e.compression), s10);
    HoldConcat(buf, at + 10, U32(0), s14);
    HoldConcat(buf, at + 14, U32(e.crc), s18);
    HoldConcat(buf, at + 18, U32(|e.body|), s22);
    HoldConcat(buf, at + 22, U32(e.size), s26);
    HoldConcat(buf, at + 26, U16(n), U16(|extra|) + s30);
    HoldConcat(buf, at + 28, U16(|extra|), s30);
    HoldConcat(buf, at + 30, e.name, extra + e.body);
    HoldConcat(buf, at + 30 + n, extra, e.body);
  }

  lemma CentralBytesHeld(buf: seq<byte>, e: Entry, x: Place)
    requires Fits(e) && IsU16(|x.centralExtra|) && IsU16(|x.comment|) && IsU32(x.local)
    requires HoldsAt(buf, x.central, CentralBytes(e, x.centralExtra, x.comment, x.local))
    ensures CentralHeld(buf, e, x)
  {
    hide HoldsAt;
    var at, n, extra, comment := x.central, |e.name|, x.centralExtra, x.comment;
    var s46 := e.name + (extra + comment);
    var s42 := U32(x.local) + s46;
    var s34 := U32(0) + (U32(0) + s42);
    var s30 := U16(|extra|) + (U16(|comment|) + s34);
    var s28 := U16(n) + s30;
    var s24 := U32(e.size) + s28;
    var s20 := U32(|e.body|) + s24;
    var s16 := U32(e.crc) + s20;
    var s12 := U32(0) + s16;
    var s10 := U16(e.compression) + s12;
    var s8 := U16(e.flags) + s10;
    HoldConcat(buf, at, [0x50, 0x4b, 0x01, 0x02], U32(0) + s8);
    HoldConcat(buf, at + 4, U32(0), s8);
    HoldConcat(buf, at + 8, U16(e.flags), s10);
    HoldConcat(buf, at + 10, U16(e.compression), s12);
    HoldConcat(buf, at + 12, U32(0), s16);
    HoldConcat(buf, at + 16, U32(e.crc), s20);
    HoldConcat(buf, at + 20, U32(|e.body|), s24);
    HoldConcat(buf, at + 24, U32(e.size), s28);
    HoldConcat(buf, at + 28, U16(n), s30);
    HoldConcat(buf, at + 30, U16(|extra|), U16(|comment|) + s34);
    HoldConcat(buf, at + 32, U16(|comment|), s34);
    HoldConcat(buf, at + 34, U32(0), U32(0) + s42);
    HoldConcat(buf, at + 38, U32(0), s42);
    HoldConcat(buf, at + 42, U32(x.local), s46);
    HoldConcat(buf, at + 46, e.name, extra + comment);
    HoldConcat(buf, at + 46 + n, extra, comment);
  }

  lemma EndBytesHeld(buf: seq<byte>, end: nat, count: int, size: int, at: int, comment: int)
    requires IsU16(count) && IsU32(size) && IsU32(at) && IsU16(comment)
    requires HoldsAt(buf, end, EndBytes(count, size, at, comment))
    ensures HoldsAt(buf, end, [0x50, 0x4b, 0x05, 0x06]) && HoldsAt(buf, end + 10, U16(count))
    ensures HoldsAt(buf, end + 12, U32(size)) && HoldsAt(buf, end + 16, U32(at))
  {
    hide HoldsAt;
    var s16 := U32(at) + U16(comment);
    var s12 := U32(size) + s16;
    var s8 := U16(count) + (U16(count) + s12);
    HoldConcat(buf, end, [0x50, 0x4b, 0x05, 0x06], U32(0) + s8);
    HoldConcat(buf, end + 4, U32(0), s8);
    HoldConcat(buf, end + 8, U16(count), U16(count) + s12);
    HoldConcat(buf, end + 10, U16(count), s12);
    HoldConcat(buf, end + 12, U32(size), s16);
    HoldConcat(buf, end + 16, U32(at), U16(comment));
  }

  // ---- The written archive is one of them.

  function PlaceOf(es: seq<Entry>, i: nat): Place
    requires i < |es|
  {
    Place(Offset(es, i), Offset(es, |es|) + DirectoryOffset(es, i), [], [], [])
  }

  function Places(es: seq<Entry>): (xs: seq<Place>)
    ensures |xs| == |es| && forall i :: 0 <= i < |es| ==> xs[i] == PlaceOf(es, i)
  {
    seq(|es|, i requires 0 <= i < |es| => PlaceOf(es, i))
  }

  lemma LocalRecordBytes(buf: seq<byte>, e: Entry, x: Place)
    requires Fits(e) && x.localExtra == [] && HoldsAt(buf, x.local, LocalRecord(e))
    ensures LocalHeld(buf, e, x)
  {
    hide LocalHeader, Common;
    var at, n := x.local, |e.name|;
    HoldConcat(buf, at, LocalHeader(e) + e.name, e.body);
    HoldConcat(buf, at, LocalHeader(e), e.name);
    LocalHeaderFields(buf, at, e);
    CommonFields(buf, at + 4, e);
    assert U32(LOCAL_SIGNATURE) == [0x50, 0x4b, 0x03, 0x04];
    hide HoldsAt, U16, U32;
    NothingHeldAfter(buf, at + 30, e.name);
  }

  lemma NothingHeldAfter(buf: seq<byte>, i: nat, s: seq<byte>)
    requires HoldsAt(buf, i, s)
    ensures HoldsAt(buf, i + |s|, [])
  {
  }

  lemma CentralRecordBytes(buf: seq<byte>, e: Entry, x: Place)
    requires Fits(e) && x.centralExtra == x.comment == [] && IsU32(x.local)
    requires HoldsAt(buf, x.central, CentralRecord(e, x.local))
    ensures CentralHeld(buf, e, x)
  {
    hide CentralHeader, Common;
    var at := x.central;
    HoldConcat(buf, at, CentralHeader(e, x.local), e.name);
    CentralHeaderFields(buf, at, e, x.local);
    CommonFields(buf, at + 6, e);
    assert U32(CENTRAL_SIGNATURE) == [0x50, 0x4b, 0x01, 0x02];
    hide HoldsAt, U16, U32;
    NothingHeldAfter(buf, at + 46, e.name);
  }

  lemma EndRecordBytes(buf: seq<byte>, end: nat, count: int, size: int, at: int)
    requires IsU16(count) && IsU32(size) && IsU32(at)
    requires HoldsAt(buf, end, EndRecord(count, size, at))
    ensures HoldsAt(buf, end, [0x50, 0x4b, 0x05, 0x06]) && HoldsAt(buf, end + 10, U16(count))
    ensures HoldsAt(buf, end + 12, U32(size)) && HoldsAt(buf, end + 16, U32(at))
  {
    EndRecordFields(buf, end, count, size, at);
    assert U32(END_SIGNATURE) == [0x50, 0x4b, 0x05, 0x06];
  }

  lemma ArchiveEntryHeld(es: seq<Entry>, i: nat)
    requires Writable(es) && i < |es|
    ensures EntryHeld(Archive(es), es[i], PlaceOf(es, i))
  {
    hide LocalHeld, CentralHeld, LocalRecord, CentralRecord, Archive;
    ArchiveLayout(es, i);
    OffsetMonotone(es, i, |es|);
    LocalRecordBytes(Archive(es), es[i], PlaceOf(es, i));
    CentralRecordBytes(Archive(es), es[i], PlaceOf(es, i));
  }

  lemma ArchiveEndHeld(es: seq<Entry>)
    requires Writable(es)
    ensures EndHeld(Archive(es), |Archive(es)| - 22, |es|, DirectoryOffset(es, |es|), Offset(es, |es|))
  {
    hide EndRecord;
    EndRecordHeld(es);
    EndRecordBytes(Archive(es), |Archive(es)| - 22, |es|, DirectoryOffset(es, |es|), Offset(es, |es|));
  }

  lemma PlacesFollow(es: seq<Entry>, i: nat)
    requires i < |es|
    ensures Places(es)[i].central == DirectoryAt(es, Places(es), Offset(es, |es|), i)
  {
    hide Offset;
    if i > 0 {
      assert Places(es)[i - 1] == PlaceOf(es, i - 1);
    }
  }

  /** The archive that is written holds every entry, without extra fields and comments. */
  lemma ArchiveHeld(es: seq<Entry>)
    requires Writable(es)
    ensures var size, at := DirectoryOffset(es, |es|), Offset(es, |es|);
            Held(Archive(es), es, Places(es), at + size, size, at)
  {
    hide EntryHeld, EndHeld, Archive, Offset, DirectoryOffset, DirectoryAt, PlaceOf, FirstFit;
    var buf, xs := Archive(es), Places(es);
    forall i | 0 <= i < |es|
      ensures EntryHeld(buf, es[i], xs[i]) && xs[i].central == DirectoryAt(es, xs, Offset(es, |es|), i)
    {
      ArchiveEntryHeld(es, i);
      PlacesFollow(es, i);
    }
    ArchiveEndHeld(es);
  }
}
