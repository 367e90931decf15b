/** `readZipEntry`: reads one named entry out of untrusted bytes. */
module ZipReader {
  import opened Wrappers
  import opened Bytes
  import opened ZipFormat
  import opened ZipWriter

  datatype Refusal =
    | TooSmall | NoEndRecord | Zip64Archive | DirectoryOutOfRange | DirectoryDamaged | Encrypted | Zip64Entry | TooLarge
    | HeaderDamaged | NamesAnotherFile | DataOutOfRange | NotInflated | UnsupportedMethod | SizeMismatch
    | ChecksumMismatch | NoSuchEntry

  datatype ZipRead = Ok(bytes: seq<byte>) | Refused(why: Refusal)

  const U16_MAX := 0xffff
  const U32_MAX := 0xffff_ffff

  // ---- What the reader answers, on a buffer seen through its accessors.

  /** A Buffer: its length, `readUInt16LE`, `readUInt32LE`, and `subarray`, which clamps to the buffer. */
  datatype View = View(size: nat, u16: nat -> nat, u32: nat -> nat, cut: (nat, nat) -> seq<byte>)

  function ViewOf(buf: seq<byte>): View {
    View(|buf|,
         (i: nat) => if i + 2 <= |buf| then Read16(buf, i) else 0,
         (i: nat) => if i + 4 <= |buf| then Read32(buf, i) else 0,
         (from: nat, to: nat) => Cut(buf, from, to))
  }

  function Cut(buf: seq<byte>, from: nat, to: nat): seq<byte> {
    if from <= to && from <= |buf| then buf[from..if to <= |buf| then to else |buf|] else []
  }

  /** `buf.toString("utf8", from, to)`: the range is clamped to the buffer. */
  function TextAt(p: Platform, v: View, from: nat, to: nat): string {
    p.decode(v.cut(from, to))
  }

  /** The highest position from `i` down to `lowest` that carries the end signature. */
  function FindEnd(v: View, i: int, lowest: nat): (r: Option<nat>)
    ensures r.Some? ==> lowest <= r.value <= i && v.u32(r.value) == END_SIGNATURE
    decreases i
  {
    if i < lowest then None
    else if v.u32(i) == END_SIGNATURE then Some(i)
    else FindEnd(v, i - 1, lowest)
  }

  /** The fields that both headers of an entry carry. */
  datatype Fields = Fields(
    flags: int, compression: int, crc: int, compressed: nat, size: int, nameLength: nat, extraLength: nat)

  function FieldsAt(v: View, at: nat): Fields {
    Fields(v.u16(at + 2), v.u16(at + 4), v.u32(at + 10), v.u32(at + 14), v.u32(at + 18), v.u16(at + 22), v.u16(at + 24))
  }

  /** What a directory record says, and where the next one starts. */
  datatype Central = Central(fields: Fields, offset: nat, name: string, next: nat)

  function CentralAt(p: Platform, v: View, at: nat): Option<Central> {
    if at + 46 > v.size || v.u32(at) != CENTRAL_SIGNATURE then
      None
    else
      var f := FieldsAt(v, at + 6);
      Some(Central(f, v.u32(at + 42), TextAt(p, v, at + 46, at + 46 + f.nameLength),
                   at + 46 + f.nameLength + f.extraLength + v.u16(at + 32)))
  }

  /** The stored bytes of the entry, unpacked and checked against what the directory declares. */
  function Unpack(p: Platform, f: Fields, raw: seq<byte>, maxBytes: nat): ZipRead {
    if f.compression != 0 && f.compression != 8 then Refused(UnsupportedMethod)
    else
      var unpacked := if f.compression == 0 then Some(raw) else p.inflate(raw, maxBytes);
      if unpacked.None? then Refused(NotInflated)
      else if |unpacked.value| != f.size then Refused(SizeMismatch)
      else if p.crc32(unpacked.value) != f.crc then Refused(ChecksumMismatch)
      else Ok(unpacked.value)
  }

  /** Follows a directory record that carries the wanted name. */
  function Follow(p: Platform, v: View, f: Fields, offset: nat, name: string, maxBytes: nat): ZipRead {
    if f.flags % 2 == 1 then Refused(Encrypted)
    else if f.compressed == U32_MAX || f.size == U32_MAX then Refused(Zip64Entry)
    else if f.size > maxBytes then Refused(TooLarge)
    else if offset + 30 > v.size || v.u32(offset) != LOCAL_SIGNATURE then Refused(HeaderDamaged)
    else
      var local := FieldsAt(v, offset + 4);
      if TextAt(p, v, offset + 30, offset + 30 + local.nameLength) != name then Refused(NamesAnotherFile)
      else
        var start := offset + 30 + local.nameLength + local.extraLength;
        if start + f.compressed > v.size then Refused(DataOutOfRange)
        else Unpack(p, f, v.cut(start, start + f.compressed), maxBytes)
  }

  /** Walks `left` directory records from `at`, and follows the first that carries `name`. */
  function Walk(p: Platform, v: View, at: nat, left: nat, name: string, maxBytes: nat): ZipRead
    decreases left
  {
    if left == 0 then Refused(NoSuchEntry)
    else
      match CentralAt(p, v, at)
      case None => Refused(DirectoryDamaged)
      case Some(c) =>
        if c.name == name then Follow(p, v, c.fields, c.offset, name, maxBytes)
        else Walk(p, v, c.next, left - 1, name, maxBytes)
  }

  /** How far back the end record can be: a comment has at most 65535 bytes. */
  function Lowest(size: nat): nat {
    if size < 22 + U16_MAX then 0 else size - 22 - U16_MAX
  }

  /** Finds the end record, and lets the three numbers it holds decide. */
  function ReadView(p: Platform, v: View, name: string, maxBytes: nat): ZipRead {
    if v.size < 22 then Refused(TooSmall)
    else
      match FindEnd(v, v.size - 22, Lowest(v.size))
      case None => Refused(NoEndRecord)
      case Some(end) =>
        var entries, size, at := v.u16(end + 10), v.u32(end + 12), v.u32(end + 16);
        if entries == U16_MAX || size == U32_MAX || at == U32_MAX then Refused(Zip64Archive)
        else if at + size > end then Refused(DirectoryOutOfRange)
        else Walk(p, v, at, entries, name, maxBytes)
  }

  /** The result of reading `name` out of `buf`. */
  function Read(p: Platform, buf: seq<byte>, name: string, maxBytes: nat): ZipRead {
    ReadView(p, ViewOf(buf), name, maxBytes)
  }

  // ---- The code. The accessors throw outside the buffer, so their preconditions are proved for any bytes.

  method ReadUInt16LE(v: View, at: nat) returns (n: nat)
    requires at + 2 <= v.size
    ensures n == v.u16(at)
  {
    return v.u16(at);
  }

  method ReadUInt32LE(v: View, at: nat) returns (n: nat)
    requires at + 4 <= v.size
    ensures n == v.u32(at)
  {
    return v.u32(at);
  }

  method ReadFields(v: View, at: nat) returns (f: Fields)
    requires at + 26 <= v.size
    ensures f == FieldsAt(v, at)
  {
    var flags := ReadUInt16LE(v, at + 2);
    var compression := ReadUInt16LE(v, at + 4);
    var crc := ReadUInt32LE(v, at + 10);
    var compressed := ReadUInt32LE(v, at + 14);
    var size := ReadUInt32LE(v, at + 18);
    var nameLength := ReadUInt16LE(v, at + 22);
    var extraLength := ReadUInt16LE(v, at + 24);
    f := Fields(flags, compression, crc, compressed, size, nameLength, extraLength);
  }

  method ReadCentral(p: Platform, v: View, at: nat) returns (c: Option<Central>)
    ensures c == CentralAt(p, v, at)
  {
    hide FieldsAt, TextAt;
    if at + 46 > v.size { return None; }
    var signature := ReadUInt32LE(v, at);
    if signature != CENTRAL_SIGNATURE { return None; }
    var f := ReadFields(v, at + 6);
    var comment := ReadUInt16LE(v, at + 32);
    var offset := ReadUInt32LE(v, at + 42);
    var name := TextAt(p, v, at + 46, at + 46 + f.nameLength);
    return Some(Central(f, offset, name, at + 46 + f.nameLength + f.extraLength + comment));
  }

  method FollowRecord(p: Platform, v: View, f: Fields, offset: nat, name: string, maxBytes: nat) returns (r: ZipRead)
    ensures r == Follow(p, v, f, offset, name, maxBytes)
  {
    hide Unpack, FieldsAt, TextAt;
    if f.flags % 2 == 1 { return Refused(Encrypted); }
    if f.compressed == U32_MAX || f.size == U32_MAX { return Refused(Zip64Entry); }
    if f.size > maxBytes { return Refused(TooLarge); }
    if offset + 30 > v.size { return Refused(HeaderDamaged); }
    var signature := ReadUInt32LE(v, offset);
    if signature != LOCAL_SIGNATURE { return Refused(HeaderDamaged); }
    var local := ReadFields(v, offset + 4);
    var localName := TextAt(p, v, offset + 30, offset + 30 + local.nameLength);
    if localName != name { return Refused(NamesAnotherFile); }
    var start := offset + 30 + local.nameLength + local.extraLength;
    if start + f.compressed > v.size { return Refused(DataOutOfRange); }
    return Unpack(p, f, v.cut(start, start + f.compressed), maxBytes);
  }

  /** The first loop: scans back for the end record. */
  method LocateEnd(v: View) returns (end: int)
    requires v.size >= 22
    ensures -1 <= end <= v.size - 22
    ensures FindEnd(v, v.size - 22, Lowest(v.size)) == if end >= 0 then Some(end) else None
  {
    var i := v.size - 22;
    while i >= Lowest(v.size)
      invariant Lowest(v.size) - 1 <= i <= v.size - 22
      invariant FindEnd(v, v.size - 22, Lowest(v.size)) == FindEnd(v, i, Lowest(v.size))
    {
      var signature := ReadUInt32LE(v, i);
      if signature == END_SIGNATURE {
        return i;
      }
      i := i - 1;
    }
    return -1;
  }

  /** The second loop: walks the directory. */
  method WalkDirectory(p: Platform, v: View, start: nat, entries: nat, name: string, maxBytes: nat) returns (r: ZipRead)
    ensures r == Walk(p, v, start, entries, name, maxBytes)
  {
    hide CentralAt, Follow;
    var at := start;
    for n := 0 to entries
      invariant at >= 0
      invariant Walk(p, v, start, entries, name, maxBytes) == Walk(p, v, at, entries - n, name, maxBytes)
    {
      var c := ReadCentral(p, v, at);
      if c.None? { return Refused(DirectoryDamaged); }
      if c.value.name != name {
        at := c.value.next;
        continue;
      }
      r := FollowRecord(p, v, c.value.fields, c.value.offset, name, maxBytes);
      return;
    }
    return Refused(NoSuchEntry);
  }

  method ReadZipEntry(p: Platform, buf: seq<byte>, name: string, maxBytes: nat) returns (r: ZipRead)
    ensures r == Read(p, buf, name, maxBytes)
  {
    r := ReadZipView(p, ViewOf(buf), name, maxBytes);
  }

  method ReadZipView(p: Platform, v: View, name: string, maxBytes: nat) returns (r: ZipRead)
    ensures r == ReadView(p, v, name, maxBytes)
  {
    if v.size < 22 { return Refused(TooSmall); }
    var end := LocateEnd(v);
    if end < 0 { return Refused(NoEndRecord); }
    var entries := ReadUInt16LE(v, end + 10);
    var size := ReadUInt32LE(v, end + 12);
    var at := ReadUInt32LE(v, end + 16);
    if entries == U16_MAX || size == U32_MAX || at == U32_MAX { return Refused(Zip64Archive); }
    if at + size > end { return Refused(DirectoryOutOfRange); }
    r := WalkDirectory(p, v, at, entries, name, maxBytes);
  }

  // ---- When there is an answer, and what it is: no walk, no scan, only what the archive says.

  /** `end` is the last place within reach that carries the end signature. */
  ghost predicate EndsAt(v: View, end: nat) {
    && 22 <= v.size && Lowest(v.size) <= end <= v.size - 22 && v.u32(end) == END_SIGNATURE
    && forall e: nat :: end < e <= v.size - 22 ==> v.u32(e) != END_SIGNATURE
  }

  /** The end record declares a directory in front of itself, and none of the values reserved for zip64. */
  predicate DirectoryInRange(v: View, end: nat) {
    && v.u16(end + 10) != U16_MAX && v.u32(end + 12) != U32_MAX && v.u32(end + 16) != U32_MAX
    && v.u32(end + 16) + v.u32(end + 12) <= end
  }

  /** `ds` are the first records of the directory at `at`, and the last of them is the first that carries `name`. */
  ghost predicate FirstNamed(p: Platform, v: View, at: nat, name: string, ds: seq<nat>) {
    && ds != [] && ds[0] == at
    && (forall i :: 0 <= i < |ds| ==> CentralAt(p, v, ds[i]).Some?)
    && (forall i :: 0 <= i < |ds| ==> (CentralAt(p, v, ds[i]).value.name == name <==> i == |ds| - 1))
    && (forall i :: 0 < i < |ds| ==> ds[i] == CentralAt(p, v, ds[i - 1]).value.next)
  }

  /** The stored range behind the local header, as it is or inflated, is `bytes`. */
  predicate Holds(p: Platform, v: View, c: Central, bytes: seq<byte>, maxBytes: nat) {
    var local := FieldsAt(v, c.offset + 4);
    var start := c.offset + 30 + local.nameLength + local.extraLength;
    var raw := v.cut(start, start + c.fields.compressed);
    && start + c.fields.compressed <= v.size
    && if c.fields.compression == 0 then bytes == raw
       else c.fields.compression == 8 && p.inflate(raw, maxBytes) == Some(bytes)
  }

  /** The directory record `c` and the local header it points to both vouch for `bytes` as `name`. */
  predicate Vouches(p: Platform, v: View, c: Central, name: string, bytes: seq<byte>, maxBytes: nat) {
    && c.name == name && c.fields.flags % 2 == 0 && c.fields.compressed != U32_MAX && c.fields.size != U32_MAX
    && c.fields.size == |bytes| <= maxBytes && c.fields.crc == p.crc32(bytes)
    && c.offset + 30 <= v.size && v.u32(c.offset) == LOCAL_SIGNATURE
    && TextAt(p, v, c.offset + 30, c.offset + 30 + FieldsAt(v, c.offset + 4).nameLength) == name
    && Holds(p, v, c, bytes, maxBytes)
  }

  /** All of it together: end record, directory, record number `|ds|`, local header and stored range. */
  ghost predicate Says(p: Platform, v: View, name: string, bytes: seq<byte>, maxBytes: nat, end: nat, ds: seq<nat>) {
    && EndsAt(v, end) && DirectoryInRange(v, end)
    && FirstNamed(p, v, v.u32(end + 16), name, ds) && |ds| <= v.u16(end + 10)
    && Vouches(p, v, CentralAt(p, v, ds[|ds| - 1]).value, name, bytes, maxBytes)
  }

  lemma {:induction false} FindEndIsLast(v: View, i: int, end: nat)
    requires Lowest(v.size) <= end
    ensures FindEnd(v, i, Lowest(v.size)) == Some(end)
            <==> end <= i && v.u32(end) == END_SIGNATURE && forall e: nat :: end < e <= i ==> v.u32(e) != END_SIGNATURE
    decreases i
  {
    if i >= Lowest(v.size) && v.u32(i) != END_SIGNATURE {
      FindEndIsLast(v, i - 1, end);
    }
  }

  lemma FollowIsExact(p: Platform, v: View, c: Central, name: string, bytes: seq<byte>, maxBytes: nat)
    requires c.name == name
    ensures Follow(p, v, c.fields, c.offset, name, maxBytes) == Ok(bytes) <==> Vouches(p, v, c, name, bytes, maxBytes)
  {
    hide FieldsAt, TextAt;
  }

  /** The records the walk passes, up to the one it stops at. */
  lemma {:induction false} WalkFollows(p: Platform, v: View, at: nat, left: nat, name: string, maxBytes: nat)
    returns (ds: seq<nat>)
    requires Walk(p, v, at, left, name, maxBytes).Ok?
    ensures FirstNamed(p, v, at, name, ds) && |ds| <= left
    decreases left
  {
    hide CentralAt, Follow;
    var c := CentralAt(p, v, at).value;
    if c.name == name {
      ds := [at];
    } else {
      var rest := WalkFollows(p, v, c.next, left - 1, name, maxBytes);
      ds := [at] + rest;
    }
  }

  /** The walk stops at the record that is the first of that name. */
  lemma {:induction false} WalkStops(
    p: Platform, v: View, at: nat, left: nat, name: string, maxBytes: nat, ds: seq<nat>)
    requires FirstNamed(p, v, at, name, ds) && |ds| <= left
    ensures var c := CentralAt(p, v, ds[|ds| - 1]).value;
            Walk(p, v, at, left, name, maxBytes) == Follow(p, v, c.fields, c.offset, name, maxBytes)
    decreases left
  {
    hide CentralAt, Follow;
    if |ds| > 1 {
      WalkStops(p, v, ds[1], left - 1, name, maxBytes, ds[1..]);
    }
  }

  lemma EndIsFound(p: Platform, v: View, name: string, maxBytes: nat, end: nat)
    requires EndsAt(v, end) && DirectoryInRange(v, end)
    ensures ReadView(p, v, name, maxBytes) == Walk(p, v, v.u32(end + 16), v.u16(end + 10), name, maxBytes)
  {
    hide Walk, FindEnd;
    FindEndIsLast(v, v.size - 22, end);
  }

  lemma AnswerHasEnd(p: Platform, v: View, name: string, maxBytes: nat) returns (end: nat)
    requires ReadView(p, v, name, maxBytes).Ok?
    ensures EndsAt(v, end) && DirectoryInRange(v, end)
  {
    hide Walk;
    end := FindEnd(v, v.size - 22, Lowest(v.size)).value;
    FindEndIsLast(v, v.size - 22, end);
  }

  lemma AnswerIsSaid(p: Platform, v: View, name: string, maxBytes: nat) returns (end: nat, ds: seq<nat>)
    requires ReadView(p, v, name, maxBytes).Ok?
    ensures Says(p, v, name, ReadView(p, v, name, maxBytes).bytes, maxBytes, end, ds)
  {
    hide ReadView, EndsAt, DirectoryInRange, Walk, CentralAt, Follow, Vouches;
    var bytes := ReadView(p, v, name, maxBytes).bytes;
    end := AnswerHasEnd(p, v, name, maxBytes);
    EndIsFound(p, v, name, maxBytes, end);
    var at, entries := v.u32(end + 16), v.u16(end + 10);
    ds := WalkFollows(p, v, at, entries, name, maxBytes);
    WalkStops(p, v, at, entries, name, maxBytes, ds);
    FollowIsExact(p, v, CentralAt(p, v, ds[|ds| - 1]).value, name, bytes, maxBytes);
  }

  lemma SaidIsAnswered(
    p: Platform, v: View, name: string, bytes: seq<byte>, maxBytes: nat, end: nat, ds: seq<nat>)
    requires Says(p, v, name, bytes, maxBytes, end, ds)
    ensures ReadView(p, v, name, maxBytes) == Ok(bytes)
  {
    hide ReadView, EndsAt, DirectoryInRange, Walk, CentralAt, Follow, Vouches;
    EndIsFound(p, v, name, maxBytes, end);
    WalkStops(p, v, v.u32(end + 16), v.u16(end + 10), name, maxBytes, ds);
    FollowIsExact(p, v, CentralAt(p, v, ds[|ds| - 1]).value, name, bytes, maxBytes);
  }

  /**
   * Whatever the bytes are: they are answered with `bytes` if and only if the last end record within
   * reach declares a directory in range, the first record of that name among those it declares is
   * neither encrypted nor zip64, and it and its local header vouch for `bytes`, within the limit.
   */
  lemma ReadIsSound(p: Platform, buf: seq<byte>, name: string, bytes: seq<byte>, maxBytes: nat)
    ensures Read(p, buf, name, maxBytes) == Ok(bytes)
            <==> exists end, ds :: Says(p, ViewOf(buf), name, bytes, maxBytes, end, ds)
  {
    hide ReadView, Says, ViewOf;
    var v := ViewOf(buf);
    if Read(p, buf, name, maxBytes) == Ok(bytes) {
      var end, ds := AnswerIsSaid(p, v, name, maxBytes);
    }
    if end, ds :| Says(p, v, name, bytes, maxBytes, end, ds) {
      SaidIsAnswered(p, v, name, bytes, maxBytes, end, ds);
    }
  }
}
