/** `buildZip`: the archive writer, one buffer write after another. */
module ZipWriter {
  import opened Wrappers
  import opened Bytes
  import opened ZipFormat

  datatype Compression = Stored | Deflated

  datatype Data = Text(chars: string) | Buffer(bytes: seq<byte>)

  /** The source's ZipFile; `None` is an absent optional field. */
  datatype ZipFile = ZipFile(
    name: string, data: Data, compression: Option<Compression>, crc: Option<int>, declaredSize: Option<int>,
    flags: Option<int>)

  /**
   * What the writer and the reader call but do not define: zlib, and the UTF-8 codec of Buffer.
   * `inflate(raw, max)` is None when it throws, in particular when the output would pass `max`.
   */
  datatype Platform = Platform(
    deflate: seq<byte> -> seq<byte>,
    inflate: (seq<byte>, nat) -> Option<seq<byte>>,
    crc32: seq<byte> -> int,
    encode: string -> seq<byte>,
    decode: seq<byte> -> string)
  {
    /** The laws of a lossless zlib; an output limit of zero is a RangeError in Node, whatever the input. */
    ghost predicate Lossless() {
      && (forall d: seq<byte>, max: nat :: max > 0 ==>
            inflate(deflate(d), max) == if |d| <= max then Some(d) else None)
      && (forall raw: seq<byte> :: inflate(raw, 0) == None)
      && (forall d: seq<byte> :: IsU32(crc32(d)))
    }
  }

  function Content(p: Platform, file: ZipFile): seq<byte> {
    match file.data
    case Text(chars) => p.encode(chars)
    case Buffer(bytes) => bytes
  }

  /** The entry a file becomes: defaults filled in, overrides taken as they are. */
  function Resolve(p: Platform, file: ZipFile): Entry {
    var data := Content(p, file);
    var deflated := file.compression != Some(Stored);
    Entry(
      p.encode(file.name),
      if file.flags.Some? then file.flags.value else 0,
      if deflated then 8 else 0,
      if file.crc.Some? then file.crc.value else p.crc32(data),
      if deflated then p.deflate(data) else data,
      if file.declaredSize.Some? then file.declaredSize.value else |data|)
  }

  function ResolveAll(p: Platform, files: seq<ZipFile>): (es: seq<Entry>)
    ensures |es| == |files|
    ensures forall i :: 0 <= i < |files| ==> es[i] == Resolve(p, files[i])
  {
    seq(|files|, i requires 0 <= i < |files| => Resolve(p, files[i]))
  }

  /** The 26 bytes of the shared fields, one by one. */
  ghost predicate CommonBytes(b: seq<byte>, at: nat, e: Entry)
    requires Fits(e) && at + 26 <= |b|
  {
    && b[at] == 20 && b[at + 1] == 0
    && b[at + 2] == e.flags % 256 && b[at + 3] == e.flags / 256
    && b[at + 4] == e.compression % 256 && b[at + 5] == e.compression / 256
    && b[at + 6] == 0 && b[at + 7] == 0 && b[at + 8] == 0 && b[at + 9] == 0
    && b[at + 10] == e.crc % 256 && b[at + 11] == e.crc / 256 % 256
    && b[at + 12] == e.crc / 0x1_0000 % 256 && b[at + 13] == e.crc / 0x100_0000
    && b[at + 14] == |e.body| % 256 && b[at + 15] == |e.body| / 256 % 256
    && b[at + 16] == |e.body| / 0x1_0000 % 256 && b[at + 17] == |e.body| / 0x100_0000
    && b[at + 18] == e.size % 256 && b[at + 19] == e.size / 256 % 256
    && b[at + 20] == e.size / 0x1_0000 % 256 && b[at + 21] == e.size / 0x100_0000
    && b[at + 22] == |e.name| % 256 && b[at + 23] == |e.name| / 256
    && b[at + 24] == 0 && b[at + 25] == 0
  }

  lemma CommonWritten(b: seq<byte>, at: nat, e: Entry)
    requires Fits(e) && at + 26 <= |b| && CommonBytes(b, at, e)
    ensures HoldsAt(b, at, Common(e))
  {
    Held16(b, at, 20);
    Held16(b, at + 2, e.flags);
    Held16(b, at + 4, e.compression);
    Held32(b, at + 6, 0);
    Held32(b, at + 10, e.crc);
    Held32(b, at + 14, |e.body|);
    Held32(b, at + 18, e.size);
    Held16(b, at + 22, |e.name|);
    Held16(b, at + 24, 0);
    CommonFields(b, at, e);
  }

  /** The bytes of a central header around the shared fields, one by one. */
  lemma CentralWritten(b: seq<byte>, e: Entry, offset: int)
    requires Fits(e) && IsU32(offset) && |b| == 46 && HoldsAt(b, 6, Common(e))
    requires b[0] == 0x50 && b[1] == 0x4b && b[2] == 0x01 && b[3] == 0x02 && b[4] == 20 && b[5] == 0
    requires forall k :: 32 <= k < 42 ==> b[k] == 0
    requires b[42] == offset % 256 && b[43] == offset / 256 % 256
    requires b[44] == offset / 0x1_0000 % 256 && b[45] == offset / 0x100_0000
    ensures b == CentralHeader(e, offset)
  {
    hide CentralHeader, Common;
    Held32(b, 0, CENTRAL_SIGNATURE);
    Held16(b, 4, 20);
    Held16(b, 32, 0);
    Held32(b, 34, 0);
    Held32(b, 38, 0);
    Held32(b, 42, offset);
    CentralHeaderFields(b, 0, e, offset);
    assert b[0..46] == b;
  }

  /** The bytes of an end record, one by one. */
  lemma EndWritten(b: seq<byte>, count: int, size: int, offset: int)
    requires IsU16(count) && IsU32(size) && IsU32(offset) && |b| == 22
    requires b[0] == 0x50 && b[1] == 0x4b && b[2] == 0x05 && b[3] == 0x06
    requires (forall k :: 4 <= k < 8 ==> b[k] == 0) && b[20] == 0 && b[21] == 0
    requires b[8] == b[10] == count % 256 && b[9] == b[11] == count / 256
    requires b[12] == size % 256 && b[13] == size / 256 % 256
    requires b[14] == size / 0x1_0000 % 256 && b[15] == size / 0x100_0000
    requires b[16] == offset % 256 && b[17] == offset / 256 % 256
    requires b[18] == offset / 0x1_0000 % 256 && b[19] == offset / 0x100_0000
    ensures b == EndRecord(count, size, offset)
  {
    hide EndRecord;
    Held32(b, 0, END_SIGNATURE);
    Held32(b, 4, 0);
    Held16(b, 8, count);
    Held16(b, 10, count);
    Held32(b, 12, size);
    Held32(b, 16, offset);
    Held16(b, 20, 0);
    EndRecordFields(b, 0, count, size, offset);
    assert b[0..22] == b;
  }

  /** The writes that both headers share, from the version needed to the name length. */
  method WriteCommon(buf: array<byte>, at: nat, e: Entry) returns (ok: bool)
    requires at + 26 <= buf.Length
    requires forall k :: at <= k < at + 26 ==> buf[k] == 0
    modifies buf
    ensures ok == Fits(e)
    ensures ok ==> HoldsAt(buf[..], at, Common(e))
    ensures forall k :: 0 <= k < buf.Length && !(at <= k < at + 26) ==> buf[k] == old(buf[k])
  {
    hide Common, HoldsAt;
    ok := WriteUInt16LE(buf, 20, at);
    ok := WriteUInt16LE(buf, e.flags, at + 2);
    if !ok { return; }
    ok := WriteUInt16LE(buf, e.compression, at + 4);
    if !ok { return; }
    ok := WriteUInt32LE(buf, e.crc, at + 10);
    if !ok { return; }
    ok := WriteUInt32LE(buf, |e.body|, at + 14);
    if !ok { return; }
    ok := WriteUInt32LE(buf, e.size, at + 18);
    if !ok { return; }
    ok := WriteUInt16LE(buf, |e.name|, at + 22);
    if !ok { return; }
    CommonWritten(buf[..], at, e);
  }

  /** The buffer of a local header, or None when one of the writes throws. */
  method WriteLocalHeader(e: Entry) returns (r: Option<seq<byte>>)
    ensures r == if Fits(e) then Some(LocalHeader(e)) else None
  {
    hide LocalHeader, Common;
    var local := Alloc(30);
    var ok := WriteUInt32LE(local, LOCAL_SIGNATURE, 0);
    ok := WriteCommon(local, 4, e);
    if !ok { return None; }
    ghost var written := local[..];
    Held32(written, 0, LOCAL_SIGNATURE);
    LocalHeaderFields(written, 0, e);
    assert written[0..30] == written;
    return Some(local[..]);
  }

  /** The buffer of a central header for an entry whose local header was written. */
  method WriteCentralHeader(e: Entry, offset: nat) returns (r: Option<seq<byte>>)
    requires Fits(e)
    ensures r == if IsU32(offset) then Some(CentralHeader(e, offset)) else None
  {
    hide CentralHeader, Common;
    var central := Alloc(46);
    var ok := WriteUInt32LE(central, CENTRAL_SIGNATURE, 0);
    ok := WriteUInt16LE(central, 20, 4);
    ok := WriteCommon(central, 6, e);
    ok := WriteUInt32LE(central, offset, 42);
    if !ok { return None; }
    CentralWritten(central[..], e, offset);
    return Some(central[..]);
  }

  method WriteEndRecord(count: nat, size: nat, offset: nat) returns (r: Option<seq<byte>>)
    ensures r == if IsU16(count) && IsU32(size) && IsU32(offset) then Some(EndRecord(count, size, offset)) else None
  {
    hide EndRecord, HoldsAt, U16, U32;
    var end := Alloc(22);
    var ok := WriteUInt32LE(end, END_SIGNATURE, 0);
    ok := WriteUInt16LE(end, count, 8);
    if !ok { return None; }
    ok := WriteUInt16LE(end, count, 10);
    ok := WriteUInt32LE(end, size, 12);
    if !ok { return None; }
    ok := WriteUInt32LE(end, offset, 16);
    if !ok { return None; }
    EndWritten(end[..], count, size, offset);
    return Some(end[..]);
  }

  /** One turn of the loop: the local and the central bytes of an entry. */
  method WriteEntry(e: Entry, offset: nat) returns (r: Option<(seq<byte>, seq<byte>)>)
    ensures r == if Fits(e) && IsU32(offset) then Some((LocalRecord(e), CentralRecord(e, offset))) else None
  {
    var local := WriteLocalHeader(e);
    if local.None? { return None; }
    var central := WriteCentralHeader(e, offset);
    if central.None? { return None; }
    return Some((local.value + e.name + e.body, central.value + e.name));
  }

  /** The loop over the files: the local area, the directory, and the offset after the last entry. */
  method WriteEntries(es: seq<Entry>) returns (ok: bool, locals: seq<byte>, centrals: seq<byte>, offset: nat)
    ensures ok ==> FirstFit(es, |es|) && locals == Locals(es, |es|) && offset == Offset(es, |es|)
    ensures ok ==> (|es| > 0 ==> IsU32(Offset(es, |es| - 1))) && centrals == Directory(es, |es|)
    ensures !ok ==> !Writable(es)
  {
    hide LocalRecord, CentralRecord;
    locals, centrals, offset := [], [], 0;
    for i := 0 to |es|
      invariant FirstFit(es, i) && (i > 0 ==> IsU32(Offset(es, i - 1)))
      invariant locals == Locals(es, i) && centrals == Directory(es, i) && offset == Offset(es, i)
    {
      var e := es[i];
      OffsetMonotone(es, i, |es|);
      var bytes := WriteEntry(e, offset);
      if bytes.None? {
        return false, locals, centrals, offset;
      }
      locals := locals + bytes.value.0;
      centrals := centrals + bytes.value.1;
      offset := offset + 30 + |e.name| + |e.body|;
    }
    ok := true;
  }

  /** None when a write throws a RangeError: exactly when some number does not fit its slot. */
  method BuildZip(p: Platform, files: seq<ZipFile>) returns (r: Option<seq<byte>>)
    ensures var es := ResolveAll(p, files);
            r == if Writable(es) then Some(Archive(es)) else None
  {
    var es := ResolveAll(p, files);
    var ok, locals, directory, offset := WriteEntries(es);
    if !ok { return None; }
    var end := WriteEndRecord(|es|, |directory|, offset);
    if end.None? { return None; }
    return Some(locals + (directory + end.value));
  }
}
