/** The reader undoes the writer: what is read back, entry by entry and error by error. */
module ZipRoundTrip {
  import opened Wrappers
  import opened Bytes
  import opened ZipFormat
  import opened ZipLayout
  import opened ZipWriter
  import opened ZipReader

  // Reading one name, stated on the entries alone: no bytes, no offsets.

  function ReadFromEntry(p: Platform, e: Entry, maxBytes: nat): ZipRead {
    if e.flags % 2 == 1 then Refused(Encrypted)
    else if |e.body| == U32_MAX || e.size == U32_MAX then Refused(Zip64Entry)
    else if e.size > maxBytes then Refused(TooLarge)
    else if e.compression != 0 && e.compression != 8 then Refused(UnsupportedMethod)
    else
      var unpacked := if e.compression == 0 then Some(e.body) else p.inflate(e.body, maxBytes);
      if unpacked.None? then Refused(NotInflated)
      else if |unpacked.value| != e.size then Refused(SizeMismatch)
      else if p.crc32(unpacked.value) != e.crc then Refused(ChecksumMismatch)
      else Ok(unpacked.value)
  }

  /** The first entry from `i` on whose name decodes to `name`. */
  function ReadFromEntries(p: Platform, es: seq<Entry>, i: nat, name: string, maxBytes: nat): ZipRead
    requires i <= |es|
    decreases |es| - i
  {
    if i == |es| then Refused(NoSuchEntry)
    else if p.decode(es[i].name) == name then ReadFromEntry(p, es[i], maxBytes)
    else ReadFromEntries(p, es, i + 1, name, maxBytes)
  }

  /** The reader reserves three values for zip64. */
  predicate Zip64(es: seq<Entry>) {
    |es| == U16_MAX || DirectoryOffset(es, |es|) == U32_MAX || Offset(es, |es|) == U32_MAX
  }

  // What a reader sees at each record.

  function FieldsOf(e: Entry, extraLength: nat): Fields {
    Fields(e.flags, e.compression, e.crc, |e.body|, e.size, |e.name|, extraLength)
  }

  ghost predicate LocalReads(v: View, e: Entry, x: Place) {
    var at, n, k := x.local, |e.name|, |x.localExtra|;
    && at + 30 + n + k + |e.body| <= v.size
    && v.u32(at) == LOCAL_SIGNATURE
    && FieldsAt(v, at + 4) == FieldsOf(e, k)
    && v.cut(at + 30, at + 30 + n) == e.name
    && v.cut(at + 30 + n + k, at + 30 + n + k + |e.body|) == e.body
  }

  ghost predicate CentralReads(v: View, e: Entry, x: Place) {
    var at, n, k := x.central, |e.name|, |x.centralExtra|;
    && at + 46 + n <= v.size
    && v.u32(at) == CENTRAL_SIGNATURE
    && FieldsAt(v, at + 6) == FieldsOf(e, k)
    && v.u16(at + 32) == |x.comment|
    && v.u32(at + 42) == x.local
    && v.cut(at + 46, at + 46 + n) == e.name
  }

  ghost predicate EntryReads(v: View, e: Entry, x: Place) {
    LocalReads(v, e, x) && CentralReads(v, e, x)
  }

  ghost predicate EndReads(v: View, end: nat, count: nat, size: nat, at: nat) {
    EndsAt(v, end) && v.u16(end + 10) == count && v.u32(end + 12) == size && v.u32(end + 16) == at
  }

  /** The buffer reads as an archive of `es`. */
  ghost predicate Reads(v: View, es: seq<Entry>, xs: seq<Place>, end: nat, size: nat, at: nat) {
    && |es| == |xs|
    && (forall i :: 0 <= i < |es| ==> EntryReads(v, es[i], xs[i]))
    && (forall i :: 0 <= i < |es| ==> xs[i].central == DirectoryAt(es, xs, at, i))
    && EndReads(v, end, |es|, size, at)
  }

  lemma U16Read(buf: seq<byte>, i: nat, n: int)
    requires IsU16(n) && HoldsAt(buf, i, U16(n))
    ensures ViewOf(buf).u16(i) == n
  {
    Read16Written(buf, i, n);
  }

  lemma U32Read(buf: seq<byte>, i: nat, n: int)
    requires IsU32(n) && HoldsAt(buf, i, U32(n))
    ensures ViewOf(buf).u32(i) == n
  {
    Read32Written(buf, i, n);
  }

  lemma CutHeld(buf: seq<byte>, i: nat, s: seq<byte>)
    requires HoldsAt(buf, i, s)
    ensures i + |s| <= ViewOf(buf).size && ViewOf(buf).cut(i, i + |s|) == s
  {
  }

  lemma Signatures()
    ensures U32(LOCAL_SIGNATURE) == [0x50, 0x4b, 0x03, 0x04]
    ensures U32(CENTRAL_SIGNATURE) == [0x50, 0x4b, 0x01, 0x02]
    ensures U32(END_SIGNATURE) == [0x50, 0x4b, 0x05, 0x06]
  {
    SignatureBytes(0x03, 0x04, LOCAL_SIGNATURE);
    SignatureBytes(0x01, 0x02, CENTRAL_SIGNATURE);
    SignatureBytes(0x05, 0x06, END_SIGNATURE);
  }

  lemma SignatureBytes(a: byte, b: byte, signature: int)
    requires signature == 0x50 + 256 * (0x4b + 256 * (a + 256 * b))
    ensures IsU32(signature) && U32(signature) == [0x50, 0x4b, a, b]
  {
    var high := a + 256 * b;
    var middle := 0x4b + 256 * high;
    assert signature / 256 == middle && signature % 256 == 0x50;
    assert signature / 0x1_0000 == middle / 256 == high && middle % 256 == 0x4b;
    assert signature / 0x100_0000 == high / 256 == b && high % 256 == a;
  }

  lemma LocalRead(buf: seq<byte>, e: Entry, x: Place)
    requires Fits(e) && LocalHeld(buf, e, x)
    ensures LocalReads(ViewOf(buf), e, x)
  {
    hide HoldsAt, U16, U32, ViewOf;
    var at, n := x.local, |e.name|;
    Signatures();
    U32Read(buf, at, LOCAL_SIGNATURE);
    U16Read(buf, at + 6, e.flags);
    U16Read(buf, at + 8, e.compression);
    U32Read(buf, at + 14, e.crc);
    U32Read(buf, at + 18, |e.body|);
    U32Read(buf, at + 22, e.size);
    U16Read(buf, at + 26, n);
    U16Read(buf, at + 28, |x.localExtra|);
    CutHeld(buf, at + 30, e.name);
    CutHeld(buf, at + 30 + n + |x.localExtra|, e.body);
  }

  lemma CentralRead(buf: seq<byte>, e: Entry, x: Place)
    requires Fits(e) && CentralHeld(buf, e, x)
    ensures CentralReads(ViewOf(buf), e, x)
  {
    hide HoldsAt, U16, U32, ViewOf;
    var at := x.central;
    Signatures();
    U32Read(buf, at, CENTRAL_SIGNATURE);
    U16Read(buf, at + 8, e.flags);
    U16Read(buf, at + 10, e.compression);
    U32Read(buf, at + 16, e.crc);
    U32Read(buf, at + 20, |e.body|);
    U32Read(buf, at + 24, e.size);
    U16Read(buf, at + 28, |e.name|);
    U16Read(buf, at + 30, |x.centralExtra|);
    U16Read(buf, at + 32, |x.comment|);
    U32Read(buf, at + 42, x.local);
    CutHeld(buf, at + 46, e.name);
  }

  lemma SignatureHeld(buf: seq<byte>, i: nat)
    requires i + 4 <= |buf| && ViewOf(buf).u32(i) == END_SIGNATURE
    ensures HoldsAt(buf, i, [0x50, 0x4b, 0x05, 0x06])
  {
    assert buf[i] == 0x50 && buf[i + 1] == 0x4b && buf[i + 2] == 0x05 && buf[i + 3] == 0x06;
    assert buf[i..i + 4] == [buf[i], buf[i + 1], buf[i + 2], buf[i + 3]];
  }

  lemma EndRead(buf: seq<byte>, end: nat, count: nat, size: nat, at: nat)
    requires IsU16(count) && IsU32(size) && IsU32(at) && EndHeld(buf, end, count, size, at)
    ensures EndReads(ViewOf(buf), end, count, size, at)
  {
    hide HoldsAt, U16, U32, Read32;
    Signatures();
    U32Read(buf, end, END_SIGNATURE);
    U16Read(buf, end + 10, count);
    U32Read(buf, end + 12, size);
    U32Read(buf, end + 16, at);
    forall i: nat | end < i <= |buf| - 22
      ensures ViewOf(buf).u32(i) != END_SIGNATURE
    {
      assert !HoldsAt(buf, i, [0x50, 0x4b, 0x05, 0x06]);
      if ViewOf(buf).u32(i) == END_SIGNATURE {
        SignatureHeld(buf, i);
      }
    }
  }

  lemma HeldReads(buf: seq<byte>, es: seq<Entry>, xs: seq<Place>, end: nat, size: nat, at: nat)
    requires Held(buf, es, xs, end, size, at)
    ensures Reads(ViewOf(buf), es, xs, end, size, at)
  {
    hide LocalHeld, CentralHeld, LocalReads, CentralReads, EndHeld, EndReads, DirectoryAt, ViewOf;
    var v := ViewOf(buf);
    forall i | 0 <= i < |es|
      ensures EntryReads(v, es[i], xs[i])
    {
      assert EntryHeld(buf, es[i], xs[i]);
      LocalRead(buf, es[i], xs[i]);
      CentralRead(buf, es[i], xs[i]);
    }
    EndRead(buf, end, |es|, size, at);
  }

  // From here on nothing looks at bytes any more.

  lemma CentralDecodes(p: Platform, v: View, e: Entry, x: Place)
    requires CentralReads(v, e, x)
    ensures CentralAt(p, v, x.central)
            == Some(Central(FieldsOf(e, |x.centralExtra|), x.local, p.decode(e.name), Next(e, x)))
  {
    hide FieldsAt;
  }

  lemma FollowReads(p: Platform, v: View, e: Entry, x: Place, maxBytes: nat)
    requires LocalReads(v, e, x)
    ensures Follow(p, v, FieldsOf(e, |x.centralExtra|), x.local, p.decode(e.name), maxBytes)
            == ReadFromEntry(p, e, maxBytes)
  {
    hide FieldsAt;
  }

  // One record of the walk, as the walk sees it.

  ghost predicate StepReads(p: Platform, v: View, e: Entry, x: Place, maxBytes: nat) {
    && CentralAt(p, v, x.central)
       == Some(Central(FieldsOf(e, |x.centralExtra|), x.local, p.decode(e.name), Next(e, x)))
    && Follow(p, v, FieldsOf(e, |x.centralExtra|), x.local, p.decode(e.name), maxBytes)
       == ReadFromEntry(p, e, maxBytes)
  }

  lemma EntryStep(p: Platform, v: View, e: Entry, x: Place, maxBytes: nat)
    requires EntryReads(v, e, x)
    ensures StepReads(p, v, e, x, maxBytes)
  {
    hide CentralAt, Follow, ReadFromEntry, LocalReads, CentralReads;
    CentralDecodes(p, v, e, x);
    FollowReads(p, v, e, x, maxBytes);
  }

  lemma WalkStep(p: Platform, v: View, e: Entry, x: Place, left: nat, name: string, maxBytes: nat)
    requires StepReads(p, v, e, x, maxBytes) && left > 0
    ensures Walk(p, v, x.central, left, name, maxBytes)
            == if p.decode(e.name) == name then ReadFromEntry(p, e, maxBytes)
               else Walk(p, v, Next(e, x), left - 1, name, maxBytes)
  {
    hide CentralAt, Follow, ReadFromEntry, Next;
  }

  lemma ReadStep(p: Platform, es: seq<Entry>, i: nat, name: string, maxBytes: nat)
    requires i < |es|
    ensures ReadFromEntries(p, es, i, name, maxBytes)
            == if p.decode(es[i].name) == name then ReadFromEntry(p, es[i], maxBytes)
               else ReadFromEntries(p, es, i + 1, name, maxBytes)
  {
    hide ReadFromEntry;
  }

  lemma {:induction false} WalkReads(
    p: Platform, v: View, es: seq<Entry>, xs: seq<Place>, at: nat, i: nat, name: string, maxBytes: nat)
    requires i <= |es| == |xs|
    requires forall j :: 0 <= j < |es| ==> StepReads(p, v, es[j], xs[j], maxBytes)
    requires forall j :: 0 <= j < |es| ==> xs[j].central == DirectoryAt(es, xs, at, j)
    ensures Walk(p, v, DirectoryAt(es, xs, at, i), |es| - i, name, maxBytes)
            == ReadFromEntries(p, es, i, name, maxBytes)
    decreases |es| - i
  {
    hide StepReads, ReadFromEntry, Next;
    if i < |es| {
      hide Walk, ReadFromEntries;
      assert DirectoryAt(es, xs, at, i + 1) == Next(es[i], xs[i]) && xs[i].central == DirectoryAt(es, xs, at, i);
      hide DirectoryAt;
      WalkStep(p, v, es[i], xs[i], |es| - i, name, maxBytes);
      ReadStep(p, es, i, name, maxBytes);
      WalkReads(p, v, es, xs, at, i + 1, name, maxBytes);
    }
  }

  lemma EndFound(p: Platform, v: View, end: nat, count: nat, size: nat, at: nat, name: string, maxBytes: nat)
    requires EndReads(v, end, count, size, at)
    ensures ReadView(p, v, name, maxBytes)
            == if count == U16_MAX || size == U32_MAX || at == U32_MAX then Refused(Zip64Archive)
               else if at + size > end then Refused(DirectoryOutOfRange)
               else Walk(p, v, at, count, name, maxBytes)
  {
    hide Walk, FindEnd;
    FindEndIsLast(v, v.size - 22, end);
  }

  lemma ReadReads(
    p: Platform, v: View, es: seq<Entry>, xs: seq<Place>, end: nat, size: nat, at: nat, name: string, maxBytes: nat)
    requires Reads(v, es, xs, end, size, at)
    ensures ReadView(p, v, name, maxBytes)
            == if |es| == U16_MAX || size == U32_MAX || at == U32_MAX then Refused(Zip64Archive)
               else if at + size > end then Refused(DirectoryOutOfRange)
               else ReadFromEntries(p, es, 0, name, maxBytes)
  {
    hide EntryReads, EndReads, StepReads, ReadView, Walk, ReadFromEntries;
    forall i | 0 <= i < |es|
      ensures StepReads(p, v, es[i], xs[i], maxBytes)
    {
      EntryStep(p, v, es[i], xs[i], maxBytes);
    }
    WalkReads(p, v, es, xs, at, 0, name, maxBytes);
    EndFound(p, v, end, |es|, size, at, name, maxBytes);
  }

  /**
   * For every archive that holds `es`, whatever extra fields and comments its records carry and
   * wherever they lie: the reader answers from the entries alone, for every name and limit.
   */
  lemma ReadHeld(
    p: Platform, buf: seq<byte>, es: seq<Entry>, xs: seq<Place>, end: nat, size: nat, at: nat,
    name: string, maxBytes: nat)
    requires Held(buf, es, xs, end, size, at)
    ensures Read(p, buf, name, maxBytes)
            == if |es| == 0xffff || size == 0xffff_ffff || at == 0xffff_ffff then Refused(Zip64Archive)
               else if at + size > end then Refused(DirectoryOutOfRange)
               else ReadFromEntries(p, es, 0, name, maxBytes)
  {
    hide Held, Reads, ReadView, ReadFromEntries, ViewOf;
    HeldReads(buf, es, xs, end, size, at);
    ReadReads(p, ViewOf(buf), es, xs, end, size, at, name, maxBytes);
  }

  /** For every archive that was written, every name and every limit: the reader answers from the entries. */
  lemma ReadArchive(p: Platform, es: seq<Entry>, name: string, maxBytes: nat)
    requires Writable(es)
    ensures Read(p, Archive(es), name, maxBytes)
            == if Zip64(es) then Refused(Zip64Archive) else ReadFromEntries(p, es, 0, name, maxBytes)
  {
    hide Held, Read, ReadFromEntries, Archive, Writable;
    var size, at := DirectoryOffset(es, |es|), Offset(es, |es|);
    ArchiveHeld(es);
    ReadHeld(p, Archive(es), es, Places(es), at + size, size, at, name, maxBytes);
  }

  /** Extra fields and comments change no answer: it is the one for the archive of the same entries without them. */
  lemma ExtrasDoNotMatter(
    p: Platform, buf: seq<byte>, es: seq<Entry>, xs: seq<Place>, end: nat, size: nat, at: nat,
    name: string, maxBytes: nat)
    ensures Held(buf, es, xs, end, size, at) && size < 0xffff_ffff && at < 0xffff_ffff && at + size <= end ==>
              (Writable(es) && !Zip64(es) ==> Read(p, buf, name, maxBytes) == Read(p, Archive(es), name, maxBytes))
  {
    hide Held, Read, Archive, Writable, ReadFromEntries;
    if Held(buf, es, xs, end, size, at) && Writable(es) {
      ReadHeld(p, buf, es, xs, end, size, at, name, maxBytes);
      ReadArchive(p, es, name, maxBytes);
    }
  }

  lemma {:induction false} FirstOfName(p: Platform, es: seq<Entry>, k: nat, i: nat, name: string, maxBytes: nat)
    requires k <= i <= |es|
    requires forall j :: k <= j < i ==> p.decode(es[j].name) != name
    ensures i == |es| ==> ReadFromEntries(p, es, k, name, maxBytes) == Refused(NoSuchEntry)
    ensures i < |es| && p.decode(es[i].name) == name ==>
              ReadFromEntries(p, es, k, name, maxBytes) == ReadFromEntry(p, es[i], maxBytes)
    decreases i - k
  {
    if k < i {
      FirstOfName(p, es, k + 1, i, name, maxBytes);
    }
  }

  // ---- Files and their overrides.

  /** What the file gives of itself is true of its content, and no length is one the reader refuses. */
  predicate Honest(p: Platform, file: ZipFile) {
    var data := Content(p, file);
    && (file.flags.Some? ==> file.flags.value % 2 == 0)
    && (file.crc.Some? ==> file.crc.value == p.crc32(data))
    && (file.declaredSize.Some? ==> file.declaredSize.value == |data|)
    && |data| != 0xffff_ffff && (file.compression != Some(Stored) ==> |p.deflate(data)| != 0xffff_ffff)
  }

  /** What a limit lets through: content within it, and under a limit of zero no deflated body. */
  predicate WithinLimit(p: Platform, file: ZipFile, maxBytes: nat) {
    |Content(p, file)| <= maxBytes && (maxBytes > 0 || file.compression == Some(Stored))
  }

  /** Content is the buffer as it is, or the encoded text. */
  predicate IsContent(p: Platform, file: ZipFile, bytes: seq<byte>) {
    match file.data
    case Text(chars) => bytes == p.encode(chars)
    case Buffer(data) => bytes == data
  }

  lemma EntryBack(p: Platform, file: ZipFile, maxBytes: nat)
    requires p.Lossless()
    ensures var r := ReadFromEntry(p, Resolve(p, file), maxBytes);
            && (r.Ok? <==> Honest(p, file) && WithinLimit(p, file, maxBytes))
            && (r.Ok? ==> IsContent(p, file, r.bytes))
  {
    var data := Content(p, file);
    if file.compression != Some(Stored) {
      assert p.inflate(p.deflate(data), maxBytes) == if 0 < maxBytes && |data| <= maxBytes then Some(data) else None;
    }
  }

  lemma EntryOfName(p: Platform, files: seq<ZipFile>, i: nat, name: string, maxBytes: nat)
    requires Writable(ResolveAll(p, files)) && !Zip64(ResolveAll(p, files))
    requires i < |files| && p.decode(p.encode(files[i].name)) == name
    requires forall j :: 0 <= j < i ==> p.decode(p.encode(files[j].name)) != name
    ensures Read(p, Archive(ResolveAll(p, files)), name, maxBytes) == ReadFromEntry(p, Resolve(p, files[i]), maxBytes)
  {
    hide Writable, Zip64, Archive, Read, ReadFromEntry, ReadFromEntries, Content;
    var es := ResolveAll(p, files);
    ReadArchive(p, es, name, maxBytes);
    FirstOfName(p, es, 0, i, name, maxBytes);
  }

  /**
   * Write a list of files and read one name back: the answer is the content of the first file of
   * that name, exactly when that file is honest and within the limit; any override that lies is refused.
   */
  lemma ReadBack(p: Platform, files: seq<ZipFile>, i: nat, name: string, maxBytes: nat)
    requires p.Lossless()
    requires Writable(ResolveAll(p, files)) && !Zip64(ResolveAll(p, files))
    requires i < |files| && p.decode(p.encode(files[i].name)) == name
    requires forall j :: 0 <= j < i ==> p.decode(p.encode(files[j].name)) != name
    ensures var r := Read(p, Archive(ResolveAll(p, files)), name, maxBytes);
            && (r.Ok? <==> Honest(p, files[i]) && WithinLimit(p, files[i], maxBytes))
            && (r.Ok? ==> IsContent(p, files[i], r.bytes))
  {
    hide Writable, Zip64, Archive, Read, ReadFromEntry, Honest, WithinLimit, IsContent, Resolve;
    EntryOfName(p, files, i, name, maxBytes);
    EntryBack(p, files[i], maxBytes);
  }

  /** One override that lies, on a file that is honest otherwise, and the refusal it gets. */
  lemma LiesAreRefused(p: Platform, files: seq<ZipFile>, i: nat, name: string, maxBytes: nat)
    requires p.Lossless() && maxBytes > 0
    requires Writable(ResolveAll(p, files)) && !Zip64(ResolveAll(p, files))
    requires i < |files| && p.decode(p.encode(files[i].name)) == name
    requires forall j :: 0 <= j < i ==> p.decode(p.encode(files[j].name)) != name
    ensures var r, f := Read(p, Archive(ResolveAll(p, files)), name, maxBytes), files[i];
            var data := Content(p, f);
            && (f.flags.Some? && f.flags.value % 2 == 1 ==> r == Refused(Encrypted))
            && (Honest(p, f.(crc := None)) && WithinLimit(p, f, maxBytes) && f.crc.Some? ==>
                  (f.crc.value != p.crc32(data) ==> r == Refused(ChecksumMismatch)))
            && (Honest(p, f.(declaredSize := None)) && WithinLimit(p, f, maxBytes) && f.declaredSize.Some? ==>
                  var size := f.declaredSize.value;
                  && (size != |data| && size <= maxBytes && size != 0xffff_ffff ==> r == Refused(SizeMismatch))
                  && (size > maxBytes && size != 0xffff_ffff ==> r == Refused(TooLarge))
                  && (size == 0xffff_ffff ==> r == Refused(Zip64Entry)))
            && (Honest(p, f) && |data| > maxBytes ==> r == Refused(TooLarge))
            // A deflated body that declares less than it inflates to is stopped at the limit.
            && (Honest(p, f.(declaredSize := None)) && f.compression != Some(Stored) && f.declaredSize.Some? ==>
                  (f.declaredSize.value <= maxBytes < |data| && f.declaredSize.value != 0xffff_ffff ==>
                     r == Refused(NotInflated)))
  {
    hide Writable, Zip64, Archive, Read;
    EntryOfName(p, files, i, name, maxBytes);
    var data := Content(p, files[i]);
    assert files[i].compression != Some(Stored) ==>
      p.inflate(p.deflate(data), maxBytes) == if |data| <= maxBytes then Some(data) else None;
  }

  lemma ReadMissing(p: Platform, files: seq<ZipFile>, name: string, maxBytes: nat)
    requires Writable(ResolveAll(p, files)) && !Zip64(ResolveAll(p, files))
    requires forall f <- files :: p.decode(p.encode(f.name)) != name
    ensures Read(p, Archive(ResolveAll(p, files)), name, maxBytes) == Refused(NoSuchEntry)
  {
    var es := ResolveAll(p, files);
    ReadArchive(p, es, name, maxBytes);
    FirstOfName(p, es, 0, |es|, name, maxBytes);
  }

  /** A number field holds the override where there is one, and otherwise what the content says. */
  ghost predicate HoldsNumber(buf: seq<byte>, at: nat, wide: bool, given: Option<int>, otherwise: int) {
    var v := if given.Some? then given.value else otherwise;
    if wide then IsU32(v) && HoldsAt(buf, at, U32(v)) else IsU16(v) && HoldsAt(buf, at, U16(v))
  }

  /** The fields that start at the general purpose flags, in either header of a file. */
  ghost predicate HoldsFile(p: Platform, buf: seq<byte>, at: nat, file: ZipFile) {
    var data := if file.data.Text? then p.encode(file.data.chars) else file.data.bytes;
    var body := if file.compression == Some(Stored) then data else p.deflate(data);
    && HoldsNumber(buf, at, false, file.flags, 0)
    && HoldsNumber(buf, at + 2, false, None, if file.compression == Some(Stored) then 0 else 8)
    && HoldsNumber(buf, at + 8, true, file.crc, p.crc32(data))
    && HoldsNumber(buf, at + 12, true, None, |body|)
    && HoldsNumber(buf, at + 16, true, file.declaredSize, |data|)
    && HoldsNumber(buf, at + 20, false, None, |p.encode(file.name)|)
  }

  /** Both records of a file: local record at `local`, directory record at `central`. */
  ghost predicate HoldsRecords(p: Platform, buf: seq<byte>, local: nat, central: nat, file: ZipFile) {
    var data := if file.data.Text? then p.encode(file.data.chars) else file.data.bytes;
    var name := p.encode(file.name);
    && HoldsAt(buf, local, [0x50, 0x4b, 0x03, 0x04]) && HoldsFile(p, buf, local + 6, file)
    && HoldsAt(buf, local + 30, name)
    && HoldsAt(buf, local + 30 + |name|, if file.compression == Some(Stored) then data else p.deflate(data))
    && HoldsAt(buf, central, [0x50, 0x4b, 0x01, 0x02]) && HoldsFile(p, buf, central + 8, file)
    && HoldsNumber(buf, central + 42, true, None, local) && HoldsAt(buf, central + 46, name)
  }

  lemma HeldFile(p: Platform, buf: seq<byte>, file: ZipFile, x: Place)
    requires EntryHeld(buf, Resolve(p, file), x) && x.localExtra == []
    ensures HoldsRecords(p, buf, x.local, x.central, file)
  {
    hide HoldsAt, U16, U32;
  }

  /**
   * What the archive of a list of files holds of file `i`: in both headers the overrides where they
   * are given and the defaults where not, and behind the local header the name and the body.
   */
  lemma ArchiveHoldsFiles(p: Platform, files: seq<ZipFile>, i: nat)
    requires Writable(ResolveAll(p, files)) && i < |files|
    ensures var es := ResolveAll(p, files);
            HoldsRecords(p, Archive(es), Offset(es, i), Offset(es, |es|) + DirectoryOffset(es, i), files[i])
  {
    hide Archive, HoldsRecords, EntryHeld, Resolve, Offset, DirectoryOffset;
    var es := ResolveAll(p, files);
    ArchiveEntryHeld(es, i);
    HeldFile(p, Archive(es), files[i], PlaceOf(es, i));
  }

  lemma LocalConstants(buf: seq<byte>, e: Entry, at: nat)
    requires Fits(e) && HoldsAt(buf, at, LocalRecord(e))
    ensures HoldsAt(buf, at + 4, U16(20)) && HoldsAt(buf, at + 10, U32(0)) && HoldsAt(buf, at + 28, U16(0))
  {
    hide LocalHeader, Common;
    HoldConcat(buf, at, LocalHeader(e) + e.name, e.body);
    HoldConcat(buf, at, LocalHeader(e), e.name);
    LocalHeaderFields(buf, at, e);
    CommonFields(buf, at + 4, e);
  }

  lemma CentralConstants(buf: seq<byte>, e: Entry, at: nat, offset: int)
    requires Fits(e) && IsU32(offset) && HoldsAt(buf, at, CentralRecord(e, offset))
    ensures HoldsAt(buf, at + 4, U16(20)) && HoldsAt(buf, at + 6, U16(20)) && HoldsAt(buf, at + 12, U32(0))
    ensures HoldsAt(buf, at + 30, U16(0)) && HoldsAt(buf, at + 32, U16(0))
    ensures HoldsAt(buf, at + 34, U32(0)) && HoldsAt(buf, at + 38, U32(0))
  {
    hide CentralHeader, Common;
    HoldConcat(buf, at, CentralHeader(e, offset), e.name);
    CentralHeaderFields(buf, at, e, offset);
    CommonFields(buf, at + 6, e);
  }

  /** The rest of both headers: version 2.0, no date, no extra field, no comment, disk 0, no attributes. */
  lemma ArchiveConstants(es: seq<Entry>, i: nat)
    requires Writable(es) && i < |es|
    ensures var buf, local, central := Archive(es), Offset(es, i), Offset(es, |es|) + DirectoryOffset(es, i);
            && HoldsAt(buf, local + 4, U16(20)) && HoldsAt(buf, local + 10, U32(0)) && HoldsAt(buf, local + 28, U16(0))
            && HoldsAt(buf, central + 4, U16(20)) && HoldsAt(buf, central + 6, U16(20))
            && HoldsAt(buf, central + 12, U32(0)) && HoldsAt(buf, central + 30, U16(0))
            && HoldsAt(buf, central + 32, U16(0)) && HoldsAt(buf, central + 34, U32(0))
            && HoldsAt(buf, central + 38, U32(0))
  {
    hide Archive, LocalRecord, CentralRecord, HoldsAt, U16, U32;
    ArchiveLayout(es, i);
    OffsetMonotone(es, i, |es|);
    LocalConstants(Archive(es), es[i], Offset(es, i));
    CentralConstants(Archive(es), es[i], Offset(es, |es|) + DirectoryOffset(es, i), Offset(es, i));
  }

  /** An end record: disk 0, both counts, size and place of the directory, and no comment. */
  ghost predicate HoldsEnd(buf: seq<byte>, end: nat, count: int, size: int, at: int)
    requires IsU16(count) && IsU32(size) && IsU32(at)
  {
    && HoldsAt(buf, end, [0x50, 0x4b, 0x05, 0x06]) && HoldsAt(buf, end + 4, U32(0))
    && HoldsAt(buf, end + 8, U16(count)) && HoldsAt(buf, end + 10, U16(count))
    && HoldsAt(buf, end + 12, U32(size)) && HoldsAt(buf, end + 16, U32(at)) && HoldsAt(buf, end + 20, U16(0))
  }

  lemma EndFields(buf: seq<byte>, end: nat, count: int, size: int, at: int)
    requires IsU16(count) && IsU32(size) && IsU32(at) && HoldsAt(buf, end, EndRecord(count, size, at))
    ensures HoldsEnd(buf, end, count, size, at)
  {
    hide EndRecord, HoldsAt, U16;
    Signatures();
    EndRecordFields(buf, end, count, size, at);
  }

  /** The end record of a written archive. */
  lemma ArchiveEnd(es: seq<Entry>)
    requires Writable(es)
    ensures HoldsEnd(Archive(es), |Archive(es)| - 22, |es|, DirectoryOffset(es, |es|), Offset(es, |es|))
  {
    hide EndRecord, HoldsAt, HoldsEnd;
    EndRecordHeld(es);
    EndFields(Archive(es), |Archive(es)| - 22, |es|, DirectoryOffset(es, |es|), Offset(es, |es|));
  }

  // ---- A reader of the whole archive, as the specification describes one: find the end record, walk
  // the directory, follow every offset, and hold both headers of an entry to the same fields.

  /** The stored bytes behind the local header at `local`, if it agrees with the directory on fields and name. */
  function ParseBody(v: View, f: Fields, local: nat, name: seq<byte>): Option<seq<byte>> {
    var g := FieldsAt(v, local + 4);
    var start := local + 30 + g.nameLength + g.extraLength;
    if v.u32(local) != LOCAL_SIGNATURE || g.(extraLength := f.extraLength) != f || start + f.compressed > v.size
       || v.cut(local + 30, local + 30 + g.nameLength) != name
    then None
    else Some(v.cut(start, start + f.compressed))
  }

  function ParseEntry(v: View, at: nat): (r: Option<(Entry, nat)>) {
    if at + 46 > v.size || v.u32(at) != CENTRAL_SIGNATURE then None
    else
      var f := FieldsAt(v, at + 6);
      var name := v.cut(at + 46, at + 46 + f.nameLength);
      var body := ParseBody(v, f, v.u32(at + 42), name);
      if body.None? then None
      else
        Some((Entry(name, f.flags, f.compression, f.crc, body.value, f.size),
              at + 46 + f.nameLength + f.extraLength + v.u16(at + 32)))
  }

  /** `left` entries from `at` on, each parsed where the one before it said the next one starts. */
  function ParseEntries(v: View, at: nat, left: nat): Option<seq<Entry>>
    decreases left
  {
    if left == 0 then Some([])
    else
      var first := ParseEntry(v, at);
      if first.None? then None
      else
        var rest := ParseEntries(v, first.value.1, left - 1);
        if rest.None? then None else Some([first.value.0] + rest.value)
  }

  function ParseView(v: View): Option<seq<Entry>> {
    if v.size < 22 then None
    else
      match FindEnd(v, v.size - 22, Lowest(v.size))
      case None => None
      case Some(end) => ParseEntries(v, v.u32(end + 16), v.u16(end + 10))
  }

  function Parse(buf: seq<byte>): Option<seq<Entry>> {
    ParseView(ViewOf(buf))
  }

  lemma ParseBodyReads(v: View, e: Entry, x: Place)
    requires LocalReads(v, e, x)
    ensures ParseBody(v, FieldsOf(e, |x.centralExtra|), x.local, e.name) == Some(e.body)
  {
    hide FieldsAt;
  }

  lemma ParseEntryReads(v: View, e: Entry, x: Place)
    requires CentralReads(v, e, x) && LocalReads(v, e, x)
    ensures ParseEntry(v, x.central) == Some((e, Next(e, x)))
  {
    hide FieldsAt, LocalReads, ParseBody;
    ParseBodyReads(v, e, x);
  }

  lemma {:induction false} ParseEntriesInOrder(v: View, es: seq<Entry>, xs: seq<Place>, at: nat, i: nat)
    requires i <= |es| == |xs|
    requires forall j :: 0 <= j < |es| ==> EntryReads(v, es[j], xs[j])
    requires forall j :: 0 <= j < |es| ==> xs[j].central == DirectoryAt(es, xs, at, j)
    ensures ParseEntries(v, DirectoryAt(es, xs, at, i), |es| - i) == Some(es[i..])
    decreases |es| - i
  {
    hide ParseEntry, CentralReads, LocalReads, Next;
    if i == |es| {
      assert es[i..] == [];
    } else {
      ParseEntryReads(v, es[i], xs[i]);
      ParseEntriesInOrder(v, es, xs, at, i + 1);
      assert es[i..] == [es[i]] + es[i + 1..];
    }
  }

  lemma ParseFromEnd(v: View, end: nat, count: nat, size: nat, at: nat)
    requires EndReads(v, end, count, size, at)
    ensures ParseView(v) == ParseEntries(v, at, count)
  {
    hide ParseEntry, ParseEntries, FindEnd;
    FindEndIsLast(v, v.size - 22, end);
  }

  lemma ParseReads(v: View, es: seq<Entry>, xs: seq<Place>, end: nat, size: nat, at: nat)
    requires Reads(v, es, xs, end, size, at)
    ensures ParseView(v) == Some(es)
  {
    hide ParseEntry, ParseEntries, EntryReads, EndReads, ParseView;
    ParseFromEnd(v, end, |es|, size, at);
    ParseEntriesInOrder(v, es, xs, at, 0);
    assert es[0..] == es;
  }

  /** Every entry of any archive comes back, in order, with every field and its stored bytes. */
  lemma ParseHeld(buf: seq<byte>, es: seq<Entry>, xs: seq<Place>, end: nat, size: nat, at: nat)
    requires Held(buf, es, xs, end, size, at)
    ensures Parse(buf) == Some(es)
  {
    hide Held, Reads, ParseView, ViewOf;
    HeldReads(buf, es, xs, end, size, at);
    ParseReads(ViewOf(buf), es, xs, end, size, at);
  }

  /** The round trip of the format: every entry comes back, in order, with every field and its stored bytes. */
  lemma ParseArchive(es: seq<Entry>)
    requires Writable(es)
    ensures Parse(Archive(es)) == Some(es)
  {
    hide Held, Parse, Archive;
    var size, at := DirectoryOffset(es, |es|), Offset(es, |es|);
    ArchiveHeld(es);
    ParseHeld(Archive(es), es, Places(es), at + size, size, at);
  }

  /** So two entry lists with the same bytes are the same list. */
  lemma ArchiveInjective(es: seq<Entry>, fs: seq<Entry>)
    requires Writable(es) && Writable(fs)
    ensures Archive(es) == Archive(fs) ==> es == fs
  {
    hide Archive, Parse;
    ParseArchive(es);
    ParseArchive(fs);
  }

  // ---- Where comments end: an end signature inside the archive comment.

  /** An archive comment that ends in an empty end record hides every entry in front of it. */
  lemma FakeEndHidesEntries(p: Platform, front: seq<byte>, name: string, maxBytes: nat)
    ensures Read(p, front + EndRecord(0, 0, 0), name, maxBytes) == Refused(NoSuchEntry)
  {
    hide EndRecord, Read, ReadFromEntries, HoldsAt;
    var buf := front + EndRecord(0, 0, 0);
    HeldAtEnd(front, EndRecord(0, 0, 0));
    EndRecordBytes(buf, |front|, 0, 0, 0);
    assert Held(buf, [], [], |front|, 0, 0);
    ReadHeld(p, buf, [], [], |front|, 0, 0, name, maxBytes);
    assert ReadFromEntries(p, [], 0, name, maxBytes) == Refused(NoSuchEntry) by { NoEntries(p, name, maxBytes); }
  }

  lemma NoEntries(p: Platform, name: string, maxBytes: nat)
    ensures ReadFromEntries(p, [], 0, name, maxBytes) == Refused(NoSuchEntry)
  {
  }

  // ---- One entry with extra fields and comments.

  function PlaceInOne(e: Entry, extra: seq<byte>, centralExtra: seq<byte>, comment: seq<byte>): Place {
    Place(0, 30 + |e.name| + |extra| + |e.body|, extra, centralExtra, comment)
  }

  predicate FitsOne(e: Entry, x: Place, tail: seq<byte>) {
    && Fits(e) && IsU16(|x.localExtra|) && IsU16(|x.centralExtra|) && IsU16(|x.comment|) && IsU16(|tail|)
    && IsU32(x.central) && IsU32(46 + |e.name| + |x.centralExtra| + |x.comment|)
  }

  /** Local record, directory record, end record and archive comment of a single entry. */
  function OneEntry(e: Entry, x: Place, tail: seq<byte>): seq<byte>
    requires FitsOne(e, x, tail)
  {
    LocalBytes(e, x.localExtra) + (CentralBytes(e, x.centralExtra, x.comment, 0) +
    (EndBytes(1, 46 + |e.name| + |x.centralExtra| + |x.comment|, x.central, |tail|) + tail))
  }

  /** Whatever extra fields and comments it has: it holds that entry, unless the comment fakes an end record. */
  lemma OneEntryHeld(e: Entry, extra: seq<byte>, centralExtra: seq<byte>, comment: seq<byte>, tail: seq<byte>)
    requires FitsOne(e, PlaceInOne(e, extra, centralExtra, comment), tail)
    ensures var x := PlaceInOne(e, extra, centralExtra, comment);
            var size := 46 + |e.name| + |centralExtra| + |comment|;
            var buf := OneEntry(e, x, tail);
            NoEndFrom(buf, x.central + size + 1) ==> Held(buf, [e], [x], x.central + size, size, x.central)
  {
    hide LocalBytes, CentralBytes, EndBytes, HoldsAt, LocalHeld, CentralHeld, NoEndFrom;
    var x := PlaceInOne(e, extra, centralExtra, comment);
    var size := 46 + |e.name| + |centralExtra| + |comment|;
    var buf := OneEntry(e, x, tail);
    var l, c := LocalBytes(e, extra), CentralBytes(e, centralExtra, comment, 0);
    var r := EndBytes(1, size, x.central, |tail|);
    WholeHeld(buf);
    HoldConcat(buf, 0, l, c + (r + tail));
    HoldConcat(buf, |l|, c, r + tail);
    HoldConcat(buf, |l| + |c|, r, tail);
    LocalBytesHeld(buf, e, x);
    CentralBytesHeld(buf, e, x);
    EndBytesHeld(buf, x.central + size, 1, size, x.central, |tail|);
  }

  /** The content of a stored file is read past its extra fields. */
  lemma ExtraFieldIsSkipped(p: Platform, name: string, data: seq<byte>, extra: seq<byte>, maxBytes: nat)
    requires p.decode(p.encode(name)) == name && p.Lossless() && |data| <= maxBytes
    requires FitsOne(Entry(p.encode(name), 0, 0, p.crc32(data), data, |data|),
                     PlaceInOne(Entry(p.encode(name), 0, 0, p.crc32(data), data, |data|), extra, [], []), [])
    requires |data| < 0xffff_ffff && 30 + |p.encode(name)| + |extra| + |data| < 0xffff_ffff
    requires 46 + |p.encode(name)| < 0xffff_ffff
    ensures var e := Entry(p.encode(name), 0, 0, p.crc32(data), data, |data|);
            Read(p, OneEntry(e, PlaceInOne(e, extra, [], []), []), name, maxBytes) == Ok(data)
  {
    hide OneEntry, Held, Read, ReadFromEntry;
    var e := Entry(p.encode(name), 0, 0, p.crc32(data), data, |data|);
    var x := PlaceInOne(e, extra, [], []);
    var size := 46 + |e.name|;
    var buf := OneEntry(e, x, []);
    OneEntryLength(e, x, []);
    OneEntryHeld(e, extra, [], [], []);
    ReadHeld(p, buf, [e], [x], x.central + size, size, x.central, name, maxBytes);
    ReadStep(p, [e], 0, name, maxBytes);
    StoredIsRead(p, e, data, maxBytes);
  }

  lemma StoredIsRead(p: Platform, e: Entry, data: seq<byte>, maxBytes: nat)
    requires |data| <= maxBytes && |data| < 0xffff_ffff
    requires e == Entry(e.name, 0, 0, p.crc32(data), data, |data|)
    ensures ReadFromEntry(p, e, maxBytes) == Ok(data)
  {
  }

  lemma OneEntryLength(e: Entry, x: Place, tail: seq<byte>)
    requires FitsOne(e, x, tail) && x == PlaceInOne(e, x.localExtra, x.centralExtra, x.comment)
    ensures |OneEntry(e, x, tail)| == x.central + 46 + |e.name| + |x.centralExtra| + |x.comment| + 22 + |tail|
  {
    hide LocalBytes, CentralBytes, EndBytes;
  }

  lemma WholeHeld(buf: seq<byte>)
    ensures HoldsAt(buf, 0, buf)
  {
    assert buf[0..|buf|] == buf;
  }
}
