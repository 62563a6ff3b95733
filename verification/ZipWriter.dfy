/**
 Archives as an honest writer lays them out, and the front-to-back reader's round trip over them: local
 header, name, extra fields, data, optional 16-byte descriptor, entry after entry, then the directory.
 */
module ZipWriter {
  import opened Wrappers
  import opened Bytes
  import opened StreamView

  // ---------------------------------------------------------------- extra fields

  /** A ZIP64 record with both sizes and what may follow them, or any other record. */
  datatype ExtraField = Zip64(usize: nat, csize: nat, more: Bytes) | Other(id: nat, body: Bytes)

  predicate FitsExtra(f: ExtraField) {
    match f
    case Zip64(usize, csize, more) => usize < 0x1_0000_0000_0000_0000 && csize < 0x1_0000_0000_0000_0000 && |more| < 0xFFF0
    case Other(id, body) => id < 0x1_0000 && |body| < 0x1_0000 && (id == 1 ==> |body| < 16)
  }

  function IdOf(f: ExtraField): nat { if f.Zip64? then 1 else f.id }

  function BodyOfField(f: ExtraField): Bytes {
    match f
    case Zip64(usize, csize, more) => Put64(usize) + Put64(csize) + more
    case Other(_, body) => body
  }

  function WriteExtra(fs: seq<ExtraField>): Bytes {
    if fs == [] then []
    else Put16(IdOf(fs[0])) + Put16(|BodyOfField(fs[0])|) + BodyOfField(fs[0]) + WriteExtra(fs[1..])
  }

  /** The compressed size in the first ZIP64 record. */
  function DeclaredZip64(fs: seq<ExtraField>): Option<nat> {
    if fs == [] then None
    else if fs[0].Zip64? then Some(fs[0].csize) else DeclaredZip64(fs[1..])
  }

  predicate FitExtras(fs: seq<ExtraField>) {
    forall i :: 0 <= i < |fs| ==> FitsExtra(fs[i])
  }

  /** The scan of the raw extra bytes finds the ZIP64 record among any other well-formed fields. */
  lemma {:induction false} Zip64Found(fs: seq<ExtraField>)
    requires FitExtras(fs)
    ensures Zip64Size(WriteExtra(fs)) == DeclaredZip64(fs)
  {
    if fs != [] {
      var f, rest := fs[0], WriteExtra(fs[1..]);
      var extra := WriteExtra(fs);
      Zip64Found(fs[1..]);
      BodyReads(f);
      FieldReads(IdOf(f), BodyOfField(f), rest);
      hide BodyOfField;
      assert From(extra, 0) == extra;
      Zip64Unfold(extra, 0);
    }
  }

  lemma BodyReads(f: ExtraField)
    requires FitsExtra(f)
    ensures IdOf(f) < 0x1_0000 && |BodyOfField(f)| < 0x1_0000
    ensures IdOf(f) == 1 && 16 <= |BodyOfField(f)| <==> f.Zip64?
    ensures f.Zip64? ==> U64(BodyOfField(f), 8) == f.csize
  {
    if f.Zip64? {
      var body := BodyOfField(f);
      assert body[8..16] == Put64(f.csize);
      U64At(Put64(f.csize), body, 8);
    }
  }

  lemma U64At(field: Bytes, s: Bytes, at: nat)
    requires |field| == 8 && at + 8 <= |s| && s[at..at + 8] == field
    ensures U64(s, at) == U64(field, 0)
  {
    assert s[at..at + 4] == field[..4] && s[at + 4..at + 8] == field[4..];
    U32At(field[..4], s, at);
    U32At(field[4..], s, at + 4);
    U32At(field[..4], field, 0);
    U32At(field[4..], field, 4);
  }

  lemma FieldReads(id: nat, body: Bytes, rest: Bytes)
    requires id < 0x1_0000 && |body| < 0x1_0000
    ensures var extra := Put16(id) + Put16(|body|) + body + rest;
      && 4 <= |extra| && U16(extra, 0) == id && U16(extra, 2) == |body|
      && Slice(extra, 4, 4 + |body|) == body && From(extra, 4 + |body|) == rest
  {
    hide U16;
    var extra := Put16(id) + Put16(|body|) + body + rest;
    U16At(Put16(id), extra, 0);
    U16At(Put16(|body|), extra, 2);
  }

  lemma U16At(field: Bytes, s: Bytes, at: nat)
    requires |field| == 2 && at + 2 <= |s| && s[at..at + 2] == field
    ensures U16(s, at) == U16(field, 0)
  {
    assert s[at] == s[at..at + 2][0] && s[at + 1] == s[at..at + 2][1];
  }

  lemma U32At(field: Bytes, s: Bytes, at: nat)
    requires |field| == 4 && at + 4 <= |s| && s[at..at + 4] == field
    ensures U32(s, at) == U32(field, 0)
  {
    assert s[at] == s[at..at + 4][0] && s[at + 1] == s[at..at + 4][1];
    assert s[at + 2] == s[at..at + 4][2] && s[at + 3] == s[at..at + 4][3];
  }

  // ---------------------------------------------------------------- entries

  datatype Content = Stored(data: Bytes) | Deflated(stream: Bytes, data: Bytes)

  /** The general-purpose flags: bit 3 says that a descriptor follows the data, bit 11 that the name is UTF-8. */
  datatype Flags = Flags(low: nat, streamed: bool, mid: nat, utf8: bool, high: nat)

  predicate FitsFlags(f: Flags) { f.low < 0x08 && f.mid < 0x80 && f.high < 0x10 }

  function FlagWord(f: Flags): nat {
    f.low + (if f.streamed then 0x08 else 0) + 0x10 * f.mid + (if f.utf8 then 0x800 else 0) + 0x1000 * f.high
  }

  lemma LowBit(low: nat, b: nat, high: nat)
    requires low < 0x08 && b < 2
    ensures HasBit(low + 0x08 * b + 0x10 * high, 0x08) <==> b == 1
  {
    assert (low + 0x08 * b + 0x10 * high) / 0x08 == b + 2 * high;
  }

  lemma HighBit(low: nat, b: nat, high: nat)
    requires low < 0x800 && b < 2
    ensures HasBit(low + 0x800 * b + 0x1000 * high, 0x800) <==> b == 1
  {
    assert (low + 0x800 * b + 0x1000 * high) / 0x800 == b + 2 * high;
  }

  lemma FlagsRead(f: Flags)
    requires FitsFlags(f)
    ensures FlagWord(f) < 0x1_0000
    ensures HasBit(FlagWord(f), 0x08) == f.streamed && HasBit(FlagWord(f), 0x800) == f.utf8
  {
    var s, u := if f.streamed then 1 else 0, if f.utf8 then 1 else 0;
    LowBit(f.low, s, f.mid + 0x80 * u + 0x100 * f.high);
    HighBit(f.low + 0x08 * s + 0x10 * f.mid, u, f.high);
    hide HasBit;
    assert FlagWord(f) == f.low + 0x08 * s + 0x10 * (f.mid + 0x80 * u + 0x100 * f.high);
  }

  /** What a local header says; `version`, `stamps` (time, date, CRC) and `usize` are bytes the reader ignores. */
  datatype Head = Head(flags: Flags, kind: nat, sizeField: nat, version: Bytes, stamps: Bytes, usize: Bytes)

  predicate FitsHead(h: Head) {
    && FitsFlags(h.flags) && h.kind < 0x1_0000 && h.sizeField < 0x1_0000_0000
    && |h.version| == 2 && |h.stamps| == 8 && |h.usize| == 4
  }

  function HeadBytes(h: Head, nameLen: nat, extraLen: nat): Bytes {
    [0x50, 0x4B, 0x03, 0x04] + h.version + Put16(FlagWord(h.flags)) + Put16(h.kind) + h.stamps + Put32(h.sizeField) + h.usize
    + Put16(nameLen) + Put16(extraLen)
  }

  lemma HeadReads(h: Head, nameLen: nat, extraLen: nat)
    requires FitsHead(h) && nameLen < 0x1_0000 && extraLen < 0x1_0000
    ensures IsHeader(HeadBytes(h, nameLen, extraLen))
    ensures HeaderOf(HeadBytes(h, nameLen, extraLen)) == Header(FlagWord(h.flags), h.kind, h.sizeField, nameLen, extraLen)
  {
    hide U16, U32, FlagWord;
    FlagsRead(h.flags);
    var b := HeadBytes(h, nameLen, extraLen);
    U16At(Put16(FlagWord(h.flags)), b, 6);
    U16At(Put16(h.kind), b, 8);
    U32At(Put32(h.sizeField), b, 18);
    U16At(Put16(nameLen), b, 26);
    U16At(Put16(extraLen), b, 28);
  }

  /** One entry; the descriptor's bytes are ignored by the reader too. */
  datatype Entry = Entry(
    name: string, rawName: Bytes, flags: Flags, content: Content, sizeField: nat, extra: seq<ExtraField>,
    version: Bytes, stamps: Bytes, usize: Bytes, descriptor: Bytes)

  function BodyOf(c: Content): Bytes {
    match c
    case Stored(data) => data
    case Deflated(stream, _) => stream
  }

  function HeadOf(e: Entry): Head {
    Head(e.flags, if e.content.Stored? then 0 else 8, e.sizeField, e.version, e.stamps, e.usize)
  }

  /** The compressed size the entry declares: through ZIP64 when its field is all ones. */
  function DeclaredSize(sizeField: nat, extra: seq<ExtraField>): Option<nat> {
    if sizeField == 0xFFFF_FFFF then DeclaredZip64(extra) else Some(sizeField)
  }

  predicate SpellsRecord(sig: Bytes) { sig == [0x50, 0x4B, 0x03, 0x04] || sig == [0x50, 0x4B, 0x01, 0x02] }

  /** A signed descriptor of 16 bytes, or one of 24 with 64-bit sizes whose uncompressed size does not spell a record. */
  predicate IsDescriptor(d: Bytes) {
    |d| == 16 || (|d| == 24 && !SpellsRecord(d[16..20]))
  }

  /**
   What the reader can follow: stored data declares its length, a deflate stream delimits itself, and bit 3
   announces a descriptor.
   */
  ghost predicate Readable(codec: Codec, e: Entry) {
    && FitsHead(HeadOf(e)) && FitExtras(e.extra) && |e.rawName| < 0x1_0000 && |WriteExtra(e.extra)| < 0x1_0000
    && codec.decodeName(e.flags.utf8, e.rawName) == Some(e.name)
    && DeclaredSize(e.sizeField, e.extra).Some?
    && (if e.flags.streamed then IsDescriptor(e.descriptor) else e.descriptor == [])
    && match e.content
       case Stored(data) => DeclaredSize(e.sizeField, e.extra) == Some(|data|) && !(e.flags.streamed && data == [])
       case Deflated(stream, data) => codec.inflate(stream) == Done(|stream|, data)
  }

  function HeaderBytes(e: Entry): Bytes {
    HeadBytes(HeadOf(e), |e.rawName|, |WriteExtra(e.extra)|)
  }

  function WriteEntry(e: Entry): Bytes {
    HeaderBytes(e) + e.rawName + WriteExtra(e.extra) + BodyOf(e.content) + e.descriptor
  }

  function WriteEntries(es: seq<Entry>): Bytes {
    if es == [] then [] else WriteEntry(es[0]) + WriteEntries(es[1..])
  }

  predicate StartsWith(s: Bytes, sig: Bytes) { |sig| <= |s| && s[..|sig|] == sig }

  lemma HeaderReads(codec: Codec, e: Entry)
    requires Readable(codec, e)
    ensures IsHeader(HeaderBytes(e))
    ensures HeaderOf(HeaderBytes(e))
         == Header(FlagWord(e.flags), HeadOf(e).kind, e.sizeField, |e.rawName|, |WriteExtra(e.extra)|)
  {
    hide HeadBytes, FlagWord, WriteExtra;
    HeadReads(HeadOf(e), |e.rawName|, |WriteExtra(e.extra)|);
  }

  lemma SizeReads(codec: Codec, e: Entry)
    requires Readable(codec, e)
    ensures SizeOf(Header(FlagWord(e.flags), HeadOf(e).kind, e.sizeField, |e.rawName|, |WriteExtra(e.extra)|), WriteExtra(e.extra))
         == DeclaredSize(e.sizeField, e.extra)
  {
    Zip64Found(e.extra);
    hide Zip64Size, WriteExtra, FlagWord;
  }

  function MemberOf(e: Entry, next: nat): Member {
    Member(e.name, Payload(match e.content case Stored(data) => data case Deflated(_, data) => data, |BodyOf(e.content)|), next)
  }

  /** The reader's pieces of one entry, wherever it sits in the file. */
  lemma PiecesRead(pre: Bytes, e: Entry, post: Bytes)
    requires |HeaderBytes(e)| == 30
    ensures var file := pre + WriteEntry(e) + post;
      var at := |pre| + 30 + |e.rawName| + |WriteExtra(e.extra)|;
      && Read(file, |pre|, 30) == HeaderBytes(e)
      && Read(file, |pre| + 30, |e.rawName|) == e.rawName
      && Read(file, |pre| + 30 + |e.rawName|, |WriteExtra(e.extra)|) == WriteExtra(e.extra)
      && From(file, at) == BodyOf(e.content) + (e.descriptor + post)
      && From(file, at + |BodyOf(e.content)|) == e.descriptor + post
      && |pre + WriteEntry(e)| == at + |BodyOf(e.content)| + |e.descriptor|
  {
    hide HeaderBytes, BodyOf, Slice, From, WriteExtra;
    var head, body, extra := HeaderBytes(e), BodyOf(e.content), WriteExtra(e.extra);
    FiveParts(pre, head, e.rawName, extra, body, e.descriptor + post);
    Regroup(pre, head, e.rawName, extra, body, e.descriptor, post);
  }

  lemma Regroup(pre: Bytes, a: Bytes, b: Bytes, c: Bytes, d: Bytes, x: Bytes, post: Bytes)
    ensures pre + (a + b + c + d + x) + post == pre + a + b + c + d + (x + post)
  {
  }

  lemma FiveParts(pre: Bytes, head: Bytes, name: Bytes, extra: Bytes, body: Bytes, tail: Bytes)
    ensures var file := pre + head + name + extra + body + tail;
      var at := |pre| + |head| + |name| + |extra|;
      && Read(file, |pre|, |head|) == head
      && Read(file, |pre| + |head|, |name|) == name
      && Read(file, |pre| + |head| + |name|, |extra|) == extra
      && From(file, at) == body + tail
      && From(file, at + |body|) == tail
  {
    hide Slice;
    var file := pre + head + name + extra + body + tail;
    assert file == pre + head + (name + extra + body + tail);
    ReadMiddle(pre, head, name + extra + body + tail);
    assert file == (pre + head) + name + (extra + body + tail);
    ReadMiddle(pre + head, name, extra + body + tail);
    assert file == (pre + head + name) + extra + (body + tail);
    ReadMiddle(pre + head + name, extra, body + tail);
    assert file == (pre + head + name + extra) + (body + tail);
    assert From(file, |pre + head + name + extra + body|) == tail;
  }

  lemma PayloadReads(codec: Codec, e: Entry, file: Bytes, at: nat, post: Bytes)
    requires Lawful(codec) && Readable(codec, e)
    requires From(file, at) == BodyOf(e.content) + (e.descriptor + post)
    ensures var h := Header(FlagWord(e.flags), HeadOf(e).kind, e.sizeField, |e.rawName|, |WriteExtra(e.extra)|);
      && SizeOf(h, WriteExtra(e.extra)).Some?
      && PayloadOf(codec, file, h, at, SizeOf(h, WriteExtra(e.extra)).value) == Ok(MemberOf(e, 0).payload)
  {
    SizeReads(codec, e);
    FlagsRead(e.flags);
    hide Zip64Size, WriteExtra, FlagWord, HasBit, SizeOf;
    match e.content
    case Stored(data) =>
      if data != [] {
        assert file[at..] == data + (e.descriptor + post);
        assert file[at..at + |data|] == data;
      }
    case Deflated(stream, data) =>
      assert codec.inflate(stream + (e.descriptor + post)) == codec.inflate(stream);
  }

  lemma ProbeIs(file: Bytes, at: nat, descriptor: Bytes, post: Bytes)
    requires From(file, at) == descriptor + post && 16 <= |descriptor| <= 24 && 4 <= |post|
    ensures var probe := Read(file, at, 28);
      && Slice(probe, 16, 20) == (descriptor + post)[16..20]
      && (|descriptor| == 24 ==> Slice(probe, 24, 28) == post[..4])
  {
    var probe := Read(file, at, 28);
    assert file[at..] == descriptor + post;
    assert forall i :: 0 <= i < |probe| ==> probe[i] == file[at + i] == (descriptor + post)[i];
  }

  /** The 16-byte width is probed first, so a record right behind one of that width always settles the probe. */
  lemma DescriptorReads(file: Bytes, at: nat, descriptor: Bytes, post: Bytes)
    requires IsDescriptor(descriptor) && From(file, at) == descriptor + post
    requires StartsWith(post, LOCAL) || StartsWith(post, CENTRAL)
    ensures DescriptorWidth(Read(file, at, 28)) == Some(|descriptor|)
  {
    ProbeIs(file, at, descriptor, post);
    hide Read;
    if |descriptor| == 16 {
      assert (descriptor + post)[16..20] == post[..4];
    } else {
      assert (descriptor + post)[16..20] == descriptor[16..20];
    }
  }

  /** A 24-byte descriptor is stepped over whole exactly if the low half of its uncompressed size does not spell a record. */
  lemma WideDescriptorIff(file: Bytes, at: nat, descriptor: Bytes, post: Bytes)
    requires |descriptor| == 24 && From(file, at) == descriptor + post
    requires StartsWith(post, LOCAL) || StartsWith(post, CENTRAL)
    ensures DescriptorWidth(Read(file, at, 28)) == if SpellsRecord(descriptor[16..20]) then Some(16) else Some(24)
  {
    ProbeIs(file, at, descriptor, post);
    hide Read;
    assert (descriptor + post)[16..20] == descriptor[16..20];
  }

  /** Such a size is 67 324 752 or 33 639 248 bytes, or differs from one of them by a multiple of 2^32. */
  lemma SizeSpellsRecord(size: nat)
    requires size < 0x1_0000_0000_0000_0000
    ensures size % 0x1_0000_0000 == 0x0403_4B50 || size % 0x1_0000_0000 == 0x0201_4B50 <==> SpellsRecord(Put64(size)[..4])
  {
    assert Put64(size)[..4] == Put32(size % 0x1_0000_0000);
    assert Put32(0x0403_4B50) == [0x50, 0x4B, 0x03, 0x04] && Put32(0x0201_4B50) == [0x50, 0x4B, 0x01, 0x02];
    assert U32(Put32(size % 0x1_0000_0000), 0) == size % 0x1_0000_0000;
  }

  lemma MemberUnfolds(codec: Codec, file: Bytes, off: nat, seen: set<string>)
    requires IsHeader(Read(file, off, 30)) && |Read(file, off, 30)| == 30
    ensures var h := HeaderOf(Read(file, off, 30));
      var name := codec.decodeName(HasBit(h.flags, 0x800), Read(file, off + 30, h.nameLen));
      MemberAt(codec, file, off, seen) ==
      if name.None? then Err(UndecodableName)
      else if name.value in seen then Err(NameTwice)
      else Sized(codec, file, h, name.value, off + 30 + h.nameLen + h.extraLen, Read(file, off + 30 + h.nameLen, h.extraLen))
  {
    hide HeaderOf, IsHeader, Read, HasBit, Sized;
  }

  lemma NameReads(codec: Codec, e: Entry)
    requires Readable(codec, e)
    ensures codec.decodeName(HasBit(FlagWord(e.flags), 0x800), e.rawName) == Some(e.name)
  {
    FlagsRead(e.flags);
  }

  lemma SizedUnfolds(codec: Codec, file: Bytes, h: Header, name: string, at: nat, extra: Bytes, size: nat, payload: Payload)
    requires SizeOf(h, extra) == Some(size) && PayloadOf(codec, file, h, at, size) == Ok(payload)
    ensures Sized(codec, file, h, name, at, extra) == Closed(file, h, name, at, payload)
  {
    hide SizeOf, PayloadOf, Closed;
  }

  lemma ClosedUnfolds(file: Bytes, h: Header, name: string, at: nat, payload: Payload)
    ensures !HasBit(h.flags, 8) ==> Closed(file, h, name, at, payload) == Ok(Member(name, payload, at + payload.consumed))
    ensures forall width :: HasBit(h.flags, 8) && DescriptorWidth(Read(file, at + payload.consumed, 28)) == Some(width) ==>
      Closed(file, h, name, at, payload) == Ok(Member(name, payload, at + payload.consumed + width))
  {
    hide HasBit, DescriptorWidth, Read;
  }

  lemma DescriptorIs(codec: Codec, e: Entry)
    requires Readable(codec, e)
    ensures if e.flags.streamed then IsDescriptor(e.descriptor) else e.descriptor == []
    ensures HasBit(FlagWord(e.flags), 8) == e.flags.streamed
    ensures MemberOf(e, 0).payload.consumed == |BodyOf(e.content)|
    ensures forall next: nat :: MemberOf(e, next) == Member(e.name, MemberOf(e, 0).payload, next)
  {
    FlagsRead(e.flags);
  }

  lemma EntryReads(codec: Codec, pre: Bytes, e: Entry, post: Bytes, seen: set<string>)
    requires Lawful(codec) && Readable(codec, e) && e.name !in seen
    requires StartsWith(post, LOCAL) || StartsWith(post, CENTRAL)
    ensures var file := pre + WriteEntry(e) + post;
      && IsHeader(Read(file, |pre|, 30))
      && MemberAt(codec, file, |pre|, seen) == Ok(MemberOf(e, |pre + WriteEntry(e)|))
  {
    hide *;
    var file := pre + WriteEntry(e) + post;
    var h := Header(FlagWord(e.flags), HeadOf(e).kind, e.sizeField, |e.rawName|, |WriteExtra(e.extra)|);
    var at := |pre| + 30 + |e.rawName| + |WriteExtra(e.extra)|;
    HeaderReads(codec, e);
    IsHeaderLength(HeaderBytes(e));
    PiecesRead(pre, e, post);
    NameReads(codec, e);
    MemberUnfolds(codec, file, |pre|, seen);
    PayloadReads(codec, e, file, at, post);
    SizedUnfolds(codec, file, h, e.name, at, WriteExtra(e.extra), SizeOf(h, WriteExtra(e.extra)).value, MemberOf(e, 0).payload);
    DescriptorIs(codec, e);
    if e.flags.streamed {
      DescriptorReads(file, at + |BodyOf(e.content)|, e.descriptor, post);
    }
    ClosedUnfolds(file, h, e.name, at, MemberOf(e, 0).payload);
  }

  lemma IsHeaderLength(head: Bytes)
    requires IsHeader(head)
    ensures |head| == 30
  {
  }

  // ---------------------------------------------------------------- whole archives

  predicate DistinctNames(es: seq<Entry>) {
    forall i, j :: 0 <= i < j < |es| ==> es[i].name != es[j].name
  }

  /** An entry that carries a file: anything but an empty directory marker. */
  predicate IsFile(e: Entry) {
    e.name == "" || e.name[|e.name| - 1] != '/' || BodyOf(e.content) != []
  }

  function DataOf(e: Entry): Bytes {
    match e.content case Stored(data) => data case Deflated(_, data) => data
  }

  /** The view is exactly the written files, each with the digest of its own data. */
  ghost predicate Shows(view: View, codec: Codec, es: seq<Entry>) {
    && (forall i :: 0 <= i < |es| && IsFile(es[i]) ==> es[i].name in view && view[es[i].name] == codec.digest(DataOf(es[i])))
    && (forall n :: n in view ==> HasFile(es, n))
  }

  predicate HasFile(es: seq<Entry>, n: string) {
    exists i :: 0 <= i < |es| && IsFile(es[i]) && es[i].name == n
  }

  ghost predicate Writable(codec: Codec, es: seq<Entry>) {
    DistinctNames(es) && forall i :: 0 <= i < |es| ==> Readable(codec, es[i])
  }

  lemma NextRecord(codec: Codec, es: seq<Entry>, dir: Bytes)
    requires forall i :: 0 <= i < |es| ==> Readable(codec, es[i])
    requires StartsWith(dir, LOCAL) || StartsWith(dir, CENTRAL)
    ensures StartsWith(WriteEntries(es) + dir, LOCAL) || StartsWith(WriteEntries(es) + dir, CENTRAL)
  {
    hide Readable, WriteEntry;
    if es != [] {
      EntryStarts(codec, es[0]);
      StartsWithin(WriteEntry(es[0]), WriteEntries(es[1..]), LOCAL);
      StartsWithin(WriteEntries(es), dir, LOCAL);
    } else {
      assert WriteEntries(es) + dir == dir;
    }
  }

  lemma EntryStarts(codec: Codec, e: Entry)
    requires Readable(codec, e)
    ensures StartsWith(WriteEntry(e), LOCAL)
  {
    hide HeaderBytes, HeaderOf, Readable;
    HeaderReads(codec, e);
    var head := HeaderBytes(e);
    StartsWithin(head, e.rawName, LOCAL);
    StartsWithin(head + e.rawName, WriteExtra(e.extra), LOCAL);
    StartsWithin(head + e.rawName + WriteExtra(e.extra), BodyOf(e.content), LOCAL);
    StartsWithin(head + e.rawName + WriteExtra(e.extra) + BodyOf(e.content), e.descriptor, LOCAL);
  }

  lemma StartsWithin(a: Bytes, b: Bytes, sig: Bytes)
    requires StartsWith(a, sig)
    ensures StartsWith(a + b, sig)
  {
  }

  function Listing(codec: Codec, seen: View, es: seq<Entry>): View
    decreases |es|
  {
    if es == [] then seen else Listing(codec, AddEntry(codec, seen, es[0]), es[1..])
  }

  function AddEntry(codec: Codec, seen: View, e: Entry): View {
    if IsFile(e) then seen[e.name := codec.digest(DataOf(e))] else seen
  }

  /** Written entries are stepped over one by one, whatever record follows them. */
  lemma {:induction false} EntriesRead(codec: Codec, pre: Bytes, es: seq<Entry>, dir: Bytes, seen: View)
    requires Lawful(codec) && Writable(codec, es) && (StartsWith(dir, LOCAL) || StartsWith(dir, CENTRAL))
    requires forall i :: 0 <= i < |es| ==> es[i].name !in seen
    ensures var file := pre + WriteEntries(es) + dir;
            ViewFrom(codec, file, |pre|, seen) == ViewFrom(codec, file, |pre + WriteEntries(es)|, Listing(codec, seen, es))
    decreases |es|
  {
    hide MemberAt, WriteEntry, IsHeader, Readable, StartsWith, Lawful;
    var file := pre + WriteEntries(es) + dir;
    if es == [] {
      assert pre + WriteEntries(es) == pre;
    } else {
      var e, rest := es[0], es[1..];
      var post := WriteEntries(rest) + dir;
      assert file == pre + WriteEntry(e) + post;
      NextRecord(codec, rest, dir);
      EntryReads(codec, pre, e, post, seen.Keys);
      var seen' := AddEntry(codec, seen, e);
      assert file == pre + WriteEntry(e) + WriteEntries(rest) + dir;
      EntriesRead(codec, pre + WriteEntry(e), rest, dir, seen');
      assert Listed(codec, seen, MemberOf(e, |pre + WriteEntry(e)|)) == seen';
      assert pre + WriteEntries(es) == pre + WriteEntry(e) + WriteEntries(rest);
    }
  }

  lemma DirectoryIsNoHeader(pre: Bytes, dir: Bytes)
    requires StartsWith(dir, CENTRAL)
    ensures !IsHeader(Read(pre + dir, |pre|, 30))
  {
    var head := Read(pre + dir, |pre|, 30);
    if |head| == 30 {
      assert head[2] == (pre + dir)[|pre| + 2] == dir[2] == dir[..4][2];
    }
  }

  lemma {:induction false} ListingShows(codec: Codec, seen: View, done: seq<Entry>, es: seq<Entry>)
    requires DistinctNames(done + es) && Shows(seen, codec, done)
    ensures Shows(Listing(codec, seen, es), codec, done + es)
    decreases |es|
  {
    if es == [] {
      assert done + es == done;
    } else {
      var e := es[0];
      var more := done + [e];
      assert done + es == more + es[1..];
      assert (done + es)[|done|] == e;
      forall i | 0 <= i < |done| ensures done[i].name != e.name {
        assert (done + es)[i] == done[i];
      }
      var seen' := AddEntry(codec, seen, e);
      forall n | n in seen' ensures HasFile(more, n) {
        if n in seen {
          var i :| 0 <= i < |done| && IsFile(done[i]) && done[i].name == n;
          assert more[i] == done[i];
        } else {
          assert more[|done|] == e;
        }
      }
      ListingShows(codec, seen', more, es[1..]);
    }
  }

  /**
   Round trip: over any honestly written archive the front-to-back reader ends at the directory and has
   seen exactly the written files; an archive of nothing but directory markers reads as empty at offset 0.
   */
  lemma RoundTrip(codec: Codec, es: seq<Entry>, dir: Bytes) returns (view: View)
    requires Lawful(codec) && Writable(codec, es) && StartsWith(dir, CENTRAL)
    ensures Shows(view, codec, es)
    ensures Streamed(codec, WriteEntries(es) + dir)
         == Ok((view, if exists i :: 0 <= i < |es| && IsFile(es[i]) then |WriteEntries(es)| else 0))
  {
    hide ViewFrom, WriteEntries, Lawful, Readable;
    EntriesRead(codec, [], es, dir, map[]);
    assert [] + WriteEntries(es) + dir == WriteEntries(es) + dir;
    assert [] + WriteEntries(es) == WriteEntries(es);
    view := Listing(codec, map[], es);
    DirectoryIsNoHeader(WriteEntries(es), dir);
    NoHeaderEnds(codec, WriteEntries(es) + dir, |WriteEntries(es)|, view);
    assert [] + es == es;
    ListingShows(codec, map[], [], es);
    if view != map[] {
      var n :| n in view;
      assert HasFile(es, n);
    }
  }

  lemma NoHeaderEnds(codec: Codec, file: Bytes, off: nat, seen: View)
    requires !IsHeader(Read(file, off, 30))
    ensures ViewFrom(codec, file, off, seen) == Ok((seen, off))
  {
  }

  lemma ShownFile(view: View, codec: Codec, es: seq<Entry>, name: string)
    requires Shows(view, codec, es)
    ensures name in view <==> HasFile(es, name)
  {
  }

  /** Written entries are read, and what the reader has seen when it comes to the record behind them is their files. */
  lemma ReadsUpTo(codec: Codec, es: seq<Entry>, tail: Bytes) returns (view: View)
    requires Lawful(codec) && Writable(codec, es) && StartsWith(tail, LOCAL)
    ensures Shows(view, codec, es)
    ensures ViewFrom(codec, WriteEntries(es) + tail, 0, map[]) == ViewFrom(codec, WriteEntries(es) + tail, |WriteEntries(es)|, view)
  {
    assert [] + WriteEntries(es) == WriteEntries(es) && [] + WriteEntries(es) + tail == WriteEntries(es) + tail && [] + es == es;
    WritableAreDistinct(codec, es);
    hide *;
    view := Listing(codec, map[], es);
    EntriesRead(codec, [], es, tail, map[]);
    NothingShown(codec);
    ListingShows(codec, map[], [], es);
  }

  lemma WritableAreDistinct(codec: Codec, es: seq<Entry>)
    requires Writable(codec, es)
    ensures DistinctNames(es)
  {
  }

  lemma NothingShown(codec: Codec)
    ensures Shows(map[], codec, [])
  {
  }

  /** A second member under the name of an earlier file is refused, wherever it hides and whatever follows it. */
  lemma RepeatIsRefused(codec: Codec, es: seq<Entry>, again: Entry, post: Bytes)
    requires Lawful(codec) && Writable(codec, es) && Readable(codec, again) && HasFile(es, again.name)
    ensures Streamed(codec, WriteEntries(es) + (WriteEntry(again) + post)) == Err(NameTwice)
  {
    hide ViewFrom, WriteEntries, WriteEntry, Lawful, Readable, StartsWith, Writable, Shows, HasFile;
    var tail := WriteEntry(again) + post;
    EntryStarts(codec, again);
    StartsWithin(WriteEntry(again), post, LOCAL);
    var view := ReadsUpTo(codec, es, tail);
    ShownFile(view, codec, es, again.name);
    assert WriteEntries(es) + tail == WriteEntries(es) + WriteEntry(again) + post;
    NameMetAgain(codec, WriteEntries(es), again, post, view);
  }

  lemma ViewStops(codec: Codec, file: Bytes, off: nat, seen: View)
    requires IsHeader(Read(file, off, 30)) && MemberAt(codec, file, off, seen.Keys).Err?
    ensures ViewFrom(codec, file, off, seen) == Err(MemberAt(codec, file, off, seen.Keys).error)
  {
    hide MemberAt, IsHeader;
  }

  lemma NameMetAgain(codec: Codec, pre: Bytes, e: Entry, post: Bytes, seen: View)
    requires Readable(codec, e) && e.name in seen
    ensures ViewFrom(codec, pre + WriteEntry(e) + post, |pre|, seen) == Err(NameTwice)
  {
    hide *;
    var file := pre + WriteEntry(e) + post;
    HeaderReads(codec, e);
    IsHeaderLength(HeaderBytes(e));
    PiecesRead(pre, e, post);
    NameReads(codec, e);
    MemberUnfolds(codec, file, |pre|, seen.Keys);
    ViewStops(codec, file, |pre|, seen);
  }
}
