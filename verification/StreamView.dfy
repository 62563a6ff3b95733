/**
 The evidence verifier's front-to-back reader (local headers as in section 4.3.7 of PKWARE's APPNOTE.TXT,
 data descriptors as in 4.3.9, the ZIP64 extra record as in 4.5.3). The inflater, not the declared size,
 decides where compressed data ends.
 */
module StreamView {
  import opened Wrappers
  import opened Bytes

  /** The inflater after the bytes fed so far: wanting more, at the end of its stream, or failed. */
  datatype Inflated = More | Done(consumed: nat, data: Bytes) | Corrupt

  /** Decompression, entry-name decoding (by the UTF-8 flag) and hashing, none of which this model looks into. */
  datatype Codec = Codec(
    inflate: Bytes -> Inflated, decodeName: (bool, Bytes) -> Option<string>, digest: Bytes -> string)

  /** A self-delimiting decoder: what it concluded from a prefix, more bytes do not change. */
  ghost predicate Lawful(codec: Codec) {
    && codec.inflate([]) == More
    && (forall p, q :: codec.inflate(p).Done? ==> codec.inflate(p).consumed <= |p| && codec.inflate(p + q) == codec.inflate(p))
    && (forall p, q :: codec.inflate(p).Corrupt? ==> codec.inflate(p + q) == Corrupt)
  }

  datatype Problem =
    | UndecodableName | NameTwice | NoZip64Record | DeflateCutShort | DeflateUnreadable
    | StoredByDescriptor | StoredCutShort | UnknownMethod | UnknownDescriptor

  type View = map<string, string>

  const LOCAL: Bytes := [0x50, 0x4B, 0x03, 0x04]
  const CENTRAL: Bytes := [0x50, 0x4B, 0x01, 0x02]
  const SENTINEL: nat := 0xFFFF_FFFF
  const CHUNK: nat := 0x10_0000

  predicate HasBit(flags: nat, bit: nat)
    requires bit > 0
  {
    (flags / bit) % 2 == 1
  }

  predicate EndsWithSlash(name: string) { name != "" && name[|name| - 1] == '/' }

  // ---------------------------------------------------------------- the pieces of one entry

  function Zip64Size(extra: Bytes): Option<nat>
    decreases |extra|
  {
    if |extra| < 4 then None
    else
      var n := U16(extra, 2);
      var body := Slice(extra, 4, 4 + n);
      if U16(extra, 0) == 1 && 16 <= |body| then Some(U64(body, 8)) else Zip64Size(From(extra, 4 + n))
  }

  method Zip64CompressedSize(extra: Bytes) returns (r: Option<nat>)
    ensures r == Zip64Size(extra)
  {
    hide Zip64Size, U16;
    var at := 0;
    assert From(extra, 0) == extra;
    while at + 4 <= |extra|
      invariant Zip64Size(From(extra, at)) == Zip64Size(extra)
      decreases |extra| - at
    {
      var id := U16(extra, at);
      var n := U16(extra, at + 2);
      var body := Slice(extra, at + 4, at + 4 + n);
      Zip64Unfold(extra, at);
      if id == 1 && 16 <= |body| {
        return Some(U64(body, 8));
      }
      at := at + 4 + n;
    }
    Zip64OfShort(From(extra, at));
    r := None;
  }

  lemma Zip64OfShort(extra: Bytes)
    requires |extra| < 4
    ensures Zip64Size(extra) == None
  {
  }

  lemma Zip64Unfold(extra: Bytes, at: nat)
    requires at + 4 <= |extra|
    ensures var n := U16(extra, at + 2);
      var body := Slice(extra, at + 4, at + 4 + n);
      Zip64Size(From(extra, at))
        == if U16(extra, at) == 1 && 16 <= |body| then Some(U64(body, 8)) else Zip64Size(From(extra, at + 4 + n))
  {
    hide Slice, From, U64, Zip64Size;
    var n := U16(extra, at + 2);
    var rest := From(extra, at);
    RestReads(extra, at);
    SliceOfRest(extra, at, 4, 4 + n);
    SliceOfRest(extra, at, 4 + n, 4 + n);
    assert at + (4 + n) == at + 4 + n;
    Zip64OfLong(rest);
  }

  lemma RestReads(s: Bytes, at: nat)
    requires at + 4 <= |s|
    ensures 4 <= |From(s, at)| && U16(From(s, at), 0) == U16(s, at) && U16(From(s, at), 2) == U16(s, at + 2)
  {
  }

  lemma Zip64OfLong(extra: Bytes)
    requires 4 <= |extra|
    ensures var n := U16(extra, 2);
      var body := Slice(extra, 4, 4 + n);
      Zip64Size(extra) == if U16(extra, 0) == 1 && 16 <= |body| then Some(U64(body, 8)) else Zip64Size(From(extra, 4 + n))
  {
    hide Slice, From, U64, U16;
  }

  datatype Payload = Payload(data: Bytes, consumed: nat)

  function InflatePayload(codec: Codec, rest: Bytes): Result<Payload, Problem> {
    match codec.inflate(rest)
    case Done(k, data) => Ok(Payload(data, k))
    case Corrupt => Err(DeflateUnreadable)
    case More => Err(DeflateCutShort)
  }

  method Inflate(codec: Codec, file: Bytes, at: nat) returns (r: Result<Payload, Problem>)
    requires Lawful(codec)
    ensures r == InflatePayload(codec, From(file, at))
  {
    var fed: Bytes := [];
    ghost var rest := From(file, at);
    while codec.inflate(fed).More?
      invariant fed <= rest
      invariant !codec.inflate(fed).Corrupt?
      decreases |rest| - |fed|
    {
      var chunk := Read(file, at + |fed|, CHUNK);
      if chunk == [] {
        assert fed == rest;
        return Err(DeflateCutShort);
      }
      assert chunk <= rest[|fed|..];
      fed := fed + chunk;
      if codec.inflate(fed).Corrupt? {
        assert fed + rest[|fed|..] == rest;
        return Err(DeflateUnreadable);
      }
    }
    assert fed + rest[|fed|..] == rest;
    var unused := |fed| - codec.inflate(fed).consumed;
    return Ok(Payload(codec.inflate(fed).data, |fed| - unused));
  }

  function StoredPayload(file: Bytes, at: nat, size: nat): Result<Payload, Problem> {
    if size == 0 then Ok(Payload([], 0))
    else if at + size <= |file| then Ok(Payload(file[at..at + size], size))
    else Err(StoredCutShort)
  }

  method ReadStored(file: Bytes, at: nat, size: nat) returns (r: Result<Payload, Problem>)
    ensures r == StoredPayload(file, at, size)
  {
    var data: Bytes := [];
    var left := size;
    while left > 0
      invariant 0 <= left <= size && |data| == size - left
      invariant data != [] ==> at + |data| <= |file| && data == file[at..at + |data|]
    {
      var chunk := Read(file, at + |data|, if left < CHUNK then left else CHUNK);
      if chunk == [] {
        return Err(StoredCutShort);
      }
      data := data + chunk;
      left := left - |chunk|;
    }
    return Ok(Payload(data, size));
  }

  predicate IsRecord(sig: Bytes) { sig == LOCAL || sig == CENTRAL }

  /** The first of the four descriptor widths that lands on a real record. */
  function DescriptorWidth(probe: Bytes): Option<nat> {
    if IsRecord(Slice(probe, 16, 20)) then Some(16)
    else if IsRecord(Slice(probe, 24, 28)) then Some(24)
    else if IsRecord(Slice(probe, 12, 16)) then Some(12)
    else if IsRecord(Slice(probe, 20, 24)) then Some(20)
    else None
  }

  method ProbeDescriptor(probe: Bytes) returns (r: Option<nat>)
    ensures r == DescriptorWidth(probe)
  {
    var widths := [16, 24, 12, 20];
    for i := 0 to |widths|
      invariant forall j :: 0 <= j < i ==> !IsRecord(Slice(probe, widths[j], widths[j] + 4))
    {
      assert widths[0] == 16 && widths[1] == 24 && widths[2] == 12 && widths[3] == 20;
      if IsRecord(Slice(probe, widths[i], widths[i] + 4)) {
        return Some(widths[i]);
      }
    }
    assert widths[0] == 16 && widths[1] == 24 && widths[2] == 12 && widths[3] == 20;
    r := None;
  }

  // ---------------------------------------------------------------- one entry

  datatype Header = Header(flags: nat, kind: nat, csize: nat, nameLen: nat, extraLen: nat)

  predicate IsHeader(head: Bytes) { |head| == 30 && head[..4] == LOCAL }

  function HeaderOf(head: Bytes): Header
    requires |head| == 30
  {
    Header(U16(head, 6), U16(head, 8), U32(head, 18), U16(head, 26), U16(head, 28))
  }

  /** One member as the reader sees it; `next` is where the following record must start. */
  datatype Member = Member(name: string, payload: Payload, next: nat)

  function SizeOf(h: Header, extra: Bytes): Option<nat> {
    if h.csize == SENTINEL then Zip64Size(extra) else Some(h.csize)
  }

  function PayloadOf(codec: Codec, file: Bytes, h: Header, at: nat, size: nat): Result<Payload, Problem> {
    if h.kind == 8 then InflatePayload(codec, From(file, at))
    else if h.kind == 0 then
      if HasBit(h.flags, 8) && size == 0 then Err(StoredByDescriptor) else StoredPayload(file, at, size)
    else Err(UnknownMethod)
  }

  /** The member, once its payload is known: a trailing descriptor is stepped over. */
  function Closed(file: Bytes, h: Header, name: string, at: nat, payload: Payload): Result<Member, Problem> {
    if !HasBit(h.flags, 8) then Ok(Member(name, payload, at + payload.consumed))
    else
      match DescriptorWidth(Read(file, at + payload.consumed, 28))
      case None => Err(UnknownDescriptor)
      case Some(width) => Ok(Member(name, payload, at + payload.consumed + width))
  }

  function Sized(codec: Codec, file: Bytes, h: Header, name: string, at: nat, extra: Bytes): Result<Member, Problem> {
    var size := SizeOf(h, extra);
    if size.None? then Err(NoZip64Record)
    else
      match PayloadOf(codec, file, h, at, size.value)
      case Err(e) => Err(e)
      case Ok(payload) => Closed(file, h, name, at, payload)
  }

  function MemberAt(codec: Codec, file: Bytes, off: nat, seen: set<string>): Result<Member, Problem>
    requires IsHeader(Read(file, off, 30))
  {
    var h := HeaderOf(Read(file, off, 30));
    var name := codec.decodeName(HasBit(h.flags, 0x800), Read(file, off + 30, h.nameLen));
    if name.None? then Err(UndecodableName)
    else if name.value in seen then Err(NameTwice)
    else
      Sized(codec, file, h, name.value, off + 30 + h.nameLen + h.extraLen, Read(file, off + 30 + h.nameLen, h.extraLen))
  }

  /** An empty directory marker is seen but not listed. */
  predicate IsListed(m: Member) {
    !(EndsWithSlash(m.name) && m.payload.consumed == 0)
  }

  function Listed(codec: Codec, seen: View, m: Member): View {
    if IsListed(m) then seen[m.name := codec.digest(m.payload.data)] else seen
  }

  // ---------------------------------------------------------------- the whole file

  lemma MembersAdvance(codec: Codec, file: Bytes, off: nat, seen: set<string>)
    requires IsHeader(Read(file, off, 30))
    ensures off + 30 <= |file|
    ensures var m := MemberAt(codec, file, off, seen); m.Ok? ==> off + 30 <= m.value.next
  {
  }

  function ViewFrom(codec: Codec, file: Bytes, off: nat, seen: View): Result<(View, nat), Problem>
    decreases if off < |file| then |file| - off else 0
  {
    if !IsHeader(Read(file, off, 30)) then Ok((seen, off))
    else
      MembersAdvance(codec, file, off, seen.Keys);
      match MemberAt(codec, file, off, seen.Keys)
      case Err(e) => Err(e)
      case Ok(m) => ViewFrom(codec, file, m.next, Listed(codec, seen, m))
  }

  function Streamed(codec: Codec, file: Bytes): Result<(View, nat), Problem> {
    match ViewFrom(codec, file, 0, map[])
    case Err(e) => Err(e)
    case Ok((seen, off)) => if seen == map[] then Ok((map[], 0)) else Ok((seen, off))
  }

  /** One turn of the reader's loop, up to the record that must follow. */
  method ReadMember(codec: Codec, file: Bytes, off: nat, seen: set<string>) returns (r: Result<Member, Problem>)
    requires Lawful(codec) && IsHeader(Read(file, off, 30))
    ensures r == MemberAt(codec, file, off, seen)
  {
    hide Sized;
    var h := HeaderOf(Read(file, off, 30));
    var name := codec.decodeName(HasBit(h.flags, 0x800), Read(file, off + 30, h.nameLen));
    if name.None? {
      return Err(UndecodableName);
    }
    if name.value in seen {
      return Err(NameTwice);
    }
    r := ReadSized(codec, file, h, name.value, off + 30 + h.nameLen + h.extraLen, Read(file, off + 30 + h.nameLen, h.extraLen));
  }

  method ReadSized(codec: Codec, file: Bytes, h: Header, name: string, dataAt: nat, extra: Bytes) returns (r: Result<Member, Problem>)
    requires Lawful(codec)
    ensures r == Sized(codec, file, h, name, dataAt, extra)
  {
    var csize := h.csize;
    if csize == SENTINEL {
      var wide := Zip64CompressedSize(extra);
      if wide.None? {
        return Err(NoZip64Record);
      }
      csize := wide.value;
    }
    var got := ReadPayload(codec, file, h, dataAt, csize);
    if got.Err? {
      return Err(got.error);
    }
    r := Close(file, h, name, dataAt, got.value);
  }

  method Close(file: Bytes, h: Header, name: string, dataAt: nat, payload: Payload) returns (r: Result<Member, Problem>)
    ensures r == Closed(file, h, name, dataAt, payload)
  {
    var next := dataAt + payload.consumed;
    if HasBit(h.flags, 8) {
      var width := ProbeDescriptor(Read(file, next, 28));
      if width.None? {
        return Err(UnknownDescriptor);
      }
      next := next + width.value;
    }
    return Ok(Member(name, payload, next));
  }

  method ReadPayload(codec: Codec, file: Bytes, h: Header, dataAt: nat, csize: nat) returns (got: Result<Payload, Problem>)
    requires Lawful(codec)
    ensures got == PayloadOf(codec, file, h, dataAt, csize)
  {
    if h.kind == 8 {
      got := Inflate(codec, file, dataAt);
    } else if h.kind == 0 {
      if HasBit(h.flags, 8) && csize == 0 {
        return Err(StoredByDescriptor);
      }
      got := ReadStored(file, dataAt, csize);
    } else {
      return Err(UnknownMethod);
    }
  }

  method StreamView(codec: Codec, file: Bytes) returns (r: Result<(View, nat), Problem>)
    requires Lawful(codec)
    ensures r == Streamed(codec, file)
  {
    var seen: View := map[];
    var off := 0;
    while true
      invariant ViewFrom(codec, file, off, seen) == ViewFrom(codec, file, 0, map[])
      decreases if off < |file| then |file| - off else 0
    {
      if !IsHeader(Read(file, off, 30)) {
        break;
      }
      var m := ReadMember(codec, file, off, seen.Keys);
      MembersAdvance(codec, file, off, seen.Keys);
      if m.Err? {
        return Err(m.error);
      }
      if !(EndsWithSlash(m.value.name) && m.value.payload.consumed == 0) {
        seen := seen[m.value.name := codec.digest(m.value.payload.data)];
      }
      off := m.value.next;
    }
    return if seen == map[] then Ok((map[], 0)) else Ok((seen, off));
  }
}
