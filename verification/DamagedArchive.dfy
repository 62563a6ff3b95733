/**
 What the verifier answers about an archive that is honest up to one damaged entry: MODIFIED when the entry's data
 will not inflate, MALFORMED when the container cannot be followed.
 */
module DamagedArchive {
  import opened Wrappers
  import opened Bytes
  import opened StreamView
  import opened SeekingView
  import opened ZipWriter
  import opened Verdict

  /** A local header with its name and extra fields, and the bytes of the file behind them. */
  datatype Damaged = Damaged(head: Head, rawName: Bytes, extra: seq<ExtraField>, rest: Bytes)

  predicate Fits(d: Damaged) {
    FitsHead(d.head) && FitExtras(d.extra) && |d.rawName| < 0x1_0000 && |WriteExtra(d.extra)| < 0x1_0000
  }

  function WriteDamaged(d: Damaged): Bytes {
    HeadBytes(d.head, |d.rawName|, |WriteExtra(d.extra)|) + d.rawName + WriteExtra(d.extra) + d.rest
  }

  function NameOf(codec: Codec, d: Damaged): Option<string> {
    codec.decodeName(d.head.flags.utf8, d.rawName)
  }

  /** The header is understood, and its name is not that of an earlier file. */
  ghost predicate ComesToData(codec: Codec, es: seq<Entry>, d: Damaged) {
    NameOf(codec, d).Some? && !HasFile(es, NameOf(codec, d).value) && DeclaredSize(d.head.sizeField, d.extra).Some?
  }

  /** The deflated data is corrupt, or the file ends before it does. */
  ghost predicate LosesData(codec: Codec, es: seq<Entry>, d: Damaged) {
    ComesToData(codec, es, d) && d.head.kind == 8 && (codec.inflate(d.rest).Corrupt? || codec.inflate(d.rest).More?)
  }

  ghost predicate HeaderFails(codec: Codec, es: seq<Entry>, d: Damaged) {
    || NameOf(codec, d).None?
    || HasFile(es, NameOf(codec, d).value)
    || (d.head.sizeField == 0xFFFF_FFFF && forall i :: 0 <= i < |d.extra| ==> !d.extra[i].Zip64?)
  }

  /** Stored data that ends with the file, or whose length stands behind it, and methods other than the two. */
  ghost predicate DataFails(d: Damaged, size: nat) {
    || (d.head.kind == 0 && (|d.rest| < size || (d.head.flags.streamed && size == 0)))
    || (d.head.kind != 0 && d.head.kind != 8)
  }

  ghost predicate RecordAt(s: Bytes, i: nat) {
    i + 4 <= |s| && (s[i..i + 4] == [0x50, 0x4B, 0x03, 0x04] || s[i..i + 4] == [0x50, 0x4B, 0x01, 0x02])
  }

  /** How many bytes the data takes, when it comes out. */
  ghost predicate Takes(codec: Codec, d: Damaged, size: nat, n: nat) {
    || (d.head.kind == 8 && codec.inflate(d.rest).Done? && n == codec.inflate(d.rest).consumed)
    || (d.head.kind == 0 && !DataFails(d, size) && n == size)
  }

  /** No width a descriptor may have leads to a record. */
  ghost predicate DescriptorFails(codec: Codec, d: Damaged, size: nat) {
    d.head.flags.streamed && exists n: nat :: Takes(codec, d, size, n) && NoRecordBehind(d.rest, n)
  }

  ghost predicate NoRecordBehind(s: Bytes, n: nat) {
    !RecordAt(s, n + 12) && !RecordAt(s, n + 16) && !RecordAt(s, n + 20) && !RecordAt(s, n + 24)
  }

  ghost predicate BreaksContainer(codec: Codec, es: seq<Entry>, d: Damaged) {
    || HeaderFails(codec, es, d)
    || (&& ComesToData(codec, es, d)
        && var size := DeclaredSize(d.head.sizeField, d.extra).value; DataFails(d, size) || DescriptorFails(codec, d, size))
  }

  // ---------------------------------------------------------------- what the reader meets

  /** Everything the reader takes from the damaged entry. */
  ghost predicate Meets(file: Bytes, off: nat, d: Damaged) {
    var extra := WriteExtra(d.extra);
    var head := Read(file, off, 30);
    && IsHeader(head) && HeaderOf(head) == Header(FlagWord(d.head.flags), d.head.kind, d.head.sizeField, |d.rawName|, |extra|)
    && Read(file, off + 30, |d.rawName|) == d.rawName && Read(file, off + 30 + |d.rawName|, |extra|) == extra
    && off + 30 + |d.rawName| + |extra| <= |file| && file[off + 30 + |d.rawName| + |extra|..] == d.rest
  }

  lemma DamagedIsMet(pre: Bytes, d: Damaged)
    requires Fits(d)
    ensures Meets(pre + WriteDamaged(d), |pre|, d) && ZipWriter.StartsWith(WriteDamaged(d), LOCAL)
  {
    hide HeadBytes, WriteExtra, HeaderOf, Slice, FlagWord;
    var extra := WriteExtra(d.extra);
    var head := HeadBytes(d.head, |d.rawName|, |extra|);
    HeadReads(d.head, |d.rawName|, |extra|);
    assert |head| == 30 && head[..4] == LOCAL;
    FiveParts(pre, head, d.rawName, extra, d.rest, []);
    assert pre + WriteDamaged(d) == pre + head + d.rawName + extra + d.rest + [];
    assert d.rest + [] == d.rest;
    assert WriteDamaged(d)[..4] == head[..4];
  }

  lemma FlagsMet(d: Damaged)
    requires Fits(d)
    ensures HasBit(FlagWord(d.head.flags), 0x08) == d.head.flags.streamed
    ensures HasBit(FlagWord(d.head.flags), 0x800) == d.head.flags.utf8
  {
    FlagsRead(d.head.flags);
  }

  lemma SizeMet(d: Damaged, flags: nat, nameLen: nat, extraLen: nat)
    requires Fits(d)
    ensures SizeOf(Header(flags, d.head.kind, d.head.sizeField, nameLen, extraLen), WriteExtra(d.extra)) == DeclaredSize(d.head.sizeField, d.extra)
  {
    Zip64Found(d.extra);
    hide Zip64Size, WriteExtra;
  }

  lemma {:induction false} NoneDeclared(fs: seq<ExtraField>)
    ensures DeclaredZip64(fs).None? <==> forall i :: 0 <= i < |fs| ==> !fs[i].Zip64?
  {
    if fs != [] {
      NoneDeclared(fs[1..]);
      assert forall i :: 1 <= i < |fs| ==> fs[i] == fs[1..][i - 1];
    }
  }

  predicate IsDataLoss(p: Problem) { p == DeflateCutShort || p == DeflateUnreadable }

  function HeaderMet(d: Damaged): Header {
    Header(FlagWord(d.head.flags), d.head.kind, d.head.sizeField, |d.rawName|, |WriteExtra(d.extra)|)
  }

  lemma PiecesMet(file: Bytes, off: nat, d: Damaged)
    requires Meets(file, off, d)
    ensures var head := Read(file, off, 30);
      IsHeader(head) && |head| == 30 && HeaderOf(head) == HeaderMet(d)
    ensures HeaderMet(d).nameLen == |d.rawName| && HeaderMet(d).extraLen == |WriteExtra(d.extra)|
    ensures HeaderMet(d).flags == FlagWord(d.head.flags)
    ensures Read(file, off + 30, |d.rawName|) == d.rawName
    ensures Read(file, off + 30 + |d.rawName|, |WriteExtra(d.extra)|) == WriteExtra(d.extra)
    ensures off + 30 + |d.rawName| + |WriteExtra(d.extra)| <= |file|
    ensures file[off + 30 + |d.rawName| + |WriteExtra(d.extra)|..] == d.rest
  {
    hide HeaderOf, WriteExtra, FlagWord, Read;
  }

  lemma NameIs(codec: Codec, d: Damaged)
    ensures NameOf(codec, d) == codec.decodeName(d.head.flags.utf8, d.rawName)
  {
  }

  /** The reader's first steps: the name, and whether it was met before. */
  lemma MemberMet(codec: Codec, file: Bytes, off: nat, d: Damaged, seen: set<string>)
    requires Fits(d) && Meets(file, off, d)
    ensures IsHeader(Read(file, off, 30))
    ensures MemberAt(codec, file, off, seen) ==
      var name := NameOf(codec, d);
      if name.None? then Err(UndecodableName)
      else if name.value in seen then Err(NameTwice)
      else Sized(codec, file, HeaderMet(d), name.value, off + 30 + |d.rawName| + |WriteExtra(d.extra)|, WriteExtra(d.extra))
  {
    hide *;
    FlagsMet(d);
    PiecesMet(file, off, d);
    MemberUnfolds(codec, file, off, seen);
    NameIs(codec, d);
  }

  lemma SizedMet(codec: Codec, file: Bytes, name: string, at: nat, d: Damaged)
    requires Fits(d)
    ensures Sized(codec, file, HeaderMet(d), name, at, WriteExtra(d.extra)) ==
      var size := DeclaredSize(d.head.sizeField, d.extra);
      if size.None? then Err(NoZip64Record)
      else
        var got := PayloadOf(codec, file, HeaderMet(d), at, size.value);
        if got.Err? then Err(got.error) else Closed(file, HeaderMet(d), name, at, got.value)
  {
    SizeMet(d, FlagWord(d.head.flags), |d.rawName|, |WriteExtra(d.extra)|);
    hide PayloadOf, Closed, SizeOf, WriteExtra, FlagWord, DeclaredSize, Fits;
  }

  lemma HeaderIsRefused(codec: Codec, file: Bytes, off: nat, d: Damaged, seen: set<string>)
    requires Fits(d) && Meets(file, off, d)
    requires || NameOf(codec, d).None? || NameOf(codec, d).value in seen
             || (d.head.sizeField == 0xFFFF_FFFF && forall i :: 0 <= i < |d.extra| ==> !d.extra[i].Zip64?)
    ensures IsHeader(Read(file, off, 30))
    ensures MemberAt(codec, file, off, seen).Err? && !IsDataLoss(MemberAt(codec, file, off, seen).error)
  {
    hide *;
    OnlyDataIsLoss();
    NoneDeclaredMet(d);
    MemberMet(codec, file, off, d, seen);
    if NameOf(codec, d).Some? && NameOf(codec, d).value !in seen {
      SizedMet(codec, file, NameOf(codec, d).value, off + 30 + |d.rawName| + |WriteExtra(d.extra)|, d);
    }
  }

  lemma OnlyDataIsLoss()
    ensures forall p :: IsDataLoss(p) <==> p == DeflateCutShort || p == DeflateUnreadable
  {
  }

  lemma NoneDeclaredMet(d: Damaged)
    ensures d.head.sizeField == 0xFFFF_FFFF && (forall i :: 0 <= i < |d.extra| ==> !d.extra[i].Zip64?) ==>
              DeclaredSize(d.head.sizeField, d.extra).None?
  {
    NoneDeclared(d.extra);
  }

  /** The header gone through, the data decides. */
  lemma DataIsMet(codec: Codec, file: Bytes, off: nat, d: Damaged, seen: set<string>)
    requires Fits(d) && Meets(file, off, d)
    requires NameOf(codec, d).Some? && NameOf(codec, d).value !in seen && DeclaredSize(d.head.sizeField, d.extra).Some?
    ensures IsHeader(Read(file, off, 30))
    ensures var at := off + 30 + |d.rawName| + |WriteExtra(d.extra)|;
      var got := PayloadOf(codec, file, HeaderMet(d), at, DeclaredSize(d.head.sizeField, d.extra).value);
      MemberAt(codec, file, off, seen)
      == if got.Err? then Err(got.error) else Closed(file, HeaderMet(d), NameOf(codec, d).value, at, got.value)
  {
    hide *;
    MemberMet(codec, file, off, d, seen);
    SizedMet(codec, file, NameOf(codec, d).value, off + 30 + |d.rawName| + |WriteExtra(d.extra)|, d);
  }

  lemma LossIsReported(codec: Codec, file: Bytes, off: nat, d: Damaged, seen: set<string>)
    requires Fits(d) && Meets(file, off, d)
    requires NameOf(codec, d).Some? && NameOf(codec, d).value !in seen && DeclaredSize(d.head.sizeField, d.extra).Some?
    requires d.head.kind == 8 && !codec.inflate(d.rest).Done?
    ensures IsHeader(Read(file, off, 30))
    ensures MemberAt(codec, file, off, seen).Err? && IsDataLoss(MemberAt(codec, file, off, seen).error)
  {
    DataIsMet(codec, file, off, d, seen);
    hide MemberAt, Closed, HeaderOf, FlagWord, WriteExtra, HasBit, IsHeader;
  }

  lemma PayloadFails(codec: Codec, file: Bytes, at: nat, d: Damaged, size: nat)
    requires Fits(d) && DataFails(d, size) && at <= |file| && file[at..] == d.rest
    ensures PayloadOf(codec, file, HeaderMet(d), at, size).Err? && !IsDataLoss(PayloadOf(codec, file, HeaderMet(d), at, size).error)
  {
    FlagsMet(d);
    hide FlagWord, WriteExtra, HasBit, InflatePayload, Fits;
  }

  lemma DataIsRefused(codec: Codec, file: Bytes, off: nat, d: Damaged, seen: set<string>)
    requires Fits(d) && Meets(file, off, d)
    requires NameOf(codec, d).Some? && NameOf(codec, d).value !in seen && DeclaredSize(d.head.sizeField, d.extra).Some?
    requires DataFails(d, DeclaredSize(d.head.sizeField, d.extra).value)
    ensures IsHeader(Read(file, off, 30))
    ensures MemberAt(codec, file, off, seen).Err? && !IsDataLoss(MemberAt(codec, file, off, seen).error)
  {
    hide *;
    PiecesMet(file, off, d);
    DataIsMet(codec, file, off, d, seen);
    PayloadFails(codec, file, off + 30 + |d.rawName| + |WriteExtra(d.extra)|, d, DeclaredSize(d.head.sizeField, d.extra).value);
  }

  lemma ProbeReads(file: Bytes, at: nat, rest: Bytes, n: nat, w: nat)
    requires at <= |file| && file[at..] == rest && n <= |rest| && w <= 24
    ensures IsRecord(Slice(Read(file, at + n, 28), w, w + 4)) <==> RecordAt(rest, n + w)
  {
    hide *;
    ReadIs(file, at + n, 28);
    SliceOfSlice(file, at + n, 28, w, w + 4);
    RecordInRest(file, at, n + w);
  }

  lemma ReadIs(file: Bytes, off: nat, n: nat)
    ensures Read(file, off, n) == Slice(file, off, off + n)
  {
  }

  lemma RecordInRest(file: Bytes, at: nat, i: nat)
    requires at <= |file|
    ensures IsRecord(Slice(file, at + i, at + i + 4)) <==> RecordAt(file[at..], i)
  {
    if at + i + 4 <= |file| {
      assert file[at + i..at + i + 4] == file[at..][i..i + 4];
    }
  }

  lemma SliceOfSlice(s: Bytes, at: nat, n: nat, from: nat, upto: nat)
    requires from <= upto <= n
    ensures Slice(Slice(s, at, at + n), from, upto) == Slice(s, at + from, at + upto)
  {
    var hi := if at + n < |s| then at + n else |s|;
    if at + from < hi {
      var k := if at + upto < hi then upto else hi - at;
      PartOfPart(s, at, hi, from, k);
    }
  }

  lemma PartOfPart(s: Bytes, at: nat, hi: nat, from: nat, upto: nat)
    requires at <= hi <= |s| && from <= upto <= hi - at
    ensures s[at..hi][from..upto] == s[at + from..at + upto]
  {
    var whole := s[at..hi];
    assert forall i :: from <= i < upto ==> whole[i] == s[at + i];
    assert forall i :: 0 <= i < upto - from ==> whole[from..upto][i] == whole[from + i];
    assert whole[from..upto] == s[at + from..at + upto];
  }

  lemma NoWidthFits(file: Bytes, at: nat, rest: Bytes, n: nat)
    requires at <= |file| && file[at..] == rest && n <= |rest| && NoRecordBehind(rest, n)
    ensures DescriptorWidth(Read(file, at + n, 28)) == None
  {
    hide Slice, IsRecord, RecordAt;
    ProbeReads(file, at, rest, n, 12);
    ProbeReads(file, at, rest, n, 16);
    ProbeReads(file, at, rest, n, 20);
    ProbeReads(file, at, rest, n, 24);
  }

  lemma DescriptorIsRefused(codec: Codec, file: Bytes, off: nat, d: Damaged, seen: set<string>)
    requires Lawful(codec) && Fits(d) && Meets(file, off, d)
    requires NameOf(codec, d).Some? && NameOf(codec, d).value !in seen && DeclaredSize(d.head.sizeField, d.extra).Some?
    requires DescriptorFails(codec, d, DeclaredSize(d.head.sizeField, d.extra).value)
    ensures IsHeader(Read(file, off, 30))
    ensures MemberAt(codec, file, off, seen).Err? && !IsDataLoss(MemberAt(codec, file, off, seen).error)
  {
    hide *;
    OnlyDataIsLoss();
    var size := DeclaredSize(d.head.sizeField, d.extra).value;
    var at := off + 30 + |d.rawName| + |WriteExtra(d.extra)|;
    var n := WhereDescriptorFails(codec, d, size);
    PiecesMet(file, off, d);
    DataIsMet(codec, file, off, d, seen);
    FlagsMet(d);
    PayloadTaken(codec, file, at, d, size, n);
    NoWidthFits(file, at, d.rest, n);
    var payload := PayloadOf(codec, file, HeaderMet(d), at, size).value;
    ClosesNot(file, HeaderMet(d), NameOf(codec, d).value, at, payload);
  }

  lemma WhereDescriptorFails(codec: Codec, d: Damaged, size: nat) returns (n: nat)
    requires DescriptorFails(codec, d, size)
    ensures d.head.flags.streamed && Takes(codec, d, size, n) && NoRecordBehind(d.rest, n)
  {
    n :| Takes(codec, d, size, n) && NoRecordBehind(d.rest, n);
  }

  lemma ClosesNot(file: Bytes, h: Header, name: string, at: nat, payload: Payload)
    requires HasBit(h.flags, 8) && DescriptorWidth(Read(file, at + payload.consumed, 28)) == None
    ensures Closed(file, h, name, at, payload) == Err(UnknownDescriptor)
  {
    hide HasBit, DescriptorWidth, Read;
  }

  lemma PayloadTaken(codec: Codec, file: Bytes, at: nat, d: Damaged, size: nat, n: nat)
    requires Lawful(codec) && Fits(d) && Takes(codec, d, size, n) && at <= |file| && file[at..] == d.rest
    ensures n <= |d.rest|
    ensures PayloadOf(codec, file, HeaderMet(d), at, size).Ok? && PayloadOf(codec, file, HeaderMet(d), at, size).value.consumed == n
  {
    FlagsMet(d);
    hide FlagWord, WriteExtra, HasBit;
    if d.head.kind == 8 {
      assert d.rest + [] == d.rest;
      assert codec.inflate(d.rest).consumed <= |d.rest|;
    }
  }

  // ---------------------------------------------------------------- the verdict

  /** The file: honest entries, the damaged one, whatever follows. */
  function FileOf(es: seq<Entry>, d: Damaged): Bytes {
    WriteEntries(es) + WriteDamaged(d)
  }

  /** The reader comes to the damaged entry, having seen the files of the others. */
  lemma ReaderComes(codec: Codec, es: seq<Entry>, d: Damaged) returns (view: View)
    requires Lawful(codec) && Writable(codec, es) && Fits(d)
    ensures Meets(FileOf(es, d), |WriteEntries(es)|, d)
    ensures ViewFrom(codec, FileOf(es, d), 0, map[]) == ViewFrom(codec, FileOf(es, d), |WriteEntries(es)|, view)
    ensures NameOf(codec, d).Some? ==> (NameOf(codec, d).value in view <==> HasFile(es, NameOf(codec, d).value))
  {
    hide *;
    DamagedIsMet(WriteEntries(es), d);
    view := ReadsUpTo(codec, es, WriteDamaged(d));
    FileIs(es, d);
    if NameOf(codec, d).Some? { ShownFile(view, codec, es, NameOf(codec, d).value); }
  }

  lemma FileIs(es: seq<Entry>, d: Damaged)
    ensures FileOf(es, d) == WriteEntries(es) + WriteDamaged(d)
  {
  }

  lemma StateOfProblem(codec: Codec, file: Bytes, infos: seq<Info>, p: Problem)
    requires Streamed(codec, file) == Err(p)
    ensures ArchiveState(codec, Bundle(file, infos)) == Some(if IsDataLoss(p) then Modified else Malformed)
  {
    hide Streamed;
  }

  lemma LossIsModified(codec: Codec, es: seq<Entry>, d: Damaged, infos: seq<Info>)
    requires Lawful(codec) && Writable(codec, es) && Fits(d) && LosesData(codec, es, d)
    ensures ArchiveState(codec, Bundle(FileOf(es, d), infos)) == Some(Modified)
  {
    hide Lawful, Writable, Fits, FileOf, ViewFrom, Meets, MemberAt, ArchiveState, HasFile, WriteEntries, IsHeader, Slice;
    var file, off := FileOf(es, d), |WriteEntries(es)|;
    var view := ReaderComes(codec, es, d);
    LossIsReported(codec, file, off, d, view.Keys);
    ProblemStands(codec, file, off, view);
    StateOfProblem(codec, file, infos, MemberAt(codec, file, off, view.Keys).error);
  }

  lemma BreakIsMalformed(codec: Codec, es: seq<Entry>, d: Damaged, infos: seq<Info>)
    requires Lawful(codec) && Writable(codec, es) && Fits(d) && BreaksContainer(codec, es, d)
    ensures ArchiveState(codec, Bundle(FileOf(es, d), infos)) == Some(Malformed)
  {
    hide Lawful, Writable, Fits, FileOf, ViewFrom, Meets, MemberAt, ArchiveState, HasFile, WriteEntries, IsHeader, Slice, DataFails, DescriptorFails, NameOf, DeclaredSize;
    var file, off := FileOf(es, d), |WriteEntries(es)|;
    var view := ReaderComes(codec, es, d);
    if HeaderFails(codec, es, d) {
      HeaderIsRefused(codec, file, off, d, view.Keys);
    } else if DataFails(d, DeclaredSize(d.head.sizeField, d.extra).value) {
      DataIsRefused(codec, file, off, d, view.Keys);
    } else {
      DescriptorIsRefused(codec, file, off, d, view.Keys);
    }
    ProblemStands(codec, file, off, view);
    StateOfProblem(codec, file, infos, MemberAt(codec, file, off, view.Keys).error);
  }

  /** Which accusation a damaged entry leads to, whatever the directory lists. */
  lemma DamageIsJudged(codec: Codec, es: seq<Entry>, d: Damaged, infos: seq<Info>)
    requires Lawful(codec) && Writable(codec, es) && Fits(d)
    ensures LosesData(codec, es, d) ==> ArchiveState(codec, Bundle(FileOf(es, d), infos)) == Some(Modified)
    ensures BreaksContainer(codec, es, d) ==> ArchiveState(codec, Bundle(FileOf(es, d), infos)) == Some(Malformed)
  {
    hide *;
    if LosesData(codec, es, d) { LossIsModified(codec, es, d, infos); }
    if BreaksContainer(codec, es, d) { BreakIsMalformed(codec, es, d, infos); }
  }

  lemma ProblemStands(codec: Codec, file: Bytes, off: nat, view: View)
    requires ViewFrom(codec, file, 0, map[]) == ViewFrom(codec, file, off, view)
    requires IsHeader(Read(file, off, 30)) && MemberAt(codec, file, off, view.Keys).Err?
    ensures Streamed(codec, file) == Err(MemberAt(codec, file, off, view.Keys).error)
  {
    ViewStops(codec, file, off, view);
    hide MemberAt, IsHeader, ViewFrom;
  }

  /** Of an archive the agreement check refuses no later check is made. */
  lemma NotAccepted(tools: Tools, b: Bundle)
    requires ArchiveState(tools.codec, b) != None
    ensures forall d, pub, files :: !IsConsistent(tools, b, d, pub, files) && !IsIncomplete(tools, b, d, pub, files)
    ensures forall d :: !IsForeign(tools, b, d)
    ensures IsEvidenceAltered(tools, b) <==> ArchiveState(tools.codec, b) == Some(Modified)
  {
    hide ArchiveState;
  }

  /** The whole verifier on such a file. */
  method VerifyDamaged(tools: Tools, args: Args, es: seq<Entry>, d: Damaged, infos: seq<Info>) returns (r: State)
    requires Lawful(tools.codec) && Writable(tools.codec, es) && Fits(d)
    ensures LosesData(tools.codec, es, d) ==> r == Modified
    ensures BreaksContainer(tools.codec, es, d) ==> r == Malformed
  {
    DamageIsJudged(tools.codec, es, d, infos);
    hide ArchiveState, LosesData, BreaksContainer, FileOf;
    ghost var b := Bundle(FileOf(es, d), infos);
    r := Verify(tools, args, Some(Bundle(FileOf(es, d), infos)));
    if ArchiveState(tools.codec, b) != None { NotAccepted(tools, b); }
  }
}
