/**
 Which honestly written archives pass the agreement check: exactly those that hold a file, store their empty
 directory markers, and whose end record still ends the file at the last copy of its own signature.
 */
module HonestArchive {
  import opened Wrappers
  import opened Bytes
  import opened StreamView
  import opened SeekingView
  import opened ZipWriter

  /** The zip library's listing of the entries, in their order. */
  function Directory(es: seq<Entry>): seq<Info> {
    seq(|es|, i requires 0 <= i < |es| => InfoOf(es[i]))
  }

  function InfoOf(e: Entry): Info { Info(e.name, |DataOf(e)|, Data(DataOf(e))) }

  /** Both readers take the same entries for empty directory markers: one is stored, not deflated. */
  predicate PlainMarkers(es: seq<Entry>) {
    forall i :: 0 <= i < |es| && EndsWithSlash(es[i].name) && DataOf(es[i]) == [] ==> es[i].content.Stored?
  }

  /** The end record: disk and count fields, size and offset of the directory, then the comment. */
  function EndRecord(fields: Bytes, comment: Bytes): Bytes
    requires |fields| == 16
  {
    [0x50, 0x4B, 0x05, 0x06] + fields + Put16(|comment|) + comment
  }

  /** Whether a later copy of the signature hides in the record's own fields or comment. */
  ghost predicate Imitated(fields: Bytes, comment: Bytes)
    requires |fields| == 16
  {
    exists i :: 0 < i && SigAt(EndRecord(fields, comment), END_RECORD, i)
  }

  predicate EndsAtRecord(file: Bytes) {
    var eocd := ClassicEocd(file);
    eocd.Some? && eocd.value.0 + 22 + eocd.value.1 == |file|
  }

  lemma SigShift(body: Bytes, rest: Bytes, i: nat)
    ensures SigAt(body + rest, END_RECORD, |body| + i) <==> SigAt(rest, END_RECORD, i)
  {
    if i + 4 <= |rest| {
      assert (body + rest)[|body| + i..|body| + i + 4] == rest[i..i + 4];
    }
  }

  lemma RecordReads(body: Bytes, fields: Bytes, comment: Bytes)
    requires |fields| == 16 && |comment| < 0x1_0000
    ensures var file := body + EndRecord(fields, comment);
      && SigAt(file, END_RECORD, |body|) && |file| == |body| + 22 + |comment|
      && U16(file, |body| + 20) == |comment|
  {
    hide U16;
    var record := EndRecord(fields, comment);
    var file := body + record;
    assert record[0..4] == END_RECORD;
    SigShift(body, record, 0);
    assert file[|body| + 20..|body| + 22] == Put16(|comment|);
    U16At(Put16(|comment|), file, |body| + 20);
  }

  lemma SigInTail(file: Bytes, from: nat, i: nat)
    requires from <= |file|
    ensures SigAt(file[from..], END_RECORD, i) <==> SigAt(file, END_RECORD, from + i)
  {
    assert file == file[..from] + file[from..];
    SigShift(file[..from], file[from..], i);
  }

  ghost predicate IsLastSig(s: Bytes, j: nat) {
    SigAt(s, END_RECORD, j) && forall i :: j < i ==> !SigAt(s, END_RECORD, i)
  }

  /** The last copy of the signature in the record heads something that ends where the record ends. */
  ghost predicate LastCopyEndsFile(record: Bytes) {
    exists j: nat :: IsLastSig(record, j) && j + 22 <= |record| && j + 22 + U16(record, j + 20) == |record|
  }

  /** The backward search stops at the record's last copy of the signature, whatever stands before the record. */
  lemma RecordDecides(body: Bytes, fields: Bytes, comment: Bytes)
    requires |fields| == 16 && |comment| < 0x1_0000
    ensures EndsAtRecord(body + EndRecord(fields, comment)) <==> LastCopyEndsFile(EndRecord(fields, comment))
  {
    hide U16, SigAt, EndRecord;
    var record := EndRecord(fields, comment);
    var file := body + record;
    RecordReads(body, fields, comment);
    var span := if |file| < TAIL_SPAN then |file| else TAIL_SPAN;
    var start := |file| - span;
    var tail := file[start..];
    var p := |body| - start;
    SigInTail(file, start, p);
    var at := RFindFrom(tail, END_RECORD, |tail|).value;
    assert p <= at;
    var j := at - p;
    SigInTail(file, start, at);
    SigShift(body, record, j);
    forall i | j < i ensures !SigAt(record, END_RECORD, i) {
      if SigAt(record, END_RECORD, i) {
        SigShift(body, record, i);
        SigInTail(file, start, p + i);
        SigFits(tail, p + i);
      }
    }
    assert IsLastSig(record, j);
    assert |tail| - at == |record| - j;
    if j + 22 <= |record| {
      TailReads(file, start, at);
      RecordTailReads(body, record, j);
    }
  }

  lemma RecordTailReads(body: Bytes, record: Bytes, j: nat)
    requires j + 22 <= |record|
    ensures U16(body + record, |body| + j + 20) == U16(record, j + 20)
  {
  }

  /** A record whose signature is not imitated after its head holds, with any comment. */
  lemma UnimitatedHolds(fields: Bytes, comment: Bytes)
    requires |fields| == 16 && |comment| < 0x1_0000 && !Imitated(fields, comment)
    ensures LastCopyEndsFile(EndRecord(fields, comment))
  {
    hide U16, SigAt, EndRecord;
    var record := EndRecord(fields, comment);
    RecordReads([], fields, comment);
    assert [] + record == record;
    assert IsLastSig(record, 0);
  }

  lemma SigFits(s: Bytes, i: nat)
    requires SigAt(s, END_RECORD, i)
    ensures i <= |s|
  {
  }

  lemma TailReads(file: Bytes, start: nat, p: nat)
    requires start + p + 22 <= |file|
    ensures U16(file[start..], p + 20) == U16(file, start + p + 20)
  {
  }

  /** For a record without a comment, imitation and refusal are the same thing. */
  lemma RefusedIffImitated(body: Bytes, fields: Bytes)
    requires |fields| == 16
    ensures EndsAtRecord(body + EndRecord(fields, [])) <==> !Imitated(fields, [])
  {
    hide U16, SigAt, EndRecord;
    var record := EndRecord(fields, []);
    RecordReads([], fields, []);
    assert [] + record == record;
    RecordDecides(body, fields, []);
    if Imitated(fields, []) {
      var i :| 0 < i && SigAt(record, END_RECORD, i);
      assert forall j :: IsLastSig(record, j) ==> i <= j;
    } else {
      UnimitatedHolds(fields, []);
    }
  }

  /** A genuine archive whose directory starts at byte 0x06054B50 spells the signature in its offset field. */
  lemma OffsetImitatesSignature(body: Bytes, counts: Bytes)
    requires |counts| == 12
    ensures !EndsAtRecord(body + EndRecord(counts + Put32(0x0605_4B50), []))
  {
    var fields := counts + Put32(0x0605_4B50);
    var record := EndRecord(fields, []);
    assert Put32(0x0605_4B50) == END_RECORD;
    assert record[16..20] == END_RECORD;
    assert SigAt(record, END_RECORD, 16);
    RefusedIffImitated(body, fields);
  }

  // ---------------------------------------------------------------- the two views of an honest archive

  lemma MarkersAgree(e: Entry)
    requires EndsWithSlash(e.name) && DataOf(e) == [] ==> e.content.Stored?
    requires BodyOf(e.content) == [] ==> DataOf(e) == []
    ensures IsMarker(InfoOf(e)) <==> !IsFile(e)
  {
  }

  lemma SeekShows(codec: Codec, es: seq<Entry>)
    requires ZipWriter.DistinctNames(es) && PlainMarkers(es)
    requires forall i :: 0 <= i < |es| && BodyOf(es[i].content) == [] ==> DataOf(es[i]) == []
    ensures Seek(codec, Directory(es)).Ok? && Shows(Seek(codec, Directory(es)).value, codec, es)
  {
    hide Seek, IsMarker, IsFile;
    var infos := Directory(es);
    forall i | 0 <= i < |es| ensures IsMarker(infos[i]) <==> !IsFile(es[i]) {
      MarkersAgree(es[i]);
    }
    SeekOutcome(codec, infos);
    assert forall i :: 0 <= i < |infos| ==> ComesOut(infos[i]);
    assert forall i, j :: 0 <= i < j < |infos| ==> infos[i].filename == es[i].name != es[j].name == infos[j].filename;
    SeekHolds(codec, infos);
    var view := Seek(codec, infos).value;
    forall n | n in view ensures HasFile(es, n) {
      assert HasListed(infos, n);
      var i :| 0 <= i < |infos| && !IsMarker(infos[i]) && infos[i].filename == n;
      assert IsFile(es[i]) && es[i].name == n;
    }
    forall i | 0 <= i < |es| && IsFile(es[i])
      ensures es[i].name in view && view[es[i].name] == codec.digest(DataOf(es[i]))
    {
      assert !IsMarker(infos[i]);
    }
  }

  lemma ShowsUnique(a: View, b: View, codec: Codec, es: seq<Entry>)
    requires Shows(a, codec, es) && Shows(b, codec, es)
    ensures a == b
  {
    forall n | n in a || n in b ensures n in a && n in b && a[n] == b[n] {
      assert HasFile(es, n);
      var i :| 0 <= i < |es| && IsFile(es[i]) && es[i].name == n;
    }
  }

  /** A stream that inflates from nothing would be no stream: an empty body carries no data. */
  lemma EmptyBodies(codec: Codec, es: seq<Entry>)
    requires Lawful(codec) && Writable(codec, es)
    ensures forall i :: 0 <= i < |es| && BodyOf(es[i].content) == [] ==> DataOf(es[i]) == []
  {
    forall i | 0 <= i < |es| && BodyOf(es[i].content) == [] ensures DataOf(es[i]) == [] {
      assert Readable(codec, es[i]);
    }
  }

  predicate HoldsFile(es: seq<Entry>) {
    exists i :: 0 <= i < |es| && IsFile(es[i])
  }

  /** An honestly written archive: the entries, a directory that has a record for each, and the end record. */
  function Archive(es: seq<Entry>, central: Bytes, fields: Bytes, comment: Bytes): Bytes
    requires |fields| == 16
  {
    WriteEntries(es) + (central + EndRecord(fields, comment))
  }

  predicate Lists(central: Bytes, es: seq<Entry>) {
    if es == [] then central == [] else ZipWriter.StartsWith(central, [0x50, 0x4B, 0x01, 0x02])
  }

  /**
   Which genuine evidence is accepted, exactly: an archive with a file in it whose empty directory markers are
   stored, and whose end record holds. Any other honestly written archive is refused.
   */
  lemma HonestAcceptedIff(codec: Codec, es: seq<Entry>, central: Bytes, fields: Bytes, comment: Bytes)
    requires Lawful(codec) && Writable(codec, es) && Lists(central, es)
    requires |fields| == 16 && |comment| < 0x1_0000
    ensures ArchiveState(codec, Bundle(Archive(es, central, fields, comment), Directory(es))) == None <==>
            HoldsFile(es) && PlainMarkers(es) && LastCopyEndsFile(EndRecord(fields, comment))
  {
    hide ArchiveState, EndRecord, Lawful, Writable;
    if !HoldsFile(es) {
      NoFileRefused(codec, es, central, fields, comment);
    } else {
      ViewsDecide(codec, es, central, fields, comment);
      if !PlainMarkers(es) {
        DeflatedMarkerRefused(codec, es, central, fields, comment);
      }
    }
  }

  /** Without a comment: unless the record's own fields spell its signature. */
  lemma HonestWithoutComment(codec: Codec, es: seq<Entry>, central: Bytes, fields: Bytes)
    requires Lawful(codec) && Writable(codec, es) && Lists(central, es) && |fields| == 16
    ensures ArchiveState(codec, Bundle(Archive(es, central, fields, []), Directory(es))) == None <==>
            HoldsFile(es) && PlainMarkers(es) && !Imitated(fields, [])
  {
    hide *;
    HonestAcceptedIff(codec, es, central, fields, []);
    RefusedIffImitated([], fields);
    RecordDecides([], fields, []);
  }

  /** An archive of directory markers only, or of nothing, ends for the front-to-back reader where it starts. */
  lemma NoFileRefused(codec: Codec, es: seq<Entry>, central: Bytes, fields: Bytes, comment: Bytes)
    requires Lawful(codec) && Writable(codec, es) && Lists(central, es) && !HoldsFile(es)
    requires |fields| == 16 && |comment| < 0x1_0000
    ensures ArchiveState(codec, Bundle(Archive(es, central, fields, comment), Directory(es))) != None
  {
    hide Seek, ClassicEocd, Writable, Lawful, Shows, ViewFrom;
    var dir := central + EndRecord(fields, comment);
    var file := WriteEntries(es) + dir;
    if es == [] {
      assert file == EndRecord(fields, comment);
      assert Read(file, 0, 4) == END_RECORD by { assert file[0..4] == END_RECORD; }
      assert !IsHeader(Read(file, 0, 30)) by { assert file[2] == 0x05; }
      NoHeaderEnds(codec, file, 0, map[]);
    } else {
      StartsWithin(central, EndRecord(fields, comment), CENTRAL);
      var view := RoundTrip(codec, es, dir);
      FirstIsLocal(codec, es, dir);
    }
  }

  lemma FirstIsLocal(codec: Codec, es: seq<Entry>, dir: Bytes)
    requires Writable(codec, es) && es != []
    ensures Read(WriteEntries(es) + dir, 0, 4) == LOCAL
  {
    hide WriteEntry, Readable;
    assert Readable(codec, es[0]);
    EntryStarts(codec, es[0]);
    StartsWithin(WriteEntry(es[0]), WriteEntries(es[1..]), LOCAL);
    StartsWithin(WriteEntries(es), dir, LOCAL);
    assert (WriteEntries(es) + dir)[0..4] == (WriteEntries(es) + dir)[..4];
  }

  /** With a file in it, the archive's fate is that of the two views and of the end record. */
  lemma ViewsDecide(codec: Codec, es: seq<Entry>, central: Bytes, fields: Bytes, comment: Bytes)
    requires Lawful(codec) && Writable(codec, es) && Lists(central, es) && HoldsFile(es)
    requires |fields| == 16 && |comment| < 0x1_0000
    ensures PlainMarkers(es) ==>
      (ArchiveState(codec, Bundle(Archive(es, central, fields, comment), Directory(es))) == None
       <==> LastCopyEndsFile(EndRecord(fields, comment)))
  {
    hide Seek, WriteEntries, ClassicEocd, EndRecord, LastCopyEndsFile, Streamed, Writable, Lawful, ZipWriter.StartsWith, Shows;
    var dir := central + EndRecord(fields, comment);
    var file := WriteEntries(es) + dir;
    StartsWithin(central, EndRecord(fields, comment), CENTRAL);
    var view := RoundTrip(codec, es, dir);
    if PlainMarkers(es) {
      EmptyBodies(codec, es);
      WritableNames(codec, es);
      SeekShows(codec, es);
      ShowsUnique(view, Seek(codec, Directory(es)).value, codec, es);
      DirectoryReads(WriteEntries(es), dir);
      assert file == (WriteEntries(es) + central) + EndRecord(fields, comment);
      RecordDecides(WriteEntries(es) + central, fields, comment);
    }
  }

  /** A deflated empty directory marker is a member to the front-to-back reader, and nothing to the other. */
  lemma DeflatedMarkerRefused(codec: Codec, es: seq<Entry>, central: Bytes, fields: Bytes, comment: Bytes)
    requires Lawful(codec) && Writable(codec, es) && Lists(central, es) && HoldsFile(es) && !PlainMarkers(es)
    requires |fields| == 16 && |comment| < 0x1_0000
    ensures ArchiveState(codec, Bundle(Archive(es, central, fields, comment), Directory(es))) != None
  {
    hide *;
    var dir := central + EndRecord(fields, comment);
    DirectoryStarts(es, central, EndRecord(fields, comment));
    var view := RoundTrip(codec, es, dir);
    var i := WhereDeflated(es);
    WritableAt(codec, es, i);
    StreamHasBody(codec, es[i]);
    ShownFile(view, codec, es, es[i].name);
    FileStands(es, i);
    ArchiveIs(es, central, fields, comment);
    if Seek(codec, Directory(es)).Ok? {
      MarkerNotSought(codec, es, i);
    }
    ViewsDiffer(codec, Bundle(Archive(es, central, fields, comment), Directory(es)));
  }

  lemma DirectoryStarts(es: seq<Entry>, central: Bytes, record: Bytes)
    requires Lists(central, es) && HoldsFile(es)
    ensures ZipWriter.StartsWith(central + record, CENTRAL)
  {
    StartsWithin(central, record, CENTRAL);
  }

  lemma ArchiveIs(es: seq<Entry>, central: Bytes, fields: Bytes, comment: Bytes)
    requires |fields| == 16
    ensures Archive(es, central, fields, comment) == WriteEntries(es) + (central + EndRecord(fields, comment))
  {
  }

  lemma WhereDeflated(es: seq<Entry>) returns (i: nat)
    requires !PlainMarkers(es)
    ensures i < |es| && EndsWithSlash(es[i].name) && DataOf(es[i]) == [] && es[i].content.Deflated?
  {
    i :| 0 <= i < |es| && EndsWithSlash(es[i].name) && DataOf(es[i]) == [] && !es[i].content.Stored?;
  }

  lemma WritableAt(codec: Codec, es: seq<Entry>, i: nat)
    requires Writable(codec, es) && i < |es|
    ensures ZipWriter.DistinctNames(es) && Readable(codec, es[i])
  {
  }

  lemma FileStands(es: seq<Entry>, i: nat)
    requires i < |es| && BodyOf(es[i].content) != []
    ensures HasFile(es, es[i].name)
  {
    assert IsFile(es[i]);
  }

  lemma ViewsDiffer(codec: Codec, b: Bundle)
    requires Streamed(codec, b.file).Ok?
    requires Seek(codec, b.infos).Ok? ==> Seek(codec, b.infos).value != Streamed(codec, b.file).value.0
    ensures ArchiveState(codec, b) != None
  {
    hide Streamed, Seek;
  }

  /**
   The data of one file of a genuine archive will not come out, because its directory record was altered. Read front
   to back the file is as it was written. The agreement check says MODIFIED when the zip library's error is one it
   catches, and MALFORMED when it is not, as for a record that claims encryption or a method the data is not in.
   */
  lemma AlteredRecord(codec: Codec, es: seq<Entry>, central: Bytes, fields: Bytes, comment: Bytes, i: nat, x: Extracted)
    requires Lawful(codec) && Writable(codec, es) && Lists(central, es)
    requires |fields| == 16 && |comment| < 0x1_0000
    requires i < |es| && !IsMarker(InfoOf(es[i])) && !x.Data?
    ensures var altered := Bundle(Archive(es, central, fields, comment), Directory(es)[i := InfoOf(es[i]).(content := x)]);
      ArchiveState(codec, altered) == Some(if x.Unreadable? then Modified else Malformed)
  {
    hide WriteEntries, EndRecord, Streamed, Lawful, Writable, ZipWriter.StartsWith, Seek, ArchiveState;
    var dir := central + EndRecord(fields, comment);
    var infos := Directory(es)[i := InfoOf(es[i]).(content := x)];
    StartsWithin(central, EndRecord(fields, comment), CENTRAL);
    var view := RoundTrip(codec, es, dir);
    assert forall j :: 0 <= j < i ==> infos[j] == InfoOf(es[j]);
    LostDataIsModifiedIff(codec, Bundle(Archive(es, central, fields, comment), infos), i);
  }

  /** One stored file of one byte. */
  const CLIP := Entry("clip", [0x63, 0x6C, 0x69, 0x70], Flags(0, false, 0, false, 0), Stored([1]), 1, [], [20, 0], [0, 0, 0, 0, 0, 0, 0, 0], [1, 0, 0, 0], [])

  /** For instance: the encryption bit set in the directory record of the only file. */
  lemma EncryptedRecordIsMalformed(codec: Codec, fields: Bytes)
    requires Lawful(codec) && codec.decodeName(false, CLIP.rawName) == Some(CLIP.name) && |fields| == 16
    ensures ArchiveState(codec, Bundle(Archive([CLIP], CENTRAL, fields, []), [Info("clip", 1, Refused)])) == Some(Malformed)
  {
    assert Readable(codec, CLIP);
    AlteredRecord(codec, [CLIP], CENTRAL, fields, [], 0, Refused);
    assert Directory([CLIP])[0 := InfoOf(CLIP).(content := Refused)] == [Info("clip", 1, Refused)];
  }

  lemma StreamHasBody(codec: Codec, e: Entry)
    requires Lawful(codec) && Readable(codec, e) && e.content.Deflated?
    ensures BodyOf(e.content) != []
  {
  }

  lemma MarkerNotSought(codec: Codec, es: seq<Entry>, i: nat)
    requires ZipWriter.DistinctNames(es) && i < |es| && EndsWithSlash(es[i].name) && DataOf(es[i]) == []
    requires Seek(codec, Directory(es)).Ok?
    ensures es[i].name !in Seek(codec, Directory(es)).value
  {
    hide Seek;
    var infos := Directory(es);
    forall x, y | 0 <= x < y < |infos| ensures infos[x].filename != infos[y].filename {
      assert es[x].name != es[y].name;
    }
    SeekHolds(codec, infos);
    forall x | 0 <= x < |infos| && infos[x].filename == es[i].name ensures IsMarker(infos[x]) {
      assert infos[x].filename == infos[i].filename;
      assert x == i;
    }
    assert !HasListed(infos, es[i].name);
  }

  lemma WritableNames(codec: Codec, es: seq<Entry>)
    requires Writable(codec, es)
    ensures ZipWriter.DistinctNames(es)
  {
  }

  lemma DirectoryReads(pre: Bytes, dir: Bytes)
    requires ZipWriter.StartsWith(dir, CENTRAL)
    ensures Read(pre + dir, |pre|, 4) == CENTRAL
  {
    assert (pre + dir)[|pre|..|pre| + 4] == dir[..4];
  }
}
