/**
 The agreement check: the front-to-back reader and the central-directory reader must see the same archive,
 and nothing may lie between the entries and the directory or after the end record (section 4.3.16 of
 PKWARE's APPNOTE.TXT).
 */
module SeekingView {
  import opened Wrappers
  import opened Bytes
  import opened StreamView

  datatype State = Valid | Modified | Missing | UnknownKey | Unsupported | Malformed

  /**
   What the zip library makes of an entry's data: the bytes, an error the verifier catches (a bad archive, an
   early end, a failing read), or one it does not (a deflate error, an encrypted entry, an unknown method), which
   ends the run as MALFORMED.
   */
  datatype Extracted = Data(bytes: Bytes) | Unreadable | Refused

  /** A central-directory entry as the zip library gives it. */
  datatype Info = Info(filename: string, size: nat, content: Extracted)

  datatype Bundle = Bundle(file: Bytes, infos: seq<Info>)

  const END_RECORD: Bytes := [0x50, 0x4B, 0x05, 0x06]
  const TAIL_SPAN: nat := 66 * 1024

  /** A member that does not parse is a malformed container; data that will not decompress is altered evidence. */
  function StateOf(p: Problem): State {
    if p == DeflateCutShort || p == DeflateUnreadable then Modified else Malformed
  }

  predicate IsMarker(i: Info) { EndsWithSlash(i.filename) && i.size == 0 }

  /** The verdict on an entry whose data will not come out. */
  function FailureOf(x: Extracted): State
    requires !x.Data?
  {
    if x.Unreadable? then Modified else Malformed
  }

  /** The directory reader's map, a later entry of a name replacing an earlier one; or the first entry's failure. */
  function Seek(codec: Codec, infos: seq<Info>): (r: Result<View, State>)
    ensures r.Err? ==> r.error == Modified || r.error == Malformed
  {
    if infos == [] then Ok(map[])
    else
      var n := |infos| - 1;
      var before := Seek(codec, infos[..n]);
      if before.Err? || IsMarker(infos[n]) then before
      else if !infos[n].content.Data? then Err(FailureOf(infos[n].content))
      else Ok(before.value[infos[n].filename := codec.digest(infos[n].content.bytes)])
  }

  method SeekAll(codec: Codec, infos: seq<Info>) returns (r: Result<View, State>)
    ensures r == Seek(codec, infos)
  {
    var seeking: View := map[];
    for i := 0 to |infos|
      invariant Seek(codec, infos[..i]) == Ok(seeking)
    {
      assert infos[..i + 1][..i] == infos[..i];
      if IsMarker(infos[i]) {
        continue;
      }
      if !infos[i].content.Data? {
        FailureStands(codec, infos, i + 1);
        return Err(FailureOf(infos[i].content));
      }
      seeking := seeking[infos[i].filename := codec.digest(infos[i].content.bytes)];
    }
    assert infos[..|infos|] == infos;
    return Ok(seeking);
  }

  lemma {:induction false} FailureStands(codec: Codec, infos: seq<Info>, i: nat)
    requires i <= |infos| && Seek(codec, infos[..i]).Err?
    ensures Seek(codec, infos) == Seek(codec, infos[..i])
    decreases |infos|
  {
    if i < |infos| {
      var n := |infos| - 1;
      assert infos[..n][..i] == infos[..i];
      FailureStands(codec, infos[..n], i);
    } else {
      assert infos[..i] == infos;
    }
  }

  predicate ComesOut(i: Info) { IsMarker(i) || i.content.Data? }

  /** The pass is done exactly when every entry but the markers comes out; otherwise the first that does not decides. */
  lemma {:induction false} SeekOutcome(codec: Codec, infos: seq<Info>)
    ensures Seek(codec, infos).Ok? <==> forall i :: 0 <= i < |infos| ==> ComesOut(infos[i])
    ensures forall i :: 0 <= i < |infos| && !ComesOut(infos[i]) && (forall j :: 0 <= j < i ==> ComesOut(infos[j])) ==>
              Seek(codec, infos) == Err(FailureOf(infos[i].content))
  {
    if infos != [] {
      var n := |infos| - 1;
      SeekOutcome(codec, infos[..n]);
      assert forall i :: 0 <= i < n ==> infos[..n][i] == infos[i];
    }
  }

  predicate SigAt(s: Bytes, sig: Bytes, i: nat) {
    i + |sig| <= |s| && s[i..i + |sig|] == sig
  }

  /** `rfind`: the last occurrence at or before `hi`. */
  function RFindFrom(s: Bytes, sig: Bytes, hi: nat): (r: Option<nat>)
    ensures r.None? <==> forall i :: 0 <= i <= hi ==> !SigAt(s, sig, i)
    ensures r.Some? ==> r.value <= hi && SigAt(s, sig, r.value) && forall i :: r.value < i <= hi ==> !SigAt(s, sig, i)
  {
    if SigAt(s, sig, hi) then Some(hi)
    else if hi == 0 then None
    else RFindFrom(s, sig, hi - 1)
  }

  /** Offset and comment length of the last end record, or nothing. */
  function ClassicEocd(file: Bytes): Option<(nat, nat)> {
    var size := |file|;
    var span := if size < TAIL_SPAN then size else TAIL_SPAN;
    var tail := file[size - span..];
    var at := RFindFrom(tail, END_RECORD, |tail|);
    if at.None? || |tail| - at.value < 22 then None
    else Some((size - span + at.value, U16(tail, at.value + 20)))
  }

  /** The refusal of the agreement check, if any. */
  function ArchiveState(codec: Codec, b: Bundle): (r: Option<State>)
    ensures r.Some? ==> r.value == Modified || r.value == Malformed
  {
    match Streamed(codec, b.file)
    case Err(p) => Some(StateOf(p))
    case Ok((streamed, end)) =>
      var seeking := Seek(codec, b.infos);
      if seeking.Err? then Some(seeking.error)
      else if streamed != seeking.value then Some(Malformed)
      else if Read(b.file, end, 4) != CENTRAL then Some(Malformed)
      else
        var eocd := ClassicEocd(b.file);
        if eocd.None? || eocd.value.0 + 22 + eocd.value.1 != |b.file| then Some(Malformed) else None
  }

  method RejectConcatenatedArchive(codec: Codec, b: Bundle) returns (r: Option<State>)
    requires Lawful(codec)
    ensures r == ArchiveState(codec, b)
  {
    var streamed := StreamView.StreamView(codec, b.file);
    if streamed.Err? {
      return Some(StateOf(streamed.error));
    }
    var seeking := SeekAll(codec, b.infos);
    if seeking.Err? {
      return Some(seeking.error);
    }
    if streamed.value.0 != seeking.value {
      return Some(Malformed);
    }
    if Read(b.file, streamed.value.1, 4) != CENTRAL {
      return Some(Malformed);
    }
    var eocd := ClassicEocd(b.file);
    if eocd.None? || eocd.value.0 + 22 + eocd.value.1 != |b.file| {
      return Some(Malformed);
    }
    return None;
  }

  /**
   Data that will not come out is to be called MODIFIED. For a file the front-to-back reader accepts, it is so
   exactly when the first such entry fails with an error the verifier catches; otherwise it is called MALFORMED.
   */
  lemma LostDataIsModifiedIff(codec: Codec, b: Bundle, i: nat)
    requires Streamed(codec, b.file).Ok?
    requires i < |b.infos| && !ComesOut(b.infos[i]) && forall j :: 0 <= j < i ==> ComesOut(b.infos[j])
    ensures ArchiveState(codec, b) == Some(Modified) <==> b.infos[i].content.Unreadable?
    ensures ArchiveState(codec, b) == Some(Malformed) <==> b.infos[i].content.Refused?
  {
    SeekOutcome(codec, b.infos);
  }

  /** What the directory reader's map holds, when names are distinct. */
  lemma {:induction false} SeekHolds(codec: Codec, infos: seq<Info>)
    requires Seek(codec, infos).Ok?
    requires forall i, j :: 0 <= i < j < |infos| ==> infos[i].filename != infos[j].filename
    ensures var view := Seek(codec, infos).value;
      && (forall i :: 0 <= i < |infos| && !IsMarker(infos[i]) ==>
            && infos[i].content.Data? && infos[i].filename in view
            && view[infos[i].filename] == codec.digest(infos[i].content.bytes))
      && (forall n :: n in view ==> HasListed(infos, n))
  {
    if infos != [] {
      var n := |infos| - 1;
      SeekHolds(codec, infos[..n]);
      forall x | HasListed(infos[..n], x) ensures HasListed(infos, x) {
        var i :| 0 <= i < n && !IsMarker(infos[..n][i]) && infos[..n][i].filename == x;
        assert infos[i].filename == x;
      }
      if !IsMarker(infos[n]) { assert HasListed(infos, infos[n].filename); }
    }
  }

  predicate HasListed(infos: seq<Info>, name: string) {
    exists i :: 0 <= i < |infos| && !IsMarker(infos[i]) && infos[i].filename == name
  }
}
