/**
 The evidence verdict: the ordered checks of the verifier over one bundle, what a VALID answer guarantees,
 and which bundles are given one.
 */
module Verdict {
  import opened Wrappers
  import opened Bytes
  import opened StreamView
  import opened SeekingView
  import opened Text
  import EntryNames

  datatype Json = Null | Bool(b: bool) | Num(n: int) | Str(s: string) | Arr(items: seq<Json>) | Obj(fields: map<string, Json>)

  /**
   The tools the verifier calls: JSON parsing, strict base64, the Ed25519 check (absent when openssl cannot
   be used), reading a `sha256sum` listing, and whether the report about a manifest can be printed.
   */
  datatype Tools = Tools(
    codec: Codec, parse: Bytes -> Option<Json>, base64: string -> Option<Bytes>,
    verify: (Bytes, Bytes, Bytes) -> Option<bool>, sidecar: Bytes -> map<string, string>, printable: Json -> bool)

  /** The key the operator obtained out of band; an empty option counts as not given. */
  datatype Args = Args(key: string, keyId: string)

  const MANIFEST := "manifest.json"
  const SIGNATURE := "signature.json"
  const HASHES := "hashes.sha256"
  const FORMAT := "heldar-evidence/1"

  // ---------------------------------------------------------------- reading the archive

  function Names(infos: seq<Info>): seq<string> {
    seq(|infos|, i requires 0 <= i < |infos| => infos[i].filename)
  }

  /** The last entry of that name, which is the one the zip library opens. */
  function Find(infos: seq<Info>, name: string): (r: Option<Info>)
    ensures r.None? <==> name !in Names(infos)
    ensures r.Some? ==> r.value.filename == name && exists i :: 0 <= i < |infos| && infos[i] == r.value
  {
    if infos == [] then None
    else
      var n := |infos| - 1;
      assert Names(infos) == Names(infos[..n]) + [infos[n].filename];
      if infos[n].filename == name then Some(infos[n])
      else
        var r := Find(infos[..n], name);
        assert r.Some? ==> exists i :: 0 <= i < n && infos[..n][i] == r.value && infos[i] == r.value;
        r
  }

  function ContentOf(infos: seq<Info>, name: string): Option<Bytes> {
    var i := Find(infos, name);
    if i.Some? && i.value.content.Data? then Some(i.value.content.bytes) else None
  }

  /** Reading the entry of that name ends the run: the library refuses it with an error nothing catches. */
  predicate IsRefused(infos: seq<Info>, name: string) {
    var i := Find(infos, name);
    i.Some? && i.value.content.Refused?
  }

  // ---------------------------------------------------------------- JSON access

  function Get(fields: map<string, Json>, key: string): Json {
    if key in fields then fields[key] else Null
  }

  predicate Truthy(j: Json) {
    match j
    case Null => false
    case Bool(b) => b
    case Num(n) => n != 0
    case Str(s) => s != ""
    case Arr(items) => items != []
    case Obj(fields) => fields != map[]
  }

  function TextOf(j: Json): Option<string> {
    if j.Str? && j.s != "" then Some(j.s) else None
  }

  /** The hash a manifest entry demands, when it states a usable one. */
  function Wanted(entry: Json): Option<string> {
    if entry.Obj? then TextOf(Get(entry.fields, "sha256")) else None
  }

  // ---------------------------------------------------------------- the checks

  datatype Documents = Documents(raw: Bytes, manifest: map<string, Json>, signature: map<string, Json>)

  function DocumentsOf(tools: Tools, infos: seq<Info>): (r: Result<Documents, State>)
    ensures r.Err? ==> r.error == Malformed || r.error == Unsupported
  {
    var raw := ContentOf(infos, MANIFEST);
    var sig := ContentOf(infos, SIGNATURE);
    if raw.None? || sig.None? then Err(Malformed)
    else
      var m := tools.parse(raw.value);
      var s := tools.parse(sig.value);
      if m.None? || s.None? || !m.value.Obj? || !s.value.Obj? then Err(Malformed)
      else
        var format := Get(m.value.fields, "format");
        if format.Arr? || format.Obj? then Err(Malformed)
        else if format != Str(FORMAT) then Err(Unsupported)
        else Ok(Documents(raw.value, m.value.fields, s.value.fields))
  }

  /** The signer's public key, once its signature over the stored manifest bytes has been verified. */
  function SignerOf(tools: Tools, d: Documents): (r: Result<Bytes, State>)
    ensures r.Err? ==> r.error == Malformed || r.error == Modified
  {
    var keyText := TextOf(Get(d.signature, "public_key"));
    var sigText := TextOf(Get(d.signature, "signature"));
    if Get(d.signature, "algorithm") != Str("ed25519") || keyText.None? || sigText.None? then Err(Malformed)
    else
      var pub := tools.base64(keyText.value);
      var sig := tools.base64(sigText.value);
      if pub.None? || sig.None? || |pub.value| != 32 then Err(Malformed)
      else
        var verified := tools.verify(pub.value, sig.value, d.raw);
        var stated := Get(d.signature, "manifest_sha256");
        if verified.None? then Err(Malformed)
        else if !verified.value then Err(Modified)
        else if Truthy(stated) && stated != Str(tools.codec.digest(d.raw)) then Err(Modified)
        else Ok(pub.value)
  }

  function FilesOf(d: Documents): Option<map<string, Json>> {
    var files := Get(d.manifest, "files");
    if files.Obj? && files.fields != map[] then Some(files.fields) else None
  }

  predicate Expected(files: map<string, Json>, n: string) {
    n in files || n in {MANIFEST, SIGNATURE, HASHES}
  }

  predicate StartsWith(s: string, prefix: string) { |prefix| <= |s| && s[..|prefix|] == prefix }

  ghost predicate HoldsExpected(files: map<string, Json>, dir: string) {
    exists f :: Expected(files, f) && StartsWith(f, dir)
  }

  /** Listed, or a genuinely empty directory some listed file lives in. */
  ghost predicate Allowed(infos: seq<Info>, files: map<string, Json>, n: string) {
    Expected(files, n) || (Find(infos, n).Some? && IsMarker(Find(infos, n).value) && HoldsExpected(files, n))
  }

  ghost predicate NamesAllowed(infos: seq<Info>, files: map<string, Json>) {
    forall n :: n in Names(infos) ==> Allowed(infos, files, n)
  }

  predicate Unusable(infos: seq<Info>, files: map<string, Json>, rel: string)
    requires rel in files
  {
    rel in Names(infos) && (Wanted(files[rel]).None? || IsRefused(infos, rel))
  }

  predicate Differs(tools: Tools, infos: seq<Info>, files: map<string, Json>, rel: string)
    requires rel in files
  {
    && rel in Names(infos) && Wanted(files[rel]).Some? && !IsRefused(infos, rel)
    && (ContentOf(infos, rel).None? || tools.codec.digest(ContentOf(infos, rel).value) != Wanted(files[rel]).value)
  }

  /** An unusable hash or a refused entry first, then altered content, then absence. */
  ghost function FilesState(tools: Tools, infos: seq<Info>, files: map<string, Json>): Option<State> {
    if exists rel :: rel in files && Unusable(infos, files, rel) then Some(Malformed)
    else if exists rel :: rel in files && Differs(tools, infos, files, rel) then Some(Modified)
    else if exists rel :: rel in files && rel !in Names(infos) then Some(Missing)
    else None
  }

  function Hashes(files: map<string, Json>): map<string, string> {
    map rel | rel in files && Wanted(files[rel]).Some? :: Wanted(files[rel]).value
  }

  predicate SidecarAgrees(tools: Tools, infos: seq<Info>, files: map<string, Json>) {
    HASHES in Names(infos) ==>
      ContentOf(infos, HASHES).Some? && tools.sidecar(ContentOf(infos, HASHES).value) == Hashes(files)
  }

  function KeyId(tools: Tools, pub: Bytes): string { "sha256:" + tools.codec.digest(pub) }

  predicate KeyIdAgrees(tools: Tools, d: Documents, pub: Bytes) {
    Truthy(Get(d.signature, "key_id")) ==> Get(d.signature, "key_id") == Str(KeyId(tools, pub))
  }

  predicate KeyMatches(tools: Tools, args: Args, d: Documents, pub: Bytes) {
    if args.key != "" then
      var keyText := TextOf(Get(d.signature, "public_key"));
      keyText.Some? && Strip(args.key) == Strip(keyText.value)
    else args.keyId != "" && Strip(args.keyId) == KeyId(tools, pub)
  }

  /** Everything but the question of whose key it was. */
  ghost predicate SelfConsistent(tools: Tools, b: Bundle) {
    && ArchiveState(tools.codec, b) == None
    && EntryNames.SafeNames(Names(b.infos))
    && var docs := DocumentsOf(tools, b.infos);
    && docs.Ok? && SignerOf(tools, docs.value).Ok?
    && FilesOf(docs.value).Some?
    && ContentsAgree(tools, b.infos, FilesOf(docs.value).value)
    && KeyIdAgrees(tools, docs.value, SignerOf(tools, docs.value).value)
  }

  ghost predicate ContentsAgree(tools: Tools, infos: seq<Info>, files: map<string, Json>) {
    && NamesAllowed(infos, files)
    && FilesState(tools, infos, files) == None
    && SidecarAgrees(tools, infos, files)
  }

  ghost predicate KnownKey(tools: Tools, args: Args, b: Bundle) {
    var docs := DocumentsOf(tools, b.infos);
    docs.Ok? && SignerOf(tools, docs.value).Ok? && KeyMatches(tools, args, docs.value, SignerOf(tools, docs.value).value)
  }

  ghost predicate Printable(tools: Tools, b: Bundle) {
    var docs := DocumentsOf(tools, b.infos);
    docs.Ok? && tools.printable(Obj(docs.value.manifest))
  }

  method ReadDocuments(tools: Tools, infos: seq<Info>) returns (r: Result<Documents, State>)
    ensures r == DocumentsOf(tools, infos)
  {
    var names := Names(infos);
    if MANIFEST !in names || SIGNATURE !in names {
      return Err(Malformed);
    }
    var raw := ContentOf(infos, MANIFEST);
    var sig := ContentOf(infos, SIGNATURE);
    if raw.None? || sig.None? {
      return Err(Malformed);
    }
    var m := tools.parse(raw.value);
    var s := tools.parse(sig.value);
    if m.None? || s.None? {
      return Err(Malformed);
    }
    if !m.value.Obj? || !s.value.Obj? {
      return Err(Malformed);
    }
    var format := Get(m.value.fields, "format");
    if format.Arr? || format.Obj? {
      return Err(Malformed);
    }
    if format != Str(FORMAT) {
      return Err(Unsupported);
    }
    return Ok(Documents(raw.value, m.value.fields, s.value.fields));
  }

  method CheckNames(infos: seq<Info>, files: map<string, Json>) returns (ok: bool)
    ensures ok <==> NamesAllowed(infos, files)
  {
    var names := Names(infos);
    for i := 0 to |names|
      invariant forall j :: 0 <= j < i ==> Allowed(infos, files, names[j])
    {
      var allowed := IsAllowed(infos, files, names[i]);
      if !allowed {
        return false;
      }
    }
    return true;
  }

  method IsAllowed(infos: seq<Info>, files: map<string, Json>, n: string) returns (ok: bool)
    ensures ok <==> Allowed(infos, files, n)
  {
    var expected := files.Keys + {MANIFEST, SIGNATURE, HASHES};
    if n in expected {
      return true;
    }
    var info := Find(infos, n);
    var held := AnyStartsWith(expected, n);
    assert held <==> HoldsExpected(files, n) by {
      assert forall f :: f in expected <==> Expected(files, f);
    }
    return info.Some? && IsMarker(info.value) && held;
  }

  method AnyStartsWith(names: set<string>, prefix: string) returns (held: bool)
    ensures held <==> exists f :: f in names && StartsWith(f, prefix)
  {
    held := false;
    var todo := names;
    while todo != {}
      invariant todo <= names
      invariant held <==> exists f :: f in names && f !in todo && StartsWith(f, prefix)
    {
      var f :| f in todo;
      todo := todo - {f};
      if StartsWith(f, prefix) {
        held := true;
      }
    }
  }

  method CheckFiles(tools: Tools, infos: seq<Info>, files: map<string, Json>) returns (r: Option<State>)
    requires files != map[]
    ensures r == FilesState(tools, infos, files)
  {
    var missing, modified: set<string>, checked := {}, {}, 0;
    var todo := files.Keys;
    while todo != {}
      invariant todo <= files.Keys
      invariant forall rel :: rel in files && rel !in todo ==> !Unusable(infos, files, rel)
      invariant missing == set rel | rel in files && rel !in todo && rel !in Names(infos)
      invariant modified == set rel | rel in files && rel !in todo && Differs(tools, infos, files, rel)
      invariant todo != files.Keys ==> checked > 0 || missing != {}
    {
      var rel :| rel in todo;
      todo := todo - {rel};
      if rel !in Names(infos) {
        missing := missing + {rel};
        continue;
      }
      var want := Wanted(files[rel]);
      if want.None? {
        assert Unusable(infos, files, rel);
        return Some(Malformed);
      }
      if IsRefused(infos, rel) {
        assert Unusable(infos, files, rel);
        return Some(Malformed);
      }
      checked := checked + 1;
      var content := ContentOf(infos, rel);
      if content.None? || tools.codec.digest(content.value) != want.value {
        modified := modified + {rel};
      }
    }
    assert checked > 0 || missing != {};   // the verifier never reports on nothing
    if modified != {} {
      return Some(Modified);
    }
    assert forall rel :: rel in files ==> rel !in modified;
    if missing != {} {
      return Some(Missing);
    }
    assert forall rel :: rel in files ==> rel !in missing;
    return None;
  }

  method CheckContents(tools: Tools, infos: seq<Info>, files: map<string, Json>) returns (r: Option<State>)
    requires files != map[]
    ensures r == None <==> ContentsAgree(tools, infos, files)
    ensures r == Some(Missing) <==> NamesAllowed(infos, files) && FilesState(tools, infos, files) == Some(Missing)
    ensures r == Some(Modified) <==>
      && NamesAllowed(infos, files)
      && (|| FilesState(tools, infos, files) == Some(Modified)
          || (FilesState(tools, infos, files) == None && !IsRefused(infos, HASHES) && !SidecarAgrees(tools, infos, files)))
    ensures r.Some? ==> r.value in {Malformed, Modified, Missing}
  {
    var ok := CheckNames(infos, files);
    if !ok {
      return Some(Malformed);
    }
    r := CheckFiles(tools, infos, files);
    if r.None? && !SidecarAgrees(tools, infos, files) {
      return Some(if IsRefused(infos, HASHES) then Malformed else Modified);
    }
  }

  /** Both readers see one archive, in which every name is clean and stands once. */
  ghost predicate ReadsAlike(tools: Tools, b: Bundle) {
    ArchiveState(tools.codec, b) == None && EntryNames.SafeNames(Names(b.infos))
  }

  /** And it carries a manifest this verifier understands, with a signature that holds over its stored bytes. */
  ghost predicate Signed(tools: Tools, b: Bundle) {
    var docs := DocumentsOf(tools, b.infos);
    ReadsAlike(tools, b) && docs.Ok? && SignerOf(tools, docs.value).Ok?
  }

  /** And the manifest lists files, beside which the archive carries nothing. */
  ghost predicate Itemised(tools: Tools, b: Bundle) {
    && Signed(tools, b) && FilesOf(DocumentsOf(tools, b.infos).value).Some?
    && NamesAllowed(b.infos, FilesOf(DocumentsOf(tools, b.infos).value).value)
  }

  ghost predicate IsMissing(tools: Tools, b: Bundle) {
    Itemised(tools, b) && FilesState(tools, b.infos, FilesOf(DocumentsOf(tools, b.infos).value).value) == Some(Missing)
  }

  ghost predicate IsUnsupported(tools: Tools, b: Bundle) {
    ReadsAlike(tools, b) && DocumentsOf(tools, b.infos) == Err(Unsupported)
  }

  /**
   Altered: data that will not come out for a reason the verifier catches, a signature or stated hash that does not fit the manifest, a listed
   file with other content, or a hash listing or key id that contradicts what was signed.
   */
  ghost predicate IsModified(tools: Tools, b: Bundle) {
    var docs := DocumentsOf(tools, b.infos);
    || ArchiveState(tools.codec, b) == Some(Modified)
    || (ReadsAlike(tools, b) && docs.Ok? && SignerOf(tools, docs.value) == Err(Modified))
    || (&& Itemised(tools, b)
        && var files := FilesOf(docs.value).value;
           || FilesState(tools, b.infos, files) == Some(Modified)
           || (&& FilesState(tools, b.infos, files) == None
               && if SidecarAgrees(tools, b.infos, files)
                  then !KeyIdAgrees(tools, docs.value, SignerOf(tools, docs.value).value)
                  else !IsRefused(b.infos, HASHES)))
  }

  // ---------------------------------------------------------------- what the documents are

  /** The archive's entry of that name, which comes out with these bytes. */
  predicate Holds(infos: seq<Info>, name: string, content: Bytes) {
    exists i :: 0 <= i < |infos| && infos[i].filename == name && infos[i].content == Data(content)
  }

  /** The stored manifest bytes and what they and the signature entry parse to: two JSON objects. */
  ghost predicate Carries(tools: Tools, infos: seq<Info>, d: Documents) {
    && Holds(infos, "manifest.json", d.raw) && tools.parse(d.raw) == Some(Obj(d.manifest))
    && exists sig :: Holds(infos, "signature.json", sig) && tools.parse(sig) == Some(Obj(d.signature))
  }

  predicate IsSupported(manifest: map<string, Json>) {
    "format" in manifest && manifest["format"] == Str("heldar-evidence/1")
  }

  /** No format at all, or another one stated by a scalar. */
  predicate IsOtherFormat(manifest: map<string, Json>) {
    "format" in manifest ==>
      !manifest["format"].Arr? && !manifest["format"].Obj? && manifest["format"] != Str("heldar-evidence/1")
  }

  lemma HeldIsContent(infos: seq<Info>, name: string, content: Bytes)
    requires EntryNames.DistinctNames(Names(infos))
    ensures Holds(infos, name, content) <==> ContentOf(infos, name) == Some(content)
  {
    if Holds(infos, name, content) {
      var i :| 0 <= i < |infos| && infos[i].filename == name && infos[i].content == Data(content);
      FindExact(infos, i);
    }
  }

  /**
   In an archive of distinct names the documents are accepted exactly when it carries them, by entries of their
   own names, in the supported format; another format, stated by a scalar, is unsupported; and the manifest
   kept is the archive's own bytes, not a rendering of what they parse to.
   */
  lemma DocumentsMean(tools: Tools, infos: seq<Info>)
    requires EntryNames.DistinctNames(Names(infos))
    ensures forall d :: DocumentsOf(tools, infos) == Ok(d) <==> Carries(tools, infos, d) && IsSupported(d.manifest)
    ensures DocumentsOf(tools, infos) == Err(Unsupported) <==> exists d :: Carries(tools, infos, d) && IsOtherFormat(d.manifest)
  {
    var raw, sig := ContentOf(infos, MANIFEST), ContentOf(infos, SIGNATURE);
    if raw.Some? && sig.Some? {
      HeldIsContent(infos, MANIFEST, raw.value);
      HeldIsContent(infos, SIGNATURE, sig.value);
      if tools.parse(raw.value).Some? && tools.parse(raw.value).value.Obj? && tools.parse(sig.value).Some? && tools.parse(sig.value).value.Obj? {
        assert Carries(tools, infos, Documents(raw.value, tools.parse(raw.value).value.fields, tools.parse(sig.value).value.fields));
      }
    }
    forall d | Carries(tools, infos, d)
      ensures raw == Some(d.raw) && sig.Some? && tools.parse(sig.value) == Some(Obj(d.signature))
    {
      HeldIsContent(infos, MANIFEST, d.raw);
      var bytes :| Holds(infos, SIGNATURE, bytes) && tools.parse(bytes) == Some(Obj(d.signature));
      HeldIsContent(infos, SIGNATURE, bytes);
    }
  }

  lemma {:induction false} FindExact(infos: seq<Info>, i: nat)
    requires EntryNames.DistinctNames(Names(infos)) && i < |infos|
    ensures Find(infos, infos[i].filename) == Some(infos[i])
  {
    var n := |infos| - 1;
    if i < n {
      assert Names(infos)[i] != Names(infos)[n];
      assert forall j :: 0 <= j < n ==> Names(infos[..n])[j] == Names(infos)[j];
      FindExact(infos[..n], i);
    }
  }

  // ---------------------------------------------------------------- what a bundle says, in its own terms

  predicate Says(fields: map<string, Json>, key: string, j: Json) {
    key in fields && fields[key] == j
  }

  /** What the verifier takes for not stated. */
  predicate IsEmptyJson(j: Json) {
    j == Null || j == Bool(false) || j == Num(0) || j == Str("") || j == Arr([]) || j == Obj(map[])
  }

  predicate Contradicts(fields: map<string, Json>, key: string, text: string) {
    key in fields && !IsEmptyJson(fields[key]) && fields[key] != Str(text)
  }

  ghost predicate DecodesTo(tools: Tools, fields: map<string, Json>, key: string, bytes: Bytes) {
    exists text :: text != "" && Says(fields, key, Str(text)) && tools.base64(text) == Some(bytes)
  }

  /** The signature entry names Ed25519 and carries a key of 32 bytes and a signature. */
  ghost predicate SignedBy(tools: Tools, d: Documents, pub: Bytes, sig: Bytes) {
    && Says(d.signature, "algorithm", Str("ed25519"))
    && DecodesTo(tools, d.signature, "public_key", pub) && |pub| == 32
    && DecodesTo(tools, d.signature, "signature", sig)
  }

  ghost predicate ManifestVerifies(tools: Tools, d: Documents, pub: Bytes) {
    && (exists sig :: SignedBy(tools, d, pub, sig) && tools.verify(pub, sig, d.raw) == Some(true))
    && !Contradicts(d.signature, "manifest_sha256", tools.codec.digest(d.raw))
  }

  /** A well-formed signature that does not hold over the stored manifest, or beside another stated hash. */
  ghost predicate ManifestAltered(tools: Tools, d: Documents) {
    exists pub, sig :: SignedBy(tools, d, pub, sig) && IsRejected(tools, d, pub, sig)
  }

  ghost predicate IsRejected(tools: Tools, d: Documents, pub: Bytes, sig: Bytes) {
    || tools.verify(pub, sig, d.raw) == Some(false)
    || (tools.verify(pub, sig, d.raw) == Some(true) && Contradicts(d.signature, "manifest_sha256", tools.codec.digest(d.raw)))
  }

  lemma TruthyIff(fields: map<string, Json>, key: string, text: string)
    ensures Truthy(Get(fields, key)) && Get(fields, key) != Str(text) <==> Contradicts(fields, key, text)
  {
  }

  lemma TextIff(fields: map<string, Json>, key: string)
    ensures forall t: string :: TextOf(Get(fields, key)) == Some(t) <==> t != "" && Says(fields, key, Str(t))
  {
  }

  lemma DecodedIff(tools: Tools, fields: map<string, Json>, key: string)
    ensures forall bytes :: DecodesTo(tools, fields, key, bytes) <==>
              TextOf(Get(fields, key)).Some? && tools.base64(TextOf(Get(fields, key)).value) == Some(bytes)
  {
    TextIff(fields, key);
    hide TextOf, Says;
  }

  lemma SignerIff(tools: Tools, d: Documents)
    ensures forall pub :: SignerOf(tools, d) == Ok(pub) <==> ManifestVerifies(tools, d, pub)
    ensures SignerOf(tools, d) == Err(Modified) <==> ManifestAltered(tools, d)
  {
    DecodedIff(tools, d.signature, "public_key");
    DecodedIff(tools, d.signature, "signature");
    TruthyIff(d.signature, "manifest_sha256", tools.codec.digest(d.raw));
    hide TextOf, DecodesTo, Truthy, Contradicts;
    var keyText := TextOf(Get(d.signature, "public_key"));
    var sigText := TextOf(Get(d.signature, "signature"));
    if keyText.Some? && sigText.Some? && tools.base64(keyText.value).Some? && tools.base64(sigText.value).Some? {
      var pub, sig := tools.base64(keyText.value).value, tools.base64(sigText.value).value;
      assert forall p, s :: SignedBy(tools, d, p, s) ==> p == pub && s == sig;
      assert SignedBy(tools, d, pub, sig) <==> Get(d.signature, "algorithm") == Str("ed25519") && |pub| == 32;
      assert ManifestAltered(tools, d) <==> SignedBy(tools, d, pub, sig) && IsRejected(tools, d, pub, sig);
      var verified, stated := tools.verify(pub, sig, d.raw), Get(d.signature, "manifest_sha256");
      if verified.Some? { assert verified == Some(verified.value); }
      assert IsRejected(tools, d, pub, sig) <==>
        verified.Some? && (!verified.value || (Truthy(stated) && stated != Str(tools.codec.digest(d.raw))));
      if SignedBy(tools, d, pub, sig) {
        assert SignerOf(tools, d) == Err(Modified) <==> IsRejected(tools, d, pub, sig);
      }
    }
  }

  ghost predicate ListsFiles(d: Documents, files: map<string, Json>) {
    files != map[] && Says(d.manifest, "files", Obj(files))
  }

  lemma FilesIff(d: Documents)
    ensures forall files :: FilesOf(d) == Some(files) <==> ListsFiles(d, files)
  {
  }

  /** The hash the manifest demands of a file. */
  ghost predicate Demands(files: map<string, Json>, rel: string, hash: string) {
    rel in files && files[rel].Obj? && hash != "" && Says(files[rel].fields, "sha256", Str(hash))
  }

  lemma WantedIff(files: map<string, Json>, rel: string)
    requires rel in files
    ensures forall hash :: Wanted(files[rel]) == Some(hash) <==> Demands(files, rel, hash)
  {
  }

  predicate IsOurs(files: map<string, Json>, name: string) {
    name in files || name == "manifest.json" || name == "signature.json" || name == "hashes.sha256"
  }

  /** Nothing lies beside the listed files but the three metadata files and empty directories some of them lie in. */
  ghost predicate OnlyListed(infos: seq<Info>, files: map<string, Json>) {
    forall i :: 0 <= i < |infos| ==> IsOurs(files, infos[i].filename) || IsParent(infos[i], files)
  }

  ghost predicate IsParent(info: Info, files: map<string, Json>) {
    && info.size == 0 && info.filename != "" && info.filename[|info.filename| - 1] == '/'
    && exists name :: IsOurs(files, name) && |info.filename| <= |name| && name[..|info.filename|] == info.filename
  }

  lemma OnlyListedIff(infos: seq<Info>, files: map<string, Json>)
    requires EntryNames.DistinctNames(Names(infos))
    ensures NamesAllowed(infos, files) <==> OnlyListed(infos, files)
  {
    assert forall name :: Expected(files, name) <==> IsOurs(files, name);
    hide Expected, IsOurs;
    forall i | 0 <= i < |infos|
      ensures Allowed(infos, files, infos[i].filename) <==> IsOurs(files, infos[i].filename) || IsParent(infos[i], files)
    {
      FindExact(infos, i);
      ParentIff(infos[i], files);
    }
    forall n | n in Names(infos) ensures exists i :: 0 <= i < |infos| && infos[i].filename == n {
      var i :| 0 <= i < |Names(infos)| && Names(infos)[i] == n;
      assert infos[i].filename == n;
    }
    assert forall i :: 0 <= i < |infos| ==> Names(infos)[i] == infos[i].filename;
    hide Allowed, IsParent;
  }

  lemma ParentIff(info: Info, files: map<string, Json>)
    ensures IsMarker(info) && HoldsExpected(files, info.filename) <==> IsParent(info, files)
  {
    assert forall name :: Expected(files, name) <==> IsOurs(files, name);
    hide Expected, IsOurs;
    if HoldsExpected(files, info.filename) {
      var f :| Expected(files, f) && StartsWith(f, info.filename);
      assert IsOurs(files, f);
    }
    if IsParent(info, files) {
      var f :| IsOurs(files, f) && |info.filename| <= |f| && f[..|info.filename|] == info.filename;
      assert Expected(files, f) && StartsWith(f, info.filename);
    }
  }

  ghost predicate IsAbsent(infos: seq<Info>, rel: string) {
    forall i :: 0 <= i < |infos| ==> infos[i].filename != rel
  }

  /** The archive has the file, but there is no hash to hold it against, or reading it ends the run. */
  ghost predicate IsUnjudged(infos: seq<Info>, files: map<string, Json>, rel: string) {
    exists i :: 0 <= i < |infos| && infos[i].filename == rel && (infos[i].content.Refused? || forall hash :: !Demands(files, rel, hash))
  }

  /** The archive has the file, and its data does not come out or has another hash than the one demanded. */
  ghost predicate IsAltered(tools: Tools, infos: seq<Info>, files: map<string, Json>, rel: string) {
    exists i, hash :: 0 <= i < |infos| && infos[i].filename == rel && Demands(files, rel, hash) && FailsHash(tools, infos[i].content, hash)
  }

  predicate FailsHash(tools: Tools, content: Extracted, hash: string) {
    content.Unreadable? || (content.Data? && tools.codec.digest(content.bytes) != hash)
  }

  lemma NamedApart(infos: seq<Info>, i: nat, j: nat)
    requires EntryNames.DistinctNames(Names(infos)) && i < |infos| && j < |infos| && i != j
    ensures infos[i].filename != infos[j].filename
  {
    assert Names(infos)[i] == infos[i].filename && Names(infos)[j] == infos[j].filename;
  }

  lemma FileIff(tools: Tools, infos: seq<Info>, files: map<string, Json>, rel: string)
    requires EntryNames.DistinctNames(Names(infos)) && rel in files
    ensures rel !in Names(infos) <==> IsAbsent(infos, rel)
    ensures Unusable(infos, files, rel) <==> IsUnjudged(infos, files, rel)
    ensures Differs(tools, infos, files, rel) ==> IsAltered(tools, infos, files, rel)
    ensures IsAltered(tools, infos, files, rel) && !IsUnjudged(infos, files, rel) ==> Differs(tools, infos, files, rel)
  {
    WantedIff(files, rel);
    hide Wanted, Demands;
    if rel in Names(infos) {
      var i :| 0 <= i < |Names(infos)| && Names(infos)[i] == rel;
      FindExact(infos, i);
      assert infos[i].filename == rel;
      forall j | 0 <= j < |infos| && infos[j].filename == rel ensures j == i {
        if j != i { NamedApart(infos, j, i); }
      }
    } else {
      forall i | 0 <= i < |infos| ensures infos[i].filename != rel {
        assert Names(infos)[i] == infos[i].filename;
      }
    }
  }

  ghost predicate SomeUnjudged(infos: seq<Info>, files: map<string, Json>) {
    exists rel :: rel in files && IsUnjudged(infos, files, rel)
  }

  ghost predicate SomeAltered(tools: Tools, infos: seq<Info>, files: map<string, Json>) {
    exists rel :: rel in files && IsAltered(tools, infos, files, rel)
  }

  ghost predicate SomeAbsent(infos: seq<Info>, files: map<string, Json>) {
    exists rel :: rel in files && IsAbsent(infos, rel)
  }

  lemma FilesStateIff(tools: Tools, infos: seq<Info>, files: map<string, Json>)
    requires EntryNames.DistinctNames(Names(infos))
    ensures FilesState(tools, infos, files) ==
      if SomeUnjudged(infos, files) then Some(Malformed)
      else if SomeAltered(tools, infos, files) then Some(Modified)
      else if SomeAbsent(infos, files) then Some(Missing) else None
  {
    hide Unusable, Differs, IsUnjudged, IsAltered, IsAbsent;
    forall rel | rel in files
      ensures Unusable(infos, files, rel) <==> IsUnjudged(infos, files, rel)
      ensures !IsUnjudged(infos, files, rel) ==> (Differs(tools, infos, files, rel) <==> IsAltered(tools, infos, files, rel))
      ensures rel !in Names(infos) <==> IsAbsent(infos, rel)
    {
      FileIff(tools, infos, files, rel);
    }
  }

  /** A hash listing in the archive lists exactly the manifest's files under the hashes it demands. */
  ghost predicate ListingAgrees(tools: Tools, infos: seq<Info>, files: map<string, Json>) {
    forall i :: 0 <= i < |infos| && infos[i].filename == "hashes.sha256" ==>
      infos[i].content.Data? && ListsDemands(tools.sidecar(infos[i].content.bytes), files)
  }

  ghost predicate ListsDemands(listing: map<string, string>, files: map<string, Json>) {
    listing.Keys == files.Keys && forall rel :: rel in files ==> Demands(files, rel, listing[rel])
  }

  ghost predicate ListingRefused(infos: seq<Info>) {
    exists i :: 0 <= i < |infos| && infos[i].filename == "hashes.sha256" && infos[i].content.Refused?
  }

  lemma HashesIff(listing: map<string, string>, files: map<string, Json>)
    requires forall rel :: rel in files ==> Wanted(files[rel]).Some?
    ensures listing == Hashes(files) <==> ListsDemands(listing, files)
  {
    forall rel | rel in files ensures forall hash :: Wanted(files[rel]) == Some(hash) <==> Demands(files, rel, hash) {
      WantedIff(files, rel);
    }
    hide Wanted, Demands;
    assert Hashes(files).Keys == files.Keys;
  }

  lemma ListingIff(tools: Tools, infos: seq<Info>, files: map<string, Json>)
    requires EntryNames.DistinctNames(Names(infos)) && FilesState(tools, infos, files) == None
    ensures SidecarAgrees(tools, infos, files) <==> ListingAgrees(tools, infos, files)
    ensures IsRefused(infos, HASHES) <==> ListingRefused(infos)
  {
    assert forall rel :: rel in files ==> !Unusable(infos, files, rel) && rel in Names(infos);
    assert forall rel :: rel in files ==> Wanted(files[rel]).Some?;
    if HASHES in Names(infos) {
      var i :| 0 <= i < |Names(infos)| && Names(infos)[i] == HASHES;
      FindExact(infos, i);
      assert infos[i].filename == "hashes.sha256";
      forall j | 0 <= j < |infos| && infos[j].filename == HASHES ensures j == i {
        if j != i { NamedApart(infos, j, i); }
      }
      if infos[i].content.Data? { HashesIff(tools.sidecar(infos[i].content.bytes), files); }
    } else {
      forall i | 0 <= i < |infos| ensures infos[i].filename != HASHES { assert Names(infos)[i] == infos[i].filename; }
    }
  }

  ghost predicate SameButBlanks(a: string, b: string) {
    exists core :: IsCoreBy(IsSpace, a, core) && IsCoreBy(IsSpace, b, core)
  }

  /** The key the operator supplied is the signer's: by its own text, or else by its id, whatever blanks stand around it. */
  ghost predicate IsSupplied(tools: Tools, args: Args, d: Documents, pub: Bytes) {
    if args.key != "" then exists text :: text != "" && Says(d.signature, "public_key", Str(text)) && SameButBlanks(args.key, text)
    else args.keyId != "" && IsCoreBy(IsSpace, args.keyId, "sha256:" + tools.codec.digest(pub))
  }

  lemma StripIff(s: string, core: string)
    ensures Strip(s) == core <==> IsCoreBy(IsSpace, s, core)
  {
    TrimIsCore(IsSpace, s);
    if IsCoreBy(IsSpace, s, core) { CoreIsTrim(IsSpace, s, core); }
  }

  lemma SuppliedIff(tools: Tools, args: Args, d: Documents, pub: Bytes)
    ensures KeyMatches(tools, args, d, pub) <==> IsSupplied(tools, args, d, pub)
  {
    TextIff(d.signature, "public_key");
    StripIff(args.keyId, "sha256:" + tools.codec.digest(pub));
    forall text: string ensures Strip(args.key) == Strip(text) <==> SameButBlanks(args.key, text) {
      forall core
        ensures Strip(args.key) == core <==> IsCoreBy(IsSpace, args.key, core)
        ensures Strip(text) == core <==> IsCoreBy(IsSpace, text, core)
      {
        StripIff(args.key, core);
        StripIff(text, core);
      }
      if Strip(args.key) == Strip(text) {
        assert IsCoreBy(IsSpace, args.key, Strip(text));
      }
    }
    hide TextOf, Strip, IsCoreBy, SameButBlanks, Says;
  }

  /** The checks in their order; `bundle` is absent when the file does not open. */
  method Judge(tools: Tools, args: Args, bundle: Option<Bundle>) returns (r: State)
    requires Lawful(tools.codec)
    ensures r == Valid <==> bundle.Some? && SelfConsistent(tools, bundle.value)
                            && KnownKey(tools, args, bundle.value) && Printable(tools, bundle.value)
    ensures r == UnknownKey <==> bundle.Some? && SelfConsistent(tools, bundle.value) && !KnownKey(tools, args, bundle.value)
    ensures r == Missing <==> bundle.Some? && IsMissing(tools, bundle.value)
    ensures r == Modified <==> bundle.Some? && IsModified(tools, bundle.value)
    ensures r == Unsupported <==> bundle.Some? && IsUnsupported(tools, bundle.value)
  {
    hide ArchiveState, DocumentsOf, SignerOf, FilesState, SidecarAgrees, NamesAllowed, EntryNames.SafeNames;
    if bundle.None? {
      return Malformed;
    }
    var b := bundle.value;
    var refused := RejectConcatenatedArchive(tools.codec, b);
    if refused.Some? {
      return refused.value;
    }
    var problem := EntryNames.RejectUnsafeNames(Names(b.infos));
    if problem.Some? {
      return Malformed;
    }
    var docs := ReadDocuments(tools, b.infos);
    if docs.Err? {
      return docs.error;
    }
    var d := docs.value;
    var signer := SignerOf(tools, d);
    if signer.Err? {
      return signer.error;
    }
    var files := FilesOf(d);
    if files.None? {
      return Malformed;
    }
    var disagreement := CheckContents(tools, b.infos, files.value);
    if disagreement.Some? {
      return disagreement.value;
    }
    if !KeyIdAgrees(tools, d, signer.value) {
      return Modified;
    }
    if !KeyMatches(tools, args, d, signer.value) {
      return UnknownKey;
    }
    if !tools.printable(Obj(d.manifest)) {
      return Malformed;
    }
    return Valid;
  }

  /** An archive both readers agree on, with a supported manifest whose signature holds and which lists its files. */
  ghost predicate IsItemised(tools: Tools, b: Bundle, d: Documents, pub: Bytes, files: map<string, Json>) {
    && ArchiveState(tools.codec, b) == None && EntryNames.SafeNames(Names(b.infos))
    && Carries(tools, b.infos, d) && IsSupported(d.manifest) && ManifestVerifies(tools, d, pub)
    && ListsFiles(d, files) && OnlyListed(b.infos, files)
  }

  /** And what it lists is there, whole and unaltered, with nothing in the bundle that contradicts it. */
  ghost predicate IsConsistent(tools: Tools, b: Bundle, d: Documents, pub: Bytes, files: map<string, Json>) {
    && IsItemised(tools, b, d, pub, files)
    && !SomeUnjudged(b.infos, files) && !SomeAltered(tools, b.infos, files) && !SomeAbsent(b.infos, files)
    && ListingAgrees(tools, b.infos, files) && !Contradicts(d.signature, "key_id", "sha256:" + tools.codec.digest(pub))
  }

  ghost predicate IsIncomplete(tools: Tools, b: Bundle, d: Documents, pub: Bytes, files: map<string, Json>) {
    && IsItemised(tools, b, d, pub, files)
    && !SomeUnjudged(b.infos, files) && !SomeAltered(tools, b.infos, files) && SomeAbsent(b.infos, files)
  }

  ghost predicate IsTampered(tools: Tools, b: Bundle, d: Documents, pub: Bytes, files: map<string, Json>) {
    && IsItemised(tools, b, d, pub, files) && !SomeUnjudged(b.infos, files)
    && (|| SomeAltered(tools, b.infos, files)
        || (&& !SomeAbsent(b.infos, files)
            && if ListingAgrees(tools, b.infos, files)
               then Contradicts(d.signature, "key_id", "sha256:" + tools.codec.digest(pub)) else !ListingRefused(b.infos)))
  }

  ghost predicate IsForged(tools: Tools, b: Bundle, d: Documents) {
    && ArchiveState(tools.codec, b) == None && EntryNames.SafeNames(Names(b.infos))
    && Carries(tools, b.infos, d) && IsSupported(d.manifest) && ManifestAltered(tools, d)
  }

  ghost predicate IsForeign(tools: Tools, b: Bundle, d: Documents) {
    && ArchiveState(tools.codec, b) == None && EntryNames.SafeNames(Names(b.infos))
    && Carries(tools, b.infos, d) && IsOtherFormat(d.manifest)
  }

  lemma DocumentsIff(tools: Tools, infos: seq<Info>, d: Documents)
    requires EntryNames.SafeNames(Names(infos))
    ensures DocumentsOf(tools, infos) == Ok(d) <==> Carries(tools, infos, d) && IsSupported(d.manifest)
  {
    hide DocumentsOf, Carries, IsSupported, IsOtherFormat;
    DocumentsMean(tools, infos);
  }

  lemma SignerIs(tools: Tools, d: Documents, pub: Bytes)
    ensures SignerOf(tools, d) == Ok(pub) <==> ManifestVerifies(tools, d, pub)
  {
    hide *;
    SignerIff(tools, d);
  }

  lemma FilesAre(d: Documents, files: map<string, Json>)
    ensures FilesOf(d) == Some(files) <==> ListsFiles(d, files)
  {
    hide *;
    FilesIff(d);
  }

  lemma ItemisedIff(tools: Tools, b: Bundle, d: Documents, pub: Bytes, files: map<string, Json>)
    ensures IsItemised(tools, b, d, pub, files) <==>
      && Itemised(tools, b) && DocumentsOf(tools, b.infos) == Ok(d) && SignerOf(tools, d) == Ok(pub) && FilesOf(d) == Some(files)
  {
    if EntryNames.SafeNames(Names(b.infos)) {
      DocumentsIff(tools, b.infos, d);
      SignerIs(tools, d, pub);
      FilesAre(d, files);
      OnlyListedIff(b.infos, files);
    }
    hide DocumentsOf, SignerOf, FilesOf, NamesAllowed, OnlyListed, ManifestVerifies, ListsFiles, Carries, IsSupported, ArchiveState, EntryNames.SafeNames;
  }

  lemma KeyIdIff(tools: Tools, d: Documents, pub: Bytes)
    ensures KeyIdAgrees(tools, d, pub) <==> !Contradicts(d.signature, "key_id", "sha256:" + tools.codec.digest(pub))
  {
    TruthyIff(d.signature, "key_id", "sha256:" + tools.codec.digest(pub));
    hide Truthy, Contradicts;
  }

  /** The checks of the itemised files, in both vocabularies. */
  lemma ContentsIff(tools: Tools, b: Bundle, d: Documents, pub: Bytes, files: map<string, Json>)
    requires IsItemised(tools, b, d, pub, files)
    ensures IsConsistent(tools, b, d, pub, files) <==>
      FilesState(tools, b.infos, files) == None && SidecarAgrees(tools, b.infos, files) && KeyIdAgrees(tools, d, pub)
    ensures IsIncomplete(tools, b, d, pub, files) <==> FilesState(tools, b.infos, files) == Some(Missing)
    ensures IsTampered(tools, b, d, pub, files) <==>
      || FilesState(tools, b.infos, files) == Some(Modified)
      || (&& FilesState(tools, b.infos, files) == None
          && if SidecarAgrees(tools, b.infos, files) then !KeyIdAgrees(tools, d, pub) else !IsRefused(b.infos, HASHES))
  {
    FilesStateIff(tools, b.infos, files);
    KeyIdIff(tools, d, pub);
    if FilesState(tools, b.infos, files) == None { ListingIff(tools, b.infos, files); }
    hide IsItemised, FilesState, SidecarAgrees, ListingAgrees, KeyIdAgrees, Contradicts, SomeUnjudged, SomeAltered, SomeAbsent, IsRefused, ListingRefused;
  }

  /** Data lost between the entries, a signature that does not hold, or contents that contradict what was signed. */
  ghost predicate IsEvidenceAltered(tools: Tools, b: Bundle) {
    || ArchiveState(tools.codec, b) == Some(Modified) || (exists d :: IsForged(tools, b, d))
    || exists d, pub, files :: IsTampered(tools, b, d, pub, files)
  }

  lemma AlteredIs(tools: Tools, b: Bundle)
    ensures IsEvidenceAltered(tools, b) <==>
      || ArchiveState(tools.codec, b) == Some(Modified) || (exists d :: IsForged(tools, b, d))
      || exists d, pub, files :: IsTampered(tools, b, d, pub, files)
  {
  }

  lemma ForgedIff(tools: Tools, b: Bundle, d: Documents)
    ensures IsForged(tools, b, d) <==> ReadsAlike(tools, b) && DocumentsOf(tools, b.infos) == Ok(d) && SignerOf(tools, d) == Err(Modified)
  {
    if EntryNames.SafeNames(Names(b.infos)) { DocumentsIff(tools, b.infos, d); }
    SignerIff(tools, d);
    hide DocumentsOf, SignerOf, Carries, IsSupported, ManifestAltered, ArchiveState, EntryNames.SafeNames;
  }

  lemma ForeignIff(tools: Tools, b: Bundle)
    ensures IsUnsupported(tools, b) <==> exists d :: IsForeign(tools, b, d)
  {
    if EntryNames.SafeNames(Names(b.infos)) { DocumentsMean(tools, b.infos); }
    hide DocumentsOf, Carries, IsSupported, IsOtherFormat, ArchiveState, EntryNames.SafeNames;
    if d :| Carries(tools, b.infos, d) && IsOtherFormat(d.manifest) {
      assert ReadsAlike(tools, b) ==> IsForeign(tools, b, d);
    }
  }

  /** The verdict's conditions on an itemised bundle, read off its documents, signer and files. */
  lemma Unpacked(tools: Tools, args: Args, b: Bundle, d: Documents, pub: Bytes, files: map<string, Json>)
    requires Itemised(tools, b) && DocumentsOf(tools, b.infos) == Ok(d) && SignerOf(tools, d) == Ok(pub) && FilesOf(d) == Some(files)
    ensures SelfConsistent(tools, b) <==>
      FilesState(tools, b.infos, files) == None && SidecarAgrees(tools, b.infos, files) && KeyIdAgrees(tools, d, pub)
    ensures KnownKey(tools, args, b) <==> KeyMatches(tools, args, d, pub)
    ensures Printable(tools, b) <==> tools.printable(Obj(d.manifest))
    ensures IsMissing(tools, b) <==> FilesState(tools, b.infos, files) == Some(Missing)
    ensures IsModified(tools, b) <==>
      || FilesState(tools, b.infos, files) == Some(Modified)
      || (&& FilesState(tools, b.infos, files) == None
          && if SidecarAgrees(tools, b.infos, files) then !KeyIdAgrees(tools, d, pub) else !IsRefused(b.infos, HASHES))
    ensures ArchiveState(tools.codec, b) == None
  {
    hide DocumentsOf, SignerOf, FilesOf, FilesState, SidecarAgrees, KeyIdAgrees, NamesAllowed, KeyMatches, IsRefused, ArchiveState, EntryNames.SafeNames;
  }

  lemma NotItemised(tools: Tools, b: Bundle)
    requires !Itemised(tools, b)
    ensures !SelfConsistent(tools, b) && !IsMissing(tools, b)
    ensures IsModified(tools, b) <==>
      || ArchiveState(tools.codec, b) == Some(Modified)
      || (ReadsAlike(tools, b) && DocumentsOf(tools, b.infos).Ok? && SignerOf(tools, DocumentsOf(tools, b.infos).value) == Err(Modified))
  {
    hide DocumentsOf, SignerOf, FilesOf, FilesState, SidecarAgrees, KeyIdAgrees, NamesAllowed, KeyMatches, IsRefused, ArchiveState, EntryNames.SafeNames;
  }

  lemma AllAreItemised(tools: Tools, b: Bundle, d: Documents, pub: Bytes, files: map<string, Json>)
    ensures IsConsistent(tools, b, d, pub, files) || IsIncomplete(tools, b, d, pub, files) || IsTampered(tools, b, d, pub, files) ==>
      IsItemised(tools, b, d, pub, files)
  {
  }

  lemma ItemisedParts(tools: Tools, b: Bundle) returns (d: Documents, pub: Bytes, files: map<string, Json>)
    requires Itemised(tools, b)
    ensures DocumentsOf(tools, b.infos) == Ok(d) && SignerOf(tools, d) == Ok(pub) && FilesOf(d) == Some(files)
  {
    hide DocumentsOf, SignerOf, FilesOf, NamesAllowed, ArchiveState;
    d := DocumentsOf(tools, b.infos).value;
    pub, files := SignerOf(tools, d).value, FilesOf(d).value;
  }

  /** Everything a verdict depends on, in both vocabularies. */
  lemma VerdictIff(tools: Tools, args: Args, b: Bundle)
    ensures SelfConsistent(tools, b) && KnownKey(tools, args, b) && Printable(tools, b) <==>
      exists d, pub, files :: IsConsistent(tools, b, d, pub, files) && IsSupplied(tools, args, d, pub) && tools.printable(Obj(d.manifest))
    ensures SelfConsistent(tools, b) && !KnownKey(tools, args, b) <==>
      exists d, pub, files :: IsConsistent(tools, b, d, pub, files) && !IsSupplied(tools, args, d, pub)
    ensures IsMissing(tools, b) <==> exists d, pub, files :: IsIncomplete(tools, b, d, pub, files)
    ensures IsModified(tools, b) <==> IsEvidenceAltered(tools, b)
    ensures IsUnsupported(tools, b) <==> exists d :: IsForeign(tools, b, d)
  {
    hide *;
    ForeignIff(tools, b);
    AlteredIs(tools, b);
    forall d, pub, files
      ensures IsConsistent(tools, b, d, pub, files) || IsIncomplete(tools, b, d, pub, files) || IsTampered(tools, b, d, pub, files) ==>
        && Itemised(tools, b) && DocumentsOf(tools, b.infos) == Ok(d) && SignerOf(tools, d) == Ok(pub) && FilesOf(d) == Some(files)
    {
      AllAreItemised(tools, b, d, pub, files);
      ItemisedIff(tools, b, d, pub, files);
    }
    forall d
      ensures IsForged(tools, b, d) <==> ReadsAlike(tools, b) && DocumentsOf(tools, b.infos) == Ok(d) && SignerOf(tools, d) == Err(Modified)
    {
      ForgedIff(tools, b, d);
    }
    if Itemised(tools, b) {
      var d, pub, files := ItemisedParts(tools, b);
      ItemisedIff(tools, b, d, pub, files);
      ContentsIff(tools, b, d, pub, files);
      SuppliedIff(tools, args, d, pub);
      Unpacked(tools, args, b, d, pub, files);
    } else {
      NotItemised(tools, b);
    }
  }

  /**
   The whole verdict, state by state; what is none of these is malformed. VALID is a consistent bundle signed by
   the key the operator supplied, and a consistent one signed by any other key is UNKNOWN KEY.
   */
  method Verify(tools: Tools, args: Args, bundle: Option<Bundle>) returns (r: State)
    requires Lawful(tools.codec)
    ensures r == Valid <==> bundle.Some? && exists d, pub, files ::
      IsConsistent(tools, bundle.value, d, pub, files) && IsSupplied(tools, args, d, pub) && tools.printable(Obj(d.manifest))
    ensures r == UnknownKey <==> bundle.Some? && exists d, pub, files ::
      IsConsistent(tools, bundle.value, d, pub, files) && !IsSupplied(tools, args, d, pub)
    ensures r == Missing <==> bundle.Some? && exists d, pub, files :: IsIncomplete(tools, bundle.value, d, pub, files)
    ensures r == Modified <==> bundle.Some? && IsEvidenceAltered(tools, bundle.value)
    ensures r == Unsupported <==> bundle.Some? && exists d :: IsForeign(tools, bundle.value, d)
  {
    hide *;
    r := Judge(tools, args, bundle);
    if bundle.Some? { VerdictIff(tools, args, bundle.value); }
  }

  // ---------------------------------------------------------------- what VALID means

  /** A listed file, read front to back, is there under its signed hash. */
  ghost predicate Attested(view: View, files: map<string, Json>, rel: string) {
    rel in view && Demands(files, rel, view[rel])
  }

  lemma DistinctInfos(infos: seq<Info>)
    requires EntryNames.SafeNames(Names(infos))
    ensures forall i, j :: 0 <= i < j < |infos| ==> infos[i].filename != infos[j].filename
  {
    forall i, j | 0 <= i < j < |infos| ensures infos[i].filename != infos[j].filename {
      assert Names(infos)[i] != Names(infos)[j];
    }
  }

  lemma ListedIsAttested(tools: Tools, b: Bundle, view: View, files: map<string, Json>, rel: string)
    requires Seek(tools.codec, b.infos) == Ok(view) && EntryNames.SafeNames(Names(b.infos))
    requires !SomeUnjudged(b.infos, files) && !SomeAltered(tools, b.infos, files) && !SomeAbsent(b.infos, files)
    requires rel in files && (rel != "" ==> rel[|rel| - 1] != '/')
    ensures Attested(view, files, rel)
  {
    DistinctInfos(b.infos);
    SeekHolds(tools.codec, b.infos);
    assert !IsAbsent(b.infos, rel) && !IsUnjudged(b.infos, files, rel) && !IsAltered(tools, b.infos, files, rel);
    hide Demands;
    var i :| 0 <= i < |b.infos| && b.infos[i].filename == rel;
    var hash :| Demands(files, rel, hash);
    assert !IsMarker(b.infos[i]) && !FailsHash(tools, b.infos[i].content, hash);
  }

  lemma SeenIsOurs(tools: Tools, b: Bundle, view: View, files: map<string, Json>, n: string)
    requires Seek(tools.codec, b.infos) == Ok(view) && EntryNames.SafeNames(Names(b.infos))
    requires OnlyListed(b.infos, files) && n in view
    ensures IsOurs(files, n)
  {
    DistinctInfos(b.infos);
    SeekHolds(tools.codec, b.infos);
    assert HasListed(b.infos, n);
    var i :| 0 <= i < |b.infos| && !IsMarker(b.infos[i]) && b.infos[i].filename == n;
    assert !IsParent(b.infos[i], files);
  }

  lemma ManifestIsSeen(tools: Tools, b: Bundle, view: View, d: Documents)
    requires Seek(tools.codec, b.infos) == Ok(view) && EntryNames.SafeNames(Names(b.infos)) && Carries(tools, b.infos, d)
    ensures "manifest.json" in view && view["manifest.json"] == tools.codec.digest(d.raw)
  {
    DistinctInfos(b.infos);
    SeekHolds(tools.codec, b.infos);
    assert Holds(b.infos, "manifest.json", d.raw);
    var i :| 0 <= i < |b.infos| && b.infos[i].filename == "manifest.json" && b.infos[i].content == Data(d.raw);
    assert !IsMarker(b.infos[i]);
  }

  /**
   A VALID bundle, read front to back, consists of the signed manifest's files, each under its signed hash, and the
   metadata files; the manifest it carries there is the one whose stored bytes the key's signature holds over; and the
   key is the one the operator supplied, by its text or by its id.
   */
  lemma ValidIsSound(tools: Tools, args: Args, b: Bundle, d: Documents, pub: Bytes, files: map<string, Json>)
    requires IsConsistent(tools, b, d, pub, files) && IsSupplied(tools, args, d, pub)
    ensures Streamed(tools.codec, b.file).Ok?
    ensures var view := Streamed(tools.codec, b.file).value.0;
      && (forall n :: n in view ==> IsOurs(files, n))
      && (forall rel :: rel in files && (rel != "" ==> rel[|rel| - 1] != '/') ==> Attested(view, files, rel))
      && "manifest.json" in view && view["manifest.json"] == tools.codec.digest(d.raw)
    ensures exists sig :: SignedBy(tools, d, pub, sig) && tools.verify(pub, sig, d.raw) == Some(true)
    ensures args.key != "" || args.keyId != ""
    ensures args.key != "" ==>
      exists text :: Says(d.signature, "public_key", Str(text)) && SameButBlanks(args.key, text) && tools.base64(text) == Some(pub)
    ensures args.key == "" ==> IsCoreBy(IsSpace, args.keyId, "sha256:" + tools.codec.digest(pub))
  {
    ViewsAgree(tools.codec, b);
    hide ArchiveState, Streamed, Seek, EntryNames.SafeNames, OnlyListed, Attested, SameButBlanks, IsCoreBy, SomeUnjudged, SomeAltered, SomeAbsent,
         ListingAgrees, Carries, IsOurs, Contradicts;
    var view := Streamed(tools.codec, b.file).value.0;
    forall n | n in view ensures IsOurs(files, n) { SeenIsOurs(tools, b, view, files, n); }
    forall rel | rel in files && (rel != "" ==> rel[|rel| - 1] != '/') ensures Attested(view, files, rel) {
      ListedIsAttested(tools, b, view, files, rel);
    }
    ManifestIsSeen(tools, b, view, d);
  }

  lemma ViewsAgree(codec: Codec, b: Bundle)
    requires ArchiveState(codec, b) == None
    ensures Streamed(codec, b.file).Ok? && Seek(codec, b.infos) == Ok(Streamed(codec, b.file).value.0)
  {
    hide Streamed, Seek;
  }
}
