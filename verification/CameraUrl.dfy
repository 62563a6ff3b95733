/** RTSP URLs built from vendor templates, and the encoding of the credentials in them. */
module CameraUrl {
  import opened Wrappers
  import opened Bytes
  import opened Text

  // ------------------------------------------------------------------ userinfo encoding (RFC 3986, section 2.1)

  predicate Unreserved(c: char) {
    IsAlphanumeric(c) || c == '-' || c == '.' || c == '_' || c == '~'
  }

  function HexDigit(n: nat): (c: char)
    requires n < 16
    ensures IsDigit(c) || 'A' <= c <= 'F'
  {
    if n < 10 then ('0' as int + n) as char else ('A' as int + (n - 10)) as char
  }

  function HexValue(c: char): Option<nat> {
    if IsDigit(c) then Some(c as int - '0' as int)
    else if 'A' <= c <= 'F' then Some(c as int - 'A' as int + 10)
    else if 'a' <= c <= 'f' then Some(c as int - 'a' as int + 10)
    else None
  }

  function EncodeByte(b: byte): (r: string) {
    if Unreserved(b as char) then [b as char] else ['%', HexDigit(b / 16), HexDigit(b % 16)]
  }

  function Encode(bytes: seq<byte>): string {
    if bytes == [] then "" else EncodeByte(bytes[0]) + Encode(bytes[1..])
  }

  /** Percent-decoding, which also lets bare unreserved characters through. */
  function Decode(s: string): Option<seq<byte>> {
    if s == [] then Some([])
    else if s[0] != '%' then
      if !Unreserved(s[0]) then None
      else match Decode(s[1..]) case None => None case Some(rest) => Some([s[0] as int] + rest)
    else if |s| < 3 then None
    else
      match (HexValue(s[1]), HexValue(s[2]), Decode(s[3..]))
      case (Some(h), Some(l), Some(rest)) => Some([16 * h + l] + rest)
      case _ => None
  }

  method EncodeUserinfo(s: seq<byte>) returns (out: string)
    ensures out == Encode(s)
  {
    hide Encode;
    NothingEncoded();
    out := "";
    for i := 0 to |s|
      invariant out + Encode(s[i..]) == Encode(s)
    {
      var b := s[i];
      EncodeStep(out, s, i);
      if Unreserved(b as char) {
        out := out + [b as char];
      } else {
        out := out + ['%', HexDigit(b / 16), HexDigit(b % 16)];
      }
    }
    assert s[|s|..] == [] && out + "" == out;
  }

  lemma NothingEncoded()
    ensures Encode([]) == ""
  {
  }

  lemma EncodeStep(out: string, s: seq<byte>, i: nat)
    requires i < |s|
    ensures out + Encode(s[i..]) == (out + EncodeByte(s[i])) + Encode(s[i + 1..])
  {
    assert s[i..][1..] == s[i + 1..];
  }

  lemma {:induction false} DecodeAfter(b: byte, s: string)
    ensures Decode(EncodeByte(b) + s) == (match Decode(s) case None => None case Some(rest) => Some([b] + rest))
  {
    var e := EncodeByte(b);
    assert (e + s)[|e|..] == s;
    assert b == 16 * (b / 16) + b % 16;
  }

  /** Encoding loses nothing, whatever the bytes. */
  lemma {:induction false} EncodeRoundTrip(bytes: seq<byte>)
    ensures Decode(Encode(bytes)) == Some(bytes)
  {
    if bytes != [] {
      assert [bytes[0]] + bytes[1..] == bytes;
      EncodeRoundTrip(bytes[1..]);
      DecodeAfter(bytes[0], Encode(bytes[1..]));
    }
  }

  /** Only unreserved characters and '%' come out: nothing that delimits the userinfo, the host or the path. */
  lemma {:induction false} EncodedAlphabet(bytes: seq<byte>)
    ensures forall i :: 0 <= i < |Encode(bytes)| ==> Unreserved(Encode(bytes)[i]) || Encode(bytes)[i] == '%'
  {
    if bytes != [] {
      EncodedAlphabet(bytes[1..]);
    }
  }

  /** What closes the authority of a URL in running text. */
  predicate EndsAuthority(c: char) {
    c == '/' || IsWhitespace(c) || c == '\'' || c == '"'
  }

  // ------------------------------------------------------------------ URLs

  datatype Camera = Camera(
    vendor: string, address: Option<string>, rtspPort: int, username: Option<seq<byte>>,
    password: Option<seq<byte>>, mainStreamUrl: Option<string>, subStreamUrl: Option<string>,
    recordStream: string, replayTemplate: Option<string>)

  /** The process key: how a stored password and a stored URL are unsealed, if they can be. */
  datatype Secrets = Secrets(password: seq<byte> -> Option<seq<byte>>, url: string -> Option<string>)

  function Natural(n: nat): string {
    if n < 10 then [HexDigit(n)] else Natural(n / 10) + [HexDigit(n % 10)]
  }

  function Decimal(n: int): string {
    if n < 0 then "-" + Natural(-n) else Natural(n)
  }

  function HikChannel(stream: string): string {
    if stream == "sub" then "102" else "101"
  }

  /** A password that cannot be unsealed is left out. */
  function DecryptedPassword(cam: Camera, secrets: Secrets): Option<seq<byte>> {
    match cam.password case None => None case Some(stored) => secrets.password(stored)
  }

  predicate HasUser(cam: Camera) {
    cam.username.Some? && cam.username.value != []
  }

  function Credentials(cam: Camera, secrets: Secrets): string {
    if !HasUser(cam) then ""
    else
      match DecryptedPassword(cam, secrets)
      case Some(p) => Encode(cam.username.value) + ":" + Encode(p) + "@"
      case None => Encode(cam.username.value) + "@"
  }

  function Override(cam: Camera, stream: string): Option<string> {
    var explicit := if stream == "sub" then cam.subStreamUrl else cam.mainStreamUrl;
    if explicit.Some? && Trim(explicit.value) != "" then Some(Trim(explicit.value)) else None
  }

  function VendorPath(vendor: string, stream: string): Option<string> {
    match vendor
    case "hikvision" => Some("/Streaming/Channels/" + HikChannel(stream))
    case "dahua" => Some("/cam/realmonitor?channel=1&subtype=" + if stream == "sub" then "1" else "0")
    case _ => None
  }

  const RTSP := "rtsp://"

  function HostOf(cam: Camera): Option<string> {
    match cam.address
    case None => None
    case Some(address) => if Trim(address) == "" then None else Some(Trim(address))
  }

  function StreamUrl(cam: Camera, stream: string, secrets: Secrets): Option<string> {
    match Override(cam, stream)
    case Some(u) => secrets.url(u)
    case None =>
      match (HostOf(cam), VendorPath(cam.vendor, stream))
      case (Some(host), Some(path)) =>
        Some(RTSP + Credentials(cam, secrets) + (host + ":" + Decimal(cam.rtspPort) + path))
      case _ => None
  }

  predicate StartsAt(s: string, part: string, i: nat) {
    i + |part| <= |s| && s[i..i + |part|] == part
  }

  function Replace(s: string, pattern: string, replacement: string): string
    requires pattern != ""
  {
    if s == "" then ""
    else if StartsAt(s, pattern, 0) then replacement + Replace(s[|pattern|..], pattern, replacement)
    else [s[0]] + Replace(s[1..], pattern, replacement)
  }

  /** The two instants are given as already rendered. */
  function ReplayUrl(cam: Camera, start: string, end: string, secrets: Secrets): Option<string> {
    if cam.replayTemplate.Some? && Trim(cam.replayTemplate.value) != "" then
      Some(Replace(Replace(Trim(cam.replayTemplate.value), "{start}", start), "{end}", end))
    else
      match HostOf(cam)
      case None => None
      case Some(host) =>
        Some(RTSP + Credentials(cam, secrets)
             + (host + ":" + Decimal(cam.rtspPort) + "/Streaming/tracks/" + HikChannel(cam.recordStream)
                + "?starttime=" + start + "&endtime=" + end))
  }

  // ------------------------------------------------------------------ reading credentials back (section 3.2.1)

  function IndexOf(s: string, c: char): (i: nat)
    ensures i <= |s| && (i < |s| ==> s[i] == c)
    ensures forall j :: 0 <= j < i ==> s[j] != c
  {
    if s == "" || s[0] == c then 0 else 1 + IndexOf(s[1..], c)
  }

  lemma IndexIs(s: string, c: char, i: nat)
    requires i < |s| && s[i] == c && forall j :: 0 <= j < i ==> s[j] != c
    ensures IndexOf(s, c) == i
  {
  }

  datatype Login = Login(user: Option<seq<byte>>, password: Option<Option<seq<byte>>>)

  /** Split after the scheme at the first '@', then at the first ':'. */
  function ReadLogin(url: string): Login
    requires StartsAt(url, RTSP, 0)
  {
    var rest := url[|RTSP|..];
    var userinfo := rest[..IndexOf(rest, '@')];
    var colon := IndexOf(userinfo, ':');
    if colon < |userinfo| then Login(Decode(userinfo[..colon]), Some(Decode(userinfo[colon + 1..])))
    else Login(Decode(userinfo), None)
  }

  /** The credentials end in their only '@', and no character of theirs can end an authority. */
  predicate Delimited(creds: string) {
    && creds != "" && creds[|creds| - 1] == '@'
    && (forall i :: 0 <= i < |creds| - 1 ==> creds[i] != '@')
    && (forall i :: 0 <= i < |creds| ==> !EndsAuthority(creds[i]))
  }

  lemma CredentialsDelimited(cam: Camera, secrets: Secrets)
    requires HasUser(cam)
    ensures Delimited(Credentials(cam, secrets))
  {
    EncodedAlphabet(cam.username.value);
    match DecryptedPassword(cam, secrets) {
      case Some(p) => EncodedAlphabet(p);
      case None =>
    }
  }

  /** Whatever bytes the username and the password hold, they are read back from in front of any host. */
  lemma CredentialsAreRecovered(cam: Camera, secrets: Secrets, tail: string)
    requires HasUser(cam)
    ensures ReadLogin(RTSP + Credentials(cam, secrets) + tail) ==
            Login(cam.username,
                  match DecryptedPassword(cam, secrets) case None => None case Some(p) => Some(Some(p)))
  {
    hide Decode, Encode, Unreserved;
    var creds := Credentials(cam, secrets);
    CredentialsDelimited(cam, secrets);
    UserinfoOf(creds, tail);
    var user := Encode(cam.username.value);
    EncodedPlain(cam.username.value);
    EncodeRoundTrip(cam.username.value);
    match DecryptedPassword(cam, secrets) {
      case Some(p) =>
        EncodeRoundTrip(p);
        var userinfo := user + ":" + Encode(p);
        assert creds[..|creds| - 1] == userinfo;
        IndexIs(userinfo, ':', |user|);
        assert userinfo[..|user|] == user && userinfo[|user| + 1..] == Encode(p);
      case None =>
        assert creds[..|creds| - 1] == user;
    }
  }

  lemma UserinfoOf(creds: string, tail: string)
    requires Delimited(creds)
    ensures StartsAt(RTSP + creds + tail, RTSP, 0)
    ensures var rest := (RTSP + creds + tail)[|RTSP|..]; rest[..IndexOf(rest, '@')] == creds[..|creds| - 1]
  {
    var rest := (RTSP + creds + tail)[|RTSP|..];
    assert rest == creds + tail;
    IndexIs(rest, '@', |creds| - 1);
  }

  lemma EncodedPlain(bytes: seq<byte>)
    ensures forall i :: 0 <= i < |Encode(bytes)| ==> Encode(bytes)[i] != ':' && Encode(bytes)[i] != '@'
  {
    EncodedAlphabet(bytes);
  }
}
