/**
 * The router client: the challenge-response login of the FRITZ!Box
 * login_sid.lua endpoint and the device-list query. HTTP, MD5, the JDK UTF-8
 * decoder and the JSON parser are parameters (an Env); what is modelled is the
 * URL building, the marker-offset slicing of the response bodies, the bytes that
 * are hashed and the lower-case hex text of the digest.
 */
module FritzBox {
  import opened Base
  import opened Text

  // ---------------------------------------------------------------------------
  // Clients and the device list
  // ---------------------------------------------------------------------------

  /** A registered network client: its device name and its raw "active" field; either may be null. */
  datatype Client = Client(name: Option<string>, active: Option<string>)

  /** Client.isActive: the active field is present and equal to "1". */
  predicate IsActive(c: Client)
  {
    c.active.Some? && c.active.value == "1"
  }

  /** The device list the router returns (the JSON field "network"). */
  datatype Network = Network(network: seq<Client>)

  /** Only the exact string "1" means active: null does not, nor do "0", "true" or "". */
  lemma IsActiveExactlyOne(c: Client)
    ensures IsActive(c) <==> c.active == Some("1")
    ensures c.active.None? ==> !IsActive(c)
    ensures c.active == Some("0") || c.active == Some("true") || c.active == Some("") ==> !IsActive(c)
  {
  }

  // ---------------------------------------------------------------------------
  // The environment: what the JDK and the network provide
  // ---------------------------------------------------------------------------

  /** An MD5 digest: 16 bytes. */
  type Digest = d: seq<Byte> | |d| == 16 witness [0, 0, 0, 0, 0, 0, 0, 0, 0, 0, 0, 0, 0, 0, 0, 0]

  /** What Gson makes of a response body: a syntax error, JSON null, or a device list. */
  datatype Json<+T> = Malformed | Null | Value(value: T)

  /**
   * fetch: the body of a GET of the URL (every line followed by a newline), or
   * None for an IOException; md5: MessageDigest MD5; utf8Decode: new String(bytes,
   * UTF_8); parseNetwork: Gson.fromJson(body, Network.class).
   */
  datatype Env = Env(fetch: string -> Option<string>,
                     md5: seq<Byte> -> Digest,
                     utf8Decode: seq<Byte> -> string,
                     parseNetwork: string -> Json<Network>)

  /** The exceptions the client lets escape. */
  datatype ApiError = IoError | IndexOutOfRange | ParseError

  datatype Outcome<+T> = Success(value: T) | Failure(error: ApiError)

  // ---------------------------------------------------------------------------
  // Request URLs
  // ---------------------------------------------------------------------------

  const DefaultAddress: string := "fritz.box"

  // The three URL templates, written as their literal pieces around the %s specifiers.
  const Scheme: string := "http://"
  const ChallengePath: string := "/login_sid.lua"
  const LoginPath: string := "/login_sid.lua?user=&response="
  const QueryPath: string := "/query.lua?sid="
  const NetworkQuery: string := "&network=landevice:settings" + "/landevice/list(name, active)"

  /** URL_API_CHALLENGE: "http://%s/login_sid.lua". */
  const ChallengeTemplate: string := Scheme + "%s" + ChallengePath
  /** URL_API_LOGIN: "http://%s/login_sid.lua?user=&response=%s". */
  const LoginTemplate: string := Scheme + "%s" + (LoginPath + "%s" + "")
  /** URL_API_NETWORK_DEVICES: "http://%s/query.lua?sid=%s&network=landevice:settings/landevice/list(name, active)". */
  const NetworkDevicesTemplate: string := Scheme + "%s" + (QueryPath + "%s" + NetworkQuery)

  /** String.format(URL_API_CHALLENGE, address): the address is put between scheme and path. */
  function ChallengeUrl(address: string): (r: string)
    ensures r == Scheme + address + ChallengePath
  {
    FormatOne(Scheme, ChallengePath, address);
    Format(ChallengeTemplate, [address]).value
  }

  /** String.format(URL_API_LOGIN, address, response): the response is the last query value. */
  function LoginUrl(address: string, response: string): (r: string)
    ensures r == Scheme + address + LoginPath + response
  {
    FormatTwo(Scheme, LoginPath, "", address, response);
    assert LoginPath + response + "" == LoginPath + response;
    Format(LoginTemplate, [address, response]).value
  }

  /** String.format(URL_API_NETWORK_DEVICES, address, sid): the SID precedes the fixed query. */
  function NetworkDevicesUrl(address: string, sid: string): (r: string)
    ensures r == Scheme + address + QueryPath + sid + NetworkQuery
  {
    LiteralConcat("&network=landevice:settings", "/landevice/list(name, active)");
    FormatTwo(Scheme, QueryPath, NetworkQuery, address, sid);
    assert Scheme + address + (QueryPath + sid) + NetworkQuery == Scheme + address + (QueryPath + sid + NetworkQuery);
    Format(NetworkDevicesTemplate, [address, sid]).value
  }

  // ---------------------------------------------------------------------------
  // Slicing the response bodies
  // ---------------------------------------------------------------------------

  const ChallengeMarker: string := "<Challenge>"
  const SidMarker: string := "<SID>"

  /**
   * getChallenge's slice: characters indexOf("<Challenge>") + 11 up to
   * indexOf("<Challenge>") + 19; None for StringIndexOutOfBoundsException.
   */
  function ChallengeOf(body: string): Option<string>
  {
    var i := IndexOf(body, ChallengeMarker);
    Substring(body, i + 11, i + 19)
  }

  /** login's slice: characters indexOf("<SID>") + 5 up to indexOf("<SID>") + 21. */
  function SidOf(body: string): Option<string>
  {
    var i := IndexOf(body, SidMarker);
    Substring(body, i + 5, i + 21)
  }

  /**
   * With the marker present, the challenge is the 8 characters right after its
   * first occurrence (11 is the marker's length), and the slice fails exactly
   * when the body ends before them.
   */
  lemma ChallengeFollowsMarker(body: string, i: nat)
    requires OccursAt(body, ChallengeMarker, i)
    requires forall j :: 0 <= j < i ==> !OccursAt(body, ChallengeMarker, j)
    ensures ChallengeOf(body).Some? <==> i + 19 <= |body|
    ensures ChallengeOf(body).Some? ==>
              body[i..i + |ChallengeMarker|] == ChallengeMarker &&
              ChallengeOf(body).value == body[i + |ChallengeMarker|..i + |ChallengeMarker| + 8] &&
              |ChallengeOf(body).value| == 8
  {
    IndexOfFirst(body, ChallengeMarker, i);
  }

  /** A missing marker is not detected: indexOf gives -1 and the slice starts at index 10. */
  lemma ChallengeWithoutMarker(body: string)
    requires forall j :: !OccursAt(body, ChallengeMarker, j)
    ensures ChallengeOf(body) == if |body| >= 18 then Some(body[10..18]) else None
  {
    assert IndexOf(body, ChallengeMarker) == -1;
  }

  /**
   * With the marker present, the SID is the 16 characters right after its first
   * occurrence (5 is the marker's length), and the slice fails exactly when the
   * body ends before them.
   */
  lemma SidFollowsMarker(body: string, i: nat)
    requires OccursAt(body, SidMarker, i)
    requires forall j :: 0 <= j < i ==> !OccursAt(body, SidMarker, j)
    ensures SidOf(body).Some? <==> i + 21 <= |body|
    ensures SidOf(body).Some? ==>
              body[i..i + |SidMarker|] == SidMarker &&
              SidOf(body).value == body[i + |SidMarker|..i + |SidMarker| + 16] &&
              |SidOf(body).value| == 16
  {
    IndexOfFirst(body, SidMarker, i);
  }

  /** A missing marker is not detected: indexOf gives -1 and the slice starts at index 4. */
  lemma SidWithoutMarker(body: string)
    requires forall j :: !OccursAt(body, SidMarker, j)
    ensures SidOf(body) == if |body| >= 20 then Some(body[4..20]) else None
  {
    assert IndexOf(body, SidMarker) == -1;
  }

  // ---------------------------------------------------------------------------
  // The login response
  // ---------------------------------------------------------------------------

  /** The text that is hashed: challenge, a dash, the password. */
  function StringToHash(challenge: string, password: string): string
  {
    challenge + "-" + password
  }

  /**
   * The bytes handed to MD5: the UTF-16LE bytes of the text, decoded as if they
   * were UTF-8 (new String(..., UTF_8)) and encoded again with getBytes(UTF_8).
   */
  function HashInput(env: Env, text: string): seq<Byte>
  {
    Utf8(env.utf8Decode(Utf16Le(text)))
  }

  /** What every UTF-8 decoder does: bytes below 0x80 are the characters with those codes. */
  ghost predicate DecodesAsciiBytes(decode: seq<Byte> -> string)
  {
    forall b: seq<Byte> ::
      (forall i :: 0 <= i < |b| ==> b[i] < 0x80) ==> decode(b) == BytesAsChars(b)
  }

  /**
   * For ASCII text the reinterpretation round trip changes nothing: MD5 sees the
   * UTF-16LE bytes, each character followed by a zero byte, twice as many bytes
   * as characters.
   */
  lemma HashInputOfAscii(env: Env, text: string)
    requires IsAscii(text)
    requires DecodesAsciiBytes(env.utf8Decode)
    ensures HashInput(env, text) == Doubled(text)
    ensures |HashInput(env, text)| == 2 * |text|
  {
    Utf16LeAscii(text);
    var d := Doubled(text);
    assert forall i :: 0 <= i < |d| ==> d[i] < 0x80;
    assert env.utf8Decode(d) == BytesAsChars(d);
    Utf8OfAsciiBytes(d);
  }

  /** The lower-case hex text of MD5 over the bytes, as md5() builds it. */
  function Md5Text(env: Env, input: seq<Byte>): string
  {
    Hex(env.md5(input))
  }

  /** login's response parameter: challenge + "-" + md5(stringToHashUTF16). */
  function LoginResponse(env: Env, challenge: string, password: string): string
  {
    challenge + "-" + Md5Text(env, HashInput(env, StringToHash(challenge, password)))
  }

  /**
   * The response is the challenge, a dash and 32 hex digits that read back as
   * the digest of the hashed bytes.
   */
  lemma LoginResponseLayout(env: Env, challenge: string, password: string)
    ensures var r := LoginResponse(env, challenge, password);
            var digest := env.md5(HashInput(env, StringToHash(challenge, password)));
            && |r| == |challenge| + 33
            && r[..|challenge|] == challenge
            && r[|challenge|] == '-'
            && ParseHex(r[|challenge| + 1..]) == Some(digest)
  {
    var digest := env.md5(HashInput(env, StringToHash(challenge, password)));
    var r := LoginResponse(env, challenge, password);
    assert r[|challenge| + 1..] == Hex(digest);
    HexRoundTrip(digest);
  }

  // ---------------------------------------------------------------------------
  // The exchanges, as functions of the environment
  // ---------------------------------------------------------------------------

  /** getChallenge: fetch the challenge page and slice the challenge out of it. */
  function FetchChallenge(env: Env, address: string): Outcome<string>
  {
    match env.fetch(ChallengeUrl(address))
    case None => Failure(IoError)
    case Some(body) =>
      match ChallengeOf(body)
      case None => Failure(IndexOutOfRange)
      case Some(challenge) => Success(challenge)
  }

  /** login: send the response and slice the SID out of the answer. */
  function FetchSid(env: Env, address: string, challenge: string, password: string): Outcome<string>
  {
    match env.fetch(LoginUrl(address, LoginResponse(env, challenge, password)))
    case None => Failure(IoError)
    case Some(body) =>
      match SidOf(body)
      case None => Failure(IndexOutOfRange)
      case Some(sid) => Success(sid)
  }

  /** connect: a fresh challenge, then the login with it; the first failure wins. */
  function Authenticate(env: Env, address: string, password: string): Outcome<string>
  {
    match FetchChallenge(env, address)
    case Failure(e) => Failure(e)
    case Success(challenge) => FetchSid(env, address, challenge, password)
  }

  /** getNetworkDevices: the device-list query with the current SID; JSON null is a null network. */
  function FetchNetwork(env: Env, address: string, sid: string): Outcome<Option<Network>>
  {
    match env.fetch(NetworkDevicesUrl(address, sid))
    case None => Failure(IoError)
    case Some(body) =>
      match env.parseNetwork(body)
      case Malformed => Failure(ParseError)
      case Null => Success(None)
      case Value(network) => Success(Some(network))
  }

  /**
   * A login succeeds exactly when both exchanges do; the challenge it used has
   * 8 characters and the SID it yields has 16.
   */
  lemma AuthenticateSucceeds(env: Env, address: string, password: string)
    ensures var challenge := FetchChallenge(env, address);
            Authenticate(env, address, password).Success? <==>
              challenge.Success? && FetchSid(env, address, challenge.value, password).Success?
    ensures FetchChallenge(env, address).Success? ==> |FetchChallenge(env, address).value| == 8
    ensures Authenticate(env, address, password).Success? ==> |Authenticate(env, address, password).value| == 16
  {
    match env.fetch(ChallengeUrl(address))
    case None =>
    case Some(body) =>
      var i := IndexOf(body, ChallengeMarker);
      assert ChallengeOf(body) == Substring(body, i + 11, i + 19);
      match ChallengeOf(body)
      case None =>
      case Some(challenge) =>
        match env.fetch(LoginUrl(address, LoginResponse(env, challenge, password)))
        case None =>
        case Some(answer) =>
          var k := IndexOf(answer, SidMarker);
          assert SidOf(answer) == Substring(answer, k + 5, k + 21);
  }

  // ---------------------------------------------------------------------------
  // The client object
  // ---------------------------------------------------------------------------

  /** md5(string): the digest's bytes appended one "%02x" at a time. */
  method Md5(env: Env, input: seq<Byte>) returns (hex: string)
    ensures hex == Md5Text(env, input)
    ensures |hex| == 32
  {
    var hashInBytes := env.md5(input);
    hex := "";
    var i := 0;
    while i < |hashInBytes|
      invariant 0 <= i <= |hashInBytes|
      invariant hex == Hex(hashInBytes[..i])
    {
      assert hashInBytes[..i + 1][..i] == hashInBytes[..i];
      hex := hex + HexByte(hashInBytes[i]);
      i := i + 1;
    }
    assert hashInBytes[..i] == hashInBytes;
  }

  /** FritzBoxAPI: the router address and the session token of the last successful login. */
  class FritzBoxApi {
    var address: string
    var sid: string

    constructor (address: string)
      ensures this.address == address && sid == ""
    {
      this.address := address;
      sid := "";
    }

    /** The client for the default address fritz.box. */
    constructor Default()
      ensures address == DefaultAddress && sid == ""
    {
      address := DefaultAddress;
      sid := "";
    }

    method GetChallenge(env: Env) returns (r: Outcome<string>)
      ensures r == FetchChallenge(env, address)
    {
      var result := env.fetch(ChallengeUrl(address));
      if result.None? {
        return Failure(IoError);
      }
      var body := result.value;
      var i := IndexOf(body, ChallengeMarker);
      var challenge := Substring(body, i + 11, i + 19);
      if challenge.None? {
        return Failure(IndexOutOfRange);
      }
      r := Success(challenge.value);
    }

    method Login(env: Env, challenge: string, password: string) returns (r: Outcome<string>)
      ensures r == FetchSid(env, address, challenge, password)
    {
      var stringToHash := challenge + "-" + password;
      var stringToHashUtf16 := env.utf8Decode(Utf16Le(stringToHash));
      var md5 := Md5(env, Utf8(stringToHashUtf16));
      var response := challenge + "-" + md5;
      var result := env.fetch(LoginUrl(address, response));
      if result.None? {
        return Failure(IoError);
      }
      var body := result.value;
      var i := IndexOf(body, SidMarker);
      var sidText := Substring(body, i + 5, i + 21);
      if sidText.None? {
        return Failure(IndexOutOfRange);
      }
      r := Success(sidText.value);
    }

    /** connect(password): sid is replaced only when the whole handshake succeeds. */
    method Connect(env: Env, password: string) returns (r: Outcome<string>)
      modifies this`sid
      ensures r == Authenticate(env, address, password)
      ensures r.Success? ==> sid == r.value
      ensures r.Failure? ==> sid == old(sid)
    {
      var challenge := GetChallenge(env);
      if challenge.Failure? {
        return Failure(challenge.error);
      }
      r := Login(env, challenge.value, password);
      if r.Success? {
        sid := r.value;
      }
    }

    method GetNetworkDevices(env: Env) returns (r: Outcome<Option<Network>>)
      ensures r == FetchNetwork(env, address, sid)
    {
      var result := env.fetch(NetworkDevicesUrl(address, sid));
      if result.None? {
        return Failure(IoError);
      }
      match env.parseNetwork(result.value)
      case Malformed => r := Failure(ParseError);
      case Null => r := Success(None);
      case Value(network) => r := Success(Some(network));
    }
  }
}
