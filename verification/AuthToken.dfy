/** The WebSocket authentication token: its text form and its verification. */
module Auth {
  import opened Types
  import opened Text

  /** HMAC-SHA256 under the shared secret, which the model leaves open. */
  type Hmac = string -> seq<Byte>

  datatype AuthToken = AuthToken(teamId: Uuid, deviceId: Uuid, timestamp: U64, signature: string)

  datatype AuthError = TokenExpired | InvalidSignature | InvalidFormat

  datatype Result<+T> = Ok(value: T) | Err(error: AuthError) | Panic

  // ---------- UUID text (section 4 of RFC 9562) ----------

  function Hyphenate(hex: string): string
    requires |hex| == 32
  {
    hex[..8] + "-" + hex[8..12] + "-" + hex[12..16] + "-" + hex[16..20] + "-" + hex[20..]
  }

  function PrintUuid(id: Uuid): string {
    Hyphenate(Hex(id, 32))
  }

  lemma {:induction false} ValueBound(hex: string)
    requires forall c <- hex :: IsDigit(c, 16)
    ensures Value(hex, 16) < Pow(16, |hex|)
  {
    if hex != [] {
      assert IsDigit(hex[|hex| - 1], 16);
      ValueBound(hex[..|hex| - 1]);
    }
  }

  function ParseHex(hex: string): (id: Option<Uuid>)
    requires |hex| == 32
  {
    if forall c <- hex :: IsDigit(c, 16) then
      ValueBound(hex);
      Pow16Of32();
      Some(Value(hex, 16))
    else None
  }

  function ParseHyphenated(s: string): Option<Uuid>
    requires |s| == 36
  {
    if s[8] == '-' && s[13] == '-' && s[18] == '-' && s[23] == '-'
    then ParseHex(s[..8] + s[9..13] + s[14..18] + s[19..23] + s[24..])
    else None
  }

  const URN: string := "urn:uuid:"

  /** Uuid::parse_str also accepts the plain, braced and URN spellings. */
  function ParseUuid(s: string): Option<Uuid> {
    if |s| == 32 then ParseHex(s)
    else if |s| == 36 then ParseHyphenated(s)
    else if |s| == 38 && s[0] == '{' && s[37] == '}' then ParseHyphenated(s[1..37])
    else if |s| == 45 && s[..9] == URN then ParseHyphenated(s[9..])
    else None
  }

  lemma HyphensComeOff(hex: string)
    requires |hex| == 32
    ensures var s := Hyphenate(hex);
            && |s| == 36 && s[8] == '-' && s[13] == '-' && s[18] == '-' && s[23] == '-'
            && s[..8] + s[9..13] + s[14..18] + s[19..23] + s[24..] == hex
  {
    var s := Hyphenate(hex);
    assert s[..8] == hex[..8];
    assert s[9..13] == hex[8..12];
    assert s[14..18] == hex[12..16];
    assert s[19..23] == hex[16..20];
    assert s[24..] == hex[20..];
  }

  lemma HyphensAddNoColon(hex: string)
    requires |hex| == 32 && ':' !in hex
    ensures ':' !in Hyphenate(hex)
  {
  }

  lemma UuidRoundTrip(id: Uuid)
    ensures ParseUuid(PrintUuid(id)) == Some(id)
    ensures ':' !in PrintUuid(id)
  {
    Pow16Of32();
    HexRoundTrip(id, 32);
    HyphensComeOff(Hex(id, 32));
    HyphensAddNoColon(Hex(id, 32));
  }

  /** Groups of 8, 4, 4, 4 and 12 digits, each the digit of its power of 16. */
  lemma UuidIsPrintedInGroups(id: Uuid, k: nat)
    requires k < 32
    ensures var s := PrintUuid(id);
            && |s| == 36 && s[8] == '-' && s[13] == '-' && s[18] == '-' && s[23] == '-'
            && var hex := s[..8] + s[9..13] + s[14..18] + s[19..23] + s[24..];
               DigitOf(id, 16, k) < 16 && FromEnd(hex, k) == Digits[DigitOf(id, 16, k)]
  {
    HyphensComeOff(Hex(id, 32));
    HexDigits(id, 32, k);
  }

  /** The four spellings of 32 digits. */
  predicate Spells(s: string, hex: string)
    requires |hex| == 32
  {
    s == hex || s == Hyphenate(hex) || s == "{" + Hyphenate(hex) + "}" || s == "urn:uuid:" + Hyphenate(hex)
  }

  lemma SpellingsParse(s: string, hex: string)
    requires |hex| == 32 && AllDigits(hex, 16) && Spells(s, hex)
    ensures ParseUuid(s) == ParseHex(hex) && ParseHex(hex).Some? && ParseHex(hex).value == Value(hex, 16)
  {
    HyphensComeOff(hex);
    if s == "{" + Hyphenate(hex) + "}" {
      assert s[1..37] == Hyphenate(hex);
    } else if s == "urn:uuid:" + Hyphenate(hex) {
      assert s[..9] == URN && s[9..] == Hyphenate(hex);
    }
  }

  lemma HyphensGoOn(s: string) returns (hex: string)
    requires |s| == 36 && ParseHyphenated(s).Some?
    ensures |hex| == 32 && AllDigits(hex, 16) && s == Hyphenate(hex) && ParseHyphenated(s).value == Value(hex, 16)
  {
    hex := s[..8] + s[9..13] + s[14..18] + s[19..23] + s[24..];
    assert hex[..8] == s[..8] && hex[8..12] == s[9..13] && hex[12..16] == s[14..18];
    assert hex[16..20] == s[19..23] && hex[20..] == s[24..];
  }

  /** Exactly the four spellings of 32 digits are read, as the number that the digits stand for. */
  lemma ParseUuidIff(s: string, id: Uuid)
    ensures ParseUuid(s) == Some(id) <==>
            exists hex: string :: |hex| == 32 && AllDigits(hex, 16) && Spells(s, hex) && Value(hex, 16) == id
  {
    if ParseUuid(s) == Some(id) {
      var hex := s;
      if |s| == 36 {
        hex := HyphensGoOn(s);
      } else if |s| == 38 {
        hex := HyphensGoOn(s[1..37]);
        assert s == "{" + s[1..37] + "}";
      } else if |s| == 45 {
        hex := HyphensGoOn(s[9..]);
        assert s == s[..9] + s[9..];
      }
      assert Spells(s, hex);
    }
    if hex: string :| |hex| == 32 && AllDigits(hex, 16) && Spells(s, hex) && Value(hex, 16) == id {
      SpellingsParse(s, hex);
    }
  }

  // ---------- tokens ----------

  function Message(team: Uuid, device: Uuid, timestamp: U64): string {
    PrintUuid(team) + ":" + PrintUuid(device) + ":" + Decimal(timestamp)
  }

  function Display(t: AuthToken): string {
    Message(t.teamId, t.deviceId, t.timestamp) + ":" + t.signature
  }

  function HexEncode(bytes: seq<Byte>): (s: string)
    ensures ':' !in s
  {
    if bytes == [] then ""
    else
      var high := Hex(bytes[0], 2);
      var rest := HexEncode(bytes[1..]);
      assert forall c <- high + rest :: c in high || c in rest;
      high + rest
  }

  lemma {:induction false} HexEncodeLength(bytes: seq<Byte>)
    ensures |HexEncode(bytes)| == 2 * |bytes|
  {
    if bytes != [] {
      HexEncodeLength(bytes[1..]);
    }
  }

  predicate IsPairOf(pair: string, byte: Byte) {
    && |pair| == 2 && (forall c <- pair :: c in "0123456789abcdef")
    && AllDigits(pair, 16) && Value(pair, 16) == byte
  }

  /** This text is lower-case hexadecimal for these bytes, two digits each. */
  predicate IsHexOf(text: string, bytes: seq<Byte>) {
    |text| == 2 * |bytes| && forall i | 0 <= i < |bytes| :: IsPairOf(text[2 * i..2 * i + 2], bytes[i])
  }

  lemma {:induction false} HexIsLowerCase(n: nat, width: nat)
    ensures forall c <- Hex(n, width) :: c in "0123456789abcdef"
  {
    if width > 0 {
      HexIsLowerCase(n / 16, width - 1);
    }
  }

  lemma SameDigit(c: char, d: char)
    requires c in "0123456789abcdef" && d in "0123456789abcdef" && DigitValue(c) == DigitValue(d)
    ensures c == d
  {
  }

  lemma HexIsPair(byte: Byte)
    ensures IsPairOf(Hex(byte, 2), byte)
  {
    HexRoundTrip(byte, 2);
    assert Pow(16, 2) == 256;
    HexIsLowerCase(byte, 2);
  }

  lemma PairAgrees(pair: string, byte: Byte, i: nat)
    requires IsPairOf(pair, byte) && i < 2
    ensures pair[i] == Hex(byte, 2)[i]
  {
    ValueKeepsDigits(pair, i);
    HexIsLowerCase(byte, 2);
    SameDigit(pair[i], Hex(byte, 2)[i]);
  }

  lemma PairIsHex(pair: string, byte: Byte)
    ensures IsPairOf(pair, byte) <==> pair == Hex(byte, 2)
  {
    HexIsPair(byte);
    if IsPairOf(pair, byte) {
      PairAgrees(pair, byte, 0);
      PairAgrees(pair, byte, 1);
    }
  }

  /** Encoding loses nothing: this is what it yields, and nothing else is. */
  lemma {:induction false} HexEncodeIff(text: string, bytes: seq<Byte>)
    ensures text == HexEncode(bytes) <==> IsHexOf(text, bytes)
    decreases |bytes|
  {
    HexEncodeLength(bytes);
    if bytes != [] && |text| == 2 * |bytes| {
      var rest := text[2..];
      HexEncodeIff(rest, bytes[1..]);
      PairIsHex(text[..2], bytes[0]);
      assert text == text[..2] + rest;
      forall i | 0 <= i < |bytes[1..]| ensures rest[2 * i..2 * i + 2] == text[2 * (i + 1)..2 * (i + 1) + 2] {
      }
      assert text[..2] == text[2 * 0..2 * 0 + 2];
      if IsHexOf(text, bytes) {
        forall i | 0 <= i < |bytes[1..]| ensures IsPairOf(rest[2 * i..2 * i + 2], bytes[1..][i]) {
          assert IsPairOf(text[2 * (i + 1)..2 * (i + 1) + 2], bytes[i + 1]);
        }
      }
      if IsHexOf(rest, bytes[1..]) && IsPairOf(text[..2], bytes[0]) {
        forall i | 0 <= i < |bytes| ensures IsPairOf(text[2 * i..2 * i + 2], bytes[i]) {
          if i > 0 { assert IsPairOf(rest[2 * (i - 1)..2 * (i - 1) + 2], bytes[1..][i - 1]); }
        }
      }
    }
  }

  lemma HexEncodeIsInjective(a: seq<Byte>, b: seq<Byte>)
    requires HexEncode(a) == HexEncode(b)
    ensures a == b
  {
    HexEncodeIff(HexEncode(a), a);
    HexEncodeIff(HexEncode(a), b);
    forall i | 0 <= i < |a| ensures a[i] == b[i] {
      assert IsPairOf(HexEncode(a)[2 * i..2 * i + 2], a[i]) && IsPairOf(HexEncode(a)[2 * i..2 * i + 2], b[i]);
    }
  }

  function Sign(message: string, hmac: Hmac): string {
    HexEncode(hmac(message))
  }

  function Generate(team: Uuid, device: Uuid, now: U64, hmac: Hmac): AuthToken {
    AuthToken(team, device, now, Sign(Message(team, device, now), hmac))
  }

  function Parse(text: string): Result<AuthToken> {
    match RSplitOnce(text, ':')
    case None => Err(InvalidFormat)
    case Some((prefix, signature)) =>
      match RSplitOnce(prefix, ':')
      case None => Err(InvalidFormat)
      case Some((mid, timestampText)) =>
        match RSplitOnce(mid, ':')
        case None => Err(InvalidFormat)
        case Some((teamText, deviceText)) =>
          var team := ParseUuid(teamText);
          var device := ParseUuid(deviceText);
          var timestamp := ParseU64(timestampText);
          if team == None || device == None || timestamp == None then Err(InvalidFormat)
          else Ok(AuthToken(team.value, device.value, timestamp.value, signature))
  }

  /** Expiry first, then the signature. */
  function Verify(t: AuthToken, now: U64, hmac: Hmac, build: Build): Result<()> {
    match AddU64(build, t.timestamp, 300)
    case None => Panic
    case Some(deadline) =>
      if now > deadline then Err(TokenExpired)
      else if t.signature != Sign(Message(t.teamId, t.deviceId, t.timestamp), hmac) then Err(InvalidSignature)
      else Ok(())
  }

  /** The server's treatment of a connection's first message: "AUTH:" and a token. */
  function Authenticate(first: string, now: U64, hmac: Hmac, build: Build): Result<(Uuid, Uuid)> {
    match SplitOnce(first, ':')
    case None => Err(InvalidFormat)
    case Some((prefix, rest)) =>
      if prefix != "AUTH" then Err(InvalidFormat)
      else
        match Parse(rest)
        case Err(e) => Err(e)
        case Panic => Panic
        case Ok(token) =>
          match Verify(token, now, hmac, build)
          case Err(e) => Err(e)
          case Panic => Panic
          case Ok(_) => Ok((token.teamId, token.deviceId))
  }

  /** Parsing undoes printing for every token whose signature has no colon. */
  lemma ParseUndoesDisplay(t: AuthToken)
    requires ':' !in t.signature
    ensures Parse(Display(t)) == Ok(t)
  {
    var team, device := PrintUuid(t.teamId), PrintUuid(t.deviceId);
    UuidRoundTrip(t.teamId);
    UuidRoundTrip(t.deviceId);
    ParseU64RoundTrip(t.timestamp);
    RSplitOnceAt(Message(t.teamId, t.deviceId, t.timestamp), ':', t.signature);
    RSplitOnceAt(team + ":" + device, ':', Decimal(t.timestamp));
    RSplitOnceAt(team, ':', device);
  }

  /** Whatever spelling was parsed, printing the result and parsing again changes nothing. */
  lemma ParsedTokensPrintAndParse(text: string)
    requires Parse(text).Ok?
    ensures Parse(Display(Parse(text).value)) == Parse(text)
  {
    ParseUndoesDisplay(Parse(text).value);
  }

  /** The signed message names one team, one device and one time. */
  lemma MessageIsInjective(t: AuthToken, u: AuthToken)
    requires Message(t.teamId, t.deviceId, t.timestamp) == Message(u.teamId, u.deviceId, u.timestamp)
    ensures t.teamId == u.teamId && t.deviceId == u.deviceId && t.timestamp == u.timestamp
  {
    ParseUndoesDisplay(t.(signature := ""));
    ParseUndoesDisplay(u.(signature := ""));
  }

  lemma PrefixComesOff(text: string)
    ensures SplitOnce("AUTH:" + text, ':') == Some(("AUTH", text))
  {
    assert "AUTH:" + text == "AUTH" + [':'] + text;
    SplitOnceAt("AUTH", ':', text);
  }

  /** A first message is the prefix and the text of a token. */
  predicate Presents(first: string, text: string, t: AuthToken) {
    first == "AUTH:" + text && Parse(text) == Ok(t)
  }

  /** A token that is presented is accepted for its own team and device or refused as it verifies. */
  lemma AuthenticationIsVerification(
      first: string, text: string, t: AuthToken, now: U64, hmac: Hmac, build: Build)
    requires Presents(first, text, t)
    ensures Authenticate(first, now, hmac, build) ==
            match Verify(t, now, hmac, build)
            case Err(e) => Err(e)
            case Panic => Panic
            case Ok(_) => Ok((t.teamId, t.deviceId))
  {
    PrefixComesOff(text);
  }

  /**
   * A generated token sent with its prefix authenticates its own team and device exactly while
   * no more than 300 seconds have passed, and is refused as expired after that. Only where the
   * deadline leaves 64 bits does it stop a debug build, and expire at the wrapped deadline in
   * a release build.
   */
  lemma GeneratedTokensAuthenticate(team: Uuid, device: Uuid, timestamp: U64, now: U64, hmac: Hmac, build: Build)
    ensures var reply := Authenticate("AUTH:" + Display(Generate(team, device, timestamp, hmac)), now, hmac, build);
            if timestamp + 300 < U64_COUNT then
              reply == if now <= timestamp + 300 then Ok((team, device)) else Err(TokenExpired)
            else if build.DebugBuild? then reply == Panic
            else reply == if now + U64_COUNT <= timestamp + 300 then Ok((team, device)) else Err(TokenExpired)
  {
    var t := Generate(team, device, timestamp, hmac);
    ParseUndoesDisplay(t);
    AuthenticationIsVerification("AUTH:" + Display(t), Display(t), t, now, hmac, build);
  }

  /** A token verifies exactly when it is the one generated for its fields and still in time. */
  lemma VerifiedMeansGenerated(t: AuthToken, now: U64, hmac: Hmac, build: Build)
    requires t.timestamp + 300 < U64_COUNT
    ensures Verify(t, now, hmac, build) == Ok(()) <==>
              t == Generate(t.teamId, t.deviceId, t.timestamp, hmac) && now <= t.timestamp + 300
  {
  }

  /**
   * A token is refused as expired once 300 seconds have passed, and otherwise verifies exactly
   * when its signature is lower-case hexadecimal for the keyed hash of its team, device and time.
   */
  lemma VerifiedMeansSigned(t: AuthToken, now: U64, hmac: Hmac, build: Build)
    requires t.timestamp + 300 < U64_COUNT
    ensures var message := PrintUuid(t.teamId) + ":" + PrintUuid(t.deviceId) + ":" + Decimal(t.timestamp);
            Verify(t, now, hmac, build) ==
            if now > t.timestamp + 300 then Err(TokenExpired)
            else if IsHexOf(t.signature, hmac(message)) then Ok(()) else Err(InvalidSignature)
  {
    HexEncodeIff(t.signature, hmac(Message(t.teamId, t.deviceId, t.timestamp)));
  }

  /** When the keyed hash does not collide on two messages, verified tokens do not share a signature. */
  lemma SignatureBindsIdentity(t: AuthToken, u: AuthToken, now: U64, later: U64, hmac: Hmac, build: Build)
    requires var m, n := Message(t.teamId, t.deviceId, t.timestamp), Message(u.teamId, u.deviceId, u.timestamp);
             hmac(m) == hmac(n) ==> m == n
    requires Verify(t, now, hmac, build) == Ok(()) && Verify(u, later, hmac, build) == Ok(())
    ensures t.signature == u.signature <==> t == u
  {
    if t.signature == u.signature {
      HexEncodeIsInjective(
        hmac(Message(t.teamId, t.deviceId, t.timestamp)), hmac(Message(u.teamId, u.deviceId, u.timestamp)));
      MessageIsInjective(t, u);
    }
  }

  // ---------- exactly what is accepted ----------

  /** The text is the three fields and the signature, with colons between them. */
  predicate Tells(text: string, t: AuthToken, team: string, device: string, time: string) {
    && text == team + [':'] + device + [':'] + time + [':'] + t.signature
    && ':' !in device && ':' !in time && ':' !in t.signature
    && ParseUuid(team) == Some(t.teamId) && ParseUuid(device) == Some(t.deviceId)
    && ParseU64(time) == Some(t.timestamp)
  }

  /** A text is a token exactly when its last three colons cut it into two UUIDs, a number and the rest. */
  lemma ParseIff(text: string, t: AuthToken)
    ensures Parse(text) == Ok(t) <==> exists team: string, device: string, time: string ::
              Tells(text, t, team, device, time)
    ensures Parse(text).Ok? || Parse(text) == Err(InvalidFormat)
  {
    if Parse(text) == Ok(t) {
      var first := RSplitOnce(text, ':').value;
      var second := RSplitOnce(first.0, ':').value;
      var third := RSplitOnce(second.0, ':').value;
      assert Tells(text, t, third.0, third.1, second.1);
    }
    if team: string, device: string, time: string :| Tells(text, t, team, device, time) {
      RSplitOnceAt(team + [':'] + device + [':'] + time, ':', t.signature);
      RSplitOnceAt(team + [':'] + device, ':', time);
      RSplitOnceAt(team, ':', device);
    }
  }

  lemma AcceptedIsPresented(first: string, now: U64, hmac: Hmac, build: Build) returns (text: string)
    requires Authenticate(first, now, hmac, build).Ok?
    ensures Parse(text).Ok? && Presents(first, text, Parse(text).value)
  {
    text := SplitOnce(first, ':').value.1;
    assert "AUTH:" + text == "AUTH" + [':'] + text;
  }

  /**
   * A connection's first message is accepted exactly when it presents a token that verifies,
   * and then for the team and device that the token names.
   */
  lemma AuthenticateIff(first: string, team: Uuid, device: Uuid, now: U64, hmac: Hmac, build: Build)
    ensures Authenticate(first, now, hmac, build) == Ok((team, device)) <==>
            exists text: string, t: AuthToken ::
              && Presents(first, text, t) && Verify(t, now, hmac, build) == Ok(())
              && t.teamId == team && t.deviceId == device
  {
    if Authenticate(first, now, hmac, build) == Ok((team, device)) {
      var text := AcceptedIsPresented(first, now, hmac, build);
      AuthenticationIsVerification(first, text, Parse(text).value, now, hmac, build);
    }
    if text: string, t: AuthToken :|
      && Presents(first, text, t) && Verify(t, now, hmac, build) == Ok(())
      && t.teamId == team && t.deviceId == device
    {
      AuthenticationIsVerification(first, text, t, now, hmac, build);
    }
  }
}
