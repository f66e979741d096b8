/** UTF-8 (section 3 of RFC 3629). */
module Utf8 {
  import opened Hex

  function CharBytes(c: char): (bytes: seq<Byte>)
    ensures bytes != []
  {
    var n := c as int;
    if n < 0x80 then [n]
    else if n < 0x800 then [0xC0 + n / 64, 0x80 + n % 64]
    else if n < 0x1_0000 then [0xE0 + n / 4096, 0x80 + n / 64 % 64, 0x80 + n % 64]
    else [0xF0 + n / 262144, 0x80 + n / 4096 % 64, 0x80 + n / 64 % 64, 0x80 + n % 64]
  }

  function Bytes(s: string): seq<Byte> { if s == "" then [] else CharBytes(s[0]) + Bytes(s[1..]) }

  lemma CharUnambiguous(c: char, d: char, x: seq<Byte>, y: seq<Byte>)
    requires CharBytes(c) + x == CharBytes(d) + y
    ensures c == d && x == y
  {
    var p, q := CharBytes(c) + x, CharBytes(d) + y;
    assert p[0] == CharBytes(c)[0] && q[0] == CharBytes(d)[0];
    assert |CharBytes(c)| == |CharBytes(d)|;
    var n := |CharBytes(c)|;
    assert p[..n] == CharBytes(c) && q[..n] == CharBytes(d) && p[n..] == x && q[n..] == y;
    SameBytesSameChar(c, d);
  }

  lemma SameBytesSameChar(c: char, d: char)
    requires CharBytes(c) == CharBytes(d)
    ensures c == d
  {
    Digits(c as int);
    Digits(d as int);
  }

  lemma Digits(n: nat)
    ensures n == 64 * (n / 64) + n % 64
    ensures n / 64 == 64 * (n / 4096) + n / 64 % 64
    ensures n / 4096 == 64 * (n / 262144) + n / 4096 % 64
  {
    assert n / 64 / 64 == n / 4096 && n / 4096 / 64 == n / 262144;
  }

  /** Distinct texts have distinct bytes. */
  lemma {:induction false} Injective(a: string, b: string)
    requires Bytes(a) == Bytes(b)
    ensures a == b
  {
    hide CharBytes;
    if a != "" && b != "" {
      CharUnambiguous(a[0], b[0], Bytes(a[1..]), Bytes(b[1..]));
      Injective(a[1..], b[1..]);
      assert a == [a[0]] + a[1..] && b == [b[0]] + b[1..];
    }
  }

  lemma {:induction false} AsciiLength(s: string)
    requires forall c | c in s :: c < '\U{80}'
    ensures |Bytes(s)| == |s|
  {
    if s != "" {
      assert s[0] in s && forall c | c in s[1..] :: c in s;
      AsciiLength(s[1..]);
    }
  }
}

/** Unpadded base64url (section 5 of RFC 4648), strict about length and trailing bits. */
module Base64Url {
  import opened Wrappers
  import opened Hex

  function CharOf(v: nat): (c: char)
    requires v < 64
    ensures ValueOf(c) == Some(v)
  {
    if v < 26 then 'A' + v as char
    else if v < 52 then 'a' + (v - 26) as char
    else if v < 62 then '0' + (v - 52) as char
    else if v == 62 then '-'
    else '_'
  }

  function ValueOf(c: char): (v: Option<nat>)
    ensures v.Some? ==> v.value < 64 && c < '\U{80}' && c != '.' && c != '\n'
  {
    if 'A' <= c <= 'Z' then Some(c as int - 'A' as int)
    else if 'a' <= c <= 'z' then Some(c as int - 'a' as int + 26)
    else if '0' <= c <= '9' then Some(c as int - '0' as int + 52)
    else if c == '-' then Some(62)
    else if c == '_' then Some(63)
    else None
  }

  lemma ValueThenChar(c: char)
    requires ValueOf(c).Some?
    ensures CharOf(ValueOf(c).value) == c
  {
  }

  /** The three- to four-character text of a group of one to three bytes. */
  function Group(b: seq<Byte>): (s: string)
    requires 1 <= |b| <= 3
    ensures |s| == |b| + 1 && forall c | c in s :: ValueOf(c).Some?
  {
    if |b| == 1 then [CharOf(b[0] / 4), CharOf(b[0] % 4 * 16)]
    else if |b| == 2 then [CharOf(b[0] / 4), CharOf(b[0] % 4 * 16 + b[1] / 16), CharOf(b[1] % 16 * 4)]
    else
      [CharOf(b[0] / 4), CharOf(b[0] % 4 * 16 + b[1] / 16), CharOf(b[1] % 16 * 4 + b[2] / 64), CharOf(b[2] % 64)]
  }

  function Encode(b: seq<Byte>): (s: string)
    ensures forall c | c in s :: ValueOf(c).Some?
  {
    if b == [] then "" else if |b| <= 3 then Group(b) else Group(b[..3]) + Encode(b[3..])
  }

  function Ungroup(s: string): (b: Option<seq<Byte>>)
    requires 2 <= |s| <= 4
    ensures b.Some? ==> |b.value| == |s| - 1
  {
    var v0, v1 := ValueOf(s[0]), ValueOf(s[1]);
    if v0.None? || v1.None? then None
    else if |s| == 2 then if v1.value % 16 == 0 then Some([v0.value * 4 + v1.value / 16]) else None
    else
      var v2 := ValueOf(s[2]);
      if v2.None? then None
      else
        var front := [v0.value * 4 + v1.value / 16, v1.value % 16 * 16 + v2.value / 4];
        if |s| == 3 then if v2.value % 4 == 0 then Some(front) else None
        else if ValueOf(s[3]).None? then None
        else Some(front + [v2.value % 4 * 64 + ValueOf(s[3]).value])
  }

  function Decode(s: string): Option<seq<Byte>> {
    if s == "" then Some([])
    else if |s| == 1 then None
    else if |s| <= 4 then Ungroup(s)
    else
      match (Ungroup(s[..4]), Decode(s[4..]))
      case (Some(b), Some(rest)) => Some(b + rest)
      case _ => None
  }

  /** Splitting bytes into six-bit values and joining them again. */
  lemma JoinSplit(hi: nat, lo: nat, k: nat)
    requires lo < k && k in {4, 16, 64}
    ensures (hi * k + lo) / k == hi && (hi * k + lo) % k == lo
  {
    if k == 4 {} else if k == 16 {} else {}
  }

  /** The six-bit values of a group give its bytes back; a shorter group is one padded with zero bytes. */
  lemma SixBits(x: Byte, y: Byte, z: Byte)
    ensures var v1, v2 := x % 4 * 16 + y / 16, y % 16 * 4 + z / 64;
            x / 4 * 4 + v1 / 16 == x && v1 % 16 * 16 + v2 / 4 == y && v2 % 4 * 64 + z % 64 == z
  {
    JoinSplit(x % 4, y / 16, 16);
    JoinSplit(y % 16, z / 64, 4);
  }

  lemma GroupReadsBack(b: seq<Byte>)
    requires 1 <= |b| <= 3
    ensures Ungroup(Group(b)) == Some(b)
  {
    hide ValueOf;
    hide CharOf;
    if |b| == 1 {
      SixBits(b[0], 0, 0);
      assert b == [b[0]];
    } else if |b| == 2 {
      SixBits(b[0], b[1], 0);
      assert b == [b[0], b[1]];
    } else {
      SixBits(b[0], b[1], b[2]);
      assert b == [b[0], b[1]] + [b[2]];
    }
  }

  lemma EightBits(v0: nat, v1: nat, v2: nat, v3: nat)
    requires v0 < 64 && v1 < 64 && v2 < 64 && v3 < 64
    ensures var x, y, z := v0 * 4 + v1 / 16, v1 % 16 * 16 + v2 / 4, v2 % 4 * 64 + v3;
            x / 4 == v0 && x % 4 * 16 + y / 16 == v1 && y % 16 * 4 + z / 64 == v2 && z % 64 == v3
  {
    JoinSplit(v0, v1 / 16, 4);
    JoinSplit(v1 % 16, v2 / 4, 16);
    JoinSplit(v2 % 4, v3, 64);
  }

  lemma GroupOnlyFrom(s: string)
    requires 2 <= |s| <= 4 && Ungroup(s).Some?
    ensures Group(Ungroup(s).value) == s
  {
    hide ValueOf;
    hide CharOf;
    ValueThenChar(s[0]);
    ValueThenChar(s[1]);
    if |s| > 2 { ValueThenChar(s[2]); }
    if |s| > 3 { ValueThenChar(s[3]); }
    var v0, v1 := ValueOf(s[0]).value, ValueOf(s[1]).value;
    if |s| == 2 {
      EightBits(v0, v1, 0, 0);
      assert s == [s[0], s[1]];
    } else if |s| == 3 {
      EightBits(v0, v1, ValueOf(s[2]).value, 0);
      assert s == [s[0], s[1], s[2]];
    } else {
      EightBits(v0, v1, ValueOf(s[2]).value, ValueOf(s[3]).value);
      assert s == [s[0], s[1], s[2], s[3]];
    }
  }

  lemma {:induction false} EncodeThenDecode(b: seq<Byte>)
    ensures Decode(Encode(b)) == Some(b)
  {
    if 0 < |b| <= 3 {
      GroupReadsBack(b);
    } else if b != [] {
      GroupReadsBack(b[..3]);
      EncodeThenDecode(b[3..]);
      hide Group;
      hide Ungroup;
      var s := Encode(b);
      assert s[..4] == Group(b[..3]) && s[4..] == Encode(b[3..]);
      LengthOf(b[3..]);
      assert b == b[..3] + b[3..];
    }
  }

  /** Nothing but encoder output decodes, so no two texts carry the same bytes. */
  lemma {:induction false} DecodeThenEncode(s: string)
    requires Decode(s).Some?
    ensures Encode(Decode(s).value) == s
  {
    if 2 <= |s| <= 4 {
      GroupOnlyFrom(s);
    } else if s != "" {
      GroupOnlyFrom(s[..4]);
      DecodeThenEncode(s[4..]);
      var b, rest := Ungroup(s[..4]).value, Decode(s[4..]).value;
      hide Group;
      hide Ungroup;
      assert Encode([]) == "";
      assert (b + rest)[..3] == b && (b + rest)[3..] == rest;
      assert s == s[..4] + s[4..];
    }
  }

  lemma {:induction false} LengthOf(b: seq<Byte>)
    ensures |Encode(b)| == (4 * |b| + 2) / 3
  {
    if |b| > 3 { LengthOf(b[3..]); }
  }

  /** 65536 characters hold 49152 bytes. */
  lemma CapInBytes(b: seq<Byte>)
    ensures |Encode(b)| <= 65536 <==> |b| <= 49152
  {
    LengthOf(b);
  }
}

/** JWS compact serialization (sections 5.1, 5.2 and 7.1 of RFC 7515). */
module Jws {
  import opened Wrappers
  import opened Text
  import opened CanonicalJson
  import Hex
  import Utf8
  import Base64Url
  import Wire

  type Byte = Hex.Byte

  const SEGMENT_MAX_BYTES := 64 * 1024

  datatype Algorithm = EdDsa | Es256k

  function Name(alg: Algorithm): string { if alg.EdDsa? then "EdDSA" else "ES256K" }

  function ParseAlgorithm(s: string): (r: Option<Algorithm>)
    ensures forall alg :: r == Some(alg) <==> s == Name(alg)
  {
    if s == "EdDSA" then Some(EdDsa) else if s == "ES256K" then Some(Es256k) else None
  }

  datatype Header = Header(alg: Algorithm, kid: string, typ: Option<string>)

  datatype Verified = Verified(header: Header, payload: seq<Byte>)

  /** A key of either kind. */
  datatype Key = Key(alg: Algorithm, bytes: seq<Byte>)

  datatype JwsError =
    | InvalidStructure
    | SegmentTooLarge
    | Base64Decode(segment: string)
    | InvalidHeader
    | AlgorithmNotPermitted(alg: string)
    | AlgorithmMalformed
    | MissingKid
    | UnknownKid(kid: string)
    | KidAlgMismatch(kid: string, headerAlg: Algorithm, keyAlg: Algorithm)
    | BadSignature(kid: string)
    | SigningError(message: string)
    | LookupError(message: string)

  const TYP := "JOSE+JSON"

  /** The header as the serializer prints it: fields in declaration order. */
  function HeaderText(alg: Algorithm, kid: string): string {
    "{\"alg\":\"" + Name(alg) + "\",\"kid\":" + JsonString(kid) + ",\"typ\":\"JOSE+JSON\"}"
  }

  function HeaderSegment(alg: Algorithm, kid: string): string { Base64Url.Encode(Utf8.Bytes(HeaderText(alg, kid))) }

  function SigningInput(payload: seq<Byte>, kid: string, alg: Algorithm): string {
    HeaderSegment(alg, kid) + "." + Base64Url.Encode(payload)
  }

  function Sign(payload: seq<Byte>, kid: string, alg: Algorithm, sign: string -> Result<seq<Byte>, JwsError>)
    : Result<string, JwsError>
  {
    if kid == "" then Err(MissingKid)
    else
      var input := SigningInput(payload, kid, alg);
      match sign(input)
      case Err(error) => Err(error)
      case Ok(signature) => Ok(input + "." + Base64Url.Encode(signature))
  }

  /** The typed header in a parsed value: unknown members are ignored, a null `typ` is an absent one. */
  function ReadHeader(v: Json): Result<Header, JwsError> {
    if !v.Object? || "alg" !in v.members then Err(InvalidHeader)
    else if !v.members["alg"].Str? then Err(AlgorithmMalformed)
    else
      match ParseAlgorithm(v.members["alg"].text)
      case None => Err(AlgorithmNotPermitted(v.members["alg"].text))
      case Some(alg) =>
        if "kid" !in v.members || !v.members["kid"].Str? then Err(InvalidHeader)
        else
          var kid := v.members["kid"].text;
          if "typ" !in v.members || v.members["typ"].Null? then Ok(Header(alg, kid, None))
          else if v.members["typ"].Str? then Ok(Header(alg, kid, Some(v.members["typ"].text)))
          else Err(InvalidHeader)
  }

  /** Foreign code: the JSON parser, the signature check, and the caller's key lookup. */
  datatype Env = Env(
    parse: seq<Byte> -> Option<Json>,
    verifies: (Key, string, seq<Byte>) -> bool,
    lookup: string -> Result<Option<Key>, JwsError>)

  predicate TooLarge(segment: string) { |Utf8.Bytes(segment)| > SEGMENT_MAX_BYTES }

  function Verify(env: Env, jws: string): Result<Verified, JwsError> {
    var parts := Split('.', jws);
    if |parts| != 3 then Err(InvalidStructure)
    else if TooLarge(parts[0]) || TooLarge(parts[1]) || TooLarge(parts[2]) then Err(SegmentTooLarge)
    else
      match Base64Url.Decode(parts[0])
      case None => Err(Base64Decode("header"))
      case Some(headerBytes) =>
        match Base64Url.Decode(parts[1])
        case None => Err(Base64Decode("payload"))
        case Some(payload) =>
          match Base64Url.Decode(parts[2])
          case None => Err(Base64Decode("signature"))
          case Some(signature) =>
            match env.parse(headerBytes)
            case None => Err(InvalidHeader)
            case Some(v) =>
              match ReadHeader(v)
              case Err(error) => Err(error)
              case Ok(header) => CheckSignature(env, parts[0] + "." + parts[1], header, payload, signature)
  }

  function CheckSignature(env: Env, input: string, header: Header, payload: seq<Byte>, signature: seq<Byte>)
    : Result<Verified, JwsError>
  {
    if header.kid == "" then Err(MissingKid)
    else
      match env.lookup(header.kid)
      case Err(error) => Err(error)
      case Ok(None) => Err(UnknownKid(header.kid))
      case Ok(Some(key)) =>
        if key.alg != header.alg then Err(KidAlgMismatch(header.kid, header.alg, key.alg))
        else if !env.verifies(key, input, signature) then Err(BadSignature(header.kid))
        else Ok(Verified(header, payload))
  }

  // ---------- headers are unambiguous ----------

  lemma HeaderTextInjective(a: Algorithm, kid: string, b: Algorithm, kid': string)
    requires HeaderText(a, kid) == HeaderText(b, kid')
    ensures a == b && kid == kid'
  {
    hide Escape;
    var s, t := HeaderText(a, kid), HeaderText(b, kid');
    assert s[9] == Name(a)[1] && t[9] == Name(b)[1];
    assert a == b;
    hide JsonString;
    var front, tail := "{\"alg\":\"" + Name(a) + "\",\"kid\":", ",\"typ\":\"JOSE+JSON\"}";
    assert s == front + (JsonString(kid) + tail) && t == front + (JsonString(kid') + tail);
    Cancel(front, JsonString(kid) + tail, JsonString(kid') + tail);
    JsonStringUnambiguous(kid, kid', tail, tail);
  }

  lemma HeaderSegmentInjective(a: Algorithm, kid: string, b: Algorithm, kid': string)
    requires HeaderSegment(a, kid) == HeaderSegment(b, kid')
    ensures a == b && kid == kid'
  {
    hide HeaderText;
    var s, t := Utf8.Bytes(HeaderText(a, kid)), Utf8.Bytes(HeaderText(b, kid'));
    Base64Url.EncodeThenDecode(s);
    Base64Url.EncodeThenDecode(t);
    Utf8.Injective(HeaderText(a, kid), HeaderText(b, kid'));
    HeaderTextInjective(a, kid, b, kid');
  }

  function HeaderValue(alg: Algorithm, kid: string): Json {
    Object(map["alg" := Str(Name(alg)), "kid" := Str(kid), "typ" := Str(TYP)])
  }

  /** The parser reads back the headers that the serializer prints. */
  ghost predicate ParsesHeaders(env: Env) {
    forall alg, kid :: env.parse(Utf8.Bytes(HeaderText(alg, kid))) == Some(HeaderValue(alg, kid))
  }

  /** Such a parser exists: no header text stands for two headers. */
  lemma HeadersCanBeParsed(env: Env) returns (env': Env)
    ensures ParsesHeaders(env') && env'.verifies == env.verifies && env'.lookup == env.lookup
  {
    env' := env.(parse := bytes => ReadBack(bytes));
    forall alg, kid ensures env'.parse(Utf8.Bytes(HeaderText(alg, kid))) == Some(HeaderValue(alg, kid)) {
      hide HeaderText;
      hide HeaderValue;
      var bytes := Utf8.Bytes(HeaderText(alg, kid));
      assert PrintsTo(alg, kid, bytes);
      var alg', kid' :| PrintsTo(alg', kid', bytes) && ReadBack(bytes) == Some(HeaderValue(alg', kid'));
      Utf8.Injective(HeaderText(alg, kid), HeaderText(alg', kid'));
      HeaderTextInjective(alg, kid, alg', kid');
    }
  }

  predicate PrintsTo(alg: Algorithm, kid: string, bytes: seq<Byte>) { bytes == Utf8.Bytes(HeaderText(alg, kid)) }

  ghost function ReadBack(bytes: seq<Byte>): (r: Option<Json>)
    ensures r.Some? ==> exists alg, kid :: PrintsTo(alg, kid, bytes) && r == Some(HeaderValue(alg, kid))
    ensures r.None? ==> forall alg, kid :: !PrintsTo(alg, kid, bytes)
  {
    if exists alg, kid :: PrintsTo(alg, kid, bytes) then
      var alg, kid :| PrintsTo(alg, kid, bytes);
      Some(HeaderValue(alg, kid))
    else None
  }

  lemma HeaderReadsBack(alg: Algorithm, kid: string)
    ensures ReadHeader(HeaderValue(alg, kid)) == Ok(Header(alg, kid, Some(TYP)))
  {
  }

  // ---------- round trip ----------

  lemma NoDots(b: seq<Byte>)
    ensures '.' !in Base64Url.Encode(b) && '\n' !in Base64Url.Encode(b)
    ensures |Utf8.Bytes(Base64Url.Encode(b))| == |Base64Url.Encode(b)|
  {
    hide Base64Url.Encode;
    Utf8.AsciiLength(Base64Url.Encode(b));
  }

  lemma ThreeParts(a: string, b: string, c: string)
    requires '.' !in a && '.' !in b && '.' !in c
    ensures Split('.', a + "." + b + "." + c) == [a, b, c]
  {
    hide Split;
    var parts := [a, b, c];
    assert parts[1..] == [b, c] && [b, c][1..] == [c];
    assert Join('.', parts) == a + "." + Join('.', [b, c]) && Join('.', [b, c]) == b + "." + Join('.', [c]);
    JoinThenSplit('.', parts);
    hide Join;
    assert a + "." + (b + "." + c) == a + "." + b + "." + c;
  }

  ghost predicate FitsSegments(payload: seq<Byte>, kid: string, alg: Algorithm) {
    |HeaderSegment(alg, kid)| <= SEGMENT_MAX_BYTES && |payload| <= 49152
  }

  /**
   With 64-byte signatures that verify and a lookup that finds the key: signing fails
   exactly on an empty kid, and the result verifies to the same payload, kid and
   algorithm exactly when the header segment is within the cap and the payload has
   at most 49152 bytes; otherwise it is refused as too large.
   */
  lemma SignThenVerify(
    env: Env, payload: seq<Byte>, kid: string, alg: Algorithm, key: Key, sign: string -> Result<seq<Byte>, JwsError>)
    requires ParsesHeaders(env) && env.lookup(kid) == Ok(Some(key)) && key.alg == alg
    requires forall text :: sign(text).Ok? && |sign(text).value| == 64 && env.verifies(key, text, sign(text).value)
    ensures kid == "" ==> Sign(payload, kid, alg, sign) == Err(MissingKid)
    ensures kid != "" ==>
              && Sign(payload, kid, alg, sign).Ok?
              && Verify(env, Sign(payload, kid, alg, sign).value)
                 == if FitsSegments(payload, kid, alg) then Ok(Verified(Header(alg, kid, Some(TYP)), payload))
                    else Err(SegmentTooLarge)
  {
    if kid != "" {
      var headerBytes := Utf8.Bytes(HeaderText(alg, kid));
      var signature := sign(SigningInput(payload, kid, alg)).value;
      var h, p, s := HeaderSegment(alg, kid), Base64Url.Encode(payload), Base64Url.Encode(signature);
      SegmentFacts(headerBytes);
      SegmentFacts(payload);
      SegmentFacts(signature);
      ThreeParts(h, p, s);
      HeaderReadsBack(alg, kid);
      hide HeaderText;
      hide HeaderValue;
      hide ReadHeader;
      hide Split;
      hide Base64Url.Encode;
      hide Base64Url.Decode;
    }
  }

  lemma SegmentFacts(b: seq<Byte>)
    ensures var s := Base64Url.Encode(b);
            && '.' !in s && Base64Url.Decode(s) == Some(b)
            && (TooLarge(s) <==> |s| > SEGMENT_MAX_BYTES)
            && (TooLarge(s) <==> |b| > 49152)
  {
    NoDots(b);
    Base64Url.EncodeThenDecode(b);
    Base64Url.CapInBytes(b);
  }

  // ---------- what an accepted JWS says was signed ----------

  /** What a key may have signed: the input of a JWS, or a canonical wire message. */
  datatype Signed = JwsInput(payload: seq<Byte>, kid: string, alg: Algorithm) | WireText(v: Wire.Version, m: Wire.Message)

  predicate TextOf(signed: Signed, text: string) {
    match signed
    case JwsInput(payload, kid, alg) => text == SigningInput(payload, kid, alg)
    case WireText(v, m) => Wire.Defined(v, m) && Wire.Encode(v, m) == Ok(text)
  }

  /** The ideal signature: what verifies under a key was signed with it. */
  ghost predicate SignedOnly(env: Env, signed: set<(Key, Signed)>) {
    forall key, text, signature | env.verifies(key, text, signature) ::
      exists s :: (key, s) in signed && TextOf(s, text)
  }

  lemma JoinHasSeparator(parts: seq<string>)
    requires |parts| >= 2
    ensures '\n' in Join('\n', parts)
  {
    assert Join('\n', parts)[|parts[0]|] == '\n';
  }

  lemma WireTextHasLines(v: Wire.Version, m: Wire.Message)
    requires Wire.Defined(v, m) && Wire.Encode(v, m).Ok?
    ensures '\n' in Wire.Encode(v, m).value
  {
    hide Wire.Checks;
    hide Wire.Keys;
    hide Wire.Values;
    JoinHasSeparator(Wire.Lines(v, m));
  }

  /** A wire message is never the signing input of a JWS, so no signature over one stands for the other. */
  lemma WireIsNoSigningInput(v: Wire.Version, m: Wire.Message, payload: seq<Byte>, kid: string, alg: Algorithm)
    requires Wire.Defined(v, m)
    ensures Wire.Encode(v, m) != Ok(SigningInput(payload, kid, alg))
  {
    NoDots(payload);
    NoDots(Utf8.Bytes(HeaderText(alg, kid)));
    hide Base64Url.Encode;
    hide HeaderText;
    assert '\n' !in SigningInput(payload, kid, alg);
    if Wire.Encode(v, m).Ok? { WireTextHasLines(v, m); }
    hide Wire.Encode;
    hide SigningInput;
  }

  /** Whatever verifies was signed as a JWS with that payload, kid and algorithm, under the key the lookup gives. */
  lemma AcceptedWasSigned(env: Env, signed: set<(Key, Signed)>, jws: string)
    requires ParsesHeaders(env) && SignedOnly(env, signed) && Verify(env, jws).Ok?
    ensures var Verified(header, payload) := Verify(env, jws).value;
            && header.kid != "" && header.typ == Some(TYP)
            && env.lookup(header.kid).Ok? && env.lookup(header.kid).value.Some?
            && var key := env.lookup(header.kid).value.value;
               key.alg == header.alg && (key, JwsInput(payload, header.kid, header.alg)) in signed
  {
    var parts := Split('.', jws);
    SplitThenJoin('.', jws);
    var h, p := parts[0], parts[1];
    var Verified(header, payload) := Verify(env, jws).value;
    var key := env.lookup(header.kid).value.value;
    var signature := Base64Url.Decode(parts[2]).value;
    var s :| (key, s) in signed && TextOf(s, h + "." + p);
    assert h in parts && p in parts;
    hide Split;
    Base64Url.DecodeThenEncode(h);
    Base64Url.DecodeThenEncode(p);
    InputWasSigned(Base64Url.Decode(h).value, payload, s);
    HeaderReadsBack(s.alg, s.kid);
  }

  lemma InputWasSigned(headerBytes: seq<Byte>, payload: seq<Byte>, s: Signed)
    requires TextOf(s, Base64Url.Encode(headerBytes) + "." + Base64Url.Encode(payload))
    ensures s.JwsInput? && s.payload == payload && headerBytes == Utf8.Bytes(HeaderText(s.alg, s.kid))
  {
    var h, p := Base64Url.Encode(headerBytes), Base64Url.Encode(payload);
    NoDots(headerBytes);
    NoDots(payload);
    hide HeaderText;
    hide Base64Url.Encode;
    hide Base64Url.Decode;
    hide Utf8.Bytes;
    if s.WireText? {
      WireTextHasLines(s.v, s.m);
      hide Wire.Encode;
    } else {
      var signedHeader := Utf8.Bytes(HeaderText(s.alg, s.kid));
      NoDots(signedHeader);
      var signedH, signedP := Base64Url.Encode(signedHeader), Base64Url.Encode(s.payload);
      assert h + (['.'] + p) == h + "." + p == signedH + "." + signedP == signedH + (['.'] + signedP);
      FirstOccurrenceUnique('.', h, p, signedH, signedP);
      Base64Url.EncodeThenDecode(headerBytes);
      Base64Url.EncodeThenDecode(signedHeader);
      Base64Url.EncodeThenDecode(payload);
      Base64Url.EncodeThenDecode(s.payload);
    }
  }
}
