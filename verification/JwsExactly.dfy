/** The encodings behind JWS spelled out against their standards, and exactly what verification accepts. */
module EncodingTables {
  import opened Hex
  import JsonReader
  import Utf8
  import Base64Url

  /** The alphabet of section 5 of RFC 4648, by code point: A to Z, a to z, 0 to 9, hyphen, underscore. */
  lemma AlphabetExactly(v: nat)
    requires v < 64
    ensures Base64Url.CharOf(v) as int ==
            if v < 26 then 65 + v else if v < 52 then 97 + (v - 26) else if v < 62 then 48 + (v - 52)
            else if v == 62 then 45 else 95
  {
  }

  /** The bytes of a group as one number of 24 bits, missing bytes being zero. */
  function Bits(b: seq<Byte>): (n: nat)
    requires 1 <= |b| <= 3
    ensures n < 16777216
  {
    var x: nat, y: nat, z: nat := b[0], if |b| > 1 then b[1] else 0, if |b| > 2 then b[2] else 0;
    65536 * x + 256 * y + z
  }

  /** The character of the lowest six bits. */
  function SixBits(n: nat): char { Base64Url.CharOf(n % 64) }

  /** A group prints its 24 bits six at a time from the left, one character more than it has bytes. */
  lemma GroupExactly(b: seq<Byte>)
    requires 1 <= |b| <= 3
    ensures var n := Bits(b);
            Base64Url.Group(b) == [SixBits(n / 262144), SixBits(n / 4096), SixBits(n / 64), SixBits(n)][..|b| + 1]
  {
    var x: Byte, y: Byte, z: Byte := b[0], if |b| > 1 then b[1] else 0, if |b| > 2 then b[2] else 0;
    hide Base64Url.Group;
    hide Base64Url.CharOf;
    hide Bits;
    SixBitValues(x, y, z);
    BitsAre(b, x, y, z);
    assert x / 4 % 64 == x / 4;
    GroupOfValues(b, x, y, z);
  }

  lemma BitsAre(b: seq<Byte>, x: Byte, y: Byte, z: Byte)
    requires 1 <= |b| <= 3 && x == b[0] && y == (if |b| > 1 then b[1] else 0) && z == (if |b| > 2 then b[2] else 0)
    ensures Bits(b) == 65536 * x as int + 256 * y as int + z as int
  {
  }

  /** A group is the front of the text of its bytes padded with zeros. */
  lemma GroupOfValues(b: seq<Byte>, x: Byte, y: Byte, z: Byte)
    requires 1 <= |b| <= 3 && x == b[0] && y == (if |b| > 1 then b[1] else 0) && z == (if |b| > 2 then b[2] else 0)
    ensures Base64Url.Group(b) ==
            [Base64Url.CharOf(x / 4), Base64Url.CharOf(x % 4 * 16 + y / 16),
             Base64Url.CharOf(y % 16 * 4 + z / 64), Base64Url.CharOf(z % 64)][..|b| + 1]
  {
    hide Base64Url.CharOf;
    if |b| == 1 {
      assert x % 4 * 16 + y / 16 == x % 4 * 16;
    } else if |b| == 2 {
      assert y % 16 * 4 + z / 64 == y % 16 * 4;
    }
  }

  lemma SixBitValues(x: Byte, y: Byte, z: Byte)
    ensures var n: nat := 65536 * x as int + 256 * y as int + z as int;
            && n / 262144 == x / 4 && n / 4096 % 64 == x % 4 * 16 + y / 16
            && n / 64 % 64 == y % 16 * 4 + z / 64 && n % 64 == z % 64
  {
    var n: nat := 65536 * x as int + 256 * y as int + z as int;
    Pieces(n, x / 4, x % 4 * 16 + y / 16, y % 16 * 4 + z / 64, z % 64);
  }

  /** The base-64 digits of a number below 2^24. */
  lemma Pieces(n: nat, a: nat, b: nat, c: nat, d: nat)
    requires b < 64 && c < 64 && d < 64 && n == 262144 * a + 4096 * b + 64 * c + d
    ensures n / 262144 == a && n / 4096 % 64 == b && n / 64 % 64 == c && n % 64 == d
  {
    Top(n, a, 4096 * b + 64 * c + d);
    Second(n, 64 * a + b, 64 * c + d);
    Third(n, 4096 * a + 64 * b + c, d);
    Low(64 * a + b, a, b);
    Low(4096 * a + 64 * b + c, 64 * a + b, c);
    Low(n, 4096 * a + 64 * b + c, d);
  }

  lemma Top(n: nat, q: nat, r: nat)
    requires n == 262144 * q + r && r < 262144
    ensures n / 262144 == q
  {
  }

  lemma Second(n: nat, q: nat, r: nat)
    requires n == 4096 * q + r && r < 4096
    ensures n / 4096 == q
  {
  }

  lemma Third(n: nat, q: nat, r: nat)
    requires n == 64 * q + r && r < 64
    ensures n / 64 == q
  {
  }

  lemma Low(n: nat, q: nat, r: nat)
    requires n == 64 * q + r && r < 64
    ensures n % 64 == r
  {
  }

  /** Group number `k` stands in its own four characters. */
  lemma {:induction false} GroupsInOrder(b: seq<Byte>, k: nat)
    requires 3 * k < |b|
    ensures var last := if 3 * k + 3 <= |b| then 3 * k + 3 else |b|;
            var at, end := 4 * k, 4 * k + (last - 3 * k + 1);
            end <= |Base64Url.Encode(b)| && Base64Url.Encode(b)[at..end] == Base64Url.Group(b[3 * k..last])
  {
    hide Base64Url.Group;
    hide Base64Url.ValueOf;
    if |b| <= 3 {
      assert b[0..|b|] == b;
    } else {
      var first, rest := Base64Url.Group(b[..3]), Base64Url.Encode(b[3..]);
      assert Base64Url.Encode(b) == first + rest && |first| == 4;
      if k == 0 {
        assert b[0..3] == b[..3];
      } else {
        GroupsInOrder(b[3..], k - 1);
        hide Base64Url.Encode;
        var last := if 3 * k + 3 <= |b| then 3 * k + 3 else |b|;
        var size := last - 3 * k + 1;
        assert b[3..][3 * (k - 1)..last - 3] == b[3 * k..last];
        SkipFront(first, rest, 4 * (k - 1), 4 * (k - 1) + size);
      }
    }
  }

  lemma SkipFront(first: string, rest: string, i: nat, j: nat)
    requires i <= j <= |rest|
    ensures (first + rest)[|first| + i..|first| + j] == rest[i..j]
  {
  }

  /** Hex text: an even number of digits of either case, each pair one byte with the high digit first. */
  lemma {:induction false} HexExactly(s: string)
    ensures Hex.Decode(s).Some? <==> |s| % 2 == 0 && forall i | 0 <= i < |s| :: JsonReader.HexValue(s[i]).Some?
    ensures Hex.Decode(s).Some? ==>
              && |s| == 2 * |Hex.Decode(s).value|
              && forall k | 0 <= k < |Hex.Decode(s).value| ::
                   Hex.Decode(s).value[k] as int
                   == 16 * JsonReader.HexValue(s[2 * k]).value + JsonReader.HexValue(s[2 * k + 1]).value
  {
    HexDigitExactly();
    hide Hex.DigitOf;
    hide JsonReader.HexValue;
    if |s| >= 2 {
      HexExactly(s[2..]);
      assert forall i | 2 <= i < |s| :: s[i] == s[2..][i - 2];
      if Hex.Decode(s).Some? {
        var b, rest := Hex.Decode(s).value, Hex.Decode(s[2..]).value;
        forall k | 0 <= k < |b|
          ensures b[k] as int == 16 * JsonReader.HexValue(s[2 * k]).value + JsonReader.HexValue(s[2 * k + 1]).value
        {
          if k > 0 {
            assert b[k] == rest[k - 1];
            assert s[2 * k] == s[2..][2 * (k - 1)] && s[2 * k + 1] == s[2..][2 * (k - 1) + 1];
          }
        }
      }
    }
  }

  lemma HexDigitExactly()
    ensures forall c :: Hex.DigitOf(c) == JsonReader.HexValue(c)
  {
  }

  /** The byte forms of section 3 of RFC 3629: the marker bits, and six payload bits in every byte that continues. */
  lemma CharBytesExactly(c: char)
    ensures var n, b := c as int, Utf8.CharBytes(c);
            && |b| == (if n < 0x80 then 1 else if n < 0x800 then 2 else if n < 0x1_0000 then 3 else 4)
            && (forall i | 1 <= i < |b| :: 0x80 <= b[i] < 0xC0)
            && (|b| == 1 ==> b[0] == n)
            && (|b| == 2 ==> 0xC0 <= b[0] < 0xE0 && n == 64 * (b[0] as int - 0xC0) + (b[1] as int - 0x80))
            && (|b| == 3 ==> 0xE0 <= b[0] < 0xF0 && n == 4096 * (b[0] as int - 0xE0) + 64 * (b[1] as int - 0x80) + (b[2] as int - 0x80))
            && (|b| == 4 ==> 0xF0 <= b[0] < 0xF8
                             && n == 262144 * (b[0] as int - 0xF0) + 4096 * (b[1] as int - 0x80) + 64 * (b[2] as int - 0x80) + (b[3] as int - 0x80))
  {
    Utf8.Digits(c as int);
  }
}

module JwsExactly {
  import opened Wrappers
  import opened Text
  import opened CanonicalJson
  import opened JsonReader
  import opened JsonReading
  import opened EventReading
  import opened Jws
  import Utf8
  import Base64Url

  /** The printed header is the JSON object of exactly these three members, in this order. */
  lemma HeaderReads(alg: Algorithm, kid: string)
    ensures Read(HeaderText(alg, kid)) == Some(TObject([
              Member("alg", TString(if alg.EdDsa? then "EdDSA" else "ES256K")),
              Member("kid", TString(kid)),
              Member("typ", TString("JOSE+JSON"))]))
  {
    HeaderIsFields(alg, kid);
    AllPlain(alg);
    var name := Name(alg);
    hide HeaderText;
    hide ReadMembers;
    hide ReadValue;
    hide Field;
    hide Plain;
    hide Represents;
    var typ := Field("typ", Str("JOSE+JSON"), "}");
    var p2 := ReadsLast("typ", Str("JOSE+JSON"));
    var kidField := Field("kid", Str(kid), "," + typ);
    var p1 := ReadsNext("kid", Str(kid), typ, p2);
    var p0 := ReadsNext("alg", Str(name), kidField, p1);
    StringOnly(p2[0], "JOSE+JSON");
    StringOnly(p1[0], kid);
    StringOnly(p0[0], name);
    assert p0 == [p0[0], p1[0], p2[0]];
    var inner := Field("alg", Str(name), "," + kidField);
    FieldStarts("alg", Str(name), "," + kidField);
    ReadsBrace(inner, p0, "");
    WholeText("{" + inner, TObject(p0));
    hide Read;
  }

  lemma AllPlain(alg: Algorithm)
    ensures Plain("alg") && Plain("kid") && Plain("typ") && Plain("JOSE+JSON") && Plain(Name(alg))
  {
  }

  lemma HeaderIsFields(alg: Algorithm, kid: string)
    ensures HeaderText(alg, kid) ==
            "{" + Field("alg", Str(Name(alg)), "," + Field("kid", Str(kid), "," + Field("typ", Str("JOSE+JSON"), "}")))
  {
    AllPlain(alg);
    var name, typ := Name(alg), "JOSE+JSON";
    PlainIsUnescaped(name);
    PlainIsUnescaped(typ);
    assert Canonical(Str(name)) == "\"" + name + "\"" && Canonical(Str(typ)) == "\"" + typ + "\"";
    assert Canonical(Str(kid)) == JsonString(kid);
    hide JsonString;
    hide Canonical;
    hide Name;
    var tail := Field("typ", Str(typ), "}");
    TypText();
    assert ",\"typ\":\"JOSE+JSON\"}" == "," + tail;
    hide Plain;
    var middle := Field("kid", Str(kid), "," + tail);
    Assemble(name, JsonString(kid), "," + tail, middle);
  }

  lemma TypText()
    ensures ",\"typ\":\"JOSE+JSON\"}" == "," + ("\"" + "typ" + "\":" + ("\"" + "JOSE+JSON" + "\"" + "}"))
  {
  }

  lemma Assemble(name: string, kid: string, tail: string, middle: string)
    requires middle == "\"" + "kid" + "\":" + (kid + tail)
    ensures "{\"alg\":\"" + name + "\",\"kid\":" + kid + tail
            == "{" + ("\"" + "alg" + "\":" + ("\"" + name + "\"" + ("," + middle)))
  {
    assert "\",\"kid\":" == "\"" + ("," + ("\"" + "kid" + "\":"));
    assert "{\"alg\":\"" == "{" + ("\"" + "alg" + "\":" + "\"");
  }

  // ---------- verification ----------

  /** The members of a header that verification takes for `header`. */
  ghost predicate HeaderMembers(members: map<string, Json>, header: Header) {
    && "alg" in members && members["alg"] == Str(if header.alg.EdDsa? then "EdDSA" else "ES256K")
    && "kid" in members && members["kid"] == Str(header.kid)
    && match header.typ
       case Some(typ) => "typ" in members && members["typ"] == Str(typ)
       case None => "typ" in members ==> members["typ"] == Null
  }

  lemma ReadHeaderExactly(v: Json)
    ensures forall header :: ReadHeader(v) == Ok(header) <==> v.Object? && HeaderMembers(v.members, header)
    ensures ReadHeader(v) == Err(AlgorithmMalformed) <==> v.Object? && "alg" in v.members && !v.members["alg"].Str?
    ensures forall s :: ReadHeader(v) == Err(AlgorithmNotPermitted(s)) <==>
              v.Object? && "alg" in v.members && v.members["alg"] == Str(s) && s != "EdDSA" && s != "ES256K"
  {
  }

  /** What the text, the parser, the lookup and the signature check must say for `verified` to come out. */
  ghost predicate Accepts(env: Env, jws: string, verified: Verified) {
    var parts := Split('.', jws);
    && |parts| == 3 && (forall part | part in parts :: |Utf8.Bytes(part)| <= 65536)
    && Base64Url.Encode(verified.payload) == parts[1]
    && verified.header.kid != ""
    && exists head: seq<Byte>, signature: seq<Byte>, members: map<string, Json>, key: Key ::
         && Base64Url.Encode(head) == parts[0] && Base64Url.Encode(signature) == parts[2]
         && env.parse(head) == Some(Object(members)) && HeaderMembers(members, verified.header)
         && env.lookup(verified.header.kid) == Ok(Some(key)) && key.alg == verified.header.alg
         && env.verifies(key, parts[0] + "." + parts[1], signature)
  }

  lemma DecodesIffEncodes(s: string, b: seq<Byte>)
    ensures Base64Url.Decode(s) == Some(b) <==> Base64Url.Encode(b) == s
  {
    Base64Url.EncodeThenDecode(b);
    if Base64Url.Decode(s) == Some(b) { Base64Url.DecodeThenEncode(s); }
    hide Base64Url.Encode;
    hide Base64Url.Decode;
  }

  lemma VerifiedIsAccepted(env: Env, jws: string, verified: Verified)
    requires Verify(env, jws) == Ok(verified)
    ensures Accepts(env, jws, verified)
  {
    hide Split;
    hide Base64Url.Encode;
    hide Base64Url.Decode;
    hide Utf8.Bytes;
    hide ReadHeader;
    hide HeaderMembers;
    var parts := Split('.', jws);
    var head, signature := Base64Url.Decode(parts[0]).value, Base64Url.Decode(parts[2]).value;
    DecodesIffEncodes(parts[0], head);
    DecodesIffEncodes(parts[1], verified.payload);
    DecodesIffEncodes(parts[2], signature);
    var v := env.parse(head).value;
    ReadHeaderExactly(v);
    assert v == Object(v.members) && HeaderMembers(v.members, verified.header);
    assert forall part | part in parts :: part == parts[0] || part == parts[1] || part == parts[2];
  }

  lemma AcceptedIsVerified(env: Env, jws: string, verified: Verified)
    requires Accepts(env, jws, verified)
    ensures Verify(env, jws) == Ok(verified)
  {
    hide Split;
    hide Base64Url.Encode;
    hide Base64Url.Decode;
    hide Utf8.Bytes;
    hide ReadHeader;
    hide HeaderMembers;
    var parts := Split('.', jws);
    var head: seq<Byte>, signature: seq<Byte>, members: map<string, Json>, key: Key :|
      && Base64Url.Encode(head) == parts[0] && Base64Url.Encode(signature) == parts[2]
      && env.parse(head) == Some(Object(members)) && HeaderMembers(members, verified.header)
      && env.lookup(verified.header.kid) == Ok(Some(key)) && key.alg == verified.header.alg
      && env.verifies(key, parts[0] + "." + parts[1], signature);
    DecodesIffEncodes(parts[0], head);
    DecodesIffEncodes(parts[1], verified.payload);
    DecodesIffEncodes(parts[2], signature);
    ReadHeaderExactly(Object(members));
    assert parts[0] in parts && parts[1] in parts && parts[2] in parts;
  }

  /** Verification gives a result exactly when all of that holds. */
  lemma VerifiesExactly(env: Env, jws: string, verified: Verified)
    ensures Verify(env, jws) == Ok(verified) <==> Accepts(env, jws, verified)
  {
    hide Verify;
    hide Accepts;
    if Verify(env, jws) == Ok(verified) { VerifiedIsAccepted(env, jws, verified); }
    if Accepts(env, jws, verified) { AcceptedIsVerified(env, jws, verified); }
  }

  // ---------- refusals ----------

  /** The caller's own lookup may fail with any error. */
  ghost predicate LookupFails(env: Env, error: JwsError) { exists kid :: env.lookup(kid) == Err(error) }

  /** The key found for `kid` refuses some signature over `input`. */
  ghost predicate KeyRefuses(env: Env, kid: string, input: string) {
    env.lookup(kid).Ok? && env.lookup(kid).value.Some?
    && exists signature :: !env.verifies(env.lookup(kid).value.value, input, signature)
  }

  /** The error is one of the lookup, or says what is so of the key and the signature. */
  ghost predicate TrueRefusal(env: Env, input: string, error: JwsError) {
    || LookupFails(env, error)
    || match error
       case UnknownKid(kid) => kid != "" && env.lookup(kid) == Ok(None)
       case KidAlgMismatch(kid, headerAlg, keyAlg) =>
         headerAlg != keyAlg && env.lookup(kid).Ok? && env.lookup(kid).value.Some? && env.lookup(kid).value.value.alg == keyAlg
       case BadSignature(kid) => KeyRefuses(env, kid, input)
       case MissingKid => true
       case _ => false
  }

  lemma CheckRefuses(env: Env, input: string, header: Header, payload: seq<Byte>, signature: seq<Byte>)
    ensures var r := CheckSignature(env, input, header, payload, signature);
            r.Err? ==> TrueRefusal(env, input, r.error)
  {
  }

  lemma HeaderErrors(v: Json)
    ensures ReadHeader(v).Err? ==>
              var e := ReadHeader(v).error; e.InvalidHeader? || e.AlgorithmMalformed? || e.AlgorithmNotPermitted?
  {
  }

  /** What each refusal says is so: of the shape of the text, of a segment, of the header, or of key and signature. */
  lemma RefusalsMean(env: Env, jws: string)
    ensures var parts, r := Split('.', jws), Verify(env, jws);
            && (|parts| != 3 ==> r == Err(InvalidStructure))
            && (|parts| == 3 && (TooLarge(parts[0]) || TooLarge(parts[1]) || TooLarge(parts[2])) ==> r == Err(SegmentTooLarge))
            && (r.Err? && |parts| == 3 && !r.error.SegmentTooLarge? ==>
                  || r.error.Base64Decode? || r.error.InvalidHeader? || r.error.AlgorithmMalformed? || r.error.AlgorithmNotPermitted?
                  || TrueRefusal(env, parts[0] + "." + parts[1], r.error))
  {
    var parts := Split('.', jws);
    forall v ensures ReadHeader(v).Err? ==>
                       var e := ReadHeader(v).error; e.InvalidHeader? || e.AlgorithmMalformed? || e.AlgorithmNotPermitted?
    {
      HeaderErrors(v);
    }
    if |parts| == 3 {
      var input := parts[0] + "." + parts[1];
      forall header, payload, signature
        ensures var r := CheckSignature(env, input, header, payload, signature); r.Err? ==> TrueRefusal(env, input, r.error)
      {
        CheckRefuses(env, input, header, payload, signature);
      }
    }
    hide Split;
    hide Base64Url.Decode;
    hide Utf8.Bytes;
    hide ReadHeader;
    hide CheckSignature;
    hide TrueRefusal;
  }
}
