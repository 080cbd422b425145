/** The session token: `signToken` and `verifyToken` (a JWT-shaped string
    `header.payload.signature`, signed with HMAC-SHA256), defined the same
    way in each handler. HMAC, `JSON.stringify`/`JSON.parse` with UTF-8 and
    the clock are parameters of the model. */
module SessionToken {
  import opened Wrappers
  import opened Text
  import B = Base64Url

  /** A value `JSON.parse` can return. Objects are maps from key to value
      (key order carries no meaning for the handlers). */
  datatype Json =
    | JNull
    | JBool(b: bool)
    | JNum(n: real)
    | JStr(s: string)
    | JArr(items: seq<Json>)
    | JObj(fields: map<string, Json>)

  /** `JSON.stringify` followed by UTF-8 encoding, and UTF-8 decoding followed
      by `JSON.parse` (`None` when the text does not parse). */
  datatype JsonCodec = JsonCodec(stringify: Json -> seq<B.Byte>, parse: seq<B.Byte> -> Option<Json>)

  /** Parsing what was stringified gives the value back. */
  ghost predicate RoundTrips(codec: JsonCodec) {
    forall j :: codec.parse(codec.stringify(j)) == Some(j)
  }

  /** `createHmac("sha256", secret).update(message).digest()`. */
  type Mac = (string, string) -> seq<B.Byte>

  /** `TOKEN_TTL_SEC`: seven days in seconds. */
  const TokenTtlSec: int := 60 * 60 * 24 * 7

  /** `Math.floor(Date.now() / 1000)`. */
  function Seconds(nowMs: int): (s: int)
    ensures s * 1000 <= nowMs < s * 1000 + 1000
  {
    nowMs / 1000
  }

  /** The fixed header `{ alg: "HS256", typ: "JWT" }`. */
  function Header(): Json {
    JObj(map["alg" := JStr("HS256"), "typ" := JStr("JWT")])
  }

  /** `{ ...payload, iat: now, exp: now + ttlSec }`: the caller's fields, with
      `iat` and `exp` overriding any of the same name. */
  function FullPayload(payload: map<string, Json>, now: int, ttlSec: int): (full: map<string, Json>)
    ensures full.Keys == payload.Keys + {"iat", "exp"}
    ensures full["iat"] == JNum(now as real) && full["exp"] == JNum((now + ttlSec) as real)
    ensures forall k :: k in payload && k != "iat" && k != "exp" ==> full[k] == payload[k]
  {
    payload["iat" := JNum(now as real)]["exp" := JNum((now + ttlSec) as real)]
  }

  /** `signToken(payload, secret, ttlSec)` at clock `nowMs`. */
  function SignToken(payload: map<string, Json>, secret: string, ttlSec: int, nowMs: int,
                     codec: JsonCodec, mac: Mac): (token: string)
    ensures Split(token, '.') == [
      B.Encode(codec.stringify(Header())),
      B.Encode(codec.stringify(JObj(FullPayload(payload, Seconds(nowMs), ttlSec)))),
      B.Encode(mac(secret, B.Encode(codec.stringify(Header())) + "."
                             + B.Encode(codec.stringify(JObj(FullPayload(payload, Seconds(nowMs), ttlSec))))))]
  {
    var headerPart := B.Encode(codec.stringify(Header()));
    var payloadPart := B.Encode(codec.stringify(JObj(FullPayload(payload, Seconds(nowMs), ttlSec))));
    var toSign := headerPart + "." + payloadPart;
    var sigPart := B.Encode(mac(secret, toSign));
    B.EncodeAlphabet(codec.stringify(Header()));
    B.EncodeAlphabet(codec.stringify(JObj(FullPayload(payload, Seconds(nowMs), ttlSec))));
    B.EncodeAlphabet(mac(secret, toSign));
    ThreeParts(headerPart, payloadPart, sigPart);
    toSign + "." + sigPart
  }

  /** Three `base64url` texts joined by dots split back into those three. */
  lemma ThreeParts(h: string, p: string, s: string)
    requires forall i :: 0 <= i < |h| ==> B.IsUrlChar(h[i])
    requires forall i :: 0 <= i < |p| ==> B.IsUrlChar(p[i])
    requires forall i :: 0 <= i < |s| ==> B.IsUrlChar(s[i])
    ensures Split(h + "." + p + "." + s, '.') == [h, p, s]
  {
    assert h + "." + p + "." + s == h + ['.'] + p + ['.'] + s;
    SplitThree(h, p, s, '.');
  }

  /** The `exp` claim, when it is a number; any other payload has none
      (`typeof payload.exp === "number"` fails). */
  function ExpiryOf(payload: Json): Option<real> {
    if payload.JObj? && "exp" in payload.fields && payload.fields["exp"].JNum?
    then Some(payload.fields["exp"].n)
    else None
  }

  /** `verifyToken(token, secret)` at clock `nowMs`: `None` stands for the
      `null` it returns, including from the `catch` of a failed parse or of
      reading `exp` on a `null` payload. */
  function VerifyToken(token: string, secret: string, nowMs: int,
                       codec: JsonCodec, mac: Mac): (r: Option<Json>)
    ensures r.Some? ==> |Split(token, '.')| == 3
    ensures r.Some? ==>
      var parts := Split(token, '.');
      B.Decode(parts[2]) == mac(secret, parts[0] + "." + parts[1])
      && codec.parse(B.Decode(parts[1])) == r
      && r.value != JNull
      && (ExpiryOf(r.value).None? || ExpiryOf(r.value).value >= Seconds(nowMs) as real)
  {
    var parts := Split(token, '.');
    if |parts| != 3 then None
    else
      var toSign := parts[0] + "." + parts[1];
      var expected := mac(secret, toSign);
      var actual := B.Decode(parts[2]);
      if |actual| != |expected| || actual != expected then None
      else
        match codec.parse(B.Decode(parts[1]))
        case None => None
        case Some(payload) =>
          if payload.JNull? then None
          else
            var now := Seconds(nowMs);
            var exp := ExpiryOf(payload);
            if exp.Some? && exp.value < now as real then None
            else Some(payload)
  }

  // ---------------------------------------------------------------------
  // Properties

  /** A freshly signed token verifies with the same secret, giving back the
      payload with `iat` and `exp`, until `exp` has passed: it is accepted
      at every clock whose whole second is at most `iat + ttlSec`, and
      rejected after. */
  lemma SignVerifyRoundTrip(payload: map<string, Json>, secret: string, ttlSec: int,
                            signedMs: int, nowMs: int, codec: JsonCodec, mac: Mac)
    requires RoundTrips(codec)
    ensures var token := SignToken(payload, secret, ttlSec, signedMs, codec, mac);
      VerifyToken(token, secret, nowMs, codec, mac)
        == if Seconds(signedMs) + ttlSec < Seconds(nowMs) then None
           else Some(JObj(FullPayload(payload, Seconds(signedMs), ttlSec)))
  {
    var full := JObj(FullPayload(payload, Seconds(signedMs), ttlSec));
    var token := SignToken(payload, secret, ttlSec, signedMs, codec, mac);
    var h := B.Encode(codec.stringify(Header()));
    var p := B.Encode(codec.stringify(full));
    var s := B.Encode(mac(secret, h + "." + p));
    assert Split(token, '.') == [h, p, s];
    B.RoundTrip(codec.stringify(full));
    B.RoundTrip(mac(secret, h + "." + p));
    assert codec.parse(B.Decode(p)) == Some(full);
    VerifyParts(token, secret, nowMs, codec, mac, full);
    ExpiryOfFull(payload, Seconds(signedMs), ttlSec);
    var exp := Seconds(signedMs) + ttlSec;
    assert exp as real < Seconds(nowMs) as real <==> exp < Seconds(nowMs);
  }

  /** The `exp` claim of a signed payload is the signing second plus the
      lifetime. */
  lemma ExpiryOfFull(payload: map<string, Json>, now: int, ttlSec: int)
    ensures ExpiryOf(JObj(FullPayload(payload, now, ttlSec))) == Some((now + ttlSec) as real)
  {
  }

  /** A token whose signature checks and whose payload parses to an object
      is accepted exactly while its `exp`, if any, has not passed. */
  lemma VerifyParts(token: string, secret: string, nowMs: int, codec: JsonCodec, mac: Mac, payload: Json)
    requires |Split(token, '.')| == 3
    requires var parts := Split(token, '.');
      B.Decode(parts[2]) == mac(secret, parts[0] + "." + parts[1])
      && codec.parse(B.Decode(parts[1])) == Some(payload)
    requires payload.JObj?
    ensures VerifyToken(token, secret, nowMs, codec, mac)
      == if ExpiryOf(payload).Some? && ExpiryOf(payload).value < Seconds(nowMs) as real then None
         else Some(payload)
  {
  }

  /** A token is only accepted when its third part decodes to the HMAC, under
      the verifying secret, of its first two parts: a token signed with
      another secret whose HMAC differs is rejected. */
  lemma WrongSecretRejected(payload: map<string, Json>, secret: string, other: string,
                            ttlSec: int, signedMs: int, nowMs: int, codec: JsonCodec, mac: Mac)
    requires var h := B.Encode(codec.stringify(Header()));
      var p := B.Encode(codec.stringify(JObj(FullPayload(payload, Seconds(signedMs), ttlSec))));
      mac(other, h + "." + p) != mac(secret, h + "." + p)
    ensures VerifyToken(SignToken(payload, secret, ttlSec, signedMs, codec, mac), other, nowMs, codec, mac).None?
  {
    var h := B.Encode(codec.stringify(Header()));
    var p := B.Encode(codec.stringify(JObj(FullPayload(payload, Seconds(signedMs), ttlSec))));
    B.RoundTrip(mac(secret, h + "." + p));
  }

  /** Replacing the payload part of a signed token breaks it, as long as the
      HMAC of the altered text differs from the original signature. */
  lemma TamperedPayloadRejected(h: string, p: string, p2: string, secret: string, nowMs: int,
                                codec: JsonCodec, mac: Mac)
    requires forall i :: 0 <= i < |h| ==> B.IsUrlChar(h[i])
    requires forall i :: 0 <= i < |p2| ==> B.IsUrlChar(p2[i])
    requires mac(secret, h + "." + p2) != mac(secret, h + "." + p)
    ensures VerifyToken(h + "." + p2 + "." + B.Encode(mac(secret, h + "." + p)), secret, nowMs, codec, mac).None?
  {
    var sig := mac(secret, h + "." + p);
    B.EncodeAlphabet(sig);
    ThreeParts(h, p2, B.Encode(sig));
    B.RoundTrip(sig);
  }

  /** The header part is never inspected: any first part, with a matching
      HMAC, is accepted, whatever `alg` it names. */
  lemma HeaderNotChecked(h: string, p: string, secret: string, nowMs: int, codec: JsonCodec, mac: Mac)
    requires forall i :: 0 <= i < |h| ==> B.IsUrlChar(h[i])
    requires forall i :: 0 <= i < |p| ==> B.IsUrlChar(p[i])
    requires codec.parse(B.Decode(p)) == Some(JObj(map["sub" := JStr("u")]))
    ensures VerifyToken(h + "." + p + "." + B.Encode(mac(secret, h + "." + p)), secret, nowMs, codec, mac)
            == Some(JObj(map["sub" := JStr("u")]))
  {
    var sig := mac(secret, h + "." + p);
    B.EncodeAlphabet(sig);
    ThreeParts(h, p, B.Encode(sig));
    B.RoundTrip(sig);
    assert ExpiryOf(JObj(map["sub" := JStr("u")])).None?;
  }

  /** A token without `exp` never expires, and a signed payload that is not
      an object (a number, say) is returned as it is. */
  lemma NonObjectPayloadAccepted(h: string, p: string, secret: string, nowMs: int,
                                 codec: JsonCodec, mac: Mac)
    requires forall i :: 0 <= i < |h| ==> B.IsUrlChar(h[i])
    requires forall i :: 0 <= i < |p| ==> B.IsUrlChar(p[i])
    requires codec.parse(B.Decode(p)) == Some(JNum(7.0))
    ensures VerifyToken(h + "." + p + "." + B.Encode(mac(secret, h + "." + p)), secret, nowMs, codec, mac)
            == Some(JNum(7.0))
  {
    var sig := mac(secret, h + "." + p);
    B.EncodeAlphabet(sig);
    ThreeParts(h, p, B.Encode(sig));
    B.RoundTrip(sig);
  }
}
