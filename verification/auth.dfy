/** Caller identity on the backend (`verify_token`): bearer-token extraction, a call to
    the auth service, and the fallback of reading the identity from the JWT payload
    without verifying its signature. Base64url decoding and JSON parsing are oracles. */
module Auth {
  import opened Wrappers
  import opened JsonValue
  import opened Text
  import opened Http

  /** A byte of the decoded payload. */
  type Byte = b: int | 0 <= b < 256

  /** `base64.urlsafe_b64decode` (`None` when it raises) and `json.loads` on bytes (`None`
      when it raises). */
  datatype Codecs = Codecs(b64decode: string -> Option<seq<Byte>>, parseJson: seq<Byte> -> Option<Json>)

  /** The `=` padding appended to the payload segment: `4 - len % 4` of them. */
  function Padding(segment: string): (pad: string)
    ensures 1 <= |pad| <= 4
    ensures (|segment| + |pad|) % 4 == 0
    ensures forall k | 0 <= k < |pad| :: pad[k] == '='
    ensures |segment| % 4 == 0 ==> |pad| == 4
    ensures |segment| % 4 != 0 ==> |pad| < 4
  {
    Repeat('=', 4 - |segment| % 4)
  }

  /** `_decode_jwt_payload`: the token must split on `.` into exactly three segments (two
      dots); the middle one, padded, must decode and parse. Any failure gives `None`. */
  function DecodeJwtPayload(token: string, codecs: Codecs): (payload: Option<Json>)
    ensures CountChar(token, '.') != 2 ==> payload.None?
    ensures CountChar(token, '.') == 2 ==>
              var seg := Split(token, '.')[1];
              payload == (match codecs.b64decode(seg + Padding(seg))
                          case None => None
                          case Some(bytes) => codecs.parseJson(bytes))
    ensures payload.Some? ==>
              var seg := Split(token, '.')[1];
              && codecs.b64decode(seg + Padding(seg)).Some?
              && codecs.parseJson(codecs.b64decode(seg + Padding(seg)).value) == payload
  {
    var parts := Split(token, '.');
    if |parts| != 3 then None
    else
      var padded := parts[1] + Padding(parts[1]);
      match codecs.b64decode(padded)
      case None => None
      case Some(bytes) => codecs.parseJson(bytes)
  }

  /** A token with exactly two dots is its three segments joined by dots, and the middle
      one is the segment that gets decoded. */
  lemma JwtSegments(token: string)
    requires CountChar(token, '.') == 2
    ensures var parts := Split(token, '.');
            |parts| == 3 && token == parts[0] + "." + parts[1] + "." + parts[2]
            && '.' !in parts[0] && '.' !in parts[1] && '.' !in parts[2]
  {
    var parts := Split(token, '.');
    JoinSplit(token, '.');
    assert Join(parts, ".") == parts[0] + "." + Join(parts[1..], ".");
    assert Join(parts[1..], ".") == parts[1] + "." + Join(parts[2..], ".");
    assert Join(parts[2..], ".") == parts[2];
  }

  /** The prefix `verify_token` strips from the header. */
  const BearerPrefix: string := "Bearer "

  /** The header, when present and non-empty, and the token taken from it. */
  datatype Bearer = NoHeader | Header(raw: string, token: string)

  /** Token extraction of `verify_token`: a missing or empty header is refused; otherwise
      every `"Bearer "` is removed and surrounding whitespace stripped. */
  function ExtractBearer(authorization: Option<string>): (b: Bearer)
    ensures b.NoHeader? <==> authorization.None? || authorization.value == ""
    ensures b.Header? ==> b.raw == authorization.value && |b.token| <= |b.raw|
    ensures b.Header? ==> b.token == PyStrip(RemoveAll(b.raw, BearerPrefix))
  {
    match authorization
    case None => NoHeader
    case Some(h) => if h == "" then NoHeader else Header(h, PyStrip(RemoveAll(h, BearerPrefix)))
  }

  /** A standard header `"Bearer " + t` yields what the rest `t` yields with its own
      `"Bearer "`s removed, which is `t` stripped when `t` holds none; a header without
      `"Bearer "` yields itself stripped. */
  lemma BearerTokenOfStandardHeader(t: string)
    ensures ExtractBearer(Some(BearerPrefix + t)) == Header(BearerPrefix + t, PyStrip(RemoveAll(t, BearerPrefix)))
    ensures !Contains(t, BearerPrefix) ==> ExtractBearer(Some(BearerPrefix + t)) == Header(BearerPrefix + t, PyStrip(t))
    ensures t != "" && !Contains(t, BearerPrefix) ==> ExtractBearer(Some(t)) == Header(t, PyStrip(t))
  {
    RemoveAllLeading(BearerPrefix, t);
    if !Contains(t, BearerPrefix) {
      RemoveAllAbsent(t, BearerPrefix);
    }
  }

  /** The outcome of `verify_token`: the user object, a 401 with its detail, or an
      uncaught exception (the framework answers 500). */
  datatype Verdict = Verified(user: Json) | Unauthorized(detail: string) | ServerError

  const MissingHeaderDetail: string := "Missing Authorization Header"
  const InvalidTokenDetail: string := "Invalid or expired token"

  /** The auth service accepted the caller: status 200 and a JSON object body with a
      `user` member. Any other reply falls through to the JWT: another status, a body that
      is not JSON, or one whose `["user"]` raises (an array, string, number or `null`, or
      an object without `user`), and so does an exception from the call itself. */
  function ServiceAccepts(service: Exchange): (accepted: bool)
    ensures accepted ==> service.Replied? && service.reply.status == 200
    ensures service.Threw? ==> !accepted
    ensures Is200(service) && service.reply.json.Some? ==>
              (accepted <==> service.reply.json.value.JObject? && "user" in service.reply.json.value.fields)
    ensures Is200(service) && service.reply.json.None? ==> !accepted
  {
    && Is200(service)
    && service.reply.json.Some?
    && Member(service.reply.json.value, "user").Some?
  }

  /** The identity built from a JWT payload: `{id: sub, email: email or "unknown"}`. */
  function PayloadIdentity(payload: Json): (user: Json)
    requires payload.JObject? && "sub" in payload.fields
    ensures user.JObject? && user.fields.Keys == {"id", "email"}
    ensures user.fields["id"] == payload.fields["sub"]
    ensures user.fields["email"] == (if "email" in payload.fields then payload.fields["email"] else JString("unknown"))
  {
    Object2("id", payload.fields["sub"], "email", Member(payload, "email").GetOr(JString("unknown")))
  }

  /** The JWT fallback of `verify_token` as written, on the decoded payload: after
      `payload and ...` finds a truthy payload it calls `payload.get`, which raises when the
      payload is not an object. */
  function FallbackAsWritten(payload: Option<Json>): (v: Verdict)
    ensures v == ServerError <==> payload.Some? && PyTruthy(payload.value) && !payload.value.JObject?
  {
    match payload
    case None => Unauthorized(InvalidTokenDetail)
    case Some(p) =>
      if !PyTruthy(p) then Unauthorized(InvalidTokenDetail)
      else if !p.JObject? then ServerError
      else if "sub" in p.fields && PyTruthy(p.fields["sub"]) then Verified(PayloadIdentity(p))
      else Unauthorized(InvalidTokenDetail)
  }

  /** `verify_token` as written: a missing header is refused, an accepting auth service
      wins, and otherwise the decoded payload decides, raising exactly when it is truthy but
      not an object. */
  function VerifyTokenAsWritten(authorization: Option<string>, service: Exchange, codecs: Codecs): (v: Verdict)
    ensures ExtractBearer(authorization).NoHeader? ==> v == Unauthorized(MissingHeaderDetail)
    ensures ExtractBearer(authorization).Header? && ServiceAccepts(service) ==>
              v == Verified(service.reply.json.value.fields["user"])
    ensures v == ServerError <==>
              && ExtractBearer(authorization).Header? && !ServiceAccepts(service)
              && var p := DecodeJwtPayload(ExtractBearer(authorization).token, codecs);
                 p.Some? && PyTruthy(p.value) && !p.value.JObject?
    ensures v.Verified? && !ServiceAccepts(service) ==> v.user.JObject? && v.user.fields.Keys == {"id", "email"}
  {
    match ExtractBearer(authorization)
    case NoHeader => Unauthorized(MissingHeaderDetail)
    case Header(_, token) =>
      if ServiceAccepts(service) then Verified(Member(service.reply.json.value, "user").value)
      else FallbackAsWritten(DecodeJwtPayload(token, codecs))
  }

  /** The token `x.MQ.y`: its middle segment `MQ` is base64url for the byte `1`. */
  const CrashToken: string := "x.MQ.y"

  /** Codecs that decode `MQ==` to the byte `0x31` and parse that byte as the JSON number 1,
      as Python's `base64` and `json` do. */
  function CrashCodecs(): Codecs {
    Codecs(s => if s == "MQ==" then Some([0x31]) else None,
           b => if b == [0x31] then Some(JNumber(1)) else None)
  }

  lemma CrashTokenSplits()
    ensures Split(CrashToken, '.') == ["x", "MQ", "y"]
  {
    assert Split("y", '.') == ["y"] by {
      assert Split("", '.') == [""]; assert "y"[1..] == ""; assert ['y'] + "" == "y";
    }
    assert Split(".y", '.') == ["", "y"] by { assert ".y"[1..] == "y"; }
    assert Split("Q.y", '.') == ["Q", "y"] by { assert "Q.y"[1..] == ".y"; assert ['Q'] + "" == "Q"; }
    assert Split("MQ.y", '.') == ["MQ", "y"] by { assert "MQ.y"[1..] == "Q.y"; assert ['M'] + "Q" == "MQ"; }
    assert Split(".MQ.y", '.') == ["", "MQ", "y"] by { assert ".MQ.y"[1..] == "MQ.y"; }
    assert CrashToken[1..] == ".MQ.y";
    assert ['x'] + "" == "x";
  }

  /** A token shorter than `"Bearer "` with no surrounding whitespace comes back unchanged
      from a standard header. */
  lemma ShortTokenExtracted(t: string)
    requires |t| < |BearerPrefix|
    requires t == [] || (!IsPySpace(t[0]) && !IsPySpace(t[|t| - 1]))
    ensures ExtractBearer(Some(BearerPrefix + t)) == Header(BearerPrefix + t, t)
  {
    BearerTokenOfStandardHeader(t);
    TrimUnchanged(t, IsPySpace);
  }

  /** A header shorter than `"Bearer "` with no surrounding whitespace is its own token. */
  lemma ShortHeaderExtracted(h: string)
    requires 0 < |h| < |BearerPrefix|
    requires !IsPySpace(h[0]) && !IsPySpace(h[|h| - 1])
    ensures ExtractBearer(Some(h)) == Header(h, h)
  {
    TrimUnchanged(h, IsPySpace);
  }

  lemma CrashTokenExtracted()
    ensures ExtractBearer(Some(BearerPrefix + CrashToken)).Header?
    ensures ExtractBearer(Some(BearerPrefix + CrashToken)).token == CrashToken
  {
    ShortTokenExtracted(CrashToken);
  }

  lemma CrashTokenDecodes()
    ensures DecodeJwtPayload(CrashToken, CrashCodecs()) == Some(JNumber(1))
  {
    CrashTokenSplits();
    assert Padding("MQ") == "==";
    assert "MQ" + "==" == "MQ==";
  }

  /** As written, a token whose payload is the truthy non-object `1` makes the fallback
      raise instead of answering 401, whenever the auth service is down. */
  lemma VerifyTokenCrashes(message: string)
    ensures VerifyTokenAsWritten(Some(BearerPrefix + CrashToken), Threw(message), CrashCodecs()) == ServerError
  {
    CrashTokenExtracted();
    CrashTokenDecodes();
    RaisesOnNonObjectPayload(Some(BearerPrefix + CrashToken), Threw(message), CrashCodecs(), JNumber(1));
  }

  /** As written, a truthy payload that is not an object raises whenever the auth service
      does not accept the caller. */
  lemma RaisesOnNonObjectPayload(authorization: Option<string>, service: Exchange, codecs: Codecs, payload: Json)
    requires ExtractBearer(authorization).Header? && !ServiceAccepts(service)
    requires DecodeJwtPayload(ExtractBearer(authorization).token, codecs) == Some(payload)
    requires PyTruthy(payload) && !payload.JObject?
    ensures VerifyTokenAsWritten(authorization, service, codecs) == ServerError
  {
  }

  /** The intended JWT fallback: an object payload with a truthy `sub` yields its identity,
      and every other outcome, decoding failure included, is refused with 401. */
  function Fallback(payload: Option<Json>): (v: Verdict)
    ensures v.Verified? <==>
              payload.Some? && payload.value.JObject? && "sub" in payload.value.fields && PyTruthy(payload.value.fields["sub"])
    ensures v.Verified? ==> v.user == PayloadIdentity(payload.value)
    ensures !v.Verified? ==> v == Unauthorized(InvalidTokenDetail)
  {
    match payload
    case Some(p) =>
      if p.JObject? && "sub" in p.fields && PyTruthy(p.fields["sub"]) then Verified(PayloadIdentity(p))
      else Unauthorized(InvalidTokenDetail)
    case None => Unauthorized(InvalidTokenDetail)
  }

  /** The as-written fallback differs from the intended one only where it raises. */
  lemma FallbackAgreesUnlessCrash(payload: Option<Json>)
    ensures FallbackAsWritten(payload) != ServerError ==> FallbackAsWritten(payload) == Fallback(payload)
    ensures FallbackAsWritten(payload) == ServerError ==> Fallback(payload) == Unauthorized(InvalidTokenDetail)
  {
    if payload.Some? && !PyTruthy(payload.value) && payload.value.JObject? {
      assert payload.value.fields == map[];
    }
  }

  /** `verify_token` with the intended fallback: a missing header is refused, an accepting
      auth service wins, and otherwise the decoded payload decides; it never raises. */
  function VerifyToken(authorization: Option<string>, service: Exchange, codecs: Codecs): (v: Verdict)
    ensures v != ServerError
    ensures ExtractBearer(authorization).NoHeader? ==> v == Unauthorized(MissingHeaderDetail)
    ensures ExtractBearer(authorization).Header? && ServiceAccepts(service) ==>
              v == Verified(service.reply.json.value.fields["user"])
    ensures ExtractBearer(authorization).Header? && !ServiceAccepts(service) ==>
              v == Fallback(DecodeJwtPayload(ExtractBearer(authorization).token, codecs))
  {
    match ExtractBearer(authorization)
    case NoHeader => Unauthorized(MissingHeaderDetail)
    case Header(_, token) =>
      if ServiceAccepts(service) then Verified(Member(service.reply.json.value, "user").value)
      else Fallback(DecodeJwtPayload(token, codecs))
  }

  /** The bare scheme `"Bearer"` is its own token. */
  lemma BareSchemeToken()
    ensures ExtractBearer(Some("Bearer")) == Header("Bearer", "Bearer")
  {
    ShortHeaderExtracted("Bearer");
  }

  /** The token `"Bearer"` holds no dot, so it has no payload. */
  lemma BareSchemeNoPayload(codecs: Codecs)
    ensures DecodeJwtPayload("Bearer", codecs).None?
  {
    assert CountChar("Bearer", '.') == 0;
  }

  /** The bare scheme `"Bearer"` is refused with 401 unless the auth service vouches for
      the caller. */
  lemma BareSchemeRefused(service: Exchange, codecs: Codecs)
    requires !ServiceAccepts(service)
    ensures ExtractBearer(Some("Bearer")) == Header("Bearer", "Bearer")
    ensures VerifyToken(Some("Bearer"), service, codecs) == Unauthorized(InvalidTokenDetail)
  {
    BareSchemeToken();
    BareSchemeNoPayload(codecs);
  }

  /** The corrected definition differs from the code as written only where the latter raises. */
  lemma VerifyTokenAgreesUnlessCrash(authorization: Option<string>, service: Exchange, codecs: Codecs)
    ensures VerifyTokenAsWritten(authorization, service, codecs) != ServerError ==>
              VerifyToken(authorization, service, codecs) == VerifyTokenAsWritten(authorization, service, codecs)
    ensures VerifyTokenAsWritten(authorization, service, codecs) == ServerError ==>
              VerifyToken(authorization, service, codecs) == Unauthorized(InvalidTokenDetail)
  {
    var b := ExtractBearer(authorization);
    if b.Header? && !ServiceAccepts(service) {
      FallbackAgreesUnlessCrash(DecodeJwtPayload(b.token, codecs));
    }
  }

  /** An empty object is falsy and an object's `sub` must be truthy, so the only payloads
      that authenticate are objects with a truthy `sub`; with the auth service unavailable
      a token whose payload lacks one is refused. */
  lemma NoIdentityWithoutSub(authorization: Option<string>, message: string, codecs: Codecs)
    requires ExtractBearer(authorization).Header?
    requires var p := DecodeJwtPayload(ExtractBearer(authorization).token, codecs);
             p.None? || !p.value.JObject? || "sub" !in p.value.fields || !PyTruthy(p.value.fields["sub"])
    ensures VerifyToken(authorization, Threw(message), codecs) == Unauthorized(InvalidTokenDetail)
  {
  }
}
