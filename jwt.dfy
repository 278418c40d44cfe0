/**
 * `JWTProvider` of internal/infra/security/jwt.go: issuing HS256 tokens
 * (section 3.2 of RFC 7518) that carry a `user_id` claim with the `iat` and
 * `exp` claims (sections 4.1.6 and 4.1.4 of RFC 7519), and validating them.
 *
 * The provider is an immutable value: its secret is fixed when it is built
 * and nothing here changes it. The JWT library's base64url/JSON encodings
 * and its HMAC are abstract (`Library`); how the library cuts a compact
 * token into three segments, looks up the `alg` header (section 4.1.1 of
 * RFC 7515), asks the key function, checks the signature and checks `exp`
 * is modelled step by step. Times are whole seconds.
 */
module Jwt {
  import opened Wrappers
  import Strings

  /** Families of the signing methods the library registers. */
  datatype Family = HMAC | RSA | RSAPSS | ECDSA | EdDSA | Unsecured

  const HS256: string := "HS256"

  /** The `alg` values of the HMAC family. */
  const HmacAlgs: set<string> := {"HS256", "HS384", "HS512"}

  /** The signing method the library registers under an `alg` value, if any. */
  function MethodFamily(alg: string): (family: Option<Family>)
    ensures family == Some(HMAC) <==> alg in HmacAlgs
    ensures family == Some(Unsecured) <==> alg == "none"
  {
    if alg in HmacAlgs then Some(HMAC)
    else if alg in {"RS256", "RS384", "RS512"} then Some(RSA)
    else if alg in {"PS256", "PS384", "PS512"} then Some(RSAPSS)
    else if alg in {"ES256", "ES384", "ES512"} then Some(ECDSA)
    else if alg == "EdDSA" then Some(EdDSA)
    else if alg == "none" then Some(Unsecured)
    else None
  }

  /** `TokenClaims`: `user_id` and the registered `iat`, `exp` and `nbf`
      claims (sections 4.1.6, 4.1.4 and 4.1.5 of RFC 7519). A decoded token
      may lack any of the dates; the provider itself never sets `nbf`. */
  datatype Claims = Claims(userId: string, issuedAt: Option<int>, expiresAt: Option<int>, notBefore: Option<int>)

  predicate Base64UrlChar(c: char)
  {
    'A' <= c <= 'Z' || 'a' <= c <= 'z' || '0' <= c <= '9' || c == '-' || c == '_'
  }

  /** Text in the unpadded base64url alphabet of a compact token's segments. */
  predicate IsBase64Url(s: string)
  {
    forall i :: 0 <= i < |s| ==> Base64UrlChar(s[i])
  }

  /** What the model needs of the JWT library: the encoded header segment
      for an `alg`, the claims segment, the segment of raw bytes (the
      signature), their decodings (`None` for text that does not decode),
      and the HMAC of a signing input under a key for an HMAC `alg`. */
  datatype Library = Library(
    encodeHeader: string -> string,
    decodeHeader: string -> Option<string>,
    encodeClaims: Claims -> string,
    decodeClaims: string -> Option<Claims>,
    encodeSegment: string -> string,
    decodeSegment: string -> Option<string>,
    hmac: (string, string, string) -> string)
  {
    /** What the model assumes of the library: each decoding undoes its
        encoding, every encoding is base64url text, and an HMAC tag pins
        down the key that made it. */
    ghost predicate Sound()
    {
      && (forall alg :: decodeHeader(encodeHeader(alg)) == Some(alg) && IsBase64Url(encodeHeader(alg)))
      && (forall c :: decodeClaims(encodeClaims(c)) == Some(c) && IsBase64Url(encodeClaims(c)))
      && (forall b :: decodeSegment(encodeSegment(b)) == Some(b) && IsBase64Url(encodeSegment(b)))
      && (forall alg, key1, key2, m :: hmac(alg, key1, m) == hmac(alg, key2, m) ==> key1 == key2)
    }
  }

  /** The JWS compact form: header, claims and signature segments joined by '.'. */
  function Compact(header: string, claims: string, signature: string): (token: string)
    ensures |token| == |header| + |claims| + |signature| + 2
    ensures token[|header|] == '.' && token[|header| + |claims| + 1] == '.'
  {
    header + "." + claims + "." + signature
  }

  datatype JwtProvider = JwtProvider(secretKey: string)

  /** `SignedString` of an HS256 token: the header and the claims encoded,
      then the HMAC of the two segments under the provider's secret. */
  function SignedString(p: JwtProvider, lib: Library, claims: Claims): (token: string)
  {
    var header := lib.encodeHeader(HS256);
    var payload := lib.encodeClaims(claims);
    Compact(header, payload, lib.encodeSegment(lib.hmac(HS256, p.secretKey, header + "." + payload)))
  }

  /** `GenerateToken`: an HS256 token for `userId`, issued at `now` and
      expiring `duration` seconds later, signed with the provider's secret. */
  function GenerateToken(p: JwtProvider, lib: Library, userId: string, duration: int, now: int): (token: string)
  {
    SignedString(p, lib, Claims(userId, Some(now), Some(now + duration), None))
  }

  /** The key function handed to the parser: a key only for an `alg` of the
      HMAC family, and then always the provider's own secret. */
  function KeyFunc(p: JwtProvider, alg: string): (key: Result<string, string>)
  {
    if MethodFamily(alg) == Some(HMAC) then Ok(p.secretKey)
    else Err("unexpected signing method: " + alg)
  }

  /** Why the library refuses a token. */
  datatype TokenError =
    | Malformed                     // not three segments, or a segment that does not decode
    | MethodUnavailable(alg: string)  // no signing method registered under `alg`
    | KeyFuncFailed(reason: string)   // the key function refused to supply a key
    | SignatureInvalid              // the signature does not verify under the key
    | Expired                       // `exp` is not after the validation time
    | NotValidYet                   // `nbf` is after the validation time

  /** The library's `ParseWithClaims` with the checks this project leaves
      enabled, in the library's order: the format, the signing method, the
      key, the signature, then the validator's `exp` and `nbf` checks (`iat`,
      `aud`, `iss` and `sub` are checked only on request, and nothing here
      requests them). When both `exp` and `nbf` fail the library joins the
      two errors; the model reports the first, `Expired`. */
  function ParseWithClaims(lib: Library, token: string, keyFunc: string -> Result<string, string>, now: int)
    : (r: Result<Claims, TokenError>)
  {
    var parts := Strings.Split(token, '.');
    if |parts| != 3 then Err(Malformed)
    else match lib.decodeHeader(parts[0])
      case None => Err(Malformed)
      case Some(alg) =>
        match lib.decodeClaims(parts[1])
        case None => Err(Malformed)
        case Some(claims) =>
          match MethodFamily(alg)
          case None => Err(MethodUnavailable(alg))
          case Some(family) =>
            match lib.decodeSegment(parts[2])
            case None => Err(Malformed)
            case Some(signature) =>
              match keyFunc(alg)
              case Err(reason) => Err(KeyFuncFailed(reason))
              case Ok(key) =>
                if family != HMAC || signature != lib.hmac(alg, key, parts[0] + "." + parts[1]) then
                  Err(SignatureInvalid)
                else if claims.expiresAt.Some? && !(now < claims.expiresAt.value) then
                  Err(Expired)
                else if claims.notBefore.Some? && now < claims.notBefore.value then
                  Err(NotValidYet)
                else
                  Ok(claims)
  }

  /** `ValidateToken`: the claims of a token the provider accepts at `now`,
      or the library's error as it is. */
  function ValidateToken(p: JwtProvider, lib: Library, token: string, now: int): (r: Result<Claims, TokenError>)
  {
    ParseWithClaims(lib, token, alg => KeyFunc(p, alg), now)
  }

  /** When a token is accepted, stated without the parser's steps: it is
      three '.'-free segments, the header names an HMAC `alg`, the claims
      decode, the signature is the HMAC of the first two segments under the
      provider's secret, `exp`, if present, is after `now`, and `nbf`, if
      present, is not. */
  ghost predicate Accepts(p: JwtProvider, lib: Library, token: string, now: int, c: Claims)
  {
    exists header, payload, signature {:trigger Compact(header, payload, signature)} ::
      && token == Compact(header, payload, signature)
      && '.' !in header && '.' !in payload && '.' !in signature
      && lib.decodeHeader(header).Some?
      && lib.decodeHeader(header).value in HmacAlgs
      && lib.decodeClaims(payload) == Some(c)
      && lib.decodeSegment(signature) == Some(lib.hmac(lib.decodeHeader(header).value, p.secretKey, header + "." + payload))
      && (c.expiresAt.Some? ==> now < c.expiresAt.value)
      && (c.notBefore.Some? ==> c.notBefore.value <= now)
  }

  /** A compact token whose segments are free of '.' splits back into them. */
  lemma CompactSplit(header: string, payload: string, signature: string)
    requires '.' !in header && '.' !in payload && '.' !in signature
    ensures Strings.Split(Compact(header, payload, signature), '.') == [header, payload, signature]
  {
    assert Compact(header, payload, signature) == header + ['.'] + (payload + ['.'] + signature);
    Strings.SplitAt(header, '.', payload + ['.'] + signature);
    Strings.SplitAt(payload, '.', signature);
    Strings.SplitNone(signature, '.');
  }

  /** The key function gives the provider's secret to every HMAC variant,
      not only HS256, and refuses every other `alg` with its own message. */
  lemma KeyFuncGate(p: JwtProvider, alg: string)
    ensures alg in {"HS256", "HS384", "HS512"} ==> KeyFunc(p, alg) == Ok(p.secretKey)
    ensures alg !in {"HS256", "HS384", "HS512"} ==> KeyFunc(p, alg) == Err("unexpected signing method: " + alg)
  {
  }

  /** A token that splits into three segments is their compact form. */
  lemma {:induction false} ThreeSegments(token: string)
    requires |Strings.Split(token, '.')| == 3
    ensures var parts := Strings.Split(token, '.');
      && token == Compact(parts[0], parts[1], parts[2])
      && '.' !in parts[0] && '.' !in parts[1] && '.' !in parts[2]
  {
    var parts := Strings.Split(token, '.');
    Strings.SplitJoin(token, '.');
    assert parts[1..][1..] == [parts[2]];
    assert Strings.Join(parts[1..], '.') == parts[1] + ['.'] + parts[2];
    assert token == parts[0] + ['.'] + (parts[1] + ['.'] + parts[2]);
  }

  /** Validation succeeds exactly on the tokens `Accepts` describes, with
      the claims the token carries. */
  lemma {:induction false} ValidateTokenAccepts(p: JwtProvider, lib: Library, token: string, now: int, c: Claims)
    ensures ValidateToken(p, lib, token, now) == Ok(c) <==> Accepts(p, lib, token, now, c)
  {
    var parts := Strings.Split(token, '.');
    if ValidateToken(p, lib, token, now) == Ok(c) {
      ThreeSegments(token);
      assert MethodFamily(lib.decodeHeader(parts[0]).value) == Some(HMAC);
    }
    if Accepts(p, lib, token, now, c) {
      var header, payload, signature :| && token == Compact(header, payload, signature)
        && '.' !in header && '.' !in payload && '.' !in signature
        && lib.decodeHeader(header).Some?
        && lib.decodeHeader(header).value in HmacAlgs
        && lib.decodeClaims(payload) == Some(c)
        && lib.decodeSegment(signature) == Some(lib.hmac(lib.decodeHeader(header).value, p.secretKey, header + "." + payload))
        && (c.expiresAt.Some? ==> now < c.expiresAt.value)
        && (c.notBefore.Some? ==> c.notBefore.value <= now);
      CompactSplit(header, payload, signature);
    }
  }

  /** A token whose header names an `alg` outside the HMAC family is refused
      before any key is handed out: the outcome is an error, and it does not
      depend on the provider's secret or on what the HMAC computes. */
  lemma NonHmacRejected(p: JwtProvider, q: JwtProvider, lib: Library,
                        mac: (string, string, string) -> string, token: string, alg: string, now: int)
    requires |Strings.Split(token, '.')| == 3
    requires lib.decodeHeader(Strings.Split(token, '.')[0]) == Some(alg)
    requires alg !in HmacAlgs
    ensures ValidateToken(p, lib, token, now).Err?
    ensures ValidateToken(p, lib, token, now) == ValidateToken(q, lib.(hmac := mac), token, now)
  {
  }

  /** A token signed by the provider splits into its three segments: an
      HS256 header, the claims, and the HMAC of the first two segments under
      the provider's own secret. */
  lemma SignedShape(p: JwtProvider, lib: Library, claims: Claims)
    requires lib.Sound()
    ensures var parts := Strings.Split(SignedString(p, lib, claims), '.');
      && |parts| == 3
      && lib.decodeHeader(parts[0]) == Some(HS256)
      && lib.decodeClaims(parts[1]) == Some(claims)
      && lib.decodeSegment(parts[2]) == Some(lib.hmac(HS256, p.secretKey, parts[0] + "." + parts[1]))
  {
    var header := lib.encodeHeader(HS256);
    var payload := lib.encodeClaims(claims);
    var signature := lib.encodeSegment(lib.hmac(HS256, p.secretKey, header + "." + payload));
    CompactSplit(header, payload, signature);
  }

  /** The claims of a generated token: `user_id` is `userId`, `iat` is `now`,
      `exp` is `now + duration` and there is no `nbf`, under an HS256
      header, signed by the HMAC of the first two segments under the
      provider's own secret. */
  lemma GeneratedTokenShape(p: JwtProvider, lib: Library, userId: string, duration: int, now: int)
    requires lib.Sound()
    ensures var parts := Strings.Split(GenerateToken(p, lib, userId, duration, now), '.');
      && |parts| == 3
      && lib.decodeHeader(parts[0]) == Some(HS256)
      && lib.decodeClaims(parts[1]) == Some(Claims(userId, Some(now), Some(now + duration), None))
      && lib.decodeSegment(parts[2]) == Some(lib.hmac(HS256, p.secretKey, parts[0] + "." + parts[1]))
      && MethodFamily(HS256) == Some(HMAC)
  {
    SignedShape(p, lib, Claims(userId, Some(now), Some(now + duration), None));
  }

  /** A token signed under the provider's own secret, with any claims, is
      judged on its dates alone: refused as expired from `exp` on, refused as
      not yet valid before `nbf`, and otherwise accepted with its claims. */
  lemma {:induction false} ValidateSigned(p: JwtProvider, lib: Library, claims: Claims, now: int)
    requires lib.Sound()
    ensures ValidateToken(p, lib, SignedString(p, lib, claims), now) ==
      if claims.expiresAt.Some? && now >= claims.expiresAt.value then Err(Expired)
      else if claims.notBefore.Some? && now < claims.notBefore.value then Err(NotValidYet)
      else Ok(claims)
  {
    SignedShape(p, lib, claims);
  }

  /** A generated token contains no space, so it survives being put after
      "Bearer " and split on ' '. */
  lemma GeneratedTokenHasNoSpace(p: JwtProvider, lib: Library, userId: string, duration: int, now: int)
    requires lib.Sound()
    ensures ' ' !in GenerateToken(p, lib, userId, duration, now)
  {
  }

  /** Round trip: the same provider validates its own token, with the claims
      it put in, until `exp`; from `exp` on the token is refused as expired. */
  lemma {:induction false} ValidateGenerated(p: JwtProvider, lib: Library, userId: string, duration: int, now: int, later: int)
    requires lib.Sound()
    ensures ValidateToken(p, lib, GenerateToken(p, lib, userId, duration, now), later) ==
      if later < now + duration then Ok(Claims(userId, Some(now), Some(now + duration), None)) else Err(Expired)
  {
    ValidateSigned(p, lib, Claims(userId, Some(now), Some(now + duration), None), later);
  }

  /** A token signed under one secret fails validation under any other. */
  lemma {:induction false} OtherSecretRejected(p: JwtProvider, q: JwtProvider, lib: Library,
                                               userId: string, duration: int, now: int, later: int)
    requires lib.Sound()
    requires q.secretKey != p.secretKey
    ensures ValidateToken(q, lib, GenerateToken(p, lib, userId, duration, now), later) == Err(SignatureInvalid)
  {
    GeneratedTokenShape(p, lib, userId, duration, now);
  }

  /** The empty token is malformed: it is one segment, not three. */
  lemma EmptyTokenMalformed(p: JwtProvider, lib: Library, now: int)
    ensures ValidateToken(p, lib, "", now) == Err(Malformed)
  {
  }
}
