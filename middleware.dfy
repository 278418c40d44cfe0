/**
 * `AuthMiddleware` of internal/infra/http/middleware.go: the gate in front
 * of protected routes. It reads the `Authorization` header (the empty
 * string when absent), splits it on single spaces, asks the JWT provider to
 * validate the second part, and either answers 401 itself or hands the
 * request on with `user_id` in its context. This is a stricter cousin of the
 * bearer scheme of section 2.1 of RFC 6750: "Bearer" is case-sensitive and
 * exactly one space separates it from the token.
 */
module Middleware {
  import opened Wrappers
  import Strings
  import Jwt

  const StatusUnauthorized: int := 401
  const MissingHeader: string := "missing authorization header"
  const BadHeaderFormat: string := "invalid authorization header format"
  const InvalidToken: string := "invalid token"
  /** The context key the user's id is stored under. */
  const UserIdKey: string := "user_id"

  /** What the gate does with a request. */
  datatype Outcome =
    | Reject(status: int, message: string)  // answered with `http.Error`; `next` is not called
    | Forward(ctx: map<string, string>)     // `next` is called once, with this request context

  /** The decision the middleware makes for a request with this header and
      context, at time `now`. */
  function AuthMiddleware(p: Jwt.JwtProvider, lib: Jwt.Library, authHeader: string,
                          ctx: map<string, string>, now: int): (outcome: Outcome)
  {
    if authHeader == "" then Reject(StatusUnauthorized, MissingHeader)
    else
      var parts := Strings.Split(authHeader, ' ');
      if |parts| != 2 || parts[0] != "Bearer" then Reject(StatusUnauthorized, BadHeaderFormat)
      else match Jwt.ValidateToken(p, lib, parts[1], now)
        case Err(_) => Reject(StatusUnauthorized, InvalidToken)
        case Ok(claims) => Forward(ctx[UserIdKey := claims.userId])
  }

  /** A well-formed header, stated without splitting: "Bearer", one space,
      and a token with no further space. */
  predicate WellFormedBearer(authHeader: string)
  {
    |authHeader| >= 7 && authHeader[..7] == "Bearer " && ' ' !in authHeader[7..]
  }

  /** Splitting on ' ' gives exactly ["Bearer", t] iff the header is "Bearer "
      followed by a space-free `t`, and `t` is then the rest of the header. */
  lemma {:induction false} BearerSplit(authHeader: string)
    ensures var parts := Strings.Split(authHeader, ' ');
      (|parts| == 2 && parts[0] == "Bearer") <==> WellFormedBearer(authHeader)
    ensures WellFormedBearer(authHeader) ==> Strings.Split(authHeader, ' ') == ["Bearer", authHeader[7..]]
  {
    var parts := Strings.Split(authHeader, ' ');
    if |parts| == 2 && parts[0] == "Bearer" {
      Strings.SplitJoin(authHeader, ' ');
      assert parts[1..] == [parts[1]];
      assert authHeader == "Bearer" + [' '] + parts[1];
      assert ' ' !in parts[1];
      assert authHeader[7..] == parts[1];
    }
    if WellFormedBearer(authHeader) {
      assert authHeader == "Bearer" + [' '] + authHeader[7..];
      Strings.SplitAt("Bearer", ' ', authHeader[7..]);
      Strings.SplitNone(authHeader[7..], ' ');
    }
  }

  /** Every refusal is a 401 with one of three fixed messages, never a
      server error. */
  lemma RejectionsAreUnauthorized(p: Jwt.JwtProvider, lib: Jwt.Library, authHeader: string,
                                  ctx: map<string, string>, now: int)
    ensures var o := AuthMiddleware(p, lib, authHeader, ctx, now);
      o.Reject? ==> o.status == StatusUnauthorized && o.message in {MissingHeader, BadHeaderFormat, InvalidToken}
  {
  }

  /** No header: 401 "missing authorization header". */
  lemma MissingHeaderRejected(p: Jwt.JwtProvider, lib: Jwt.Library, ctx: map<string, string>, now: int)
    ensures AuthMiddleware(p, lib, "", ctx, now) == Reject(StatusUnauthorized, MissingHeader)
  {
  }

  /** A present header is refused for its format exactly when it is not
      "Bearer", one space and a space-free token. */
  lemma {:induction false} FormatRejectedIff(p: Jwt.JwtProvider, lib: Jwt.Library, authHeader: string,
                                             ctx: map<string, string>, now: int)
    requires authHeader != ""
    ensures AuthMiddleware(p, lib, authHeader, ctx, now) == Reject(StatusUnauthorized, BadHeaderFormat)
      <==> !WellFormedBearer(authHeader)
  {
    BearerSplit(authHeader);
  }

  /** A well-formed header is decided by validating exactly the text after
      the space: any validation failure is the single 401 "invalid token",
      and a success forwards with `user_id` set to the token's user id and
      the rest of the context as it was. */
  lemma {:induction false} TokenDecides(p: Jwt.JwtProvider, lib: Jwt.Library, authHeader: string,
                                        ctx: map<string, string>, now: int)
    requires WellFormedBearer(authHeader)
    ensures var o := AuthMiddleware(p, lib, authHeader, ctx, now);
      var v := Jwt.ValidateToken(p, lib, authHeader[7..], now);
      && (v.Err? ==> o == Reject(StatusUnauthorized, InvalidToken))
      && (v.Ok? ==> o == Forward(ctx[UserIdKey := v.value.userId]))
  {
    BearerSplit(authHeader);
  }

  /** The request reaches `next` exactly when the header is well formed and
      the token after the space validates. */
  lemma {:induction false} ForwardIff(p: Jwt.JwtProvider, lib: Jwt.Library, authHeader: string,
                                      ctx: map<string, string>, now: int)
    ensures AuthMiddleware(p, lib, authHeader, ctx, now).Forward? <==>
      WellFormedBearer(authHeader) && Jwt.ValidateToken(p, lib, authHeader[7..], now).Ok?
  {
    BearerSplit(authHeader);
  }

  /** Headers refused for their format: no token, another scheme, a token
      with a space, and a lower-case scheme. */
  lemma {:induction false} FormatExamples(p: Jwt.JwtProvider, lib: Jwt.Library, ctx: map<string, string>, now: int)
    ensures AuthMiddleware(p, lib, "Bearer", ctx, now) == Reject(StatusUnauthorized, BadHeaderFormat)
    ensures AuthMiddleware(p, lib, "Token abc", ctx, now) == Reject(StatusUnauthorized, BadHeaderFormat)
    ensures AuthMiddleware(p, lib, "Bearer a b", ctx, now) == Reject(StatusUnauthorized, BadHeaderFormat)
    ensures AuthMiddleware(p, lib, "bearer x", ctx, now) == Reject(StatusUnauthorized, BadHeaderFormat)
  {
    FormatRejectedIff(p, lib, "Bearer", ctx, now);
    FormatRejectedIff(p, lib, "Token abc", ctx, now);
    FormatRejectedIff(p, lib, "Bearer a b", ctx, now);
    assert "Bearer a b"[7..][1] == ' ';
    FormatRejectedIff(p, lib, "bearer x", ctx, now);
    assert "bearer x"[0] != "Bearer "[0];
  }

  /** "Bearer " passes the format check with the empty token, which then
      fails validation. */
  lemma {:induction false} EmptyBearerToken(p: Jwt.JwtProvider, lib: Jwt.Library, ctx: map<string, string>, now: int)
    ensures AuthMiddleware(p, lib, "Bearer ", ctx, now) == Reject(StatusUnauthorized, InvalidToken)
  {
    assert WellFormedBearer("Bearer ");
    assert "Bearer "[7..] == "";
    TokenDecides(p, lib, "Bearer ", ctx, now);
    Jwt.EmptyTokenMalformed(p, lib, now);
  }
}
