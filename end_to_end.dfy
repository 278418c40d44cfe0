/**
 * Properties that span the components: a token that Login hands out opens
 * the gate, and the register/login scenario of the service as a whole.
 */
module EndToEnd {
  import opened Wrappers
  import Rsa
  import Jwt
  import opened Repository
  import opened UseCase
  import Middleware

  /** A token from a successful Login, sent as "Bearer <token>" before it
      expires, makes the gate forward the request with `user_id` set to the
      email that logged in. */
  lemma {:induction false} LoginTokenOpensGate(s: Services, users: map<string, User>, sessions: map<string, Session>,
                                               cacheAvailable: bool, email: string, encryptedPassword: string,
                                               now: int, later: int, ctx: map<string, string>)
    requires s.Sound()
    requires LoginOutcome(s, users, sessions, cacheAvailable, email, encryptedPassword, now).err == None
    requires later < now + TokenLifetime
    ensures var token := LoginOutcome(s, users, sessions, cacheAvailable, email, encryptedPassword, now).token;
      Middleware.AuthMiddleware(s.jwtProvider, s.jwtLib, "Bearer " + token, ctx, later) ==
        Middleware.Forward(ctx[Middleware.UserIdKey := email])
  {
    var token := Jwt.GenerateToken(s.jwtProvider, s.jwtLib, email, TokenLifetime, now);
    assert LoginOutcome(s, users, sessions, cacheAvailable, email, encryptedPassword, now).token == token;
    var header := "Bearer " + token;
    Jwt.GeneratedTokenHasNoSpace(s.jwtProvider, s.jwtLib, email, TokenLifetime, now);
    assert header[..7] == "Bearer " && header[7..] == token;
    Middleware.TokenDecides(s.jwtProvider, s.jwtLib, header, ctx, later);
    Jwt.ValidateGenerated(s.jwtProvider, s.jwtLib, email, TokenLifetime, now, later);
  }

  /** The same token is refused from its expiry on. */
  lemma {:induction false} LoginTokenExpires(s: Services, users: map<string, User>, sessions: map<string, Session>,
                                             cacheAvailable: bool, email: string, encryptedPassword: string,
                                             now: int, later: int, ctx: map<string, string>)
    requires s.Sound()
    requires LoginOutcome(s, users, sessions, cacheAvailable, email, encryptedPassword, now).err == None
    requires later >= now + TokenLifetime
    ensures var token := LoginOutcome(s, users, sessions, cacheAvailable, email, encryptedPassword, now).token;
      Middleware.AuthMiddleware(s.jwtProvider, s.jwtLib, "Bearer " + token, ctx, later) ==
        Middleware.Reject(Middleware.StatusUnauthorized, Middleware.InvalidToken)
  {
    var token := Jwt.GenerateToken(s.jwtProvider, s.jwtLib, email, TokenLifetime, now);
    var header := "Bearer " + token;
    Jwt.GeneratedTokenHasNoSpace(s.jwtProvider, s.jwtLib, email, TokenLifetime, now);
    assert header[..7] == "Bearer " && header[7..] == token;
    Middleware.TokenDecides(s.jwtProvider, s.jwtLib, header, ctx, later);
    Jwt.ValidateGenerated(s.jwtProvider, s.jwtLib, email, TokenLifetime, now, later);
  }

  /** The service's scenario: on a store without the email, registering it
      with "secret1" succeeds; registering it again fails with the store's
      duplicate-entry error and changes nothing; logging in with "secret1" yields a token the gate accepts for
      that email; logging in with "wrongpass" gives "invalid credentials". */
  lemma {:induction false} RegisterLoginScenario(s: Services, encrypt: (string, nat) -> string,
                                                 users: map<string, User>, sessions: map<string, Session>,
                                                 cacheAvailable: bool, email: string,
                                                 salt1: nat, salt2: nat, seed1: nat, seed2: nat, seed3: nat, seed4: nat,
                                                 now: int, later: int, ctx: map<string, string>)
    requires s.Sound() && Rsa.PairedWith(s.rsaDecrypter, encrypt)
    requires email !in users
    requires s.hasher.hashPassword("secret1", salt1).Ok? && s.hasher.hashPassword("secret1", salt2).Ok?
    requires later < now + TokenLifetime
    ensures var registered := RegisterOutcome(s, users, email, encrypt("secret1", seed1), salt1, now);
      var again := RegisterOutcome(s, registered.users, email, encrypt("secret1", seed2), salt2, now);
      var login := LoginOutcome(s, registered.users, sessions, cacheAvailable, email, encrypt("secret1", seed3), now);
      var wrong := LoginOutcome(s, registered.users, sessions, cacheAvailable, email, encrypt("wrongpass", seed4), now);
      && registered.err == None
      && again.err == Some(DuplicateEntry(email)) && again.users == registered.users
      && login.err == None
      && Middleware.AuthMiddleware(s.jwtProvider, s.jwtLib, "Bearer " + login.token, ctx, later) ==
           Middleware.Forward(ctx[Middleware.UserIdKey := email])
      && wrong == LoginResult("", Some(InvalidCredentials), sessions)
  {
    var hashed := s.hasher.hashPassword("secret1", salt1).value;
    Rsa.DecryptRoundTrip(s.rsaDecrypter, encrypt, "secret1", seed1);
    RegisterNewEmail(s, users, email, encrypt("secret1", seed1), "secret1", hashed, salt1, now);
    var registered := RegisterOutcome(s, users, email, encrypt("secret1", seed1), salt1, now);
    assert registered.users[email].password == hashed;
    Rsa.DecryptRoundTrip(s.rsaDecrypter, encrypt, "secret1", seed2);
    RegisterExistingEmail(s, registered.users, email, encrypt("secret1", seed2), salt2, now);
    Rsa.DecryptRoundTrip(s.rsaDecrypter, encrypt, "secret1", seed3);
    LoginSuccess(s, registered.users, sessions, cacheAvailable, email, encrypt("secret1", seed3), "secret1", now);
    LoginTokenOpensGate(s, registered.users, sessions, cacheAvailable, email, encrypt("secret1", seed3), now, later, ctx);
    Rsa.DecryptRoundTrip(s.rsaDecrypter, encrypt, "wrongpass", seed4);
    assert "wrongpass" != "secret1";
    assert !s.hasher.checkPasswordHash("wrongpass", hashed);
  }
}
