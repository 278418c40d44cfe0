/**
 * `UserUseCase` of internal/usecase/user_usecase.go: the Register and
 * Login flows over the user store and the session cache.
 *
 * Each flow is specified by a function of the old state (`RegisterOutcome`,
 * `LoginOutcome`); the class's methods run the flow step by step against
 * the repositories and are proved to produce exactly that outcome. The
 * lemmas below state, branch by branch, what the flows promise.
 */
module UseCase {
  import opened Wrappers
  import Rsa
  import Password
  import Jwt
  import opened Repository

  const InvalidCredentials: string := "invalid credentials"
  const LoginDecryptFailed: string := "failed to decrypt password"
  const RegisterDecryptFailedPrefix: string := "failed to decrypt password: "

  /** `24*time.Hour`, the lifetime of a login token, in seconds. */
  const TokenLifetime: int := 24 * 60 * 60
  /** `3600*24`, the TTL of the cached session, in seconds. */
  const SessionTtl: int := 3600 * 24

  /** The collaborators the flows call besides the repositories: the RSA
      decrypter, the password hash, the JWT provider and the JWT library. */
  datatype Services = Services(
    rsaDecrypter: Rsa.Decrypter,
    hasher: Password.Hasher,
    jwtProvider: Jwt.JwtProvider,
    jwtLib: Jwt.Library)
  {
    ghost predicate Sound()
    {
      hasher.Sound() && jwtLib.Sound()
    }
  }

  datatype RegisterResult = RegisterResult(err: Option<string>, users: map<string, User>)

  /** Register: decrypt the password, hash it (with the salt the hash
      draws), and insert the user stamped with `now`. */
  function RegisterOutcome(s: Services, users: map<string, User>, email: string,
                           encryptedPassword: string, salt: nat, now: int): (r: RegisterResult)
  {
    match Rsa.Decrypt(s.rsaDecrypter, encryptedPassword)
    case Err(e) => RegisterResult(Some(RegisterDecryptFailedPrefix + e), users)
    case Ok(plain) =>
      match s.hasher.hashPassword(plain, salt)
      case Err(e) => RegisterResult(Some(e), users)
      case Ok(hashed) =>
        var created := InsertUser(users, User(email, hashed, now, now));
        RegisterResult(created.err, created.users)
  }

  datatype LoginResult = LoginResult(token: string, err: Option<string>, sessions: map<string, Session>)

  /** Login: look the user up, decrypt the password, check it against the
      stored hash, issue a 24-hour token and cache it; a failed cache write
      is ignored. */
  function LoginOutcome(s: Services, users: map<string, User>, sessions: map<string, Session>,
                        cacheAvailable: bool, email: string, encryptedPassword: string, now: int): (r: LoginResult)
  {
    if email !in users then LoginResult("", Some(InvalidCredentials), sessions)
    else match Rsa.Decrypt(s.rsaDecrypter, encryptedPassword)
      case Err(_) => LoginResult("", Some(LoginDecryptFailed), sessions)
      case Ok(plain) =>
        if !s.hasher.checkPasswordHash(plain, users[email].password) then
          LoginResult("", Some(InvalidCredentials), sessions)
        else
          var token := Jwt.GenerateToken(s.jwtProvider, s.jwtLib, email, TokenLifetime, now);
          var cached := StoreSession(sessions, cacheAvailable, email, token, SessionTtl);
          LoginResult(token, None, cached.sessions)
  }

  class UserUseCase {
    const userRepo: UserStore
    const cacheRepo: SessionCache
    const rsaDecrypter: Rsa.Decrypter
    const jwtProvider: Jwt.JwtProvider
    /** `HashPassword` and `CheckPasswordHash` of the security package. */
    const hasher: Password.Hasher
    /** The JWT library the provider signs and parses with. */
    const jwtLib: Jwt.Library

    function Svc(): (s: Services)
    {
      Services(rsaDecrypter, hasher, jwtProvider, jwtLib)
    }

    /** `NewUserUseCase` */
    constructor (ur: UserStore, cr: SessionCache, rsa: Rsa.Decrypter, jwt: Jwt.JwtProvider,
                 hasher: Password.Hasher, jwtLib: Jwt.Library)
      ensures userRepo == ur && cacheRepo == cr && rsaDecrypter == rsa && jwtProvider == jwt
      ensures this.hasher == hasher && this.jwtLib == jwtLib
    {
      userRepo, cacheRepo, rsaDecrypter, jwtProvider := ur, cr, rsa, jwt;
      this.hasher, this.jwtLib := hasher, jwtLib;
    }

    /** `Register`: writes the user store only, never the cache. */
    method Register(email: string, encryptedPasswordBase64: string, salt: nat, now: int) returns (err: Option<string>)
      requires userRepo.Valid()
      modifies userRepo
      ensures userRepo.Valid()
      ensures RegisterResult(err, userRepo.users) ==
        RegisterOutcome(Svc(), old(userRepo.users), email, encryptedPasswordBase64, salt, now)
      ensures unchanged(cacheRepo)
    {
      var plainPassword := Rsa.Decrypt(rsaDecrypter, encryptedPasswordBase64);
      if plainPassword.Err? {
        return Some(RegisterDecryptFailedPrefix + plainPassword.error);
      }
      var hashedPassword := hasher.hashPassword(plainPassword.value, salt);
      if hashedPassword.Err? {
        return Some(hashedPassword.error);
      }
      var user := User(email, hashedPassword.value, now, now);
      err := userRepo.Create(user);
    }

    /** `Login`: writes the session cache only, never the user store. */
    method Login(email: string, encryptedPasswordBase64: string, now: int) returns (token: string, err: Option<string>)
      requires userRepo.Valid()
      modifies cacheRepo`sessions
      ensures LoginResult(token, err, cacheRepo.sessions) ==
        LoginOutcome(Svc(), userRepo.users, old(cacheRepo.sessions), cacheRepo.available,
                     email, encryptedPasswordBase64, now)
      ensures unchanged(userRepo)
    {
      var user := userRepo.GetByEmail(email);
      if user.Err? {
        return "", Some(InvalidCredentials);
      }
      var plainPassword := Rsa.Decrypt(rsaDecrypter, encryptedPasswordBase64);
      if plainPassword.Err? {
        return "", Some(LoginDecryptFailed);
      }
      if !hasher.checkPasswordHash(plainPassword.value, user.value.password) {
        return "", Some(InvalidCredentials);
      }
      token := Jwt.GenerateToken(jwtProvider, jwtLib, email, TokenLifetime, now);
      var _ := cacheRepo.SetUserSession(email, token, SessionTtl);
      err := None;
    }
  }

  // ---------------------------------------------------------------------
  // Register

  /** A ciphertext that does not decrypt: the RSA library's own error
      reaches the caller behind both wrappers, "failed to decrypt password: "
      from the use case and "decryption failed: " from the decrypter, and
      the store is untouched. */
  lemma RegisterDecryptFailure(s: Services, users: map<string, User>, email: string,
                               encryptedPassword: string, salt: nat, now: int)
    requires s.rsaDecrypter.decryptOaep(encryptedPassword).Err?
    ensures var r := RegisterOutcome(s, users, email, encryptedPassword, salt, now);
      && r.err == Some("failed to decrypt password: decryption failed: " + s.rsaDecrypter.decryptOaep(encryptedPassword).error)
      && r.users == users
  {
    var e := s.rsaDecrypter.decryptOaep(encryptedPassword).error;
    assert RegisterDecryptFailedPrefix + (Rsa.DecryptionFailedPrefix + e) ==
      "failed to decrypt password: decryption failed: " + e;
  }

  /** A hash failure is returned as it is, and the store is untouched. */
  lemma RegisterHashFailure(s: Services, users: map<string, User>, email: string,
                            encryptedPassword: string, plain: string, salt: nat, now: int)
    requires Rsa.Decrypt(s.rsaDecrypter, encryptedPassword) == Ok(plain)
    requires s.hasher.hashPassword(plain, salt).Err?
    ensures var r := RegisterOutcome(s, users, email, encryptedPassword, salt, now);
      r.err == Some(s.hasher.hashPassword(plain, salt).error) && r.users == users
  {
  }

  /** Registering a new email adds exactly one record, for that email, whose
      password is the hash of the decrypted plaintext (neither the plaintext
      nor the ciphertext), stamped with `now`; nothing else changes. */
  lemma RegisterNewEmail(s: Services, users: map<string, User>, email: string,
                         encryptedPassword: string, plain: string, hashed: string, salt: nat, now: int)
    requires email !in users
    requires Rsa.Decrypt(s.rsaDecrypter, encryptedPassword) == Ok(plain)
    requires s.hasher.hashPassword(plain, salt) == Ok(hashed)
    ensures var r := RegisterOutcome(s, users, email, encryptedPassword, salt, now);
      && r.err == None
      && r.users == users[email := User(email, hashed, now, now)]
  {
  }

  /** Registering an email already present fails and leaves every existing
      record as it was, whichever step fails; once the password decrypts and
      hashes, the error is the store's duplicate-entry error, passed on
      unchanged. */
  lemma RegisterExistingEmail(s: Services, users: map<string, User>, email: string,
                              encryptedPassword: string, salt: nat, now: int)
    requires email in users
    ensures var r := RegisterOutcome(s, users, email, encryptedPassword, salt, now);
      r.err.Some? && r.users == users
    ensures var d := Rsa.Decrypt(s.rsaDecrypter, encryptedPassword);
      d.Ok? && s.hasher.hashPassword(d.value, salt).Ok? ==>
        RegisterOutcome(s, users, email, encryptedPassword, salt, now).err == Some(DuplicateEntry(email))
  {
  }

  /** Register succeeds exactly when the password decrypts, the hash
      succeeds and the email is new; it never alters an existing record and
      keeps the store keyed by email. */
  lemma RegisterSucceedsIff(s: Services, users: map<string, User>, email: string,
                            encryptedPassword: string, salt: nat, now: int)
    ensures var r := RegisterOutcome(s, users, email, encryptedPassword, salt, now);
      var d := Rsa.Decrypt(s.rsaDecrypter, encryptedPassword);
      && (r.err == None <==> d.Ok? && s.hasher.hashPassword(d.value, salt).Ok? && email !in users)
      && (forall e :: e in users ==> e in r.users && r.users[e] == users[e])
      && (KeyedByEmail(users) ==> KeyedByEmail(r.users))
  {
  }

  /** The same password registered under two salts is stored as two
      different hashes, and each one checks against the password. */
  lemma RegisterHashIsSalted(s: Services, users: map<string, User>, email: string,
                             encryptedPassword: string, salt1: nat, salt2: nat, now: int)
    requires s.Sound()
    requires salt1 != salt2
    requires RegisterOutcome(s, users, email, encryptedPassword, salt1, now).err == None
    requires RegisterOutcome(s, users, email, encryptedPassword, salt2, now).err == None
    ensures var stored1 := RegisterOutcome(s, users, email, encryptedPassword, salt1, now).users[email].password;
      var stored2 := RegisterOutcome(s, users, email, encryptedPassword, salt2, now).users[email].password;
      var plain := Rsa.Decrypt(s.rsaDecrypter, encryptedPassword).value;
      && stored1 != stored2
      && s.hasher.checkPasswordHash(plain, stored1)
      && s.hasher.checkPasswordHash(plain, stored2)
  {
  }

  // ---------------------------------------------------------------------
  // Login

  /** An unknown email gives ("", "invalid credentials") with the cache
      untouched, and the outcome does not depend on the decrypter, the hash
      or the JWT provider: none of them is consulted. */
  lemma LoginUnknownEmail(s: Services, t: Services, users: map<string, User>, sessions: map<string, Session>,
                          cacheAvailable: bool, email: string, encryptedPassword: string, now: int)
    requires email !in users
    ensures LoginOutcome(s, users, sessions, cacheAvailable, email, encryptedPassword, now) ==
      LoginResult("", Some(InvalidCredentials), sessions)
    ensures LoginOutcome(s, users, sessions, cacheAvailable, email, encryptedPassword, now) ==
      LoginOutcome(t, users, sessions, cacheAvailable, email, encryptedPassword, now)
  {
  }

  /** A ciphertext that does not decrypt gives ("", "failed to decrypt
      password"), a text different from "invalid credentials". */
  lemma LoginDecryptFailure(s: Services, users: map<string, User>, sessions: map<string, Session>,
                            cacheAvailable: bool, email: string, encryptedPassword: string, now: int)
    requires email in users
    requires Rsa.Decrypt(s.rsaDecrypter, encryptedPassword).Err?
    ensures LoginOutcome(s, users, sessions, cacheAvailable, email, encryptedPassword, now) ==
      LoginResult("", Some(LoginDecryptFailed), sessions)
    ensures LoginDecryptFailed != InvalidCredentials
  {
  }

  /** A wrong password is indistinguishable from an unknown email: the same
      empty token, the same "invalid credentials", the same cache. */
  lemma LoginWrongPasswordLikeUnknownEmail(s: Services, users: map<string, User>, others: map<string, User>,
                                           sessions: map<string, Session>, cacheAvailable: bool,
                                           email: string, encryptedPassword: string, now: int)
    requires email in users && email !in others
    requires Rsa.Decrypt(s.rsaDecrypter, encryptedPassword).Ok?
    requires !s.hasher.checkPasswordHash(Rsa.Decrypt(s.rsaDecrypter, encryptedPassword).value, users[email].password)
    ensures LoginOutcome(s, users, sessions, cacheAvailable, email, encryptedPassword, now) ==
      LoginOutcome(s, others, sessions, cacheAvailable, email, encryptedPassword, now)
  {
  }

  /** The code, unlike a fully collapsed design, answers a ciphertext that
      does not decrypt differently for a registered and an unregistered
      email, so that answer tells whether the email has an account. */
  lemma LoginDecryptFailureRevealsAccount(s: Services, users: map<string, User>, others: map<string, User>,
                                          sessions: map<string, Session>, cacheAvailable: bool,
                                          email: string, encryptedPassword: string, now: int)
    requires email in users && email !in others
    requires Rsa.Decrypt(s.rsaDecrypter, encryptedPassword).Err?
    ensures LoginOutcome(s, users, sessions, cacheAvailable, email, encryptedPassword, now).err !=
      LoginOutcome(s, others, sessions, cacheAvailable, email, encryptedPassword, now).err
  {
  }

  /** A correct password yields the 24-hour token `GenerateToken(email)`
      and no error; when the cache takes the write it holds that token
      under the email with a 24-hour TTL, and when it does not the token is
      returned all the same. */
  lemma LoginSuccess(s: Services, users: map<string, User>, sessions: map<string, Session>,
                     cacheAvailable: bool, email: string, encryptedPassword: string, plain: string, now: int)
    requires email in users
    requires Rsa.Decrypt(s.rsaDecrypter, encryptedPassword) == Ok(plain)
    requires s.hasher.checkPasswordHash(plain, users[email].password)
    ensures var r := LoginOutcome(s, users, sessions, cacheAvailable, email, encryptedPassword, now);
      var token := Jwt.GenerateToken(s.jwtProvider, s.jwtLib, email, TokenLifetime, now);
      && r.token == token && r.err == None
      && r.sessions == (if cacheAvailable then sessions[email := Session(token, SessionTtl)] else sessions)
  {
  }

  /** The cache is advisory: whether it takes the write changes neither the
      token nor the error. */
  lemma LoginIgnoresCacheFailure(s: Services, users: map<string, User>, sessions: map<string, Session>,
                                 email: string, encryptedPassword: string, now: int)
    ensures var up := LoginOutcome(s, users, sessions, true, email, encryptedPassword, now);
      var down := LoginOutcome(s, users, sessions, false, email, encryptedPassword, now);
      up.token == down.token && up.err == down.err && down.sessions == sessions
  {
  }

  /** Login succeeds exactly when the email is registered, the password
      decrypts and it checks against the stored hash; it returns a token
      exactly when it succeeds, and it never touches another user's cache
      entry. */
  lemma {:induction false} LoginSucceedsIff(s: Services, users: map<string, User>, sessions: map<string, Session>,
                                            cacheAvailable: bool, email: string, encryptedPassword: string, now: int)
    ensures var r := LoginOutcome(s, users, sessions, cacheAvailable, email, encryptedPassword, now);
      var d := Rsa.Decrypt(s.rsaDecrypter, encryptedPassword);
      && (r.err == None <==> email in users && d.Ok? && s.hasher.checkPasswordHash(d.value, users[email].password))
      && (r.err == None <==> r.token != "")
      && (forall k :: k != email ==> (k in r.sessions <==> k in sessions))
      && (forall k :: k != email && k in sessions ==> r.sessions[k] == sessions[k])
  {
  }

  /** Register then Login, for any passwords: once a client registers a new
      email with `registered`, a later Login for that email, whatever OAEP
      seed the client draws, succeeds exactly when it sends `registered`. */
  lemma {:induction false} LoginAcceptsOnlyRegisteredPassword(s: Services, encrypt: (string, nat) -> string,
                                                             users: map<string, User>, sessions: map<string, Session>,
                                                             cacheAvailable: bool, email: string,
                                                             registered: string, attempt: string,
                                                             seed1: nat, seed2: nat, salt: nat, now: int, later: int)
    requires s.Sound() && Rsa.PairedWith(s.rsaDecrypter, encrypt)
    requires email !in users
    requires s.hasher.hashPassword(registered, salt).Ok?
    ensures var reg := RegisterOutcome(s, users, email, encrypt(registered, seed1), salt, now);
      && reg.err == None
      && (LoginOutcome(s, reg.users, sessions, cacheAvailable, email, encrypt(attempt, seed2), later).err == None
          <==> attempt == registered)
  {
    Rsa.DecryptRoundTrip(s.rsaDecrypter, encrypt, registered, seed1);
    Rsa.DecryptRoundTrip(s.rsaDecrypter, encrypt, attempt, seed2);
  }
}
