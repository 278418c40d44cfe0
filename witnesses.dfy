/**
 * The cryptographic primitives (the JWT library's codecs and HMAC, the
 * bcrypt hasher, RSA-OAEP) are abstract in this model, and the lemmas about
 * them assume only what `Jwt.Library.Sound`, `Password.Hasher.Sound` and
 * `Rsa.PairedWith` say. This module builds concrete, deliberately naive
 * stand-ins that meet every one of those assumptions, so the assumptions
 * can all hold at once. It models nothing in the service itself.
 */
module Witnesses {
  import opened Wrappers
  import Strings
  import Jwt
  import Password
  import Rsa
  import UseCase

  /** `n` copies of 'a'. */
  function Rep(n: nat): (s: string)
    ensures |s| == n && forall i :: 0 <= i < n ==> s[i] == 'a'
  {
    if n == 0 then [] else "a" + Rep(n - 1)
  }

  /** The number of 'a's that `t` starts with. */
  function LeadingA(t: string): (n: nat)
    ensures n <= |t| && forall i :: 0 <= i < n ==> t[i] == 'a'
    ensures n < |t| ==> t[n] != 'a'
  {
    if t == [] || t[0] != 'a' then 0 else 1 + LeadingA(t[1..])
  }

  lemma {:induction false} LeadingARep(k: nat, r: string)
    requires r != [] && r[0] != 'a'
    ensures LeadingA(Rep(k) + r) == k
    decreases k
  {
    if k > 0 {
      assert Rep(k) + r == "a" + (Rep(k - 1) + r);
      assert (Rep(k) + r)[1..] == Rep(k - 1) + r;
      LeadingARep(k - 1, r);
    }
  }

  predicate IsCharCode(n: nat)
  {
    n < 0xD800 || 0xE000 <= n < 0x11_0000
  }

  /** Text in the alphabet {a, b}: each character as its code in unary, ended by 'b'. */
  function EncodeText(s: string): (t: string)
    ensures forall i :: 0 <= i < |t| ==> t[i] == 'a' || t[i] == 'b'
  {
    if s == [] then [] else Rep(s[0] as int) + "b" + EncodeText(s[1..])
  }

  function DecodeText(t: string): (r: Option<string>)
    decreases |t|
  {
    if t == [] then Some([])
    else
      var n := LeadingA(t);
      if n < |t| && t[n] == 'b' && IsCharCode(n) then
        match DecodeText(t[n + 1..])
        case Some(rest) => Some([n as char] + rest)
        case None => None
      else None
  }

  /** One step of decoding: a unary code ended by 'b', then the rest. */
  lemma DecodeStep(k: nat, r: string)
    requires IsCharCode(k)
    ensures DecodeText(Rep(k) + ("b" + r)) ==
      match DecodeText(r)
      case Some(rest) => Some([k as char] + rest)
      case None => None
  {
    var t := Rep(k) + ("b" + r);
    LeadingARep(k, "b" + r);
    assert t[k] == 'b';
    assert t[k + 1..] == r;
  }

  lemma {:induction false} TextRoundTrip(s: string)
    ensures DecodeText(EncodeText(s)) == Some(s)
    decreases |s|
  {
    if s != [] {
      var k := s[0] as int;
      assert EncodeText(s) == Rep(k) + ("b" + EncodeText(s[1..]));
      DecodeStep(k, EncodeText(s[1..]));
      TextRoundTrip(s[1..]);
      assert [k as char] + s[1..] == s;
    }
  }

  /** An optional timestamp: "n" when absent, else a sign letter and |k| in unary. */
  function EncodeTime(k: Option<int>): (t: string)
    ensures forall i :: 0 <= i < |t| ==> t[i] in "anpm"
  {
    match k
    case None => "n"
    case Some(v) => if v >= 0 then "p" + Rep(v) else "m" + Rep(-v)
  }

  function DecodeTime(t: string): (k: Option<Option<int>>)
  {
    if t == "n" then Some(None)
    else if |t| >= 1 && t[1..] == Rep(|t| - 1) then
      if t[0] == 'p' then Some(Some(|t| - 1))
      else if t[0] == 'm' then Some(Some(-(|t| - 1)))
      else None
    else None
  }

  lemma TimeRoundTrip(k: Option<int>)
    ensures DecodeTime(EncodeTime(k)) == Some(k)
  {
    match k
    case None =>
    case Some(v) =>
      var t := EncodeTime(k);
      assert t[1..] == Rep(|t| - 1);
  }

  /** Claims as the four encodings above joined by '_'. */
  function EncodeClaims(c: Jwt.Claims): (t: string)
  {
    EncodeText(c.userId) + "_" + EncodeTime(c.issuedAt) + "_" + EncodeTime(c.expiresAt) + "_" + EncodeTime(c.notBefore)
  }

  function DecodeClaims(t: string): (c: Option<Jwt.Claims>)
  {
    var parts := Strings.Split(t, '_');
    if |parts| != 4 then None
    else
      match (DecodeText(parts[0]), DecodeTime(parts[1]), DecodeTime(parts[2]), DecodeTime(parts[3]))
      case (Some(u), Some(iat), Some(exp), Some(nbf)) => Some(Jwt.Claims(u, iat, exp, nbf))
      case _ => None
  }

  /** Four '_'-free pieces joined by '_' split back into themselves. */
  lemma SplitFour(a: string, b: string, d: string, e: string)
    requires '_' !in a && '_' !in b && '_' !in d && '_' !in e
    ensures Strings.Split(a + "_" + b + "_" + d + "_" + e, '_') == [a, b, d, e]
  {
    assert a + "_" + b + "_" + d + "_" + e == a + ['_'] + (b + ['_'] + (d + ['_'] + e));
    Strings.SplitAt(a, '_', b + ['_'] + (d + ['_'] + e));
    Strings.SplitAt(b, '_', d + ['_'] + e);
    Strings.SplitAt(d, '_', e);
    Strings.SplitNone(e, '_');
  }

  lemma TextHasNoUnderscore(s: string)
    ensures '_' !in EncodeText(s)
  {
    var t := EncodeText(s);
    assert forall i :: 0 <= i < |t| ==> t[i] != '_';
  }

  lemma TimeHasNoUnderscore(k: Option<int>)
    ensures '_' !in EncodeTime(k)
  {
    var t := EncodeTime(k);
    assert forall i :: 0 <= i < |t| ==> t[i] != '_';
  }

  lemma ClaimsSplit(c: Jwt.Claims)
    ensures Strings.Split(EncodeClaims(c), '_') ==
      [EncodeText(c.userId), EncodeTime(c.issuedAt), EncodeTime(c.expiresAt), EncodeTime(c.notBefore)]
  {
    TextHasNoUnderscore(c.userId);
    TimeHasNoUnderscore(c.issuedAt);
    TimeHasNoUnderscore(c.expiresAt);
    TimeHasNoUnderscore(c.notBefore);
    SplitFour(EncodeText(c.userId), EncodeTime(c.issuedAt), EncodeTime(c.expiresAt), EncodeTime(c.notBefore));
  }

  lemma ClaimsRoundTrip(c: Jwt.Claims)
    ensures DecodeClaims(EncodeClaims(c)) == Some(c)
  {
    ClaimsSplit(c);
    TextRoundTrip(c.userId);
    TimeRoundTrip(c.issuedAt);
    TimeRoundTrip(c.expiresAt);
    TimeRoundTrip(c.notBefore);
  }

  lemma ClaimsAreBase64Url(c: Jwt.Claims)
    ensures Jwt.IsBase64Url(EncodeClaims(c))
  {
    var t := EncodeClaims(c);
    assert forall i :: 0 <= i < |t| ==> t[i] in "abnpm_";
  }

  /** The "HMAC" of this library is the key itself, which trivially pins the key down. */
  function Tag(alg: string, key: string, m: string): (tag: string)
  {
    key
  }

  const Library := Jwt.Library(EncodeText, DecodeText, EncodeClaims, DecodeClaims, EncodeText, DecodeText, Tag)

  /** A JWT library meeting every assumption the token lemmas make of it exists. */
  lemma LibraryIsSound()
    ensures Library.Sound()
  {
    forall s
      ensures DecodeText(EncodeText(s)) == Some(s) && Jwt.IsBase64Url(EncodeText(s))
    {
      TextRoundTrip(s);
    }
    forall c
      ensures DecodeClaims(EncodeClaims(c)) == Some(c) && Jwt.IsBase64Url(EncodeClaims(c))
    {
      ClaimsRoundTrip(c);
      ClaimsAreBase64Url(c);
    }
  }

  /** The stored "hash": the salt in unary, '$', then the password in clear. */
  function Hash(p: string, salt: nat): (h: Result<string, string>)
  {
    Ok(Rep(salt) + "$" + p)
  }

  function CheckHash(q: string, h: string): (matches: bool)
  {
    var n := LeadingA(h);
    n < |h| && h[n] == '$' && h[n + 1..] == q
  }

  const Hasher := Password.Hasher(Hash, CheckHash)

  /** A password hasher meeting every assumption the use-case lemmas make of it exists. */
  lemma HasherIsSound()
    ensures Hasher.Sound()
  {
    forall p, salt: nat
      ensures CheckHash(p, Hash(p, salt).value)
      ensures forall q :: CheckHash(q, Hash(p, salt).value) ==> q == p
    {
      assert Rep(salt) + "$" + p == Rep(salt) + ("$" + p);
      LeadingARep(salt, "$" + p);
      assert (Rep(salt) + "$" + p)[salt + 1..] == p;
    }
  }

  function Identity(c: string): (m: string)
  {
    c
  }

  function Open(c: string): (m: Result<string, string>)
  {
    Ok(c)
  }

  /** A decrypter paired with an encryption exists. */
  lemma DecrypterIsPaired()
    ensures Rsa.PairedWith(Rsa.Decrypter(Open), (m, seed: nat) => Identity(m))
  {
  }

  /** Services meeting `UseCase.Services.Sound` exist. */
  lemma ServicesAreSound(secret: string)
    ensures UseCase.Services(Rsa.Decrypter(Open), Hasher, Jwt.JwtProvider(secret), Library).Sound()
  {
    LibraryIsSound();
    HasherIsSound();
  }
}
