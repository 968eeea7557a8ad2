/** Issuing and reading bearer tokens. The signed compact encoding and its
    parser are a library; here they are the two functions of a `Codec`,
    and everything the service itself decides is stated over the claims. */
module Jwt {
  import opened Wrappers
  import opened Errors

  type Token = string

  /** A claim value: text, or an instant in milliseconds. */
  datatype ClaimValue = Text(text: string) | Moment(millis: int)

  /** The claims carried by a token, by claim name. */
  type Claims = map<string, ClaimValue>

  const SubjectClaim: string := "sub"
  const IssuedAtClaim: string := "iat"
  const ExpirationClaim: string := "exp"

  /** Lifetime of every issued token, in milliseconds: 1000 * 60 * 24. */
  const ExpirationWindow: int := 1000 * 60 * 24

  /** The signing library under the configured secret: `sign` builds the
      compact signed string, `parse` checks it and returns its claims, or
      `None` where the library throws a JwtException. */
  datatype Codec = Codec(sign: Claims -> Token, parse: Token -> Option<Claims>)

  /** java.lang.Character.isWhitespace: the ASCII controls tab to carriage
      return and file to unit separator, and the Unicode space, line and
      paragraph separators other than the non-breaking ones. */
  predicate IsWhitespace(ch: char) {
    || ch == ' ' || ('\t' <= ch <= '\r') || ('\U{1C}' <= ch <= '\U{1F}')
    || ch == '\U{1680}' || ('\U{2000}' <= ch <= '\U{2006}') || ('\U{2008}' <= ch <= '\U{200A}')
    || ch == '\U{2028}' || ch == '\U{2029}' || ch == '\U{205F}' || ch == '\U{3000}'
  }

  /** A token with no character other than whitespace (the empty token
      included). The parser refuses it up front with an
      IllegalArgumentException, before any JwtException can arise. */
  predicate IsBlank(token: Token) {
    forall i :: 0 <= i < |token| ==> IsWhitespace(token[i])
  }

  /** The claims reading a token yields: none for a blank token or one the
      parser rejects. */
  function Decoded(codec: Codec, token: Token): Option<Claims> {
    if IsBlank(token) then None else codec.parse(token)
  }

  /** The library gives back exactly the claims that were signed; a signed
      compact token is never blank. */
  predicate RoundTrips(codec: Codec, c: Claims) {
    !IsBlank(codec.sign(c)) && codec.parse(codec.sign(c)) == Some(c)
  }

  /** Claims::getSubject (null when absent). */
  function Subject(c: Claims): Option<string> {
    if SubjectClaim in c && c[SubjectClaim].Text? then Some(c[SubjectClaim].text) else None
  }

  /** Claims::getIssuedAt (null when absent). */
  function IssuedAt(c: Claims): Option<int> {
    if IssuedAtClaim in c && c[IssuedAtClaim].Moment? then Some(c[IssuedAtClaim].millis) else None
  }

  /** Claims::getExpiration (null when absent). */
  function Expiration(c: Claims): Option<int> {
    if ExpirationClaim in c && c[ExpirationClaim].Moment? then Some(c[ExpirationClaim].millis) else None
  }

  /** The claims of a token issued at `now`: the caller's claims first, then
      subject, issue time and expiry, each of which overwrites a claim of
      the same name. */
  function BuildClaims(extra: Claims, username: string, now: int): (c: Claims)
    ensures Subject(c) == Some(username)
    ensures IssuedAt(c) == Some(now)
    ensures Expiration(c) == Some(now + ExpirationWindow)
    ensures c.Keys == extra.Keys + {SubjectClaim, IssuedAtClaim, ExpirationClaim}
    ensures forall k :: k in extra && k != SubjectClaim && k != IssuedAtClaim && k != ExpirationClaim ==> c[k] == extra[k]
  {
    extra[SubjectClaim := Text(username)][IssuedAtClaim := Moment(now)][ExpirationClaim := Moment(now + ExpirationWindow)]
  }

  /** The claims of a token issued at `now` by the builder with no claims of
      its own. The builder stores a subject only when it has text: with no
      claims yet, a blank subject is dropped, not stored. */
  function IssueClaims(username: string, now: int): (c: Claims)
    ensures Subject(c) == if IsBlank(username) then None else Some(username)
    ensures IssuedAt(c) == Some(now)
    ensures Expiration(c) == Some(now + ExpirationWindow)
    ensures c.Keys == (if IsBlank(username) then {} else {SubjectClaim}) + {IssuedAtClaim, ExpirationClaim}
  {
    var base: Claims := if IsBlank(username) then map[] else map[SubjectClaim := Text(username)];
    base[IssuedAtClaim := Moment(now)][ExpirationClaim := Moment(now + ExpirationWindow)]
  }

  /** generarToken(email): the subject goes through Spring's User constructor
      first, which rejects an empty username; an all-whitespace email passes
      that check but is then dropped by the builder. */
  function GenerarToken(codec: Codec, email: string, now: int): (r: Result<Token, Fault>)
    ensures r.Failure? <==> email == []
    ensures r.Failure? ==> r.error == EmptyUsername
    ensures r.Success? && RoundTrips(codec, IssueClaims(email, now)) ==>
      && Decoded(codec, r.value).Some?
      && Subject(Decoded(codec, r.value).value) == (if IsBlank(email) then None else Some(email))
      && Expiration(Decoded(codec, r.value).value) == Some(now + ExpirationWindow)
  {
    if email == [] then Failure(EmptyUsername)
    else Success(codec.sign(IssueClaims(email, now)))
  }

  /** generarToken(extraClaims, userDetails). */
  function GenerarTokenConClaims(codec: Codec, extra: Claims, username: string, now: int): (r: Token)
    ensures RoundTrips(codec, BuildClaims(extra, username, now)) ==>
      && Decoded(codec, r).Some?
      && Subject(Decoded(codec, r).value) == Some(username)
      && Expiration(Decoded(codec, r).value) == Some(now + ExpirationWindow)
  {
    codec.sign(BuildClaims(extra, username, now))
  }

  /** extraerTodosClaims: parse and verify the token. A blank token is
      refused before parsing, with an exception that is not a JwtException. */
  function ExtraerTodosClaims(codec: Codec, token: Token): (r: Result<Claims, Fault>)
    ensures r.Success? <==> Decoded(codec, token).Some?
    ensures r.Success? ==> Decoded(codec, token) == Some(r.value)
    ensures r == Failure(BlankToken) <==> IsBlank(token)
    ensures r == Failure(InvalidToken) <==> !IsBlank(token) && codec.parse(token).None?
  {
    if IsBlank(token) then Failure(BlankToken)
    else
      match codec.parse(token)
      case None => Failure(InvalidToken)
      case Some(c) => Success(c)
  }

  /** extraerUsername. */
  function ExtraerUsername(codec: Codec, token: Token): (r: Result<Option<string>, Fault>)
    ensures r.Failure? <==> Decoded(codec, token).None?
    ensures r.Failure? ==> r.error == (if IsBlank(token) then BlankToken else InvalidToken)
    ensures r.Success? ==> r.value == Subject(Decoded(codec, token).value)
  {
    var c :- ExtraerTodosClaims(codec, token);
    Success(Subject(c))
  }

  /** extraerExpiracion. */
  function ExtraerExpiracion(codec: Codec, token: Token): (r: Result<Option<int>, Fault>)
    ensures r.Failure? <==> Decoded(codec, token).None?
    ensures r.Failure? ==> r.error == (if IsBlank(token) then BlankToken else InvalidToken)
    ensures r.Success? ==> r.value == Expiration(Decoded(codec, token).value)
  {
    var c :- ExtraerTodosClaims(codec, token);
    Success(Expiration(c))
  }

  /** isTokenExpirado: the expiry is strictly before `now`; a token without
      an expiry fails on the null date. */
  function IsTokenExpirado(codec: Codec, token: Token, now: int): (r: Result<bool, Fault>)
    ensures r == Success(true) <==>
      Decoded(codec, token).Some? && Expiration(Decoded(codec, token).value).Some?
      && Expiration(Decoded(codec, token).value).value < now
    ensures r == Success(false) <==>
      Decoded(codec, token).Some? && Expiration(Decoded(codec, token).value).Some?
      && now <= Expiration(Decoded(codec, token).value).value
  {
    var expiration :- ExtraerExpiracion(codec, token);
    if expiration.None? then Failure(NullValue) else Success(expiration.value < now)
  }

  /** The validity rule on claims: the subject is `username` and the expiry
      is not before `now`. */
  predicate ValidFor(c: Claims, username: string, now: int) {
    Subject(c) == Some(username) && Expiration(c).Some? && now <= Expiration(c).value
  }

  /** isTokenValido: subject comparison first (a null subject fails on the
      call to equals), then the expiry check, which runs only when the
      subjects agree. */
  function IsTokenValido(codec: Codec, token: Token, username: string, now: int): (r: Result<bool, Fault>)
    ensures r == Success(true) <==> Decoded(codec, token).Some? && ValidFor(Decoded(codec, token).value, username, now)
    ensures r == Failure(InvalidToken) <==> !IsBlank(token) && codec.parse(token).None?
    ensures r == Failure(BlankToken) <==> IsBlank(token)
    ensures r.Failure? <==>
      Decoded(codec, token).None?
      || Subject(Decoded(codec, token).value).None?
      || (Subject(Decoded(codec, token).value) == Some(username) && Expiration(Decoded(codec, token).value).None?)
    ensures r.Failure? ==> r.error == InvalidToken || r.error == BlankToken || r.error == NullValue
  {
    var subject :- ExtraerUsername(codec, token);
    if subject.None? then Failure(NullValue)
    else if subject.value != username then Success(false)
    else
      var expired :- IsTokenExpirado(codec, token, now);
      Success(!expired)
  }

  /** A token issued for an email with text names the email as its subject,
      and is valid for that email at a check time exactly when that time is
      at most 1,440,000 ms (twenty-four minutes) after issue. A token issued
      for an all-whitespace email has no subject, so checking it fails on the
      null subject. */
  lemma IssuedTokenLifetime(codec: Codec, email: string, now: int, at: int)
    requires email != []
    requires RoundTrips(codec, IssueClaims(email, now))
    ensures GenerarToken(codec, email, now).Success?
    ensures ExtraerUsername(codec, GenerarToken(codec, email, now).value) ==
      Success(if IsBlank(email) then None else Some(email))
    ensures ExtraerExpiracion(codec, GenerarToken(codec, email, now).value) == Success(Some(now + ExpirationWindow))
    ensures IsTokenValido(codec, GenerarToken(codec, email, now).value, email, at) ==
      if IsBlank(email) then Failure(NullValue) else Success(at <= now + 1440000)
  {
  }

  /** In the extra-claims overload the subject is the username even when the
      extra claims carry a subject of their own, and the other extra claims survive. */
  lemma OverloadSubjectWins(codec: Codec, extra: Claims, username: string, now: int)
    requires RoundTrips(codec, BuildClaims(extra, username, now))
    ensures ExtraerUsername(codec, GenerarTokenConClaims(codec, extra, username, now)) == Success(Some(username))
    ensures ExtraerExpiracion(codec, GenerarTokenConClaims(codec, extra, username, now)) == Success(Some(now + ExpirationWindow))
    ensures forall k :: k in extra && k != SubjectClaim && k != IssuedAtClaim && k != ExpirationClaim ==>
      Decoded(codec, GenerarTokenConClaims(codec, extra, username, now)).value[k] == extra[k]
  {
  }

  /** A token that expires exactly now is still valid. */
  lemma ExpiryBoundary(codec: Codec, token: Token, username: string, now: int)
    requires Decoded(codec, token).Some?
    requires Subject(Decoded(codec, token).value) == Some(username)
    requires Expiration(Decoded(codec, token).value) == Some(now)
    ensures IsTokenExpirado(codec, token, now) == Success(false)
    ensures IsTokenValido(codec, token, username, now) == Success(true)
    ensures IsTokenValido(codec, token, username, now + 1) == Success(false)
  {
  }
}
