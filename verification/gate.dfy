/** The per-request bearer-token filter. The thread-local security context
    is passed in explicitly, and the filter's effect comes back as one outcome. */
module Gate {
  import opened Wrappers
  import opened Errors
  import opened Domain
  import opened Jwt
  import opened UsuarioDetalle

  const BearerPrefix: string := "Bearer "
  const Unauthorized: int := 401
  const InvalidTokenBody: string := "Token JWT inválido"

  /** Request metadata attached to an authentication (remote address, session id). */
  datatype RequestDetails = RequestDetails(remoteAddress: string, sessionId: Option<string>)

  /** The authenticated principal held by the security context. */
  datatype Authentication = Authentication(
    principal: UserDetails,
    credentials: Option<string>,
    authorities: seq<string>,
    details: RequestDetails)

  /** How one request leaves the filter. */
  datatype FilterOutcome =
      /** The chain continues and the context is left as it was. */
    | Proceed
      /** The context receives `auth`, then the chain continues. */
    | ProceedAuthenticated(auth: Authentication)
      /** The response is written and the chain is not continued. */
    | Abort(status: int, body: string)
      /** An exception other than a JwtException escapes the filter. */
    | Raise(fault: Fault)

  /** Whether the filter chain runs on after the filter. */
  predicate ContinuesChain(o: FilterOutcome) {
    o.Proceed? || o.ProceedAuthenticated?
  }

  /** The security context after the filter. */
  function ContextAfter(o: FilterOutcome, context: Option<Authentication>): Option<Authentication> {
    if o.ProceedAuthenticated? then Some(o.auth) else context
  }

  /** isInvalidAuthHeader: a null header, or one that does not begin with the
      exact, case-sensitive text "Bearer ". */
  function IsInvalidAuthHeader(header: Option<string>): (r: bool)
    ensures !r <==> header.Some? && |header.value| >= 7 && header.value[..7] == "Bearer "
  {
    header.None? || !(BearerPrefix <= header.value)
  }

  /** extractJwt: the header without its first seven characters. */
  function ExtractJwt(header: string): (jwt: string)
    requires BearerPrefix <= header
    ensures BearerPrefix + jwt == header
  {
    header[7..]
  }

  /** handleAuthentication: the authentication to put in the context, if any. */
  function HandleAuthentication(codec: Codec, store: Store, context: Option<Authentication>,
                                jwt: Token, now: int, details: RequestDetails): (r: Result<Option<Authentication>, Fault>)
    ensures r == Failure(InvalidToken) <==> !IsBlank(jwt) && codec.parse(jwt).None?
    ensures r == Failure(BlankToken) <==> IsBlank(jwt)
    ensures context.Some? ==> r == Success(None) || r == Failure(InvalidToken) || r == Failure(BlankToken)
    ensures r.Success? && r.value.Some? ==>
      && context.None?
      && Decoded(codec, jwt).Some?
      && Subject(Decoded(codec, jwt).value).Some?
      && LoadUserByUsername(store, Subject(Decoded(codec, jwt).value).value).Success?
      && r.value.value.principal == LoadUserByUsername(store, Subject(Decoded(codec, jwt).value).value).value
      && ValidFor(Decoded(codec, jwt).value, r.value.value.principal.username, now)
  {
    var username :- ExtraerUsername(codec, jwt);
    if username.Some? && context.None? then
      var userDetails :- LoadUserByUsername(store, username.value);
      var valid :- IsTokenValido(codec, jwt, userDetails.username, now);
      if valid then Success(Some(Authentication(userDetails, None, userDetails.authorities, details)))
      else Success(None)
    else
      Success(None)
  }

  /** handleJwtException. */
  function HandleJwtException(): (o: FilterOutcome)
    ensures !ContinuesChain(o) && o.Abort? && o.status == Unauthorized && o.body == InvalidTokenBody
  {
    Abort(Unauthorized, InvalidTokenBody)
  }

  /** doFilterInternal. Only a JwtException is caught; any other exception
      leaves the filter, among them the parser's refusal of a blank token. */
  function DoFilterInternal(header: Option<string>, context: Option<Authentication>, store: Store,
                            codec: Codec, now: int, details: RequestDetails): (o: FilterOutcome)
    ensures IsInvalidAuthHeader(header) ==> o == Proceed
    ensures o == Raise(BlankToken) <==> !IsInvalidAuthHeader(header) && IsBlank(header.value[7..])
    ensures context.Some? ==> o == Proceed || o == Abort(Unauthorized, InvalidTokenBody) || o == Raise(BlankToken)
  {
    if IsInvalidAuthHeader(header) then Proceed
    else
      var jwt := ExtractJwt(header.value);
      match HandleAuthentication(codec, store, context, jwt, now, details)
      case Success(None) => Proceed
      case Success(Some(auth)) => ProceedAuthenticated(auth)
      case Failure(fault) => if fault == InvalidToken then HandleJwtException() else Raise(fault)
  }

  /** Stripping the prefix undoes prepending it. */
  lemma ExtractJwtInverse(token: Token)
    ensures ExtractJwt(BearerPrefix + token) == token
  {
    assert BearerPrefix <= BearerPrefix + token;
  }

  /** The prefix test is case-sensitive: a lower-case scheme is not a bearer header. */
  lemma LowercaseSchemeIgnored(token: Token, context: Option<Authentication>, store: Store,
                               codec: Codec, now: int, details: RequestDetails)
    ensures IsInvalidAuthHeader(Some("bearer " + token))
    ensures DoFilterInternal(Some("bearer " + token), context, store, codec, now, details) == Proceed
  {
    assert ("bearer " + token)[0] == 'b';
  }

  /** An authentication already in the context is never replaced, re-validated or
      looked up again: the context comes out as it went in. The token is still
      read first, so the only exception that escapes is the blank-token one. */
  lemma NoOverwrite(header: Option<string>, auth: Authentication, store: Store,
                    codec: Codec, now: int, details: RequestDetails)
    ensures ContextAfter(DoFilterInternal(header, Some(auth), store, codec, now, details), Some(auth)) == Some(auth)
    ensures DoFilterInternal(header, Some(auth), store, codec, now, details).Raise? <==>
      !IsInvalidAuthHeader(header) && IsBlank(BearerToken(header))
  {
  }

  /** The token the filter reads from a header that passed the prefix test. */
  function BearerToken(header: Option<string>): Token
    requires !IsInvalidAuthHeader(header)
  {
    ExtractJwt(header.value)
  }

  /** The request is answered 401 "Token JWT inválido" exactly when the header
      carries the Bearer prefix and the parser rejects the non-blank token. */
  lemma AbortIffParseFails(header: Option<string>, context: Option<Authentication>, store: Store,
                           codec: Codec, now: int, details: RequestDetails)
    ensures DoFilterInternal(header, context, store, codec, now, details).Abort? <==>
      !IsInvalidAuthHeader(header) && !IsBlank(BearerToken(header)) && codec.parse(BearerToken(header)).None?
    ensures DoFilterInternal(header, context, store, codec, now, details).Abort? ==>
      DoFilterInternal(header, context, store, codec, now, details) == Abort(Unauthorized, InvalidTokenBody)
  {
  }

  /** A principal is attached exactly when the header carries the Bearer
      prefix, the token parses with a subject, the context is empty, the
      subject's user loads, and the token has not expired; the principal is
      that user's details. The subject check inside the validity test always
      passes here, because the user was looked up by that subject. */
  lemma AttachIff(header: Option<string>, context: Option<Authentication>, store: Store,
                  codec: Codec, now: int, details: RequestDetails)
    ensures DoFilterInternal(header, context, store, codec, now, details).ProceedAuthenticated? <==>
      && !IsInvalidAuthHeader(header)
      && context.None?
      && Decoded(codec, BearerToken(header)).Some?
      && Subject(Decoded(codec, BearerToken(header)).value).Some?
      && LoadUserByUsername(store, Subject(Decoded(codec, BearerToken(header)).value).value).Success?
      && Expiration(Decoded(codec, BearerToken(header)).value).Some?
      && now <= Expiration(Decoded(codec, BearerToken(header)).value).value
    ensures DoFilterInternal(header, context, store, codec, now, details).ProceedAuthenticated? ==>
      DoFilterInternal(header, context, store, codec, now, details).auth ==
        var principal := LoadUserByUsername(store, Subject(Decoded(codec, BearerToken(header)).value).value).value;
        Authentication(principal, None, [], details)
  {
    if !IsInvalidAuthHeader(header) && context.None? {
      var jwt := BearerToken(header);
      var c := Decoded(codec, jwt);
      if c.Some? && Subject(c.value).Some? {
        var loaded := LoadUserByUsername(store, Subject(c.value).value);
        if loaded.Success? {
          assert loaded.value.username == Subject(c.value).value;
        }
      }
    }
  }

  /** An exception escapes the filter exactly when the token is blank, or
      when a parsed token's subject is looked up (context empty) and either
      the lookup fails or, the user being found, the token has no expiry. On
      a valid store the lookup can only fail by not finding the subject. */
  lemma RaiseIff(header: Option<string>, context: Option<Authentication>, store: Store,
                 codec: Codec, now: int, details: RequestDetails)
    ensures DoFilterInternal(header, context, store, codec, now, details).Raise? <==>
      && !IsInvalidAuthHeader(header)
      && (|| IsBlank(BearerToken(header))
          || (&& context.None?
              && Decoded(codec, BearerToken(header)).Some?
              && Subject(Decoded(codec, BearerToken(header)).value).Some?
              && (|| LoadUserByUsername(store, Subject(Decoded(codec, BearerToken(header)).value).value).Failure?
                  || Expiration(Decoded(codec, BearerToken(header)).value).None?)))
    ensures !IsInvalidAuthHeader(header) && IsBlank(BearerToken(header)) ==>
      DoFilterInternal(header, context, store, codec, now, details) == Raise(BlankToken)
    ensures Valid(store) && DoFilterInternal(header, context, store, codec, now, details).Raise? ==>
      || DoFilterInternal(header, context, store, codec, now, details).fault == BlankToken
      || DoFilterInternal(header, context, store, codec, now, details).fault.UsernameNotFound?
      || DoFilterInternal(header, context, store, codec, now, details).fault == NullValue
  {
    if !IsInvalidAuthHeader(header) && context.None? {
      var jwt := BearerToken(header);
      var c := Decoded(codec, jwt);
      if c.Some? && Subject(c.value).Some? {
        var loaded := LoadUserByUsername(store, Subject(c.value).value);
        if loaded.Success? {
          assert loaded.value.username == Subject(c.value).value;
        }
      }
    }
  }

  /** On a valid store, for tokens that carry an expiry and name a stored
      user, every request with a non-blank token ends in one of the three
      intended outcomes: pass-through, principal attached, or 401. Only a
      blank token escapes as an exception. */
  lemma ThreeOutcomes(header: Option<string>, context: Option<Authentication>, store: Store,
                      codec: Codec, now: int, details: RequestDetails)
    requires Valid(store)
    requires !IsInvalidAuthHeader(header) && Decoded(codec, BearerToken(header)).Some? ==>
      var c := Decoded(codec, BearerToken(header)).value;
      Subject(c).Some? ==> ExistsByCorreo(store, Subject(c).value) && Expiration(c).Some?
    ensures DoFilterInternal(header, context, store, codec, now, details).Raise? <==>
      !IsInvalidAuthHeader(header) && IsBlank(BearerToken(header))
  {
    RaiseIff(header, context, store, codec, now, details);
  }

  /** The header "Bearer " with nothing after it passes the prefix test, and
      the empty token it carries escapes the filter instead of being answered 401. */
  lemma EmptyBearerEscapes(context: Option<Authentication>, store: Store,
                           codec: Codec, now: int, details: RequestDetails)
    ensures !IsInvalidAuthHeader(Some(BearerPrefix))
    ensures DoFilterInternal(Some(BearerPrefix), context, store, codec, now, details) == Raise(BlankToken)
  {
    assert BearerPrefix[7..] == [];
  }
}
