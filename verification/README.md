# ApiRest-Springboot user service and token gate, in Dafny

This project models the core of a Spring Boot user-management REST API:

- the **user service** (`UsuarioServiceImpl`): registration, login, listing,
  full update, partial update and deletion of users in the repository, with
  the email/password validation and the response projection they share;
- the **bearer-token gate** (`JwFilter`) that runs once per request, reads the
  `Authorization` header and attaches an authenticated principal to the
  security context, together with the user-details lookup it calls
  (`UsuarioDetalleService.loadUserByUsername`);
- the **token service** (`JwtService`): issuing tokens with a fixed lifetime,
  reading their subject and expiry, and the validity rule.

Every operation is a pure function. The repository is a map from user id to
`Usuario` (`Domain.Store`); an operation returns the repository afterwards and
its response, or the exception the service raises, as a `Fault`. The
collaborators the service cannot see into are parameters:

- the bcrypt encoder is `encode`;
- the two configured regular expressions are the predicates `emailRegex` and `passwordRegex`;
- the token library is a `Codec`, a signing function with a parser that may reject a token;
- the authentication manager is an `authenticate` oracle;
- the current time is an argument `now`;
- the id the persistence layer generates is an argument `freshId`.

The module layout follows the program:

| module | file | models |
|---|---|---|
| `Wrappers` | wrappers.dfy | `Option` and `Result` |
| `Errors` | errors.dfy | the exceptions and their messages |
| `Domain` | domain.dfy | the entities, the DTOs, the repository and its queries |
| `Jwt` | jwt.dfy | `JwtService` |
| `UsuarioDetalle` | user_details.dfy | `UsuarioDetalleService` |
| `Gate` | gate.dfy | `JwFilter` |
| `Patch` | patch.dfy | the field-map switch of `patchUsuario` |
| `UsuarioService` | user_service.dfy | `UsuarioServiceImpl` |
| `ServiceProperties` | service_properties.dfy | lemmas relating several service calls |

Three facts about the token code are worth stating up front:

- A token whose expiry equals the current instant is still valid: the check
  is "expiry not before now".
- Every token lives `1000 * 60 * 24` = 1,440,000 ms, which is twenty-four minutes.
- The token parser refuses an empty or all-whitespace token with an
  IllegalArgumentException, which is not a JwtException. The filter catches
  only JwtException, so the header `"Bearer "` makes an exception escape the
  filter instead of producing a 401 answer.

The partial update does not run the duplicate-email check, so it can give a
second user an email that is already stored
(`ServiceProperties.PatchCanDuplicateEmail`). After that, every lookup of that
email finds two rows and fails.

## Model

| member | source | states |
|---|---|---|
| Domain.FindByCorreo | src/main/java/com/example/ejercicio/repository/UsuarioRepository.java:11 | the single-result email query finds nothing exactly when no user has the email; when it finds a user, that is the only user with the email; it fails with more than one row exactly when two distinct users share the email, which cannot happen in a store with unique emails |
| Domain.ExistsByCorreo | src/main/java/com/example/ejercicio/repository/UsuarioRepository.java:12 | the existence query holds exactly when the email is among the emails of the stored users, and never on an empty repository |
| UsuarioService.ValidarCorreoYContrasena | src/main/java/com/example/ejercicio/service/impl/UsuarioServiceImpl.java:334-347 | the checks run in a fixed order: duplicate email, then email format, then password format. Each error is reported exactly when every earlier check passed and that check fails; no error is reported exactly when all three pass |
| UsuarioService.ConstruirResponseDto | src/main/java/com/example/ejercicio/service/impl/UsuarioServiceImpl.java:355-364 | the response copies the user's id, name, email, creation time, last-login time and active flag, and never carries a token or a modification time |
| UsuarioService.ResponseHidesSecrets | src/main/java/com/example/ejercicio/service/impl/UsuarioServiceImpl.java:355-364 | two users who agree on id, name, email, creation time, last login and active flag get the same response, so the digest, the stored token and the phones never leak through it |
| UsuarioService.BuildTelefonos | src/main/java/com/example/ejercicio/service/impl/UsuarioServiceImpl.java:118-126 | one phone per request entry, each owned by the new user |
| UsuarioService.BuildTelefonosRoundTrip | src/main/java/com/example/ejercicio/service/impl/UsuarioServiceImpl.java:118-126 | reading the built phones back as DTOs gives the request's list, in order, with every attribute as sent, null included |
| UsuarioService.GuardarTelefonos | src/main/java/com/example/ejercicio/service/impl/UsuarioServiceImpl.java:115-130 | no phone is stored for a null list; otherwise the stored phones read back as the given list, attribute by attribute with nulls kept, and all belong to the user |
| UsuarioService.CrearUsuario | src/main/java/com/example/ejercicio/service/impl/UsuarioServiceImpl.java:71-107 | a validation failure is raised unchanged and nothing is stored. Otherwise registration succeeds exactly when the email is non-empty, and adds exactly one user under the fresh id, leaving every other user as it was. That user is active, has the given name and email and the encoded password, was created and last logged in at the same instant, has never been modified, and holds the token issued for its email and the request's phones; the response is that user's projection |
| UsuarioService.Login | src/main/java/com/example/ejercicio/service/impl/UsuarioServiceImpl.java:141-170 | failed authentication ends in "Credenciales inválidas". After authentication passes, an empty email fails with the user-constructor error, because the token is issued before the lookup, and an unknown non-empty email ends in "Credenciales inválidas". On success the only change to the repository is the found user's last-login time. The response is that user's projection plus a fresh token for the email. On a valid store, login succeeds exactly when authentication passes and the email is stored |
| UsuarioService.FindAll | src/main/java/com/example/ejercicio/service/impl/UsuarioServiceImpl.java:178-193 | one response per stored user, in the repository's order, each the projection of that user; the empty list exactly for an empty repository |
| UsuarioService.ApplyFullUpdate | src/main/java/com/example/ejercicio/service/impl/UsuarioServiceImpl.java:211-237 | a null phone list fails with a null-pointer fault. Otherwise the update succeeds exactly when the email is non-empty. It replaces name, email, digest and phones, and stamps the modification time. It issues the token for the new email, keeps id, active flag, creation time and last login, and leaves every other user as it was |
| UsuarioService.UpdateUsuario | src/main/java/com/example/ejercicio/service/impl/UsuarioServiceImpl.java:203-238 | an unknown id gives "Usuario no encontrado", and a validation failure is raised unchanged. Success comes exactly for a known id with passing validation, non-null phones and a non-empty email, and is the full update above. The duplicate check counts the user being updated |
| UsuarioService.UpdateUsuarioExcludingSelf | src/main/java/com/example/ejercicio/service/impl/UsuarioServiceImpl.java:203-238 | corrected full update: the duplicate error comes exactly when another user holds the email. Success comes exactly for a known id when no other user holds the email, both formats pass, the phone list is non-null and the email is non-empty |
| UsuarioService.DeleteUsuario | src/main/java/com/example/ejercicio/service/impl/UsuarioServiceImpl.java:247-257 | reports true exactly when the id is stored; afterwards exactly that id is gone and every other user is unchanged |
| UsuarioService.PatchUsuario | src/main/java/com/example/ejercicio/service/impl/UsuarioServiceImpl.java:267-315 | an unknown id gives "Usuario no encontrado". On success only the patched user changes. Its id, creation time and last login are kept, whichever fields were sent. Its modification time is now and its token is the one issued for its resulting email; the response is its projection |
| Patch.TextField | src/main/java/com/example/ejercicio/service/impl/UsuarioServiceImpl.java:290-292 | a phone attribute that is absent or null reads as null, a string reads as itself, and anything else is a cast failure |
| Patch.ParseTelefono | src/main/java/com/example/ejercicio/service/impl/UsuarioServiceImpl.java:288-294 | a phone parses exactly when the element is a JSON object whose three attributes each read as text or null. The phone holds those three values and belongs to the patched user. A null element fails with a null-pointer fault, because the cast to a map lets null through and the first `get` then fails. Any other non-object element, or attribute of the wrong type, is a cast failure |
| Patch.ParseTelefonos | src/main/java/com/example/ejercicio/service/impl/UsuarioServiceImpl.java:288-295 | the list parses exactly when every element does; the result has one phone per element, in order, each the parse of its element and owned by the user |
| Patch.ApplyUpdate | src/main/java/com/example/ejercicio/service/impl/UsuarioServiceImpl.java:274-301 | one entry applies exactly when its key is one of the five known ones and its value has the type that key's cast expects; any other key fails with "Información desconocida"; id, token, creation, modification and last-login times are never touched by an entry |
| Patch.ApplyUpdates | src/main/java/com/example/ejercicio/service/impl/UsuarioServiceImpl.java:273-302 | applying the entries in order never touches id, token, creation, modification or last-login time |
| Patch.ApplyUpdatesSucceedsIff | src/main/java/com/example/ejercicio/service/impl/UsuarioServiceImpl.java:273-302 | the whole field map applies exactly when every entry is accepted |
| Patch.UnknownKeyFails | src/main/java/com/example/ejercicio/service/impl/UsuarioServiceImpl.java:299-300 | one unknown key anywhere in the map makes the whole map fail. When every entry before it was applied, the error is "Información desconocida"; an earlier bad entry fails first with its own error |
| Patch.ApplyUpdatesIsLastWriter | src/main/java/com/example/ejercicio/service/impl/UsuarioServiceImpl.java:273-302 | a successful map leaves the user as an independent last-writer-wins definition says. Each field takes the value of the last entry for its key, or keeps its old value when no entry names it |
| Jwt.BuildClaims | src/main/java/com/example/ejercicio/service/JwtService.java:126-135 | the issued claims name the username as subject, the issue instant, and an expiry 1,440,000 ms later; they keep every extra claim except those three names, and hold no other keys |
| Jwt.IssueClaims | src/main/java/com/example/ejercicio/service/JwtService.java:111-114 | the builder with no claims of its own stores the subject only when it has text, so a blank username leaves no subject. The issue instant and the expiry 1,440,000 ms later are always set, and nothing else |
| Jwt.GenerarToken | src/main/java/com/example/ejercicio/service/JwtService.java:106-117 | issuing fails exactly for an empty email, and then it fails with the user-constructor error. With a faithful codec, an issued token parses back with an expiry 1,440,000 ms after issue. Its subject is the email, except for an all-whitespace email, where the token has no subject |
| Jwt.GenerarTokenConClaims | src/main/java/com/example/ejercicio/service/JwtService.java:126-135 | with a faithful codec, a token issued with extra claims parses back with the username as subject and an expiry 1,440,000 ms after issue |
| Jwt.ExtraerTodosClaims | src/main/java/com/example/ejercicio/service/JwtService.java:66-73 | reading the claims succeeds exactly when the token is not blank and the parser accepts it, and returns the parsed claims. A blank token fails with the parser's blank-token argument error. A token error comes exactly when the parser rejects a non-blank token |
| Jwt.ExtraerUsername | src/main/java/com/example/ejercicio/service/JwtService.java:31-34 | the subject is read from the decoded claims; a blank token propagates the blank-token error and a rejected token the token error |
| Jwt.ExtraerExpiracion | src/main/java/com/example/ejercicio/service/JwtService.java:42-45 | the expiry is read from the decoded claims; a blank token propagates the blank-token error and a rejected token the token error |
| Jwt.IsTokenExpirado | src/main/java/com/example/ejercicio/service/JwtService.java:81-84 | a token is expired exactly when its expiry is strictly before now, and not expired exactly when now is at or before its expiry |
| Jwt.IsTokenValido | src/main/java/com/example/ejercicio/service/JwtService.java:93-98 | a token is valid exactly when it decodes, its subject is the username and now is at or before its expiry. The blank-token error comes exactly for a blank token. The token error comes exactly when the parser rejects a non-blank token. Any other failure is a null-pointer fault, from a missing subject or from a missing expiry on a matching subject |
| Jwt.IssuedTokenLifetime | src/main/java/com/example/ejercicio/service/JwtService.java:106-117 | a token issued at `now` for an email with text names that email. It is valid for that email at a later check time exactly when that time is at most `now` + 1,440,000 ms. A token issued for an all-whitespace email has no subject, and checking it fails on the null subject |
| Jwt.OverloadSubjectWins | src/main/java/com/example/ejercicio/service/JwtService.java:126-135 | in the extra-claims overload the subject is the username even when the extra claims carry a subject of their own, and every other extra claim survives |
| Jwt.ExpiryBoundary | src/main/java/com/example/ejercicio/service/JwtService.java:81-98 | a token whose expiry is exactly now is neither expired nor invalid, and becomes invalid one millisecond later |
| UsuarioDetalle.LoadUserByUsername | src/main/java/com/example/ejercicio/service/UsuarioDetalleService.java:41-53 | "Usuario no encontrado con este email: " plus the email is raised exactly when no user has the email. Found details carry that email as username, the stored digest as password and no authorities. On a valid store the lookup succeeds exactly when the email is stored |
| Errors.NotFoundMessageNamesEmail | src/main/java/com/example/ejercicio/service/UsuarioDetalleService.java:46-49 | the lookup's not-found message names the email: two such messages are equal exactly when the emails are |
| Gate.IsInvalidAuthHeader | src/main/java/com/example/ejercicio/configure/JwFilter.java:48-50 | a header is usable exactly when it is present and starts with the seven characters "Bearer " |
| Gate.ExtractJwt | src/main/java/com/example/ejercicio/configure/JwFilter.java:52-54 | the extracted token with the prefix put back is the header |
| Gate.ExtractJwtInverse | src/main/java/com/example/ejercicio/configure/JwFilter.java:52-54 | stripping the prefix from prefix-plus-token gives the token back |
| Gate.HandleAuthentication | src/main/java/com/example/ejercicio/configure/JwFilter.java:56-68 | a token error comes exactly when the parser rejects the non-blank token, and the blank-token error exactly when the token is blank. With a non-empty context the only outcomes are no change and those two errors. When a principal is built, the context was empty and the subject's details loaded. The principal is those details and the token is valid for them |
| Gate.HandleJwtException | src/main/java/com/example/ejercicio/configure/JwFilter.java:70-74 | the request is answered 401 with body "Token JWT inválido" and the chain does not continue |
| Gate.DoFilterInternal | src/main/java/com/example/ejercicio/configure/JwFilter.java:30-46 | a missing or non-Bearer header passes through untouched. The blank-token exception escapes exactly when the prefixed token is blank. With an authentication already in the context, the request passes through, is answered 401, or lets that exception escape |
| Gate.LowercaseSchemeIgnored | src/main/java/com/example/ejercicio/configure/JwFilter.java:48-50 | the prefix test is case-sensitive: a "bearer " header is passed through without authentication |
| Gate.NoOverwrite | src/main/java/com/example/ejercicio/configure/JwFilter.java:56-68 | an authentication already in the context comes out unchanged; an exception escapes in that case exactly when the token is blank |
| Gate.AbortIffParseFails | src/main/java/com/example/ejercicio/configure/JwFilter.java:39-45 | the 401 "Token JWT inválido" answer comes exactly when the header has the prefix and the parser rejects the non-blank token |
| Gate.AttachIff | src/main/java/com/example/ejercicio/configure/JwFilter.java:56-68 | a principal is attached exactly when the header has the prefix, the context is empty, the token parses with a subject, that user's details load, and the token carries an expiry not before now; the principal is those details with no credentials and no authorities |
| Gate.RaiseIff | src/main/java/com/example/ejercicio/configure/JwFilter.java:40-45 | an exception escapes the filter exactly when the token is blank, or when a decoded token's subject is looked up and either the lookup fails or the token has no expiry. A blank token always raises the blank-token exception. On a valid store the escaping exception is the blank-token, user-not-found or null-pointer one |
| Gate.ThreeOutcomes | src/main/java/com/example/ejercicio/configure/JwFilter.java:30-46 | on a valid store, for tokens that name a stored user and carry an expiry, an exception escapes exactly when the token is blank; every other request passes through, is authenticated, or is answered 401 |
| Gate.EmptyBearerEscapes | src/main/java/com/example/ejercicio/configure/JwFilter.java:39-45 | the header "Bearer " passes the prefix test, and its empty token escapes the filter as the blank-token exception rather than a 401 |
| ServiceProperties.CreatePreservesValid | src/main/java/com/example/ejercicio/service/impl/UsuarioServiceImpl.java:71-92 | registration keeps the repository well keyed, with unique and non-empty emails |
| ServiceProperties.SecondRegistrationIsDuplicate | src/main/java/com/example/ejercicio/service/impl/UsuarioServiceImpl.java:336-338 | registering a second user with an email just registered fails with "El correo ya está registrado" |
| ServiceProperties.DeleteUndoesCreate | src/main/java/com/example/ejercicio/service/impl/UsuarioServiceImpl.java:247-257 | deleting a user just registered reports true and gives back the repository as it was before |
| ServiceProperties.DeletePreservesValid | src/main/java/com/example/ejercicio/service/impl/UsuarioServiceImpl.java:247-257 | deletion keeps the repository valid, and deleting an unknown id reports false and changes nothing |
| ServiceProperties.LoginPreservesValid | src/main/java/com/example/ejercicio/service/impl/UsuarioServiceImpl.java:157-160 | a successful login keeps the repository valid and leaves the user's stored token as it was: the fresh token goes only into the response |
| ServiceProperties.UpdatePreservesValid | src/main/java/com/example/ejercicio/service/impl/UsuarioServiceImpl.java:203-238 | a successful full update keeps the repository valid |
| ServiceProperties.UpdateRejectsUnchangedEmail | src/main/java/com/example/ejercicio/service/impl/UsuarioServiceImpl.java:209 | as written, a full update that keeps the user's own email always fails with "El correo ya está registrado" |
| ServiceProperties.UpdateExcludingSelfAcceptsUnchangedEmail | src/main/java/com/example/ejercicio/service/impl/UsuarioServiceImpl.java:203-238 | with the corrected check, a full update that keeps the user's own email succeeds when the formats and the phone list are acceptable, and keeps the repository valid |
| ServiceProperties.UpdateExcludingSelfPreservesValid | src/main/java/com/example/ejercicio/service/impl/UsuarioServiceImpl.java:203-238 | the corrected full update keeps the repository valid |
| ServiceProperties.PatchSucceedsIff | src/main/java/com/example/ejercicio/service/impl/UsuarioServiceImpl.java:267-315 | a partial update succeeds exactly when the id is stored, every entry is accepted and the resulting email is non-empty |
| ServiceProperties.PatchUnknownKeyFails | src/main/java/com/example/ejercicio/service/impl/UsuarioServiceImpl.java:299-300 | one unknown key makes the partial update fail. For a stored user whose earlier entries all apply, the error is "Información desconocida" |
| ServiceProperties.PatchIsLastWriter | src/main/java/com/example/ejercicio/service/impl/UsuarioServiceImpl.java:273-308 | the stored user after a partial update is the last-writer-wins result of the map, with a fresh token and modification time |
| ServiceProperties.PatchActiveFlagOnly | src/main/java/com/example/ejercicio/service/impl/UsuarioServiceImpl.java:284-286 | patching only the active flag on a user with an email succeeds and sets the flag; name, email, digest and phones stay, the token is reissued for the same email and the modification time is now |
| ServiceProperties.PatchPreservesWellKeyed | src/main/java/com/example/ejercicio/service/impl/UsuarioServiceImpl.java:267-315 | a successful partial update keeps ids consistent, phones owned and emails non-empty |
| ServiceProperties.PatchCanDuplicateEmail | src/main/java/com/example/ejercicio/service/impl/UsuarioServiceImpl.java:278-280 | the partial update does not check the email: setting one user's email to another's succeeds and leaves two users with the same email |
| ServiceProperties.PatchBlankEmailIssuesSubjectlessToken | src/main/java/com/example/ejercicio/service/impl/UsuarioServiceImpl.java:278-306 | a partial update to the email " " succeeds, stores that email, and stores a token with no subject |

## Left out

- Password hashing is the opaque function `encode`. Bcrypt's salt and randomness, and the comparison the authentication manager does, are not modelled.
- The authentication manager is the oracle `authenticate`.
- Login also stores the authentication in the security context (UsuarioServiceImpl.java:147). That thread-local state is not modelled.
- The two configured regular expressions are opaque predicates. Their patterns come from configuration, which is not part of this model.
- Token encoding, HS256 signing and the secret key are left out. The parser is an opaque function that either rejects a non-blank token with a JwtException or returns its claims. Which tokens it rejects is a parameter. That includes whether it rejects expired tokens itself, which the validity rule then never sees.
- JWT dates are kept in whole milliseconds. The encoding truncates them to seconds, and that truncation is not modelled.
- Create, login, full update and partial update read the clock more than once. The model reads it once per call, as the argument `now`.
- Null name, email or password in a create, update or login request is not modelled: those DTO fields are strings. Phone attributes may be null. A null email in a partial update is folded into the empty string: its only later reader is token issue, which rejects both alike.
- `UUID.fromString` on a malformed path id is not modelled; ids are already parsed.
- Registration saves the phones through a separate phone repository. The model stores them on the user.
- Concurrent requests, and the check-then-act race between the duplicate check and the save, are left out.
- The controllers, exception handlers, security configuration, OpenAPI setup and the entity helpers `addPhone`/`removePhone` are not part of this model.
- `extraerClaim` is generic over a resolver function. The model has one accessor per claim instead (`Jwt.ExtraerUsername`, `Jwt.ExtraerExpiracion`).
- `buscarPorEmail` is the repository query itself, `Domain.FindByCorreo`.
- Claim values are either text or an instant. Other JSON claim types are not modelled.
- UsuarioService.FindAll: the repository's row order is a parameter and is not derived; the `catch` that rewraps repository exceptions is left out, because the pure repository raises none.
- Gate.DoFilterInternal: the request details attached to a principal are an opaque argument. The rest of the filter chain runs inside the same `try` (JwFilter.java:40-45). A JwtException thrown further down the chain is also answered 401 "Token JWT inválido", and that case is not modelled: the outcomes `Proceed` and `ProceedAuthenticated` end at the call to the chain.
- Gate.HandleJwtException: setting the response's character encoding to UTF-8 is not modelled. The answer is its status and body text.
- The token library's own text tests belong to the library, which is not part of this model. These are the parser's blank-token refusal and the builder's rule that a subject needs text. `Jwt.IsBlank` models both as a string made only of `Character.isWhitespace` characters.

## Findings

| source | as written | input that shows it | evidently intended | confidence | as-written member | corrected member |
|---|---|---|---|---|---|---|
| src/main/java/com/example/ejercicio/service/impl/UsuarioServiceImpl.java:209 | the full update runs the registration check `existsByCorreo` on the new email, and that check counts the user being updated | a stored user sends an update with their own unchanged email: the result is always "El correo ya está registrado" | only an email held by another user is a duplicate | not executed | ServiceProperties.UpdateRejectsUnchangedEmail | UsuarioService.UpdateUsuarioExcludingSelf |

The corrected update is proved to accept the unchanged email and keep the
repository valid (`ServiceProperties.UpdateExcludingSelfAcceptsUnchangedEmail`,
`ServiceProperties.UpdateExcludingSelfPreservesValid`). The as-written
`UsuarioService.UpdateUsuario` stays in the model, because it is what the
service does.
