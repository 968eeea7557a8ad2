/** The user service: create, login, list, full update, partial update and
    delete over the repository, as pure transitions from a store to a store
    and a response, or to the exception the service raises. */
module UsuarioService {
  import opened Wrappers
  import opened Errors
  import opened Domain
  import opened Jwt
  import opened Patch

  /** The service's collaborators: the bcrypt encoder, the two configured
      regular expressions (whole-string match) and the token library. */
  datatype Env = Env(
    encode: string -> string,
    emailRegex: string -> bool,
    passwordRegex: string -> bool,
    codec: Codec)

  /** The repository after an operation, and the response it returns. */
  datatype Transition = Transition(store: Store, response: CreateResponse)

  /** Whether a user was deleted, and the repository afterwards. */
  datatype Deletion = Deletion(deleted: bool, store: Store)

  // ---------------------------------------------------------------- helpers

  /** The three checks in their fixed order, given whether the email is
      already taken: the first failing one, or `None` when all pass. */
  function CheckInOrder(taken: bool, env: Env, correo: string, password: string): Option<Fault> {
    if taken then Some(DuplicateEmail)
    else if !env.emailRegex(correo) then Some(InvalidEmailFormat)
    else if !env.passwordRegex(password) then Some(InvalidPasswordFormat)
    else None
  }

  /** validarCorreoYContraseña: duplicate email, then email format, then
      password format; the first failing check is reported. */
  function ValidarCorreoYContrasena(store: Store, env: Env, correo: string, password: string): (r: Option<Fault>)
    ensures r == Some(DuplicateEmail) <==> ExistsByCorreo(store, correo)
    ensures r == Some(InvalidEmailFormat) <==> !ExistsByCorreo(store, correo) && !env.emailRegex(correo)
    ensures r == Some(InvalidPasswordFormat) <==>
      !ExistsByCorreo(store, correo) && env.emailRegex(correo) && !env.passwordRegex(password)
    ensures r.None? <==> !ExistsByCorreo(store, correo) && env.emailRegex(correo) && env.passwordRegex(password)
  {
    CheckInOrder(ExistsByCorreo(store, correo), env, correo, password)
  }

  /** construirResponseDTO: the fields a client may see; it never sets the
      token or the modification time. */
  function ConstruirResponseDto(u: Usuario): (r: CreateResponse)
    ensures r.token.None? && r.modificado.None?
    ensures r.id == u.id && r.nombre == u.nombre && r.correo == u.correo
    ensures r.creado == u.creado && r.ultimoLogin == u.ultimoLogin && r.isActive == u.activo
  {
    CreateResponse(u.id, u.nombre, u.correo, u.creado, None, u.ultimoLogin, None, u.activo)
  }

  /** The response depends on id, name, email, creation, last login and
      the active flag only: never on the digest, the stored token, the
      modification time or the phones. */
  lemma ResponseHidesSecrets(u: Usuario, v: Usuario)
    requires u.id == v.id && u.nombre == v.nombre && u.correo == v.correo
    requires u.creado == v.creado && u.ultimoLogin == v.ultimoLogin && u.activo == v.activo
    ensures ConstruirResponseDto(u) == ConstruirResponseDto(v)
  {
  }

  function ToTelefono(d: TelefonoDto, owner: Uuid): Telefono {
    Telefono(d.numero, d.codigoCiudad, d.codigoPais, owner)
  }

  function ToDto(p: Telefono): TelefonoDto {
    TelefonoDto(p.numero, p.codigoCiudad, p.codigoPais)
  }

  /** The phone list of a request, in order, each phone owned by `owner`. */
  function BuildTelefonos(owner: Uuid, dtos: seq<TelefonoDto>): (ps: seq<Telefono>)
    ensures |ps| == |dtos| && OwnsPhones(ps, owner)
  {
    if dtos == [] then [] else [ToTelefono(dtos[0], owner)] + BuildTelefonos(owner, dtos[1..])
  }

  function ToDtos(ps: seq<Telefono>): seq<TelefonoDto> {
    if ps == [] then [] else [ToDto(ps[0])] + ToDtos(ps[1..])
  }

  /** Reading the stored phones back gives the request's list, in order. */
  lemma {:induction false} BuildTelefonosRoundTrip(owner: Uuid, dtos: seq<TelefonoDto>)
    ensures ToDtos(BuildTelefonos(owner, dtos)) == dtos
  {
    if dtos != [] {
      BuildTelefonosRoundTrip(owner, dtos[1..]);
    }
  }

  /** guardarTelefonos: phones are stored only for a non-null, non-empty list. */
  function GuardarTelefonos(owner: Uuid, dtos: Option<seq<TelefonoDto>>): (ps: seq<Telefono>)
    ensures dtos.None? ==> ps == []
    ensures dtos.Some? ==> ToDtos(ps) == dtos.value
    ensures OwnsPhones(ps, owner)
  {
    if dtos.Some? && dtos.value != [] then
      BuildTelefonosRoundTrip(owner, dtos.value);
      BuildTelefonos(owner, dtos.value)
    else []
  }

  // ------------------------------------------------------------- operations

  /** crearUsuario with the id the persistence layer generates. */
  function CrearUsuario(store: Store, env: Env, dto: UsuarioDto, freshId: Uuid, now: Instant): (r: Result<Transition, Fault>)
    requires freshId !in store
    ensures ValidarCorreoYContrasena(store, env, dto.correo, dto.password).Some? ==>
      r == Failure(ValidarCorreoYContrasena(store, env, dto.correo, dto.password).value)
    ensures r.Success? <==> ValidarCorreoYContrasena(store, env, dto.correo, dto.password).None? && dto.correo != []
    ensures r.Success? ==>
      && r.value.store.Keys == store.Keys + {freshId}
      && (forall id :: id in store ==> r.value.store[id] == store[id])
      && var u := r.value.store[freshId];
      && u.id == freshId && u.nombre == Some(dto.nombre) && u.correo == dto.correo
      && u.password == env.encode(dto.password)
      && u.activo && u.creado == now && u.ultimoLogin == now && u.modificado.None?
      && GenerarToken(env.codec, dto.correo, now) == Success(u.token)
      && u.telefonos == GuardarTelefonos(freshId, dto.telefonos)
      && r.value.response == ConstruirResponseDto(u)
  {
    var invalid := ValidarCorreoYContrasena(store, env, dto.correo, dto.password);
    if invalid.Some? then Failure(invalid.value)
    else
      var token :- GenerarToken(env.codec, dto.correo, now);
      var usuario := Usuario(freshId, Some(dto.nombre), dto.correo, env.encode(dto.password), true,
                             token, now, None, now, GuardarTelefonos(freshId, dto.telefonos));
      Success(Transition(store[freshId := usuario], ConstruirResponseDto(usuario)))
  }

  /** login, with the authentication manager as an oracle on (email, password).
      The not-found exception raised after a successful authentication is an
      AuthenticationException, so it is reported as bad credentials too. */
  function Login(store: Store, env: Env, authenticate: (string, string) -> bool,
                 request: AuthRequest, now: Instant): (r: Result<Transition, Fault>)
    ensures !authenticate(request.correo, request.password) ==> r == Failure(InvalidCredentials)
    ensures authenticate(request.correo, request.password) && request.correo == [] ==> r == Failure(EmptyUsername)
    ensures (authenticate(request.correo, request.password) && request.correo != []
             && !ExistsByCorreo(store, request.correo)) ==> r == Failure(InvalidCredentials)
    ensures r.Success? ==>
      && authenticate(request.correo, request.password)
      && FindByCorreo(store, request.correo).Found?
      && var id := FindByCorreo(store, request.correo).id;
      && r.value.store == store[id := store[id].(ultimoLogin := now)]
      && r.value.response.token.Some?
      && GenerarToken(env.codec, request.correo, now) == Success(r.value.response.token.value)
      && r.value.response.(token := None) == ConstruirResponseDto(r.value.store[id])
    ensures Valid(store) ==>
      (r.Success? <==> authenticate(request.correo, request.password) && ExistsByCorreo(store, request.correo))
  {
    if !authenticate(request.correo, request.password) then Failure(InvalidCredentials)
    else
      var token :- GenerarToken(env.codec, request.correo, now);
      match FindByCorreo(store, request.correo)
      case Absent => Failure(InvalidCredentials)
      case Ambiguous => Failure(NonUniqueResult)
      case Found(id) =>
        var usuario := store[id].(ultimoLogin := now);
        Success(Transition(store[id := usuario], ConstruirResponseDto(usuario).(token := Some(token))))
  }

  /** `ids` lists stored users, each once. */
  predicate Enumerates(ids: seq<Uuid>, store: Store) {
    && (forall i :: 0 <= i < |ids| ==> ids[i] in store)
    && (forall i, j :: 0 <= i < j < |ids| ==> ids[i] != ids[j])
    && (forall id :: id in store ==> id in ids)
  }

  function Project(store: Store, ids: seq<Uuid>): (r: seq<CreateResponse>)
    requires forall i :: 0 <= i < |ids| ==> ids[i] in store
    ensures |r| == |ids|
    ensures forall i :: 0 <= i < |ids| ==> r[i] == ConstruirResponseDto(store[ids[i]])
  {
    if ids == [] then [] else [ConstruirResponseDto(store[ids[0]])] + Project(store, ids[1..])
  }

  /** The ids a list mentions. */
  function Elements(ids: seq<Uuid>): (s: set<Uuid>)
    ensures forall x :: x in s <==> x in ids
  {
    if ids == [] then {} else {ids[0]} + Elements(ids[1..])
  }

  /** A list without repetitions has as many elements as its set. */
  lemma {:induction false} DistinctCardinality(ids: seq<Uuid>)
    requires forall i, j :: 0 <= i < j < |ids| ==> ids[i] != ids[j]
    ensures |Elements(ids)| == |ids|
  {
    if ids != [] {
      var rest := ids[1..];
      forall i, j | 0 <= i < j < |rest|
        ensures rest[i] != rest[j]
      {
        assert rest[i] == ids[i + 1] && rest[j] == ids[j + 1];
      }
      DistinctCardinality(rest);
      assert ids[0] !in rest by {
        forall k | 0 <= k < |rest|
          ensures rest[k] != ids[0]
        {
          assert rest[k] == ids[k + 1];
        }
      }
    }
  }

  /** findAll, with `order` the repository's enumeration of its rows: one
      response per stored user in that order, the empty list for an empty store. */
  function FindAll(store: Store, order: seq<Uuid>): (r: seq<CreateResponse>)
    requires Enumerates(order, store)
    ensures |r| == |order| == |store|
    ensures forall i :: 0 <= i < |r| ==> r[i] == ConstruirResponseDto(store[order[i]])
    ensures r == [] <==> store == map[]
  {
    assert Elements(order) == store.Keys;
    DistinctCardinality(order);
    if |store| == 0 then [] else Project(store, order)
  }

  /** The mutation common to both full-update variants, after validation. */
  function ApplyFullUpdate(store: Store, env: Env, id: Uuid, dto: UsuarioDto, now: Instant): (r: Result<Transition, Fault>)
    requires id in store
    ensures r.Success? <==> dto.telefonos.Some? && dto.correo != []
    ensures dto.telefonos.None? ==> r == Failure(NullValue)
    ensures r.Success? ==>
      && r.value.store.Keys == store.Keys
      && (forall other :: other in store && other != id ==> r.value.store[other] == store[other])
      && var v := r.value.store[id];
      && v.id == store[id].id && v.nombre == Some(dto.nombre) && v.correo == dto.correo
      && v.password == env.encode(dto.password)
      && v.activo == store[id].activo && v.creado == store[id].creado && v.ultimoLogin == store[id].ultimoLogin
      && v.modificado == Some(now)
      && GenerarToken(env.codec, dto.correo, now) == Success(v.token)
      && OwnsPhones(v.telefonos, id) && ToDtos(v.telefonos) == dto.telefonos.value
      && r.value.response == ConstruirResponseDto(v)
  {
    if dto.telefonos.None? then Failure(NullValue)
    else
      var token :- GenerarToken(env.codec, dto.correo, now);
      BuildTelefonosRoundTrip(id, dto.telefonos.value);
      var usuario := store[id].(
        nombre := Some(dto.nombre),
        correo := dto.correo,
        password := env.encode(dto.password),
        modificado := Some(now),
        telefonos := BuildTelefonos(id, dto.telefonos.value),
        token := token);
      Success(Transition(store[id := usuario], ConstruirResponseDto(usuario)))
  }

  /** updateUsuario: lookup, validation (whose duplicate check includes the
      user being updated), then overwrite of name, email, digest, phones,
      token and modification time. */
  function UpdateUsuario(store: Store, env: Env, id: Uuid, dto: UsuarioDto, now: Instant): (r: Result<Transition, Fault>)
    ensures id !in store ==> r == Failure(UserNotFound)
    ensures id in store && ValidarCorreoYContrasena(store, env, dto.correo, dto.password).Some? ==>
      r == Failure(ValidarCorreoYContrasena(store, env, dto.correo, dto.password).value)
    ensures r.Success? <==>
      id in store && ValidarCorreoYContrasena(store, env, dto.correo, dto.password).None?
      && dto.telefonos.Some? && dto.correo != []
    ensures r.Success? ==> r == ApplyFullUpdate(store, env, id, dto, now)
  {
    if id !in store then Failure(UserNotFound)
    else
      var invalid := ValidarCorreoYContrasena(store, env, dto.correo, dto.password);
      if invalid.Some? then Failure(invalid.value)
      else ApplyFullUpdate(store, env, id, dto, now)
  }

  /** Some user other than `id` has the email. */
  predicate ExistsOtherByCorreo(store: Store, id: Uuid, correo: string) {
    exists other :: other in store && other != id && store[other].correo == correo
  }

  /** Full update with the duplicate check made to ignore the user being
      updated, so that keeping one's own email is allowed. */
  function UpdateUsuarioExcludingSelf(store: Store, env: Env, id: Uuid, dto: UsuarioDto, now: Instant): (r: Result<Transition, Fault>)
    ensures id !in store ==> r == Failure(UserNotFound)
    ensures r == Failure(DuplicateEmail) <==> id in store && ExistsOtherByCorreo(store, id, dto.correo)
    ensures r.Success? <==>
      && id in store && !ExistsOtherByCorreo(store, id, dto.correo)
      && env.emailRegex(dto.correo) && env.passwordRegex(dto.password)
      && dto.telefonos.Some? && dto.correo != []
    ensures r.Success? ==> r == ApplyFullUpdate(store, env, id, dto, now)
  {
    if id !in store then Failure(UserNotFound)
    else
      var invalid := CheckInOrder(ExistsOtherByCorreo(store, id, dto.correo), env, dto.correo, dto.password);
      if invalid.Some? then Failure(invalid.value)
      else ApplyFullUpdate(store, env, id, dto, now)
  }

  /** deleteUsuario. */
  function DeleteUsuario(store: Store, id: Uuid): (r: Deletion)
    ensures r.deleted <==> id in store
    ensures r.store.Keys == store.Keys - {id}
    ensures forall other :: other in r.store ==> r.store[other] == store[other]
  {
    if id in store then Deletion(true, store - {id}) else Deletion(false, store)
  }

  /** patchUsuario: lookup, the entries in order, then a token for the
      resulting email and the modification time, whichever fields changed. */
  function PatchUsuario(store: Store, env: Env, id: Uuid, updates: Updates, now: Instant): (r: Result<Transition, Fault>)
    ensures id !in store ==> r == Failure(UserNotFound)
    ensures r.Success? ==>
      && id in store
      && r.value.store.Keys == store.Keys
      && (forall other :: other in store && other != id ==> r.value.store[other] == store[other])
      && var v := r.value.store[id];
      && v.id == store[id].id && v.creado == store[id].creado && v.ultimoLogin == store[id].ultimoLogin
      && v.modificado == Some(now)
      && GenerarToken(env.codec, v.correo, now) == Success(v.token)
      && r.value.response == ConstruirResponseDto(v)
  {
    if id !in store then Failure(UserNotFound)
    else
      var usuario :- ApplyUpdates(env.encode, store[id], updates);
      var token :- GenerarToken(env.codec, usuario.correo, now);
      var saved := usuario.(token := token, modificado := Some(now));
      Success(Transition(store[id := saved], ConstruirResponseDto(saved)))
  }
}
