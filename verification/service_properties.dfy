/** Properties that relate several service operations, and the store
    invariant each operation keeps or breaks. */
module ServiceProperties {
  import opened Wrappers
  import opened Errors
  import opened Domain
  import opened Jwt
  import opened Patch
  import opened UsuarioService

  /** A successful registration keeps the store valid. */
  lemma CreatePreservesValid(store: Store, env: Env, dto: UsuarioDto, freshId: Uuid, now: Instant)
    requires freshId !in store && Valid(store)
    requires CrearUsuario(store, env, dto, freshId, now).Success?
    ensures Valid(CrearUsuario(store, env, dto, freshId, now).value.store)
  {
    var s' := CrearUsuario(store, env, dto, freshId, now).value.store;
    assert !ExistsByCorreo(store, dto.correo);
    forall a, b | a in s' && b in s' && s'[a].correo == s'[b].correo
      ensures a == b
    {
      if a != freshId && b != freshId {
        assert s'[a] == store[a] && s'[b] == store[b];
      }
    }
  }

  /** Registering the same email twice: the second attempt fails with the
      duplicate-email error, whatever its other fields. */
  lemma SecondRegistrationIsDuplicate(store: Store, env: Env, first: UsuarioDto, second: UsuarioDto,
                                      id1: Uuid, id2: Uuid, now1: Instant, now2: Instant)
    requires id1 !in store && id1 != id2 && id2 !in store
    requires CrearUsuario(store, env, first, id1, now1).Success?
    requires second.correo == first.correo
    ensures CrearUsuario(CrearUsuario(store, env, first, id1, now1).value.store, env, second, id2, now2)
            == Failure(DuplicateEmail)
  {
    var s' := CrearUsuario(store, env, first, id1, now1).value.store;
    assert s'[id1].correo == second.correo;
    assert ExistsByCorreo(s', second.correo);
  }

  /** Deleting the user just registered restores the previous store. */
  lemma DeleteUndoesCreate(store: Store, env: Env, dto: UsuarioDto, freshId: Uuid, now: Instant)
    requires freshId !in store
    requires CrearUsuario(store, env, dto, freshId, now).Success?
    ensures DeleteUsuario(CrearUsuario(store, env, dto, freshId, now).value.store, freshId) == Deletion(true, store)
  {
    var s' := CrearUsuario(store, env, dto, freshId, now).value.store;
    assert s' - {freshId} == store;
  }

  /** Delete keeps the store valid; deleting an absent id changes nothing. */
  lemma DeletePreservesValid(store: Store, id: Uuid)
    requires Valid(store)
    ensures Valid(DeleteUsuario(store, id).store)
    ensures id !in store ==> DeleteUsuario(store, id) == Deletion(false, store)
  {
    var s' := DeleteUsuario(store, id).store;
    assert forall a :: a in s' ==> a in store && s'[a] == store[a];
    if id !in store {
      assert s' == store;
    }
  }

  /** Login keeps the store valid and leaves the stored token as it was. */
  lemma LoginPreservesValid(store: Store, env: Env, authenticate: (string, string) -> bool,
                            request: AuthRequest, now: Instant)
    requires Valid(store)
    requires Login(store, env, authenticate, request, now).Success?
    ensures Valid(Login(store, env, authenticate, request, now).value.store)
    ensures var id := FindByCorreo(store, request.correo).id;
      Login(store, env, authenticate, request, now).value.store[id].token == store[id].token
  {
  }

  /** A full update keeps the store valid: its email was checked against every stored user. */
  lemma UpdatePreservesValid(store: Store, env: Env, id: Uuid, dto: UsuarioDto, now: Instant)
    requires Valid(store)
    requires UpdateUsuario(store, env, id, dto, now).Success?
    ensures Valid(UpdateUsuario(store, env, id, dto, now).value.store)
  {
    var s' := UpdateUsuario(store, env, id, dto, now).value.store;
    assert !ExistsByCorreo(store, dto.correo);
    forall a, b | a in s' && b in s' && s'[a].correo == s'[b].correo
      ensures a == b
    {
      if a != id && b != id {
        assert s'[a] == store[a] && s'[b] == store[b];
      }
    }
  }

  /** As written, a full update that keeps the user's own email is rejected
      as a duplicate, whatever else it changes. */
  lemma UpdateRejectsUnchangedEmail(store: Store, env: Env, id: Uuid, dto: UsuarioDto, now: Instant)
    requires id in store && dto.correo == store[id].correo
    ensures UpdateUsuario(store, env, id, dto, now) == Failure(DuplicateEmail)
  {
    assert ExistsByCorreo(store, dto.correo);
  }

  /** With the duplicate check ignoring the user itself, an update that
      keeps the own email goes through on a valid store, and every
      successful update still keeps the store valid. */
  lemma UpdateExcludingSelfAcceptsUnchangedEmail(store: Store, env: Env, id: Uuid, dto: UsuarioDto, now: Instant)
    requires Valid(store) && id in store && dto.correo == store[id].correo
    requires env.emailRegex(dto.correo) && env.passwordRegex(dto.password) && dto.telefonos.Some?
    ensures UpdateUsuarioExcludingSelf(store, env, id, dto, now).Success?
    ensures Valid(UpdateUsuarioExcludingSelf(store, env, id, dto, now).value.store)
  {
    assert !ExistsOtherByCorreo(store, id, dto.correo);
    UpdateExcludingSelfPreservesValid(store, env, id, dto, now);
  }

  lemma UpdateExcludingSelfPreservesValid(store: Store, env: Env, id: Uuid, dto: UsuarioDto, now: Instant)
    requires Valid(store)
    requires UpdateUsuarioExcludingSelf(store, env, id, dto, now).Success?
    ensures Valid(UpdateUsuarioExcludingSelf(store, env, id, dto, now).value.store)
  {
    var s' := UpdateUsuarioExcludingSelf(store, env, id, dto, now).value.store;
    assert !ExistsOtherByCorreo(store, id, dto.correo);
    forall a, b | a in s' && b in s' && s'[a].correo == s'[b].correo
      ensures a == b
    {
      if a != id && b != id {
        assert s'[a] == store[a] && s'[b] == store[b];
      }
    }
  }

  /** A partial update succeeds exactly when the user exists, every entry
      is a known key with a value of the expected type, and the resulting
      email is not empty. */
  lemma PatchSucceedsIff(store: Store, env: Env, id: Uuid, updates: Updates, now: Instant)
    ensures PatchUsuario(store, env, id, updates, now).Success? <==>
      && id in store
      && (forall i :: 0 <= i < |updates| ==> Accepts(updates[i].0, updates[i].1, store[id].id))
      && Expected(env.encode, store[id], updates).correo != []
  {
    if id in store {
      ApplyUpdatesSucceedsIff(env.encode, store[id], updates);
      if ApplyUpdates(env.encode, store[id], updates).Success? {
        ApplyUpdatesIsLastWriter(env.encode, store[id], updates);
      }
    }
  }

  /** Any key outside nombre, correo, password, activo and telefonos makes
      the partial update fail, so nothing is persisted. For a stored user
      whose earlier entries all apply, the error is "Información desconocida". */
  lemma PatchUnknownKeyFails(store: Store, env: Env, id: Uuid, updates: Updates, now: Instant, i: int)
    requires 0 <= i < |updates| && updates[i].0 !in PatchKeys
    ensures PatchUsuario(store, env, id, updates, now).Failure?
    ensures id in store && (forall j :: 0 <= j < i ==> Accepts(updates[j].0, updates[j].1, store[id].id)) ==>
      PatchUsuario(store, env, id, updates, now) == Failure(UnknownField)
  {
    if id in store {
      UnknownKeyFails(env.encode, store[id], updates, i);
    }
  }

  /** A successful partial update stores the last-writer-wins reference
      user, with a token freshly issued for the resulting email and the
      modification time set to now. */
  lemma PatchIsLastWriter(store: Store, env: Env, id: Uuid, updates: Updates, now: Instant)
    requires PatchUsuario(store, env, id, updates, now).Success?
    ensures var v := PatchUsuario(store, env, id, updates, now).value.store[id];
      && v.(token := store[id].token, modificado := store[id].modificado) == Expected(env.encode, store[id], updates)
      && GenerarToken(env.codec, Expected(env.encode, store[id], updates).correo, now) == Success(v.token)
      && v.modificado == Some(now)
  {
    ApplyUpdatesIsLastWriter(env.encode, store[id], updates);
  }

  /** Patching only the active flag changes that flag, reissues the token
      and stamps the modification time; name, email, digest and phones stay. */
  lemma PatchActiveFlagOnly(store: Store, env: Env, id: Uuid, flag: bool, now: Instant)
    requires id in store && store[id].correo != []
    ensures PatchUsuario(store, env, id, [("activo", JBool(flag))], now).Success?
    ensures var v := PatchUsuario(store, env, id, [("activo", JBool(flag))], now).value.store[id];
      && v.activo == flag
      && v.nombre == store[id].nombre && v.correo == store[id].correo
      && v.password == store[id].password && v.telefonos == store[id].telefonos
      && v.modificado == Some(now)
      && GenerarToken(env.codec, store[id].correo, now) == Success(v.token)
  {
    var updates := [("activo", JBool(flag))];
    PatchSucceedsIff(store, env, id, updates, now);
    assert LastValue(updates, "nombre") == None;
    assert LastValue(updates, "correo") == None;
    assert LastValue(updates, "password") == None;
    assert LastValue(updates, "telefonos") == None;
    PatchIsLastWriter(store, env, id, updates, now);
  }

  /** The partial update runs no format check, so an all-whitespace email
      is stored; the token issued for it has no subject, because the token
      builder drops a blank subject. */
  lemma PatchBlankEmailIssuesSubjectlessToken(store: Store, env: Env, id: Uuid, now: Instant)
    requires id in store
    requires RoundTrips(env.codec, IssueClaims(" ", now))
    ensures PatchUsuario(store, env, id, [("correo", JString(" "))], now).Success?
    ensures var v := PatchUsuario(store, env, id, [("correo", JString(" "))], now).value.store[id];
      && v.correo == " "
      && ExtraerUsername(env.codec, v.token) == Success(None)
  {
    var updates := [("correo", JString(" "))];
    assert LastValue(updates, "correo") == Some(JString(" "));
    PatchSucceedsIff(store, env, id, updates, now);
    PatchIsLastWriter(store, env, id, updates, now);
    assert IsBlank(" ");
  }

  /** A successful partial update keeps every user under its id, owning its
      phones, with a non-empty email. */
  lemma PatchPreservesWellKeyed(store: Store, env: Env, id: Uuid, updates: Updates, now: Instant)
    requires WellKeyed(store) && NonEmptyEmails(store)
    requires PatchUsuario(store, env, id, updates, now).Success?
    ensures WellKeyed(PatchUsuario(store, env, id, updates, now).value.store)
    ensures NonEmptyEmails(PatchUsuario(store, env, id, updates, now).value.store)
  {
    var u := store[id];
    ApplyUpdatesIsLastWriter(env.encode, u, updates);
    var e := Expected(env.encode, u, updates);
    assert OwnsPhones(e.telefonos, id);
  }

  /** The partial update does not re-run the duplicate check: giving one
      stored user another's email succeeds and leaves two users sharing it. */
  lemma PatchCanDuplicateEmail(store: Store, env: Env, a: Uuid, b: Uuid, now: Instant)
    requires Valid(store) && a in store && b in store && a != b
    ensures PatchUsuario(store, env, b, [("correo", JString(store[a].correo))], now).Success?
    ensures !UniqueEmails(PatchUsuario(store, env, b, [("correo", JString(store[a].correo))], now).value.store)
  {
    var updates := [("correo", JString(store[a].correo))];
    assert LastValue(updates, "correo") == Some(JString(store[a].correo));
    PatchSucceedsIff(store, env, b, updates, now);
    PatchIsLastWriter(store, env, b, updates, now);
    var s' := PatchUsuario(store, env, b, updates, now).value.store;
    assert s'[a] == store[a];
    assert s'[b].correo == s'[a].correo;
  }
}
