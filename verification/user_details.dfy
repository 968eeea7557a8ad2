/** The user-details lookup the authentication machinery uses: a user found
    by email becomes (username, digest, authorities). */
module UsuarioDetalle {
  import opened Wrappers
  import opened Errors
  import opened Domain

  /** Spring's UserDetails as built by the service. */
  datatype UserDetails = UserDetails(username: string, password: string, authorities: seq<string>)

  /** loadUserByUsername. The found user's email and stored digest go through
      Spring's User constructor, which rejects an empty username. */
  function LoadUserByUsername(store: Store, email: string): (r: Result<UserDetails, Fault>)
    ensures r == Failure(UsernameNotFound(email)) <==> !ExistsByCorreo(store, email)
    ensures r.Success? ==> FindByCorreo(store, email).Found?
    ensures r.Success? ==>
      && r.value.username == email
      && r.value.password == store[FindByCorreo(store, email).id].password
      && r.value.authorities == []
    ensures Valid(store) ==> (r.Success? <==> ExistsByCorreo(store, email))
  {
    match FindByCorreo(store, email)
    case Absent => Failure(UsernameNotFound(email))
    case Ambiguous => Failure(NonUniqueResult)
    case Found(id) =>
      var usuario := store[id];
      if usuario.correo == [] then Failure(EmptyUsername)
      else Success(UserDetails(usuario.correo, usuario.password, []))
  }
}
