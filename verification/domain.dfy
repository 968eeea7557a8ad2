/** The persistent entities (Usuario, Telefono), the request and response
    payloads, and the user repository as a finite map keyed by id. */
module Domain {
  import opened Wrappers

  /** The UUID the persistence layer generates for a stored user. */
  type Uuid = nat

  /** A timestamp (LocalDateTime or epoch milliseconds), in milliseconds. */
  type Instant = int

  /** A stored phone number; `usuario` is the id of the owning user. */
  datatype Telefono = Telefono(
    numero: Option<string>,
    codigoCiudad: Option<string>,
    codigoPais: Option<string>,
    usuario: Uuid)

  /** A stored user. `password` holds the encoded digest, never the plaintext. */
  datatype Usuario = Usuario(
    id: Uuid,
    nombre: Option<string>,
    correo: string,
    password: string,
    activo: bool,
    token: string,
    creado: Instant,
    modificado: Option<Instant>,
    ultimoLogin: Instant,
    telefonos: seq<Telefono>)

  /** The user repository. Phones live inside their owner (cascade and orphan removal). */
  type Store = map<Uuid, Usuario>

  /** One phone of a request body; each attribute may be null. */
  datatype TelefonoDto = TelefonoDto(numero: Option<string>, codigoCiudad: Option<string>, codigoPais: Option<string>)

  /** Request body of create and full update; a null phone list is `None`. */
  datatype UsuarioDto = UsuarioDto(
    nombre: string,
    correo: string,
    password: string,
    telefonos: Option<seq<TelefonoDto>>)

  /** Request body of login. */
  datatype AuthRequest = AuthRequest(correo: string, password: string)

  /** The externally visible view of a user. */
  datatype CreateResponse = CreateResponse(
    id: Uuid,
    nombre: Option<string>,
    correo: string,
    creado: Instant,
    modificado: Option<Instant>,
    ultimoLogin: Instant,
    token: Option<string>,
    isActive: bool)

  /** Every phone in `ps` belongs to `owner`. */
  predicate OwnsPhones(ps: seq<Telefono>, owner: Uuid) {
    forall i :: 0 <= i < |ps| ==> ps[i].usuario == owner
  }

  /** Each user is stored under its own id and owns its phones. */
  predicate WellKeyed(s: Store) {
    forall id :: id in s ==> s[id].id == id && OwnsPhones(s[id].telefonos, id)
  }

  /** No two stored users share an email. */
  predicate UniqueEmails(s: Store) {
    forall a, b :: a in s && b in s && s[a].correo == s[b].correo ==> a == b
  }

  /** No stored user has an empty email (a token could not be issued for it). */
  predicate NonEmptyEmails(s: Store) {
    forall id :: id in s ==> s[id].correo != []
  }

  /** The invariant every store reached through create, full update, login and delete keeps. */
  predicate Valid(s: Store) {
    WellKeyed(s) && UniqueEmails(s) && NonEmptyEmails(s)
  }

  /** The emails held by the stored users. */
  function Correos(s: Store): set<string> {
    set id | id in s :: s[id].correo
  }

  /** Repository query existsByCorreo: some stored user holds the email. */
  function ExistsByCorreo(s: Store, correo: string): (r: bool)
    ensures r <==> correo in Correos(s)
    ensures r ==> s != map[]
  {
    exists id :: id in s && s[id].correo == correo
  }

  /** Result of the single-result query findByCorreo: null, one row, or
      more than one row (which Spring Data reports as an exception). */
  datatype Lookup = Absent | Found(id: Uuid) | Ambiguous

  lemma SingletonHasOneElement<T>(s: set<T>)
    requires |s| == 1
    ensures forall a, b :: a in s && b in s ==> a == b
  {
    var x :| x in s;
    assert |s - {x}| == 0;
    forall a, b | a in s && b in s
      ensures a == b
    {
      assert a !in s - {x} && b !in s - {x};
    }
  }

  /** Repository query findByCorreo. */
  function FindByCorreo(s: Store, correo: string): (r: Lookup)
    ensures r.Absent? <==> !ExistsByCorreo(s, correo)
    ensures r.Found? ==> r.id in s && s[r.id].correo == correo
    ensures r.Found? ==> forall other :: other in s && s[other].correo == correo ==> other == r.id
    ensures r.Ambiguous? <==> exists a, b :: a in s && b in s && a != b && s[a].correo == correo && s[b].correo == correo
    ensures UniqueEmails(s) ==> !r.Ambiguous?
  {
    var matches := set id | id in s.Keys && s[id].correo == correo;
    if |matches| == 0 then
      assert forall id :: id in s && s[id].correo == correo ==> id in matches;
      Absent
    else if |matches| == 1 then
      SingletonHasOneElement(matches);
      var id :| id in matches;
      assert forall other :: other in s && s[other].correo == correo ==> other in matches;
      Found(id)
    else
      var a :| a in matches;
      assert |matches - {a}| > 0;
      var b :| b in matches - {a};
      Ambiguous
  }
}
