/** The partial update's field map: JSON values keyed by field name, applied
    to a user one entry at a time in the map's iteration order. */
module Patch {
  import opened Wrappers
  import opened Errors
  import opened Domain

  /** A value of the deserialised request body. */
  datatype Json =
    | JNull
    | JBool(b: bool)
    | JNumber(n: int)
    | JString(s: string)
    | JArray(items: seq<Json>)
    | JObject(fields: map<string, Json>)

  /** The update map's entries, in iteration order. */
  type Updates = seq<(string, Json)>

  /** The keys the partial update understands. */
  const PatchKeys: set<string> := {"nombre", "correo", "password", "activo", "telefonos"}

  /** `(String) dto.get(key)` on one phone object: absent and null read as null. */
  function TextField(fields: map<string, Json>, key: string): (r: Result<Option<string>, Fault>)
    ensures r.Failure? <==> key in fields && !fields[key].JNull? && !fields[key].JString?
    ensures r.Success? && r.value.Some? ==> key in fields && fields[key] == JString(r.value.value)
    ensures key in fields && fields[key].JString? ==> r == Success(Some(fields[key].s))
    ensures key !in fields || fields[key].JNull? ==> r == Success(None)
  {
    if key !in fields || fields[key].JNull? then Success(None)
    else if fields[key].JString? then Success(Some(fields[key].s))
    else Failure(WrongType)
  }

  /** One element of the `telefonos` list, as a phone owned by `owner`. A
      null element passes the cast to a map and fails on its first `get`. */
  function ParseTelefono(item: Json, owner: Uuid): (r: Result<Telefono, Fault>)
    ensures r.Success? <==> item.JObject? && forall k :: k in ["numero", "codigoCiudad", "codigoPais"] ==> TextField(item.fields, k).Success?
    ensures r.Success? ==> r.value.usuario == owner
    ensures r.Success? ==>
      && r.value.numero == TextField(item.fields, "numero").value
      && r.value.codigoCiudad == TextField(item.fields, "codigoCiudad").value
      && r.value.codigoPais == TextField(item.fields, "codigoPais").value
    ensures r.Failure? ==> r.error == (if item.JNull? then NullValue else WrongType)
  {
    if item.JNull? then Failure(NullValue)
    else if !item.JObject? then Failure(WrongType)
    else
      var numero :- TextField(item.fields, "numero");
      var ciudad :- TextField(item.fields, "codigoCiudad");
      var pais :- TextField(item.fields, "codigoPais");
      Success(Telefono(numero, ciudad, pais, owner))
  }

  /** The `telefonos` list, element by element in order; the first bad element aborts. */
  function ParseTelefonos(items: seq<Json>, owner: Uuid): (r: Result<seq<Telefono>, Fault>)
    ensures r.Success? <==> forall i :: 0 <= i < |items| ==> ParseTelefono(items[i], owner).Success?
    ensures r.Success? ==> |r.value| == |items| && OwnsPhones(r.value, owner)
    ensures r.Success? ==> forall i :: 0 <= i < |items| ==> r.value[i] == ParseTelefono(items[i], owner).value
    decreases |items|
  {
    if items == [] then Success([])
    else
      var first :- ParseTelefono(items[0], owner);
      var rest :- ParseTelefonos(items[1..], owner);
      assert forall i :: 1 <= i < |items| ==> items[i] == items[1..][i - 1];
      Success([first] + rest)
  }

  /** Whether one entry is applied without an exception: a known key with a
      value of the type its cast expects. */
  predicate Accepts(key: string, value: Json, owner: Uuid) {
    || (key == "nombre" && (value.JString? || value.JNull?))
    || (key == "correo" && (value.JString? || value.JNull?))
    || (key == "password" && value.JString?)
    || (key == "activo" && value.JBool?)
    || (key == "telefonos" && value.JArray? && ParseTelefonos(value.items, owner).Success?)
  }

  /** One case of the switch. A null email is kept as the empty string: the
      only later reader is token generation, which rejects both alike. */
  function ApplyUpdate(encode: string -> string, u: Usuario, key: string, value: Json): (r: Result<Usuario, Fault>)
    ensures r.Success? <==> Accepts(key, value, u.id)
    ensures key !in PatchKeys ==> r == Failure(UnknownField)
    ensures r.Success? ==>
      && r.value.id == u.id && r.value.token == u.token && r.value.creado == u.creado
      && r.value.modificado == u.modificado && r.value.ultimoLogin == u.ultimoLogin
  {
    if key == "nombre" then
      match value
      case JString(s) => Success(u.(nombre := Some(s)))
      case JNull => Success(u.(nombre := None))
      case _ => Failure(WrongType)
    else if key == "correo" then
      match value
      case JString(s) => Success(u.(correo := s))
      case JNull => Success(u.(correo := []))
      case _ => Failure(WrongType)
    else if key == "password" then
      match value
      case JString(p) => Success(u.(password := encode(p)))
      case JNull => Failure(NullPassword)
      case _ => Failure(WrongType)
    else if key == "activo" then
      match value
      case JBool(b) => Success(u.(activo := b))
      case JNull => Failure(NullValue)
      case _ => Failure(WrongType)
    else if key == "telefonos" then
      match value
      case JArray(items) =>
        var phones :- ParseTelefonos(items, u.id);
        Success(u.(telefonos := phones))
      case JNull => Failure(NullValue)
      case _ => Failure(WrongType)
    else
      Failure(UnknownField)
  }

  /** The whole forEach: entries in order, the first exception aborting the rest. */
  function ApplyUpdates(encode: string -> string, u: Usuario, updates: Updates): (r: Result<Usuario, Fault>)
    ensures r.Success? ==>
      && r.value.id == u.id && r.value.token == u.token && r.value.creado == u.creado
      && r.value.modificado == u.modificado && r.value.ultimoLogin == u.ultimoLogin
    decreases |updates|
  {
    if updates == [] then Success(u)
    else
      var last := updates[|updates| - 1];
      var v :- ApplyUpdates(encode, u, updates[..|updates| - 1]);
      ApplyUpdate(encode, v, last.0, last.1)
  }

  /** The value of the last entry for `key`, if any. */
  function LastValue(updates: Updates, key: string): Option<Json>
    decreases |updates|
  {
    if updates == [] then None
    else if updates[|updates| - 1].0 == key then Some(updates[|updates| - 1].1)
    else LastValue(updates[..|updates| - 1], key)
  }

  /** Reference definition of a successful update: each field takes the
      value of the last entry for its key and keeps its old value when no
      entry names it. */
  function Expected(encode: string -> string, u: Usuario, updates: Updates): Usuario {
    u.(
      nombre := match LastValue(updates, "nombre")
        case Some(JString(s)) => Some(s)
        case Some(_) => None
        case None => u.nombre,
      correo := match LastValue(updates, "correo")
        case Some(JString(s)) => s
        case Some(_) => []
        case None => u.correo,
      password := match LastValue(updates, "password")
        case Some(JString(p)) => encode(p)
        case _ => u.password,
      activo := match LastValue(updates, "activo")
        case Some(JBool(b)) => b
        case _ => u.activo,
      telefonos := match LastValue(updates, "telefonos")
        case Some(JArray(items)) =>
          if ParseTelefonos(items, u.id).Success? then ParseTelefonos(items, u.id).value else u.telefonos
        case _ => u.telefonos)
  }

  /** The update succeeds exactly when every entry is accepted: an entry's
      fate depends only on its key and value, never on earlier entries. */
  lemma {:induction false} ApplyUpdatesSucceedsIff(encode: string -> string, u: Usuario, updates: Updates)
    ensures ApplyUpdates(encode, u, updates).Success? <==>
      forall i :: 0 <= i < |updates| ==> Accepts(updates[i].0, updates[i].1, u.id)
    decreases |updates|
  {
    if updates != [] {
      var prefix := updates[..|updates| - 1];
      ApplyUpdatesSucceedsIff(encode, u, prefix);
      assert forall i :: 0 <= i < |prefix| ==> prefix[i] == updates[i];
    }
  }

  /** A key outside the five known ones makes the whole update fail; when
      every earlier entry was applied, the failure is the unknown-key one. */
  lemma {:induction false} UnknownKeyFails(encode: string -> string, u: Usuario, updates: Updates, i: int)
    requires 0 <= i < |updates| && updates[i].0 !in PatchKeys
    ensures ApplyUpdates(encode, u, updates).Failure?
    ensures (forall j :: 0 <= j < i ==> Accepts(updates[j].0, updates[j].1, u.id)) ==>
      ApplyUpdates(encode, u, updates) == Failure(UnknownField)
    decreases |updates|
  {
    ApplyUpdatesSucceedsIff(encode, u, updates);
    assert !Accepts(updates[i].0, updates[i].1, u.id);
    if forall j :: 0 <= j < i ==> Accepts(updates[j].0, updates[j].1, u.id) {
      var prefix := updates[..|updates| - 1];
      assert forall j :: 0 <= j < |prefix| ==> prefix[j] == updates[j];
      if i == |updates| - 1 {
        ApplyUpdatesSucceedsIff(encode, u, prefix);
      } else {
        UnknownKeyFails(encode, u, prefix, i);
      }
    }
  }

  /** The last entry for `key` is the final entry when that one names it,
      and otherwise the last entry for `key` before it. */
  lemma LastValueStep(prefix: Updates, entry: (string, Json), key: string)
    ensures LastValue(prefix + [entry], key) == if entry.0 == key then Some(entry.1) else LastValue(prefix, key)
  {
    assert (prefix + [entry])[..|prefix|] == prefix;
  }

  /** Applying one more entry to the reference result of a prefix gives the
      reference result of the longer sequence. */
  lemma ApplyUpdateExtendsExpected(encode: string -> string, u: Usuario, prefix: Updates, entry: (string, Json))
    requires ApplyUpdate(encode, Expected(encode, u, prefix), entry.0, entry.1).Success?
    ensures ApplyUpdate(encode, Expected(encode, u, prefix), entry.0, entry.1).value == Expected(encode, u, prefix + [entry])
  {
    var updates := prefix + [entry];
    LastValueStep(prefix, entry, "nombre");
    LastValueStep(prefix, entry, "correo");
    LastValueStep(prefix, entry, "password");
    LastValueStep(prefix, entry, "activo");
    LastValueStep(prefix, entry, "telefonos");
  }

  /** A successful update is the last-writer-wins reference definition. */
  lemma {:induction false} ApplyUpdatesIsLastWriter(encode: string -> string, u: Usuario, updates: Updates)
    requires ApplyUpdates(encode, u, updates).Success?
    ensures ApplyUpdates(encode, u, updates).value == Expected(encode, u, updates)
    decreases |updates|
  {
    if updates != [] {
      var prefix := updates[..|updates| - 1];
      var last := updates[|updates| - 1];
      assert updates == prefix + [last];
      ApplyUpdatesIsLastWriter(encode, u, prefix);
      ApplyUpdateExtendsExpected(encode, u, prefix, last);
    }
  }
}
