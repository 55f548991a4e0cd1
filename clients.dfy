/** The `cliente` table and the find-or-create of `get_or_create_cliente`, as a function of the
    table and the next id its SERIAL sequence will hand out. */
module Clients {
  import opened Wrappers
  import opened Text
  import opened Schema

  /** The application-level uniqueness of clients: at most one row per (nombre, direccion). */
  ghost predicate KeysUnique(cs: seq<Cliente>) {
    forall i, j :: 0 <= i < j < |cs| ==> cs[i].nombre != cs[j].nombre || cs[i].direccion != cs[j].direccion
  }

  /** Primary keys are distinct, positive and below the next id of the sequence. */
  ghost predicate IdsBelow(cs: seq<Cliente>, nextId: int) {
    1 <= nextId &&
    (forall i :: 0 <= i < |cs| ==> 1 <= cs[i].id < nextId) &&
    (forall i, j :: 0 <= i < j < |cs| ==> cs[i].id != cs[j].id)
  }

  /** `SELECT cliente_id FROM cliente WHERE nombre = %s AND direccion = %s` with `fetchone()`:
      the position of the first row with exactly that pair. */
  function Find(cs: seq<Cliente>, nombre: string, direccion: string): (r: Option<nat>)
    ensures r.Some? ==> r.value < |cs| && cs[r.value].nombre == nombre && cs[r.value].direccion == direccion
    ensures r.None? ==> forall i :: 0 <= i < |cs| ==> cs[i].nombre != nombre || cs[i].direccion != direccion
  {
    if cs == [] then None
    else if cs[0].nombre == nombre && cs[0].direccion == direccion then Some(0)
    else
      match Find(cs[1..], nombre, direccion)
      case Some(i) => Some(i + 1)
      case None => None
  }

  /** `SELECT ... LEFT JOIN cliente c ON p.cliente_id = c.cliente_id`: the row with that key. */
  function ById(cs: seq<Cliente>, id: int): (r: Option<Cliente>)
    ensures r.Some? ==> r.value in cs && r.value.id == id
    ensures r.None? ==> forall i :: 0 <= i < |cs| ==> cs[i].id != id
  {
    if cs == [] then None
    else if cs[0].id == id then Some(cs[0])
    else ById(cs[1..], id)
  }

  /** The table after an upsert, the id returned, and the sequence's next id. */
  datatype Upserted = Upserted(clientes: seq<Cliente>, id: int, nextId: int)

  /** `get_or_create_cliente` once connected: on a hit, rewrite the row's three fields and return
      its id; on a miss, insert a new row with the next id. The phone is stored digits only. */
  function Upsert(cs: seq<Cliente>, nextId: int, nombre: string, telefono: string, direccion: string): (u: Upserted)
    ensures |u.clientes| == |cs| || (|u.clientes| == |cs| + 1 && u.clientes[..|cs|] == cs)
  {
    var row := Cliente(0, nombre, DigitsOnly(telefono), direccion);
    match Find(cs, nombre, direccion)
    case Some(i) => Upserted(cs[i := row.(id := cs[i].id)], cs[i].id, nextId)
    case None => Upserted(cs + [row.(id := nextId)], nextId, nextId + 1)
  }

  /** Whatever the table, an upsert leaves a row holding the returned id, the pair and the
      cleaned phone, and every row with another pair as it was. */
  lemma UpsertWrites(cs: seq<Cliente>, nextId: int, nombre: string, telefono: string, direccion: string)
    ensures var u := Upsert(cs, nextId, nombre, telefono, direccion);
      (exists k :: 0 <= k < |u.clientes| && u.clientes[k] == Cliente(u.id, nombre, DigitsOnly(telefono), direccion)) &&
      forall k :: 0 <= k < |cs| && (cs[k].nombre != nombre || cs[k].direccion != direccion) ==> u.clientes[k] == cs[k]
  {
    var u := Upsert(cs, nextId, nombre, telefono, direccion);
    match Find(cs, nombre, direccion)
    case Some(i) =>
      assert u.clientes[i] == Cliente(u.id, nombre, DigitsOnly(telefono), direccion);
    case None =>
      assert u.clientes[|cs|] == Cliente(u.id, nombre, DigitsOnly(telefono), direccion);
  }

  /** A hit returns the matched row's id, adds no row, and replaces only that row's phone with
      the cleaned value; every other row is untouched. */
  lemma UpsertHit(cs: seq<Cliente>, nextId: int, nombre: string, telefono: string, direccion: string, i: nat)
    requires Find(cs, nombre, direccion) == Some(i)
    ensures var u := Upsert(cs, nextId, nombre, telefono, direccion);
      u.id == cs[i].id && u.nextId == nextId && |u.clientes| == |cs| &&
      u.clientes[i] == cs[i].(telefono := DigitsOnly(telefono)) &&
      forall j :: 0 <= j < |cs| && j != i ==> u.clientes[j] == cs[j]
  {
  }

  /** A miss appends exactly one row, carrying the next id, and returns that id. */
  lemma UpsertMiss(cs: seq<Cliente>, nextId: int, nombre: string, telefono: string, direccion: string)
    requires Find(cs, nombre, direccion).None?
    ensures var u := Upsert(cs, nextId, nombre, telefono, direccion);
      u.id == nextId && u.nextId == nextId + 1 &&
      u.clientes == cs + [Cliente(nextId, nombre, DigitsOnly(telefono), direccion)]
  {
  }

  /** Upserting keeps "at most one client per (nombre, direccion)" and the key invariants, and
      afterwards the pair is found at the row whose id was returned, with the cleaned phone. */
  lemma UpsertPreservesInvariant(cs: seq<Cliente>, nextId: int, nombre: string, telefono: string, direccion: string)
    requires KeysUnique(cs) && IdsBelow(cs, nextId)
    ensures var u := Upsert(cs, nextId, nombre, telefono, direccion);
      KeysUnique(u.clientes) && IdsBelow(u.clientes, u.nextId) && nextId <= u.nextId &&
      exists k :: Find(u.clientes, nombre, direccion) == Some(k) &&
        u.clientes[k] == Cliente(u.id, nombre, DigitsOnly(telefono), direccion)
  {
    var u := Upsert(cs, nextId, nombre, telefono, direccion);
    match Find(cs, nombre, direccion)
    case Some(i) =>
      FindUnique(u.clientes, nombre, direccion, i);
    case None =>
      FindUnique(u.clientes, nombre, direccion, |cs|);
  }

  /** Under the uniqueness invariant, the row holding a pair is the one `Find` returns. */
  lemma {:induction false} FindUnique(cs: seq<Cliente>, nombre: string, direccion: string, k: nat)
    requires KeysUnique(cs)
    requires k < |cs| && cs[k].nombre == nombre && cs[k].direccion == direccion
    ensures Find(cs, nombre, direccion) == Some(k)
  {
    if k > 0 {
      assert KeysUnique(cs[1..]);
      FindUnique(cs[1..], nombre, direccion, k - 1);
    }
  }

  /** Two upserts of the same pair with different phones leave one row for the pair, holding the
      second phone, and return the same id both times. */
  lemma UpsertTwice(cs: seq<Cliente>, nextId: int, nombre: string, tel1: string, tel2: string, direccion: string)
    requires KeysUnique(cs) && IdsBelow(cs, nextId)
    ensures var u1 := Upsert(cs, nextId, nombre, tel1, direccion);
      var u2 := Upsert(u1.clientes, u1.nextId, nombre, tel2, direccion);
      u2.id == u1.id && |u2.clientes| == |u1.clientes| && u2.nextId == u1.nextId &&
      (forall i, j :: 0 <= i < j < |u2.clientes| ==>
         !(u2.clientes[i].nombre == nombre && u2.clientes[i].direccion == direccion &&
           u2.clientes[j].nombre == nombre && u2.clientes[j].direccion == direccion)) &&
      exists k :: 0 <= k < |u2.clientes| && u2.clientes[k] == Cliente(u1.id, nombre, DigitsOnly(tel2), direccion)
  {
    UpsertPreservesInvariant(cs, nextId, nombre, tel1, direccion);
    var u1 := Upsert(cs, nextId, nombre, tel1, direccion);
    UpsertPreservesInvariant(u1.clientes, u1.nextId, nombre, tel2, direccion);
    var k :| Find(u1.clientes, nombre, direccion) == Some(k) &&
      u1.clientes[k] == Cliente(u1.id, nombre, DigitsOnly(tel1), direccion);
    UpsertHit(u1.clientes, u1.nextId, nombre, tel2, direccion, k);
  }

  /** Under distinct keys, the client `ById` finds is the one at the key's position. */
  lemma {:induction false} ByIdAt(cs: seq<Cliente>, k: nat)
    requires k < |cs|
    requires forall i, j :: 0 <= i < j < |cs| ==> cs[i].id != cs[j].id
    ensures ById(cs, cs[k].id) == Some(cs[k])
  {
    if k > 0 {
      ByIdAt(cs[1..], k - 1);
    }
  }

  /** After an upsert the returned id joins to the row just written. */
  lemma UpsertById(cs: seq<Cliente>, nextId: int, nombre: string, telefono: string, direccion: string)
    requires KeysUnique(cs) && IdsBelow(cs, nextId)
    ensures var u := Upsert(cs, nextId, nombre, telefono, direccion);
      ById(u.clientes, u.id) == Some(Cliente(u.id, nombre, DigitsOnly(telefono), direccion))
  {
    UpsertPreservesInvariant(cs, nextId, nombre, telefono, direccion);
    var u := Upsert(cs, nextId, nombre, telefono, direccion);
    var k :| Find(u.clientes, nombre, direccion) == Some(k) &&
      u.clientes[k] == Cliente(u.id, nombre, DigitsOnly(telefono), direccion);
    ByIdAt(u.clientes, k);
  }
}
