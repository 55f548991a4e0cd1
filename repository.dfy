/** The order repository of `api/database.py` over in-memory tables. Each method is one call of
    the Python function: `connected` says whether the database could be reached (every nested
    connection of the call shares it), `now` is `CURRENT_TIMESTAMP`, and `ilike` is the
    database's ILIKE. Each commit is one assignment to the tables. */
module Repository {
  import opened Wrappers
  import opened Text
  import opened Schema
  import opened Resolvers
  import Clients
  import Orders
  import opened Queries

  /** The delivery time `cambiar_estado_pedido` writes: `now` exactly when the new state
      lower-cases to `completado`, nothing otherwise. */
  function DeliveryStamp(nuevoEstado: string, now: int): (r: Option<int>)
    ensures r.Some? <==> Lower(nuevoEstado) == "completado"
    ensures r.Some? ==> r.value == now
  {
    IsCompletadoIffLower(nuevoEstado);
    if IsCompletado(nuevoEstado) then Some(now) else None
  }

  /** When the state table lacks id 3, completing an order stamps its delivery time while its
      state falls back to 1 (Pendiente). */
  lemma CompletadoWithoutStateRow(estados: seq<RefRow>, now: int)
    requires !HasId(estados, 3)
    ensures EstadoPedidoId(true, "completado", estados) == 1
    ensures DeliveryStamp("completado", now) == Some(now)
  {
    EstadoPedidoIdDefault(true, "completado", estados);
    assert Lower("completado") == "completado";
  }

  /** The state text a freshly created order shows: that of id 1, or `pendiente` without it. */
  function InitialEstadoText(estados: seq<RefRow>): (s: string)
    ensures HasId(estados, 1) ==> Some(s) == TextOf(estados, 1)
    ensures !HasId(estados, 1) ==> s == DefaultEstado
  {
    WithDefaultEstado(JoinedRow(0, 0, 0, None, "", "", None, None, None, None, TextOf(estados, 1))).estado
  }

  /** The view `create_pedido` returns for the order it inserts shows the client as just
      upserted (name, digits-only phone, address), the state text of id 1 (or `pendiente`), the
      mapped urgency, the creation time, and no delivery time. */
  lemma CreatedView(cs: seq<Cliente>, nextClienteId: int, data: PedidoData, pedidoId: int, tipoId: int, cantidad: int,
                    now: int, combustibles: seq<RefRow>, estados: seq<RefRow>)
    requires Clients.KeysUnique(cs) && Clients.IdsBelow(cs, nextClienteId)
    ensures var u := Clients.Upsert(cs, nextClienteId, data.nombreCliente, data.telefono, data.direccion);
      var pedido := Orders.NewPedido(pedidoId, u.id, tipoId, cantidad, UrgenciaFrom(data.nivelUrgencia),
                                     data.observaciones.GetOr(""), now);
      var v := WithDefaultEstado(Join(pedido, u.clientes, combustibles, estados));
      v.id == pedidoId && v.cantidad == cantidad && v.fechaPedido == now && v.fechaCompletado == None &&
      v.estado == InitialEstadoText(estados) &&
      v.nivelUrgencia == UrgenciaText(UrgenciaFrom(data.nivelUrgencia)) &&
      v.observaciones == data.observaciones.GetOr("") &&
      v.nombreCliente == Some(data.nombreCliente) && v.telefono == Some(DigitsOnly(data.telefono)) &&
      v.direccion == Some(data.direccion)
  {
    Clients.UpsertById(cs, nextClienteId, data.nombreCliente, data.telefono, data.direccion);
  }

  class Database {
    var clientes: seq<Cliente>
    var nextClienteId: int
    var pedidos: seq<Pedido>
    var nextPedidoId: int
    /** The fixed lookup tables `tipo_combustible` and `estado_pedido`. */
    const combustibles: seq<RefRow>
    const estados: seq<RefRow>

    ghost predicate Valid()
      reads this
    {
      Clients.KeysUnique(clientes) && Clients.IdsBelow(clientes, nextClienteId) &&
      Orders.IdsBelow(pedidos, nextPedidoId) &&
      RefIdsUnique(combustibles) && RefIdsUnique(estados)
    }

    /** The lookup tables' ids are their primary keys, so each is distinct. */
    constructor(combustibles: seq<RefRow>, estados: seq<RefRow>)
      requires RefIdsUnique(combustibles) && RefIdsUnique(estados)
      ensures Valid()
      ensures clientes == [] && pedidos == []
      ensures this.combustibles == combustibles && this.estados == estados
    {
      clientes, nextClienteId := [], 1;
      pedidos, nextPedidoId := [], 1;
      this.combustibles, this.estados := combustibles, estados;
    }

    /** `get_or_create_cliente`: raises without a connection, otherwise the find-or-create. */
    method GetOrCreateCliente(connected: bool, nombre: string, telefono: string, direccion: string)
      returns (r: Result<int, string>)
      requires Valid()
      modifies this`clientes, this`nextClienteId
      ensures Valid()
      ensures !connected ==>
        r == Failure("No se pudo conectar a la BD") && clientes == old(clientes) && nextClienteId == old(nextClienteId)
      ensures connected ==>
        var u := Clients.Upsert(old(clientes), old(nextClienteId), nombre, telefono, direccion);
        r == Success(u.id) && clientes == u.clientes && nextClienteId == u.nextId
      ensures connected ==>
        Clients.ById(clientes, r.value) == Some(Cliente(r.value, nombre, DigitsOnly(telefono), direccion))
    {
      if !connected {
        return Failure("No se pudo conectar a la BD");
      }
      Clients.UpsertPreservesInvariant(clientes, nextClienteId, nombre, telefono, direccion);
      Clients.UpsertById(clientes, nextClienteId, nombre, telefono, direccion);
      var telefonoLimpio := DigitsOnly(telefono);
      var found := Clients.Find(clientes, nombre, direccion);
      if found.Some? {
        Clients.UpsertHit(clientes, nextClienteId, nombre, telefono, direccion, found.value);
        var clienteId := clientes[found.value].id;
        clientes := clientes[found.value := Cliente(clienteId, nombre, telefonoLimpio, direccion)];
        r := Success(clienteId);
      } else {
        Clients.UpsertMiss(clientes, nextClienteId, nombre, telefono, direccion);
        var clienteId := nextClienteId;
        clientes := clientes + [Cliente(clienteId, nombre, telefonoLimpio, direccion)];
        nextClienteId := nextClienteId + 1;
        r := Success(clienteId);
      }
    }

    /** `get_pedido_by_id`: the joined row of the order with that id, its state defaulted, or
        `None` without a connection or without such an order. */
    method GetPedidoById(connected: bool, id: int) returns (r: Option<PedidoView>)
      requires Valid()
      ensures r.Some? <==> connected && exists i :: 0 <= i < |pedidos| && pedidos[i].id == id
      ensures r.Some? ==> exists i :: 0 <= i < |pedidos| && pedidos[i].id == id &&
                            r.value == WithDefaultEstado(Join(pedidos[i], clientes, combustibles, estados))
      ensures connected ==> forall i :: 0 <= i < |pedidos| && pedidos[i].id == id ==>
                              r == Some(WithDefaultEstado(Join(pedidos[i], clientes, combustibles, estados)))
    {
      if !connected {
        return None;
      }
      // Order keys are distinct, so the row found is the one at the key's position.
      forall i | 0 <= i < |pedidos| && pedidos[i].id == id ensures Orders.ById(pedidos, id) == Some(pedidos[i]) {
        Orders.ByIdAt(pedidos, i);
      }
      var row := Orders.ById(pedidos, id);
      if row.None? {
        return None;
      }
      var pedido := WithDefaultEstado(Join(row.value, clientes, combustibles, estados));
      r := Some(pedido);
    }

    /** `get_pedidos`: every order, or those whose state text is the normalised filter, newest
        first, then `OFFSET`/`LIMIT` when truthy, each row's state defaulted. Empty without a
        connection or when the database rejects a negative limit or offset. */
    method GetPedidos(connected: bool, estado: Option<string>, limit: Option<int>, offset: Option<int>)
      returns (result: seq<PedidoView>)
      requires Valid()
      ensures !connected ==> result == []
      ensures connected ==>
        var rows := ListRows(pedidos, clientes, combustibles, estados, estado, limit, offset);
        (rows.None? ==> result == []) &&
        (rows.Some? ==>
           |result| == |rows.value| &&
           forall i :: 0 <= i < |result| ==> result[i] == WithDefaultEstado(rows.value[i]))
      ensures forall i, j :: 0 <= i < j < |result| ==> result[i].fechaPedido >= result[j].fechaPedido
      ensures Filters(estado) ==> forall i :: 0 <= i < |result| ==> result[i].estado == NormalizeEstado(estado.value)
    {
      if !connected {
        return [];
      }
      var rows := ListRows(pedidos, clientes, combustibles, estados, estado, limit, offset);
      if rows.None? {
        return [];
      }
      ListRowsSorted(pedidos, clientes, combustibles, estados, estado, limit, offset);
      if Filters(estado) {
        ListRowsFiltered(pedidos, clientes, combustibles, estados, estado, limit, offset);
      }
      result := PatchEstados(rows.value);
    }

    /** `buscar_pedidos`: the orders whose client's name or address ILIKE `%termino%`, newest
        first, each row's state defaulted; empty without a connection. */
    method BuscarPedidos(connected: bool, ilike: ILike, termino: string) returns (result: seq<PedidoView>)
      requires Valid()
      ensures !connected ==> result == []
      ensures connected ==>
        var rows := SearchRows(pedidos, clientes, combustibles, estados, ilike, termino);
        |result| == |rows| && forall i :: 0 <= i < |result| ==> result[i] == WithDefaultEstado(rows[i])
      ensures forall i, j :: 0 <= i < j < |result| ==> result[i].fechaPedido >= result[j].fechaPedido
      ensures forall i :: 0 <= i < |result| ==>
        (result[i].nombreCliente.Some? && result[i].direccion.Some? &&
         (ilike(result[i].nombreCliente.value, "%" + termino + "%") ||
          ilike(result[i].direccion.value, "%" + termino + "%")))
    {
      if !connected {
        return [];
      }
      var rows := SearchRows(pedidos, clientes, combustibles, estados, ilike, termino);
      SearchRowsSpec(pedidos, clientes, combustibles, estados, ilike, termino);
      result := PatchEstados(rows);
    }

    /** `create_pedido`. `Success(None)` is the Python `None`, `Failure` a raised exception.
        The client upsert commits first, so it stays even when no order is inserted. */
    method CreatePedido(connected: bool, ilike: ILike, data: PedidoData, now: int)
      returns (r: Result<Option<PedidoView>, string>)
      requires Valid()
      modifies this`clientes, this`nextClienteId, this`pedidos, this`nextPedidoId
      ensures Valid()
      ensures !connected ==>
        r == Success(None) && clientes == old(clientes) && nextClienteId == old(nextClienteId) &&
        pedidos == old(pedidos) && nextPedidoId == old(nextPedidoId)
      ensures connected ==>
        var u := Clients.Upsert(old(clientes), old(nextClienteId), data.nombreCliente, data.telefono, data.direccion);
        clientes == u.clientes && nextClienteId == u.nextId
      ensures connected ==>
        var tipoId := TipoCombustibleId(true, data.tipoCombustible, combustibles, ilike).value;
        var u := Clients.Upsert(old(clientes), old(nextClienteId), data.nombreCliente, data.telefono, data.direccion);
        (tipoId == 0 ==>
           r == Failure("No se pudo obtener tipo_combustible_id") &&
           pedidos == old(pedidos) && nextPedidoId == old(nextPedidoId)) &&
        (tipoId != 0 && data.cantidad.None? ==>
           r == Success(None) && pedidos == old(pedidos) && nextPedidoId == old(nextPedidoId)) &&
        (tipoId != 0 && data.cantidad.Some? ==>
           var pedido := Orders.NewPedido(old(nextPedidoId), u.id, tipoId, data.cantidad.value,
                                          UrgenciaFrom(data.nivelUrgencia), data.observaciones.GetOr(""), now);
           pedidos == old(pedidos) + [pedido] && nextPedidoId == old(nextPedidoId) + 1 &&
           r == Success(Some(WithDefaultEstado(Join(pedido, clientes, combustibles, estados)))))
    {
      if !connected {
        return Success(None);
      }
      // With the connection up, the nested upsert and fuel lookup both succeed.
      var cliente := GetOrCreateCliente(connected, data.nombreCliente, data.telefono, data.direccion);
      var clienteId := cliente.value;
      ghost var u := Clients.Upsert(old(clientes), old(nextClienteId), data.nombreCliente, data.telefono, data.direccion);
      assert clientes == u.clientes && nextClienteId == u.nextId && clienteId == u.id;
      var tipo := TipoCombustibleId(connected, data.tipoCombustible, combustibles, ilike);
      if tipo.None? || tipo.value == 0 {
        return Failure("No se pudo obtener tipo_combustible_id");
      }
      if data.cantidad.None? {
        // ValueError: rolled back before anything was inserted.
        return Success(None);
      }
      var urgencia := UrgenciaFrom(data.nivelUrgencia);
      var pedidoId := InsertPedido(clienteId, tipo.value, data.cantidad.value, urgencia,
                                   data.observaciones.GetOr(""), now);
      var view := GetPedidoById(connected, pedidoId);
      ghost var i :| 0 <= i < |pedidos| && pedidos[i].id == pedidoId &&
        view.value == WithDefaultEstado(Join(pedidos[i], clientes, combustibles, estados));
      r := Success(view);
    }

    /** The `INSERT ... RETURNING pedidos_id` of `create_pedido` and its commit: the new order
        takes the next id of the sequence and state 1, and is the only order with that id. */
    method InsertPedido(clienteId: int, tipoId: int, cantidad: int, urgencia: Urgencia, observacion: string, now: int)
      returns (pedidoId: int)
      requires Valid()
      modifies this`pedidos, this`nextPedidoId
      ensures Valid()
      ensures pedidoId == old(nextPedidoId) && nextPedidoId == old(nextPedidoId) + 1
      ensures pedidos == old(pedidos) + [Orders.NewPedido(pedidoId, clienteId, tipoId, cantidad, urgencia, observacion, now)]
      ensures forall i :: 0 <= i < |pedidos| && pedidos[i].id == pedidoId ==> i == |pedidos| - 1
    {
      pedidoId := nextPedidoId;
      var pedido := Orders.NewPedido(pedidoId, clienteId, tipoId, cantidad, urgencia, observacion, now);
      Orders.AppendKeepsKeys(pedidos, pedido, nextPedidoId);
      pedidos := pedidos + [pedido];
      nextPedidoId := nextPedidoId + 1;
    }

    /** `update_pedido`: re-upserts the client, then overwrites the five fields of the order with
        that id. `None` without a connection, when the quantity does not convert, or when no
        order has that id. */
    method UpdatePedido(connected: bool, ilike: ILike, id: int, data: PedidoData) returns (r: Option<PedidoView>)
      requires Valid()
      modifies this`clientes, this`nextClienteId, this`pedidos
      ensures Valid()
      ensures !connected ==>
        r == None && clientes == old(clientes) && nextClienteId == old(nextClienteId) && pedidos == old(pedidos)
      ensures connected ==>
        var u := Clients.Upsert(old(clientes), old(nextClienteId), data.nombreCliente, data.telefono, data.direccion);
        clientes == u.clientes && nextClienteId == u.nextId
      ensures connected && data.cantidad.None? ==> r == None && pedidos == old(pedidos)
      ensures connected && data.cantidad.Some? ==>
        var u := Clients.Upsert(old(clientes), old(nextClienteId), data.nombreCliente, data.telefono, data.direccion);
        var tipoId := TipoCombustibleId(true, data.tipoCombustible, combustibles, ilike).value;
        pedidos == Orders.UpdateFields(old(pedidos), id, Orders.Fields(u.id, tipoId, data.cantidad.value,
                                         UrgenciaFrom(data.nivelUrgencia), data.observaciones.GetOr(""))) &&
        (r.Some? <==> exists i :: 0 <= i < |pedidos| && pedidos[i].id == id)
      ensures r.Some? ==> exists i :: 0 <= i < |pedidos| && pedidos[i].id == id &&
                            r.value == WithDefaultEstado(Join(pedidos[i], clientes, combustibles, estados))
    {
      if !connected {
        return None;
      }
      var cliente := GetOrCreateCliente(connected, data.nombreCliente, data.telefono, data.direccion);
      var tipo := TipoCombustibleId(connected, data.tipoCombustible, combustibles, ilike);
      if data.cantidad.None? {
        return None;
      }
      var fields := Orders.Fields(cliente.value, tipo.value, data.cantidad.value,
                                  UrgenciaFrom(data.nivelUrgencia), data.observaciones.GetOr(""));
      UpdateRow(id, fields);
      r := GetPedidoById(connected, id);
    }

    /** The `UPDATE pedidos SET ... WHERE pedidos_id = %s` of `update_pedido` and its commit. */
    method UpdateRow(id: int, fields: Orders.Fields)
      requires Valid()
      modifies this`pedidos
      ensures Valid()
      ensures pedidos == Orders.UpdateFields(old(pedidos), id, fields)
    {
      Orders.UpdatesKeepKeys(pedidos, id, fields, 0, None, nextPedidoId);
      pedidos := Orders.UpdateFields(pedidos, id, fields);
    }

    /** `delete_pedido`: deletes the order with that id and reports success whenever connected,
        whether or not such an order existed. */
    method DeletePedido(connected: bool, id: int) returns (ok: bool)
      requires Valid()
      modifies this`pedidos
      ensures Valid()
      ensures ok == connected
      ensures pedidos == if connected then Orders.Delete(old(pedidos), id) else old(pedidos)
    {
      if !connected {
        return false;
      }
      Orders.DeleteKeepsKeys(pedidos, id, nextPedidoId);
      pedidos := Orders.Delete(pedidos, id);
      ok := true;
    }

    /** `cambiar_estado_pedido`: sets the resolved state of the order with that id and, exactly
        when the new state is `completado`, its delivery time to now. */
    method CambiarEstadoPedido(connected: bool, id: int, nuevoEstado: string, now: int) returns (r: Option<PedidoView>)
      requires Valid()
      modifies this`pedidos
      ensures Valid()
      ensures !connected ==> r == None && pedidos == old(pedidos)
      ensures connected ==>
        pedidos == Orders.SetEstado(old(pedidos), id, EstadoPedidoId(true, nuevoEstado, estados), DeliveryStamp(nuevoEstado, now))
      ensures connected ==> (r.Some? <==> exists i :: 0 <= i < |old(pedidos)| && old(pedidos)[i].id == id)
      ensures r.Some? ==>
        r.value.id == id &&
        r.value.estado == TextOf(estados, EstadoPedidoId(true, nuevoEstado, estados)).GetOr(DefaultEstado) &&
        exists i :: 0 <= i < |old(pedidos)| && old(pedidos)[i].id == id &&
          r.value.fechaCompletado ==
            (if Lower(nuevoEstado) == "completado" then Some(now) else old(pedidos)[i].fechaEntrega)
      ensures r.Some? ==> exists i :: 0 <= i < |pedidos| && pedidos[i].id == id &&
                            r.value == WithDefaultEstado(Join(pedidos[i], clientes, combustibles, estados))
    {
      if !connected {
        return None;
      }
      var estadoId := EstadoPedidoId(connected, nuevoEstado, estados);
      var stamp := DeliveryStamp(nuevoEstado, now);
      Orders.UpdatesKeepKeys(pedidos, id, Orders.Fields(0, 0, 0, Normal, ""), estadoId, stamp, nextPedidoId);
      Orders.SetEstadoFrame(pedidos, id, estadoId, stamp);
      pedidos := Orders.SetEstado(pedidos, id, estadoId, stamp);
      r := GetPedidoById(connected, id);
    }
  }

  /** The loop of `get_pedidos` and `buscar_pedidos` that turns each fetched row into a
      dictionary and fills in a NULL state. */
  method PatchEstados(rows: seq<JoinedRow>) returns (pedidos: seq<PedidoView>)
    ensures |pedidos| == |rows|
    ensures forall i :: 0 <= i < |rows| ==> pedidos[i] == WithDefaultEstado(rows[i])
  {
    pedidos := [];
    var i := 0;
    while i < |rows|
      invariant 0 <= i <= |rows|
      invariant |pedidos| == i
      invariant forall k :: 0 <= k < i ==> pedidos[k] == WithDefaultEstado(rows[k])
    {
      var pedido := WithDefaultEstado(rows[i]);
      pedidos := pedidos + [pedido];
      i := i + 1;
    }
  }
}
