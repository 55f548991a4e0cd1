/** The `pedidos` table and the effect of each INSERT, UPDATE and DELETE that the order
    repository commits on it. */
module Orders {
  import opened Wrappers
  import opened Schema

  /** Primary keys are distinct, positive and below the next id of the SERIAL sequence. */
  ghost predicate IdsBelow(ps: seq<Pedido>, nextId: int) {
    1 <= nextId &&
    (forall i :: 0 <= i < |ps| ==> 1 <= ps[i].id < nextId) &&
    (forall i, j :: 0 <= i < j < |ps| ==> ps[i].id != ps[j].id)
  }

  /** `SELECT ... WHERE p.pedidos_id = %s` with `fetchone()`. */
  function ById(ps: seq<Pedido>, id: int): (r: Option<Pedido>)
    ensures r.Some? ==> r.value in ps && r.value.id == id
    ensures r.None? ==> forall i :: 0 <= i < |ps| ==> ps[i].id != id
  {
    if ps == [] then None
    else if ps[0].id == id then Some(ps[0])
    else ById(ps[1..], id)
  }

  /** Under distinct keys, the row `ById` finds is the one at the key's position. */
  lemma {:induction false} ByIdAt(ps: seq<Pedido>, k: nat)
    requires k < |ps|
    requires forall i, j :: 0 <= i < j < |ps| ==> ps[i].id != ps[j].id
    ensures ById(ps, ps[k].id) == Some(ps[k])
  {
    if k > 0 {
      ByIdAt(ps[1..], k - 1);
    }
  }

  /** The row `create_pedido` inserts: state 1 (Pendiente), created now, not yet delivered. */
  function NewPedido(id: int, clienteId: int, tipoId: int, cantidad: int, urgencia: Urgencia, observacion: string, now: int): (p: Pedido)
    ensures p.estadoPedidoId == 1 && p.fechaCreacion == now && p.fechaEntrega.None?
  {
    Pedido(id, clienteId, tipoId, 1, cantidad, urgencia, observacion, now, None)
  }

  /** Appending a row whose id is the next one keeps the keys distinct and below the new next id. */
  lemma AppendKeepsKeys(ps: seq<Pedido>, p: Pedido, nextId: int)
    requires IdsBelow(ps, nextId) && p.id == nextId
    ensures IdsBelow(ps + [p], nextId + 1)
    ensures forall i :: 0 <= i < |ps| ==> ps[i].id != p.id
  {
  }

  /** The five columns `update_pedido` overwrites. */
  datatype Fields = Fields(clienteId: int, tipoCombustibleId: int, cantidad: int, urgencia: Urgencia, observacion: string)

  /** `UPDATE pedidos SET cliente_id, tipo_combustible_id, cantidad_combustible, urgencia,
      observacion WHERE pedidos_id = id`. */
  function UpdateFields(ps: seq<Pedido>, id: int, f: Fields): (r: seq<Pedido>)
    ensures |r| == |ps| && forall i :: 0 <= i < |ps| ==> r[i].id == ps[i].id
    ensures forall i :: 0 <= i < |ps| && ps[i].id != id ==> r[i] == ps[i]
  {
    seq(|ps|, i requires 0 <= i < |ps| =>
      if ps[i].id == id
      then ps[i].(clienteId := f.clienteId, tipoCombustibleId := f.tipoCombustibleId,
                  cantidad := f.cantidad, urgencia := f.urgencia, observacion := f.observacion)
      else ps[i])
  }

  /** The update writes the five fields of the row with the id and nothing else: its key, state,
      creation time and delivery time stay, and every other row is untouched. */
  lemma UpdateFieldsFrame(ps: seq<Pedido>, id: int, f: Fields)
    ensures var r := UpdateFields(ps, id, f);
      |r| == |ps| &&
      forall i :: 0 <= i < |ps| ==>
        r[i].id == ps[i].id && r[i].estadoPedidoId == ps[i].estadoPedidoId &&
        r[i].fechaCreacion == ps[i].fechaCreacion && r[i].fechaEntrega == ps[i].fechaEntrega &&
        (ps[i].id != id ==> r[i] == ps[i]) &&
        (ps[i].id == id ==> Fields(r[i].clienteId, r[i].tipoCombustibleId, r[i].cantidad, r[i].urgencia, r[i].observacion) == f)
  {
  }

  /** `UPDATE pedidos SET estado_pedido_id = estadoId [, fecha_entrega = now] WHERE pedidos_id = id`;
      `stamp` is `Some(now)` when the delivery time is set. */
  function SetEstado(ps: seq<Pedido>, id: int, estadoId: int, stamp: Option<int>): (r: seq<Pedido>)
    ensures |r| == |ps| && forall i :: 0 <= i < |ps| ==> r[i].id == ps[i].id
    ensures forall i :: 0 <= i < |ps| && ps[i].id != id ==> r[i] == ps[i]
  {
    seq(|ps|, i requires 0 <= i < |ps| =>
      if ps[i].id == id
      then ps[i].(estadoPedidoId := estadoId, fechaEntrega := if stamp.Some? then stamp else ps[i].fechaEntrega)
      else ps[i])
  }

  /** A state change sets the state of the row with the id, sets its delivery time only when
      stamping, and leaves every other field and every other row as it was. */
  lemma SetEstadoFrame(ps: seq<Pedido>, id: int, estadoId: int, stamp: Option<int>)
    ensures var r := SetEstado(ps, id, estadoId, stamp);
      |r| == |ps| &&
      forall i :: 0 <= i < |ps| ==>
        (ps[i].id != id ==> r[i] == ps[i]) &&
        (ps[i].id == id ==>
           r[i].estadoPedidoId == estadoId &&
           r[i].fechaEntrega == (if stamp.Some? then stamp else ps[i].fechaEntrega) &&
           r[i].(estadoPedidoId := ps[i].estadoPedidoId, fechaEntrega := ps[i].fechaEntrega) == ps[i])
  {
  }

  /** `DELETE FROM pedidos WHERE pedidos_id = id`. */
  function Delete(ps: seq<Pedido>, id: int): (r: seq<Pedido>)
    ensures forall p :: p in r <==> p in ps && p.id != id
    ensures |r| <= |ps|
  {
    if ps == [] then []
    else (if ps[0].id == id then [] else [ps[0]]) + Delete(ps[1..], id)
  }

  /** Deleting a missing id changes nothing; deleting a present id (keys distinct) removes
      exactly one row. */
  lemma {:induction false} DeleteCount(ps: seq<Pedido>, id: int)
    requires forall i, j :: 0 <= i < j < |ps| ==> ps[i].id != ps[j].id
    ensures (forall i :: 0 <= i < |ps| ==> ps[i].id != id) ==> Delete(ps, id) == ps
    ensures (exists i :: 0 <= i < |ps| && ps[i].id == id) ==> |Delete(ps, id)| == |ps| - 1
  {
    if ps != [] {
      DeleteCount(ps[1..], id);
      if ps[0].id == id {
        assert forall i :: 0 <= i < |ps[1..]| ==> ps[1..][i].id != id;
      } else if exists i :: 0 <= i < |ps| && ps[i].id == id {
        var i :| 0 <= i < |ps| && ps[i].id == id;
        assert ps[1..][i - 1].id == id;
      }
    }
  }

  /** Delete keeps the key invariant. */
  lemma {:induction false} DeleteKeepsKeys(ps: seq<Pedido>, id: int, nextId: int)
    requires IdsBelow(ps, nextId)
    ensures IdsBelow(Delete(ps, id), nextId)
  {
    if ps != [] {
      assert IdsBelow(ps[1..], nextId);
      DeleteKeepsKeys(ps[1..], id, nextId);
      var rest := Delete(ps[1..], id);
      forall j | 0 <= j < |rest| ensures rest[j].id != ps[0].id {
        assert rest[j] in ps[1..];
      }
    }
  }

  lemma UpdatesKeepKeys(ps: seq<Pedido>, id: int, f: Fields, estadoId: int, stamp: Option<int>, nextId: int)
    requires IdsBelow(ps, nextId)
    ensures IdsBelow(UpdateFields(ps, id, f), nextId)
    ensures IdsBelow(SetEstado(ps, id, estadoId, stamp), nextId)
  {
  }
}
