/** The read side of the order repository: the LEFT JOIN every read runs, the `estado` default
    applied to each fetched row, `ORDER BY fecha_hora_creacion DESC`, `LIMIT`/`OFFSET`, and the
    two WHERE clauses of `get_pedidos` and `buscar_pedidos`. */
module Queries {
  import opened Wrappers
  import opened Schema
  import opened Resolvers
  import Clients

  /** One order joined with its client, fuel type and state; a missing partner gives NULLs. */
  function Join(p: Pedido, cs: seq<Cliente>, combustibles: seq<RefRow>, estados: seq<RefRow>): (r: JoinedRow)
    ensures r.id == p.id && r.fechaPedido == p.fechaCreacion && r.fechaCompletado == p.fechaEntrega
    ensures r.estado == TextOf(estados, p.estadoPedidoId)
  {
    var c := Clients.ById(cs, p.clienteId);
    JoinedRow(
      p.id, p.cantidad, p.fechaCreacion, p.fechaEntrega, p.observacion, UrgenciaText(p.urgencia),
      if c.Some? then Some(c.value.nombre) else None,
      if c.Some? then Some(c.value.telefono) else None,
      if c.Some? then Some(c.value.direccion) else None,
      TextOf(combustibles, p.tipoCombustibleId),
      TextOf(estados, p.estadoPedidoId))
  }

  /** The text a row's state has when the join yields NULL. */
  const DefaultEstado: string := "pendiente"

  /** `if 'estado' not in pedido or pedido['estado'] is None: pedido['estado'] = 'pendiente'`:
      every column is kept, and the state reads `pendiente` exactly when it was NULL or already
      `pendiente`. */
  function WithDefaultEstado(row: JoinedRow): (v: PedidoView)
    ensures v.estado == DefaultEstado <==> row.estado == None || row.estado == Some(DefaultEstado)
    ensures row.estado.Some? ==> v.estado == row.estado.value
    ensures v.id == row.id && v.fechaPedido == row.fechaPedido && v.fechaCompletado == row.fechaCompletado
    ensures v.cantidad == row.cantidad && v.observaciones == row.observaciones && v.nivelUrgencia == row.nivelUrgencia
    ensures v.nombreCliente == row.nombreCliente && v.telefono == row.telefono && v.direccion == row.direccion
    ensures v.tipoCombustible == row.tipoCombustible
  {
    PedidoView(
      row.id, row.cantidad, row.fechaPedido, row.fechaCompletado, row.observaciones, row.nivelUrgencia,
      row.nombreCliente, row.telefono, row.direccion, row.tipoCombustible,
      if row.estado.Some? then row.estado.value else DefaultEstado)
  }

  ghost predicate SortedDesc(ps: seq<Pedido>) {
    forall i, j :: 0 <= i < j < |ps| ==> ps[i].fechaCreacion >= ps[j].fechaCreacion
  }

  /** Putting a row in front of newest-first rows none newer than it keeps them newest first. */
  lemma SortedCons(h: Pedido, rest: seq<Pedido>)
    requires SortedDesc(rest)
    requires forall k :: 0 <= k < |rest| ==> h.fechaCreacion >= rest[k].fechaCreacion
    ensures SortedDesc([h] + rest)
  {
    forall i, j | 0 <= i < j < |[h] + rest|
      ensures ([h] + rest)[i].fechaCreacion >= ([h] + rest)[j].fechaCreacion
    {
      if i > 0 {
        assert ([h] + rest)[i] == rest[i - 1];
      }
      assert ([h] + rest)[j] == rest[j - 1];
    }
  }

  /** Dropping the newest row of newest-first rows leaves them newest first, none newer than it. */
  lemma SortedTail(ps: seq<Pedido>)
    requires ps != [] && SortedDesc(ps)
    ensures SortedDesc(ps[1..])
    ensures forall k :: 0 <= k < |ps[1..]| ==> ps[0].fechaCreacion >= ps[1..][k].fechaCreacion
  {
    assert forall k :: 0 <= k < |ps[1..]| ==> ps[1..][k] == ps[k + 1];
  }

  /** A row no older than any of some rows, and than one more, is no older than any of them
      in any arrangement. */
  lemma NoneNewer(h: Pedido, ps: seq<Pedido>, p: Pedido, rest: seq<Pedido>)
    requires forall k :: 0 <= k < |ps| ==> h.fechaCreacion >= ps[k].fechaCreacion
    requires h.fechaCreacion >= p.fechaCreacion
    requires multiset(rest) == multiset(ps) + multiset{p}
    ensures forall k :: 0 <= k < |rest| ==> h.fechaCreacion >= rest[k].fechaCreacion
  {
    forall k | 0 <= k < |rest| ensures h.fechaCreacion >= rest[k].fechaCreacion {
      assert rest[k] in multiset(rest);
      if rest[k] != p {
        assert rest[k] in multiset(ps);
        var j :| 0 <= j < |ps| && ps[j] == rest[k];
      }
    }
  }

  /** Insert one row before the first row created no later than it. */
  function InsertByFecha(p: Pedido, ps: seq<Pedido>): (r: seq<Pedido>)
    ensures multiset(r) == multiset(ps) + multiset{p}
    ensures SortedDesc(ps) ==> SortedDesc(r)
  {
    if ps == [] || p.fechaCreacion >= ps[0].fechaCreacion then
      assert SortedDesc(ps) ==> SortedDesc([p] + ps) by {
        if SortedDesc(ps) {
          SortedCons(p, ps);
        }
      }
      [p] + ps
    else
      var tail := ps[1..];
      var rest := InsertByFecha(p, tail);
      assert ps == [ps[0]] + tail;
      assert multiset([ps[0]] + rest) == multiset(ps) + multiset{p};
      assert SortedDesc(ps) ==> SortedDesc([ps[0]] + rest) by {
        if SortedDesc(ps) {
          SortedTail(ps);
          NoneNewer(ps[0], tail, p, rest);
          SortedCons(ps[0], rest);
        }
      }
      [ps[0]] + rest
  }

  /** `ORDER BY p.fecha_hora_creacion DESC`: the same rows, newest first. Rows created at the same
      time keep their table order. */
  function SortByFechaDesc(ps: seq<Pedido>): (r: seq<Pedido>)
    ensures multiset(r) == multiset(ps)
    ensures SortedDesc(r)
  {
    if ps == [] then []
    else
      assert ps == [ps[0]] + ps[1..];
      InsertByFecha(ps[0], SortByFechaDesc(ps[1..]))
  }

  /** Python truthiness of an optional integer: present and not zero. */
  predicate Truthy(n: Option<int>) {
    n.Some? && n.value != 0
  }

  /** The rows `OFFSET` skips (the offset clamped to the row count), 0 when not applied. */
  function Skipped(offset: Option<int>, count: nat): (k: nat)
    requires !(Truthy(offset) && offset.value < 0)
    ensures k <= count
  {
    if Truthy(offset) then (if offset.value < count then offset.value else count) else 0
  }

  /** `LIMIT`/`OFFSET`, each appended only when truthy. PostgreSQL rejects a negative value, and
      the failed query makes the read return nothing (`None`). Otherwise the result is the
      contiguous run of rows after the skipped ones, no longer than a truthy limit. */
  function Page<T>(rows: seq<T>, limit: Option<int>, offset: Option<int>): (r: Option<seq<T>>)
    ensures r.None? <==> (Truthy(limit) && limit.value < 0) || (Truthy(offset) && offset.value < 0)
    ensures r.Some? ==> Skipped(offset, |rows|) + |r.value| <= |rows| &&
                        r.value == rows[Skipped(offset, |rows|)..Skipped(offset, |rows|) + |r.value|]
    ensures r.Some? && Truthy(limit) ==>
      |r.value| == if limit.value < |rows| - Skipped(offset, |rows|) then limit.value else |rows| - Skipped(offset, |rows|)
    ensures r.Some? && !Truthy(limit) ==> Skipped(offset, |rows|) + |r.value| == |rows|
  {
    if (Truthy(limit) && limit.value < 0) || (Truthy(offset) && offset.value < 0) then None
    else
      var rest := rows[Skipped(offset, |rows|)..];
      Some(if Truthy(limit) && limit.value < |rest| then rest[..limit.value] else rest)
  }

  /** A limit or offset of 0 is the same as none at all. */
  lemma PageZeroIsAbsent<T>(rows: seq<T>, limit: Option<int>, offset: Option<int>)
    ensures Page(rows, Some(0), offset) == Page(rows, None, offset)
    ensures Page(rows, limit, Some(0)) == Page(rows, limit, None)
    ensures Page(rows, None, None) == Some(rows)
  {
  }

  /** The rows a predicate keeps, in table order. */
  function Select(ps: seq<Pedido>, keep: Pedido -> bool): (r: seq<Pedido>)
    ensures forall p :: p in r <==> p in ps && keep(p)
    ensures forall p :: keep(p) ==> multiset(r)[p] == multiset(ps)[p]
  {
    if ps == [] then []
    else
      assert ps == [ps[0]] + ps[1..];
      (if keep(ps[0]) then [ps[0]] else []) + Select(ps[1..], keep)
  }

  lemma {:induction false} SelectLength(ps: seq<Pedido>, keep: Pedido -> bool)
    ensures |Select(ps, keep)| <= |ps|
  {
    if ps != [] {
      SelectLength(ps[1..], keep);
    }
  }

  /** `WHERE ep.estado_pedido::text = %s`: a NULL state matches nothing. */
  predicate EstadoIs(p: Pedido, estados: seq<RefRow>, text: string)
    ensures EstadoIs(p, estados, text) ==> HasId(estados, p.estadoPedidoId)
  {
    TextOf(estados, p.estadoPedidoId) == Some(text)
  }

  /** Whether `get_pedidos` adds the state WHERE clause (`if estado:`). */
  predicate Filters(estado: Option<string>) {
    estado.Some? && estado.value != ""
  }

  /** The orders `get_pedidos` selects, newest first, before `LIMIT`/`OFFSET`. */
  function ListOrder(ps: seq<Pedido>, estados: seq<RefRow>, estado: Option<string>): (r: seq<Pedido>)
    ensures SortedDesc(r)
    ensures !Filters(estado) ==> multiset(r) == multiset(ps)
  {
    var selected :=
      if Filters(estado) then Select(ps, p => EstadoIs(p, estados, NormalizeEstado(estado.value))) else ps;
    SortByFechaDesc(selected)
  }

  function JoinAll(ps: seq<Pedido>, cs: seq<Cliente>, combustibles: seq<RefRow>, estados: seq<RefRow>): (r: seq<JoinedRow>)
    ensures |r| == |ps| && forall i :: 0 <= i < |ps| ==> r[i] == Join(ps[i], cs, combustibles, estados)
  {
    seq(|ps|, i requires 0 <= i < |ps| => Join(ps[i], cs, combustibles, estados))
  }

  /** The rows the query of `get_pedidos` fetches; `None` when PostgreSQL rejects it. */
  function ListRows(ps: seq<Pedido>, cs: seq<Cliente>, combustibles: seq<RefRow>, estados: seq<RefRow>,
                    estado: Option<string>, limit: Option<int>, offset: Option<int>): (r: Option<seq<JoinedRow>>)
    ensures r.None? <==> (Truthy(limit) && limit.value < 0) || (Truthy(offset) && offset.value < 0)
    ensures r.Some? && Truthy(limit) ==> |r.value| <= limit.value
  {
    match Page(ListOrder(ps, estados, estado), limit, offset)
    case None => None
    case Some(page) => Some(JoinAll(page, cs, combustibles, estados))
  }

  /** A contiguous run of newest-first rows is newest first, and each of its rows is one of them. */
  lemma SliceOfSorted(sorted: seq<Pedido>, a: nat, b: nat)
    requires a <= b <= |sorted| && SortedDesc(sorted)
    ensures SortedDesc(sorted[a..b])
    ensures forall i :: 0 <= i < b - a ==> sorted[a..b][i] in multiset(sorted)
  {
    var run := sorted[a..b];
    assert forall i :: 0 <= i < |run| ==> run[i] == sorted[a + i];
    forall i | 0 <= i < |run| ensures run[i] in multiset(sorted) {
      assert sorted[a + i] in sorted;
    }
  }

  /** Every row of a page of a sorted sequence keeps its order and comes from the sequence. */
  lemma PageOfSorted(sorted: seq<Pedido>, limit: Option<int>, offset: Option<int>)
    requires SortedDesc(sorted)
    ensures var pg := Page(sorted, limit, offset);
      pg.Some? ==> SortedDesc(pg.value) && forall i :: 0 <= i < |pg.value| ==> pg.value[i] in multiset(sorted)
  {
    var pg := Page(sorted, limit, offset);
    if pg.Some? {
      var k := Skipped(offset, |sorted|);
      SliceOfSorted(sorted, k, k + |pg.value|);
    }
  }

  /** The listing is newest first. */
  lemma ListRowsSorted(ps: seq<Pedido>, cs: seq<Cliente>, combustibles: seq<RefRow>, estados: seq<RefRow>,
                       estado: Option<string>, limit: Option<int>, offset: Option<int>)
    ensures var r := ListRows(ps, cs, combustibles, estados, estado, limit, offset);
      r.Some? ==> forall i, j :: 0 <= i < j < |r.value| ==> r.value[i].fechaPedido >= r.value[j].fechaPedido
  {
    var sorted := ListOrder(ps, estados, estado);
    var pg := Page(sorted, limit, offset);
    if pg.Some? {
      PageOfSorted(sorted, limit, offset);
      var rows := JoinAll(pg.value, cs, combustibles, estados);
      assert ListRows(ps, cs, combustibles, estados, estado, limit, offset) == Some(rows);
      forall i, j | 0 <= i < j < |rows| ensures rows[i].fechaPedido >= rows[j].fechaPedido {
        assert rows[i].fechaPedido == pg.value[i].fechaCreacion;
        assert rows[j].fechaPedido == pg.value[j].fechaCreacion;
      }
    }
  }

  /** With a state filter, every row fetched carries the normalised filter as its state text. */
  lemma ListRowsFiltered(ps: seq<Pedido>, cs: seq<Cliente>, combustibles: seq<RefRow>, estados: seq<RefRow>,
                         estado: Option<string>, limit: Option<int>, offset: Option<int>)
    requires Filters(estado)
    ensures var r := ListRows(ps, cs, combustibles, estados, estado, limit, offset);
      r.Some? ==> forall i :: 0 <= i < |r.value| ==> r.value[i].estado == Some(NormalizeEstado(estado.value))
  {
    var text := NormalizeEstado(estado.value);
    var selected := Select(ps, p => EstadoIs(p, estados, text));
    var sorted := ListOrder(ps, estados, estado);
    assert sorted == SortByFechaDesc(selected);
    var pg := Page(sorted, limit, offset);
    if pg.Some? {
      PageOfSorted(sorted, limit, offset);
      var rows := JoinAll(pg.value, cs, combustibles, estados);
      assert ListRows(ps, cs, combustibles, estados, estado, limit, offset) == Some(rows);
      forall i | 0 <= i < |rows| ensures rows[i].estado == Some(text) {
        var p := pg.value[i];
        assert p in multiset(sorted);
        assert p in selected;
      }
    }
  }

  /** Without a truthy limit or offset the listing holds every order the filter selects, each
      as often as it is in the table, and no other. */
  lemma ListRowsUnpaged(ps: seq<Pedido>, cs: seq<Cliente>, combustibles: seq<RefRow>, estados: seq<RefRow>,
                        estado: Option<string>, limit: Option<int>, offset: Option<int>)
    requires !Truthy(limit) && !Truthy(offset)
    ensures var r := ListRows(ps, cs, combustibles, estados, estado, limit, offset);
      var order := ListOrder(ps, estados, estado);
      r.Some? && r.value == JoinAll(order, cs, combustibles, estados) &&
      forall p :: (!Filters(estado) || EstadoIs(p, estados, NormalizeEstado(estado.value))) ==>
        multiset(order)[p] == multiset(ps)[p]
  {
  }

  /** `WHERE c.nombre ILIKE %s OR c.direccion ILIKE %s`: an order without a client matches nothing. */
  predicate ClienteMatches(p: Pedido, cs: seq<Cliente>, ilike: ILike, pattern: string)
    ensures ClienteMatches(p, cs, ilike, pattern) ==> exists i :: 0 <= i < |cs| && cs[i].id == p.clienteId
  {
    var c := Clients.ById(cs, p.clienteId);
    c.Some? && (ilike(c.value.nombre, pattern) || ilike(c.value.direccion, pattern))
  }

  /** The WHERE clause of `buscar_pedidos` for `termino`, as a predicate on orders. */
  function SearchKeep(cs: seq<Cliente>, ilike: ILike, termino: string): Pedido -> bool {
    p => ClienteMatches(p, cs, ilike, "%" + termino + "%")
  }

  /** The orders `buscar_pedidos` selects, newest first. */
  function SearchOrder(ps: seq<Pedido>, cs: seq<Cliente>, ilike: ILike, termino: string): (r: seq<Pedido>)
    ensures SortedDesc(r)
    ensures forall p :: p in r ==> ClienteMatches(p, cs, ilike, "%" + termino + "%")
  {
    var selected := Select(ps, SearchKeep(cs, ilike, termino));
    var r := SortByFechaDesc(selected);
    assert forall p :: p in r ==> ClienteMatches(p, cs, ilike, "%" + termino + "%") by {
      forall p | p in r ensures ClienteMatches(p, cs, ilike, "%" + termino + "%") {
        assert p in multiset(r);
        assert p in multiset(selected);
        assert p in selected;
        assert SearchKeep(cs, ilike, termino)(p);
      }
    }
    r
  }

  /** The rows the query of `buscar_pedidos` fetches for `termino`, newest first; never more
      than there are orders. */
  function SearchRows(ps: seq<Pedido>, cs: seq<Cliente>, combustibles: seq<RefRow>, estados: seq<RefRow>,
                      ilike: ILike, termino: string): (r: seq<JoinedRow>)
    ensures |r| <= |ps|
  {
    var order := SearchOrder(ps, cs, ilike, termino);
    assert |order| <= |ps| by {
      var selected := Select(ps, SearchKeep(cs, ilike, termino));
      assert |order| == |multiset(order)| == |multiset(selected)| == |selected|;
      SelectLength(ps, SearchKeep(cs, ilike, termino));
    }
    JoinAll(order, cs, combustibles, estados)
  }

  /** Searching finds exactly the orders whose client's name or address matches the term (each as
      often as it is in the table), newest first, and each row found shows that client. */
  lemma SearchRowsSpec(ps: seq<Pedido>, cs: seq<Cliente>, combustibles: seq<RefRow>, estados: seq<RefRow>,
                       ilike: ILike, termino: string)
    ensures var r := SearchRows(ps, cs, combustibles, estados, ilike, termino);
      var pattern := "%" + termino + "%";
      (forall i, j :: 0 <= i < j < |r| ==> r[i].fechaPedido >= r[j].fechaPedido) &&
      (forall i :: 0 <= i < |r| ==>
         (r[i].nombreCliente.Some? && r[i].direccion.Some? &&
          (ilike(r[i].nombreCliente.value, pattern) || ilike(r[i].direccion.value, pattern)))) &&
      forall p :: ClienteMatches(p, cs, ilike, pattern) ==>
        multiset(SearchOrder(ps, cs, ilike, termino))[p] == multiset(ps)[p]
  {
    var pattern := "%" + termino + "%";
    var keep := SearchKeep(cs, ilike, termino);
    var order := SearchOrder(ps, cs, ilike, termino);
    var r := SearchRows(ps, cs, combustibles, estados, ilike, termino);
    assert r == JoinAll(order, cs, combustibles, estados);
    forall i | 0 <= i < |r|
      ensures r[i].nombreCliente.Some? && r[i].direccion.Some? &&
              (ilike(r[i].nombreCliente.value, pattern) || ilike(r[i].direccion.value, pattern))
    {
      assert order[i] in order;
      assert ClienteMatches(order[i], cs, ilike, pattern);
    }
    forall i, j | 0 <= i < j < |r| ensures r[i].fechaPedido >= r[j].fechaPedido {
      assert r[i].fechaPedido == order[i].fechaCreacion && r[j].fechaPedido == order[j].fechaCreacion;
    }
    forall p | ClienteMatches(p, cs, ilike, pattern)
      ensures multiset(order)[p] == multiset(ps)[p]
    {
      assert keep(p);
      assert multiset(order) == multiset(Select(ps, keep));
    }
  }

  /** An order whose client's address matches the term but whose name does not is found. */
  lemma SearchFindsByAddress(ps: seq<Pedido>, cs: seq<Cliente>, combustibles: seq<RefRow>, estados: seq<RefRow>,
                             ilike: ILike, termino: string, k: nat)
    requires k < |ps|
    requires Clients.ById(cs, ps[k].clienteId).Some?
    requires ilike(Clients.ById(cs, ps[k].clienteId).value.direccion, "%" + termino + "%")
    ensures Join(ps[k], cs, combustibles, estados) in SearchRows(ps, cs, combustibles, estados, ilike, termino)
  {
    var keep := SearchKeep(cs, ilike, termino);
    var order := SearchOrder(ps, cs, ilike, termino);
    assert keep(ps[k]);
    assert multiset(order) == multiset(Select(ps, keep));
    assert ps[k] in multiset(ps);
    assert multiset(order)[ps[k]] == multiset(ps)[ps[k]];
    assert ps[k] in order;
    var i :| 0 <= i < |order| && order[i] == ps[k];
    assert SearchRows(ps, cs, combustibles, estados, ilike, termino)[i] == Join(ps[k], cs, combustibles, estados);
  }
}
