/** The rows of the tables `cliente`, `pedidos`, `tipo_combustible` and `estado_pedido`,
    the joined row every read query returns, and the input record of create and update. */
module Schema {
  import opened Wrappers

  /** A row of a fixed lookup table (`tipo_combustible` or `estado_pedido`): its primary key
      and its value cast to text (`tipo_combustible::text`, `estado_pedido::text`). */
  datatype RefRow = RefRow(id: int, text: string)

  /** `text ILIKE pattern`, as the database decides it (case folding and the `%`/`_` wildcards). */
  type ILike = (string, string) -> bool

  /** The enumerated type `urgencia_pedido`. */
  datatype Urgencia = Normal | Urgente | Critico

  function UrgenciaText(u: Urgencia): string {
    match u
    case Normal => "Normal"
    case Urgente => "Urgente"
    case Critico => "Critico"
  }

  datatype Cliente = Cliente(id: int, nombre: string, telefono: string, direccion: string)

  /** A row of `pedidos`; timestamps are plain integers and `fechaEntrega` is `None` while NULL. */
  datatype Pedido = Pedido(
    id: int,
    clienteId: int,
    tipoCombustibleId: int,
    estadoPedidoId: int,
    cantidad: int,
    urgencia: Urgencia,
    observacion: string,
    fechaCreacion: int,
    fechaEntrega: Option<int>)

  /** One row of the three-way LEFT JOIN, as the database hands it back: columns from a missing
      client, fuel type or state are NULL (`None`). */
  datatype JoinedRow = JoinedRow(
    id: int,
    cantidad: int,
    fechaPedido: int,
    fechaCompletado: Option<int>,
    observaciones: string,
    nivelUrgencia: string,
    nombreCliente: Option<string>,
    telefono: Option<string>,
    direccion: Option<string>,
    tipoCombustible: Option<string>,
    estado: Option<string>)

  /** The dictionary returned to callers: the joined row with `estado` always filled in. */
  datatype PedidoView = PedidoView(
    id: int,
    cantidad: int,
    fechaPedido: int,
    fechaCompletado: Option<int>,
    observaciones: string,
    nivelUrgencia: string,
    nombreCliente: Option<string>,
    telefono: Option<string>,
    direccion: Option<string>,
    tipoCombustible: Option<string>,
    estado: string)

  /** `pedido_data` of create and update. `cantidad` is the already parsed `int(float(...))`,
      `None` when that conversion raises `ValueError`; `nivelUrgencia` and `observaciones` are
      `None` when the key is absent. */
  datatype PedidoData = PedidoData(
    nombreCliente: string,
    telefono: string,
    direccion: string,
    tipoCombustible: string,
    cantidad: Option<int>,
    nivelUrgencia: Option<string>,
    observaciones: Option<string>)

  predicate HasId(table: seq<RefRow>, id: int) {
    exists i :: 0 <= i < |table| && table[i].id == id
  }

  predicate RefIdsUnique(table: seq<RefRow>) {
    forall i, j :: 0 <= i < j < |table| ==> table[i].id != table[j].id
  }

  /** The text the LEFT JOIN finds for `id`, NULL when no row has that key. */
  function TextOf(table: seq<RefRow>, id: int): (r: Option<string>)
    ensures r.Some? <==> HasId(table, id)
    ensures r.Some? ==> exists i :: 0 <= i < |table| && table[i] == RefRow(id, r.value)
  {
    if table == [] then None
    else if table[0].id == id then Some(table[0].text)
    else
      var r := TextOf(table[1..], id);
      assert HasId(table[1..], id) ==> HasId(table, id) by {
        if HasId(table[1..], id) {
          var i :| 0 <= i < |table[1..]| && table[1..][i].id == id;
          assert table[i + 1].id == id;
        }
      }
      assert r.Some? ==> exists i :: 0 <= i < |table| && table[i] == RefRow(id, r.value) by {
        if r.Some? {
          var i :| 0 <= i < |table[1..]| && table[1..][i] == RefRow(id, r.value);
          assert table[i + 1] == RefRow(id, r.value);
        }
      }
      r
  }

  /** `SELECT id FROM table WHERE text ILIKE pattern` followed by `fetchone()`: the first row
      whose text matches, if any. */
  function FirstMatch(table: seq<RefRow>, ilike: ILike, pattern: string): (r: Option<int>)
    ensures r.None? <==> forall i :: 0 <= i < |table| ==> !ilike(table[i].text, pattern)
    ensures r.Some? ==> exists i :: 0 <= i < |table| && table[i].id == r.value && ilike(table[i].text, pattern)
  {
    if table == [] then None
    else if ilike(table[0].text, pattern) then Some(table[0].id)
    else
      var r := FirstMatch(table[1..], ilike, pattern);
      assert r.Some? ==> exists i :: 0 <= i < |table| && table[i].id == r.value && ilike(table[i].text, pattern) by {
        if r.Some? {
          var i :| 0 <= i < |table[1..]| && table[1..][i].id == r.value && ilike(table[1..][i].text, pattern);
          assert table[i + 1] == table[1..][i];
        }
      }
      assert r.None? ==> forall i :: 0 <= i < |table| ==> !ilike(table[i].text, pattern) by {
        if r.None? {
          forall i | 0 <= i < |table| ensures !ilike(table[i].text, pattern) {
            if i > 0 { assert table[i] == table[1..][i - 1]; }
          }
        }
      }
      r
  }
}
