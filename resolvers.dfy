/** The reference resolvers and the small normalisers of `api/database.py`: fuel-type and
    order-state names to ids, urgency, the list filter, and the "completado" test. */
module Resolvers {
  import opened Wrappers
  import opened Text
  import opened Schema

  /** `tipo_map` of `get_tipo_combustible_id`; the keys are case-sensitive. */
  const TipoMap: map<string, int> := map["Regular" := 3, "Diesel" := 4, "Premium" := 5]

  /** The id used when neither the fixed map nor the fuzzy match finds a fuel type. */
  const DefaultTipoCombustibleId: int := 3

  /** `get_tipo_combustible_id`. `None` only without a connection; otherwise the mapped id if
      the lookup table has it, else the first row whose text ILIKE `%name%`, else 3. */
  function TipoCombustibleId(connected: bool, name: string, combustibles: seq<RefRow>, ilike: ILike): (r: Option<int>)
    ensures r.None? <==> !connected
    ensures r.Some? ==> HasId(combustibles, r.value) || r.value == DefaultTipoCombustibleId
  {
    if !connected then None
    else if name in TipoMap && TipoMap[name] != 0 && HasId(combustibles, TipoMap[name]) then Some(TipoMap[name])
    else
      match FirstMatch(combustibles, ilike, "%" + name + "%")
      case Some(id) => Some(id)
      case None => Some(DefaultTipoCombustibleId)
  }

  /** With a connection: a known name whose id is present resolves to that id; otherwise, when
      some row's text ILIKE `%name%`, to the id of such a row; and only when none does, to 3. */
  lemma TipoCombustibleIdCases(name: string, combustibles: seq<RefRow>, ilike: ILike)
    ensures var r := TipoCombustibleId(true, name, combustibles, ilike);
      var pattern := "%" + name + "%";
      r.Some? &&
      (name in TipoMap && HasId(combustibles, TipoMap[name]) ==> r == Some(TipoMap[name])) &&
      (!(name in TipoMap && HasId(combustibles, TipoMap[name])) ==>
         if exists i :: 0 <= i < |combustibles| && ilike(combustibles[i].text, pattern)
         then exists i :: 0 <= i < |combustibles| && combustibles[i].id == r.value && ilike(combustibles[i].text, pattern)
         else r == Some(DefaultTipoCombustibleId))
  {
    var pattern := "%" + name + "%";
    if !(name in TipoMap && HasId(combustibles, TipoMap[name])) {
      var m := FirstMatch(combustibles, ilike, pattern);
      if exists i :: 0 <= i < |combustibles| && ilike(combustibles[i].text, pattern) {
        var i :| 0 <= i < |combustibles| && ilike(combustibles[i].text, pattern);
        assert m.Some?;
      }
    }
  }

  /** `estado_map` of `get_estado_pedido_id`, whose `'cancelado'` entry is `4 if estado else 1`. */
  function EstadoMap(estado: string): (m: map<string, int>)
    ensures m.Keys == EstadoIds.Keys
    ensures forall k :: k in m && k != "cancelado" ==> m[k] == EstadoIds[k]
    ensures estado != "" ==> m == EstadoIds
  {
    map["pendiente" := 1, "en_ruta" := 2, "completado" := 3, "cancelado" := if estado != "" then 4 else 1]
  }

  /** The same map with the conditional entry fixed at 4. */
  const EstadoIds: map<string, int> := map["pendiente" := 1, "en_ruta" := 2, "completado" := 3, "cancelado" := 4]

  /** The conditional entry never matters: `'cancelado'` can only be looked up with a non-empty input. */
  lemma EstadoMapLookup(estado: string)
    ensures Lower(estado) in EstadoMap(estado) <==> Lower(estado) in EstadoIds
    ensures Lower(estado) in EstadoIds ==> EstadoMap(estado)[Lower(estado)] == EstadoIds[Lower(estado)]
  {
    if estado == "" {
      assert Lower(estado) == "";
    }
  }

  /** `get_estado_pedido_id`: 1 without a connection; otherwise the id of the lower-cased name if
      the state table has it, else 1. */
  function EstadoPedidoId(connected: bool, estado: string, estados: seq<RefRow>): (id: int)
    ensures 1 <= id <= 4
    ensures id != 1 ==> connected && HasId(estados, id)
  {
    if !connected then 1
    else
      var m := EstadoMap(estado);
      var key := Lower(estado);
      if key in m && m[key] != 0 && HasId(estados, m[key]) then m[key] else 1
  }

  /** The state resolver answers 1 exactly when there is no connection, the lower-cased input is
      not one of the four names, the mapped id is missing from the table, or the input is
      `pendiente` itself. */
  lemma EstadoPedidoIdDefault(connected: bool, estado: string, estados: seq<RefRow>)
    ensures EstadoPedidoId(connected, estado, estados) == 1 <==>
              !connected || Lower(estado) !in EstadoIds || !HasId(estados, EstadoIds[Lower(estado)])
              || Lower(estado) == "pendiente"
    ensures connected && Lower(estado) in EstadoIds && HasId(estados, EstadoIds[Lower(estado)]) ==>
              EstadoPedidoId(connected, estado, estados) == EstadoIds[Lower(estado)]
    ensures estado == "" ==> EstadoPedidoId(connected, estado, estados) == 1
  {
    EstadoMapLookup(estado);
    if estado == "" {
      assert Lower(estado) == "";
    }
  }

  /** The state resolver is case-insensitive: inputs that lower-case alike resolve alike. */
  lemma EstadoPedidoIdCaseInsensitive(connected: bool, a: string, b: string, estados: seq<RefRow>)
    requires Lower(a) == Lower(b)
    ensures EstadoPedidoId(connected, a, estados) == EstadoPedidoId(connected, b, estados)
  {
    EstadoMapLookup(a);
    EstadoMapLookup(b);
  }

  /** `urgencia_map.get(pedido_data.get('nivel_urgencia', 'normal'), 'Normal')`: only the exact
      lower-case keys map to their capitalised forms; anything else, a missing key included,
      gives `Normal`. */
  function UrgenciaFrom(raw: Option<string>): (u: Urgencia)
    ensures u == Urgente <==> raw == Some("urgente")
    ensures u == Critico <==> raw == Some("critico")
    ensures u == Normal <==> raw != Some("urgente") && raw != Some("critico")
  {
    var key := raw.GetOr("normal");
    if key == "normal" then Normal
    else if key == "urgente" then Urgente
    else if key == "critico" then Critico
    else Normal
  }

  /** The display names that `get_pedidos` normalises a state filter to. */
  const DisplayNames: map<string, string> :=
    map["pendiente" := "Pendiente", "en_ruta" := "En_Ruta", "completado" := "Completado", "cancelado" := "Cancelado"]

  lemma DisplayNamesLowerToKeys()
    ensures forall k :: k in DisplayNames ==> Lower(DisplayNames[k]) == k
  {
    assert Lower("Pendiente") == "pendiente";
    assert Lower("En_Ruta") == "en_ruta";
    assert Lower("Completado") == "completado";
    assert Lower("Cancelado") == "cancelado";
  }

  /** The list filter of `get_pedidos`: the display name of the lower-cased input, or the raw input
      when it names no state. The result lower-cases like the input, so normalising twice is
      normalising once. */
  function NormalizeEstado(estado: string): (r: string)
    ensures r == estado || r in DisplayNames.Values
    ensures Lower(r) == Lower(estado)
    ensures Lower(estado) in DisplayNames ==> r == DisplayNames[Lower(estado)]
  {
    DisplayNamesLowerToKeys();
    var key := Lower(estado);
    if key in DisplayNames then DisplayNames[key] else estado
  }

  lemma NormalizeEstadoIdempotent(estado: string)
    ensures NormalizeEstado(NormalizeEstado(estado)) == NormalizeEstado(estado)
  {
    var r := NormalizeEstado(estado);
    assert Lower(r) == Lower(estado);
  }

  /** The test in `cambiar_estado_pedido` that decides whether `fecha_entrega` is stamped. */
  predicate IsCompletado(estado: string)
    ensures IsCompletado(estado) ==> Lower(estado) == "completado"
  {
    assert Lower("Completado") == "completado";
    Lower(estado) == "completado" || estado == "Completado"
  }

  /** Its second disjunct is redundant: the test is exactly "lower-cases to completado". */
  lemma IsCompletadoIffLower(estado: string)
    ensures IsCompletado(estado) <==> Lower(estado) == "completado"
  {
    assert Lower("Completado") == "completado";
  }
}
