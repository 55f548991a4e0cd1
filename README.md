# Fuel-order repository, modelled in Dafny

This project models the order data-access layer of `api/database.py`. That layer is the backend of a
fuel-delivery service: clients (`cliente`), fuel types (`tipo_combustible`), order states
(`estado_pedido`) and orders (`pedidos`). The PostgreSQL tables become in-memory state held by the
class `Repository.Database`:
- `clientes` and `pedidos` are sequences of rows;
- `nextClienteId` and `nextPedidoId` stand for the SERIAL sequences;
- `combustibles` and `estados` are the fixed lookup tables, as (id, text) rows.

The repository operations (`get_or_create_cliente`, `get_pedido_by_id`, `get_pedidos`,
`buscar_pedidos`, `create_pedido`, `update_pedido`, `delete_pedido`, `cambiar_estado_pedido`)
become methods of `Repository.Database`. The two resolvers only read the fixed lookup tables, so
`get_tipo_combustible_id` and `get_estado_pedido_id` become the pure functions
`Resolvers.TipoCombustibleId` and `Resolvers.EstadoPedidoId`, which the methods call. Every
operation takes the outcome of `get_connection()` as `connected`, `CURRENT_TIMESTAMP` as `now`,
and the database's `ILIKE` as an opaque `ilike` parameter. Each commit is one assignment to the
tables.

Modules:
- `Text`: lower-casing and the digits-only phone clean-up.
- `Schema`: rows, the joined read row, the returned view, and lookups in the fixed tables.
- `Resolvers`: the fuel-type and state resolvers, urgency mapping, the list-filter normaliser, and the "completado" test.
- `Clients`: the find-or-create of `get_or_create_cliente` and the client-key invariant.
- `Orders`: the INSERT, UPDATE and DELETE effects on `pedidos`, with their frame lemmas.
- `Queries`: the LEFT JOIN, the `estado` default, `ORDER BY ... DESC`, `LIMIT`/`OFFSET`, and the two WHERE clauses.
- `Repository`: the class and its methods.

The class invariant `Valid()` keeps four facts:
- at most one client per (nombre, direccion);
- client keys and order keys are distinct and positive;
- every key is below its sequence's next value;
- the ids of each lookup table are distinct, since they are its primary key. The constructor
  requires this of the tables it is given.

Four behaviours of the code that a reader might not expect, all modelled as the code has them:
- `delete_pedido` reports success for an id that no order has (`Repository.Database.DeletePedido`).
- A newly created order's view has as its state the state table's text for id 1 (for example
  `Pendiente`). It reads `pendiente` only when id 1 is missing (`Repository.InitialEstadoText`).
- `cambiar_estado_pedido` re-stamps `fecha_entrega` on every change to `completado`, not only the first.
- An empty fuel-type name becomes the pattern `%%`, which goes to `ILIKE` like any other pattern,
  so the default 3 applies only when no row matches it.

## Model

| member | source | states |
|---|---|---|
| `Text.Lower` | api/database.py:64 | the result has the input's length; each upper-case ASCII letter becomes its lower-case letter (code point plus 32), every other character is kept, and no upper-case ASCII letter is left |
| `Text.DigitsOnly` | api/database.py:88 | the cleaned phone has only digit characters, each taken from the input, and is no longer than the input |
| `Text.DigitsOnlyConcat` | api/database.py:88 | cleaning distributes over concatenation, so the digits keep their original order |
| `Text.DigitsOnlySingle` | api/database.py:88 | one character is kept exactly when it is a digit |
| `Text.DigitsOnlyCounts` | api/database.py:88 | each digit occurs in the result as often as in the input; no other character occurs |
| `Text.DigitsOnlyFixed` | api/database.py:88 | a phone is left unchanged exactly when it is all digits |
| `Text.DigitsOnlyIdempotent` | api/database.py:88 | cleaning a cleaned phone changes nothing |
| `Schema.TextOf` | api/database.py:179-181 | the LEFT JOIN finds a text for a key exactly when the lookup table has that key, and the text is that row's |
| `Schema.FirstMatch` | api/database.py:40-46 | the fuzzy lookup finds nothing exactly when no row's text matches the pattern; otherwise it returns the id of a matching row |
| `Resolvers.TipoCombustibleId` | api/database.py:16-49 | `None` exactly when there is no connection; otherwise an id of the fuel table or the default 3 |
| `Resolvers.TipoCombustibleIdCases` | api/database.py:23-46 | a known name whose id is in the table resolves to that id; otherwise, if some row's text matches `%name%`, the result is the id of such a row; if none matches, 3 |
| `Resolvers.EstadoMap` | api/database.py:58-63 | the map has the four state keys; every entry but `cancelado` is fixed, and for a non-empty input the map is 1..4 |
| `Resolvers.EstadoMapLookup` | api/database.py:58-64 | the `4 if estado else 1` entry never matters: lookups agree with the fixed map 1..4 |
| `Resolvers.EstadoPedidoId` | api/database.py:51-79 | the state id is in 1..4, and anything but 1 comes from a connected lookup of an id present in the table |
| `Resolvers.EstadoPedidoIdDefault` | api/database.py:51-76 | the result is 1 iff there is no connection, or the lower-cased input is not a state name, or its id is missing from the table, or it is `pendiente`; otherwise the mapped id; the empty string gives 1 |
| `Resolvers.EstadoPedidoIdCaseInsensitive` | api/database.py:64 | inputs that lower-case alike resolve alike |
| `Resolvers.UrgenciaFrom` | api/database.py:295-300 | `Urgente` iff the raw value is exactly `urgente`, `Critico` iff exactly `critico`, `Normal` otherwise (including `Urgente` and a missing key) |
| `Resolvers.DisplayNamesLowerToKeys` | api/database.py:187-192 | each display name lower-cases to its key |
| `Resolvers.NormalizeEstado` | api/database.py:185-192 | the filter is the display name of a known lower-cased state, else the raw input, and it lower-cases like the input |
| `Resolvers.NormalizeEstadoIdempotent` | api/database.py:187-192 | normalising a filter twice equals normalising it once |
| `Resolvers.IsCompletado` | api/database.py:411 | whenever the completion test holds, the new state lower-cases to `completado` |
| `Resolvers.IsCompletadoIffLower` | api/database.py:411 | the completion test holds exactly when the new state lower-cases to `completado`; the second disjunct is redundant |
| `Clients.Find` | api/database.py:90-94 | a hit is a row with exactly that (nombre, direccion); a miss means no row has the pair |
| `Clients.ById` | api/database.py:179 | the joined client has the order's client id; none means no client has it |
| `Clients.Upsert` | api/database.py:88-113 | the upsert keeps the table's length or appends one row after the unchanged old rows |
| `Clients.UpsertWrites` | api/database.py:96-113 | after the upsert some row holds the returned id, the pair and the cleaned phone; every row with another pair is unchanged |
| `Clients.UpsertHit` | api/database.py:96-104 | an existing pair returns that row's id, adds no row, and replaces only that row's phone with the cleaned value |
| `Clients.UpsertMiss` | api/database.py:106-113 | a new pair appends exactly one row with the next id and returns that id |
| `Clients.UpsertPreservesInvariant` | api/database.py:90-113 | the upsert preserves "at most one client per (nombre, direccion)" and the key invariant, and afterwards the pair is found at the returned id with the cleaned phone |
| `Clients.FindUnique` | api/database.py:90-94 | under the invariant, the lookup returns the one row holding the pair |
| `Clients.UpsertTwice` | api/database.py:81-113 | two upserts of one pair with different phones return the same id and leave one row for the pair, holding the second phone |
| `Clients.UpsertById` | api/database.py:96-113 | after an upsert, the returned id joins to the row just written |
| `Orders.ById` | api/database.py:233-251 | the row found has the requested id; none means no row has it |
| `Orders.ByIdAt` | api/database.py:250-254 | with distinct order keys, `fetchone()` on the key returns the row at that key's position |
| `Orders.AppendKeepsKeys` | api/database.py:303-308 | inserting with the next serial id keeps order keys distinct and differs from every existing key |
| `Orders.NewPedido` | api/database.py:303-316 | a new order starts in state 1, created now, with no delivery time |
| `Orders.UpdateFields` | api/database.py:354-369 | the update keeps the number of rows and every key, and leaves rows with another id unchanged |
| `Orders.UpdateFieldsFrame` | api/database.py:354-369 | the update writes the five fields of the row with the id; state, creation and delivery times, keys and all other rows stay |
| `Orders.SetEstado` | api/database.py:409-416 | the state change keeps the number of rows and every key, and leaves rows with another id unchanged |
| `Orders.SetEstadoFrame` | api/database.py:409-416 | the state change sets the state of the row with the id and its delivery time only when stamping; everything else stays |
| `Orders.Delete` | api/database.py:388 | after the delete no row has the id, and every other row is still there |
| `Orders.DeleteCount` | api/database.py:388 | deleting a missing id changes nothing; deleting a present id removes exactly one row |
| `Orders.DeleteKeepsKeys` | api/database.py:388 | the delete keeps the key invariant |
| `Orders.UpdatesKeepKeys` | api/database.py:354-369 | the update and the state change keep the key invariant |
| `Queries.Join` | api/database.py:165-182 | the joined row carries the order's id, creation and delivery times, and the state table's text for its state (NULL when missing) |
| `Queries.WithDefaultEstado` | api/database.py:214-215 | every column is kept; the state reads `pendiente` exactly when it was NULL or already `pendiente` |
| `Queries.InsertByFecha` | api/database.py:196 | inserting one row keeps a newest-first order and adds exactly that row |
| `Queries.SortByFechaDesc` | api/database.py:196 | `ORDER BY fecha_hora_creacion DESC` yields the same rows (as a multiset), newest first |
| `Queries.Skipped` | api/database.py:202-204 | `OFFSET` never skips more rows than there are |
| `Queries.Page` | api/database.py:198-204 | a truthy negative limit or offset is rejected; otherwise the page is the contiguous run after the skipped rows, of length exactly the smaller of a truthy limit and the rows left, and all rows left when there is no limit |
| `Queries.PageZeroIsAbsent` | api/database.py:198-204 | a limit or offset of 0 is the same as none at all |
| `Queries.Select` | api/database.py:193 | the WHERE clause keeps exactly the rows that satisfy it, each as often as in the table |
| `Queries.SelectLength` | api/database.py:193 | the WHERE clause never yields more rows than the table has |
| `Queries.EstadoIs` | api/database.py:193 | an order passes the state filter only if its state id is in the state table |
| `Queries.ListOrder` | api/database.py:183-196 | the selected orders are newest first, and without a filter they are the whole table as a multiset |
| `Queries.ListRows` | api/database.py:165-206 | the query is rejected exactly when a truthy limit or offset is negative, and otherwise fetches no more rows than a truthy limit |
| `Queries.PageOfSorted` | api/database.py:196-204 | a page of a newest-first listing is newest first and drawn from it |
| `Queries.ListRowsSorted` | api/database.py:196-204 | the listing is newest first |
| `Queries.ListRowsFiltered` | api/database.py:185-195 | with a state filter, every row fetched has the normalised filter as its state text |
| `Queries.ListRowsUnpaged` | api/database.py:183-204 | without a truthy limit or offset, the listing holds every order that passes the filter, each as often as in the table |
| `Queries.ClienteMatches` | api/database.py:506-509 | an order matches the search only if its client exists in the client table |
| `Queries.SearchOrder` | api/database.py:509-510 | the orders the search selects are newest first, and each has a client whose name or address matches the pattern |
| `Queries.SearchRows` | api/database.py:492-513 | the search never fetches more rows than there are orders |
| `Queries.SearchRowsSpec` | api/database.py:505-513 | the rows fetched are newest first and each has a client whose name or address ILIKE `%termino%`; every matching order is selected as often as it is in the table |
| `Queries.SearchFindsByAddress` | api/database.py:509 | an order whose client's address matches the term is found even if the name does not |
| `Repository.DeliveryStamp` | api/database.py:411-412 | the delivery time is `now` exactly when the new state lower-cases to `completado` |
| `Repository.CompletadoWithoutStateRow` | api/database.py:407-412 | with no state row 3, completing an order stamps the delivery time while the state falls back to 1 |
| `Repository.InitialEstadoText` | api/database.py:256-260 | a new order's state text is that of id 1, or `pendiente` when id 1 is missing |
| `Repository.CreatedView` | api/database.py:277-321 | the view returned for a new order shows the upserted client with the cleaned phone, the initial state text, the mapped urgency, the creation time and no delivery time |
| `Repository.Database.GetOrCreateCliente` | api/database.py:81-119 | raises without a connection; otherwise the tables become the upsert's result, the invariant holds, and the returned id joins to the written row |
| `Repository.Database.GetPedidoById` | api/database.py:225-267 | a view exactly when connected and an order has the id, and then it is that order's joined row with its state defaulted; since order keys are distinct, it is the view of the row at the key's position |
| `Repository.Database.GetPedidos` | api/database.py:157-223 | empty without a connection or on a rejected limit/offset; otherwise the listing's rows with their state defaulted, newest first, all with the normalised filter as state |
| `Repository.Database.BuscarPedidos` | api/database.py:484-530 | empty without a connection; otherwise the search rows with their state defaulted, newest first, each with a client whose name or address matches |
| `Repository.Database.InsertPedido` | api/database.py:303-319 | the insert appends exactly one new order with the next serial id, advances the sequence, and that order is the only one with its id |
| `Repository.Database.CreatePedido` | api/database.py:269-327 | no connection: nothing changes; otherwise the client upsert commits; a fuel id of 0 raises; a failed quantity conversion adds no order; else exactly one order is appended (state 1, created now, no delivery time), nothing else changes, and its view is returned |
| `Repository.Database.UpdateRow` | api/database.py:354-371 | the update and its commit make the orders the result of overwriting the five fields of the order with the id |
| `Repository.Database.UpdatePedido` | api/database.py:329-378 | the client upsert commits; a failed quantity conversion leaves orders unchanged; else only the five fields of the order with the id change; a view is returned iff that order exists, and it is that updated order's joined row with its state defaulted |
| `Repository.Database.DeletePedido` | api/database.py:380-396 | reports success exactly when connected, even for a missing id, and removes the rows with the id |
| `Repository.Database.CambiarEstadoPedido` | api/database.py:398-424 | sets the resolved state of the order with the id; its delivery time becomes `now` iff the new state lower-cases to `completado`, otherwise it stays; a view is returned iff that order exists, and it is the updated order's whole joined row with its state defaulted |
| `Repository.PatchEstados` | api/database.py:210-216 | each fetched row becomes its view with the state defaulted, in order |

## Left out

- `get_connection` and psycopg2 are not modelled: cursors, commit, rollback and closing (api/database.py:3-14). The connection outcome is the `connected` parameter. Every nested connection of one call (the upsert, the resolvers and `get_pedido_by_id` inside create, update and the state change) shares it. So a connection that fails between the nested calls of one operation is not modelled, and neither is the exception the nested upsert would then raise.
- Statement failures other than a negative `LIMIT`/`OFFSET` are not modelled. These are constraint violations (for example a foreign key to a fuel id 3 that does not exist) and type errors. The database schema is not part of this model.
- `ILIKE` (api/database.py:43, 509) is an opaque parameter. Its case folding and its `%`/`_` wildcards live in the database. The term is pasted into the pattern unescaped, as the source does.
- `ORDER BY ... DESC` is modelled by a stable sort. Orders created at the same time keep their table order, where PostgreSQL leaves their order unspecified.
- `int(float(...))` (api/database.py:292, 345) is floating-point parsing, so it is not modelled. The quantity arrives already converted, and `None` stands for the `ValueError` path. The `OverflowError` that `float('inf')` would raise is not modelled.
- `Text.DigitsOnly`: keeps only ASCII `0`-`9`. Python's `str.isdigit` also accepts other Unicode digits, such as superscripts.
- `Text.Lower`: ASCII lower-casing. This is exact for every comparison the code makes with its ASCII state keys, but not for Python's full Unicode `str.lower`.
- Concurrency is not modelled. Operations run one at a time, and the invariant "at most one client per (nombre, direccion)" belongs to that sequential model. The source's SELECT-then-INSERT in `get_or_create_cliente` (api/database.py:90-113) takes no lock, so two concurrent calls with a new pair could both insert it.
- Missing dictionary keys (`KeyError`) and `None` where a string is expected are not modelled. One example: `nuevo_estado.lower()` on `None` raises `AttributeError`. The corresponding inputs are plain strings.
- The `if not cliente_id` check of `create_pedido` (api/database.py:283-284) is not modelled. Client ids come from a sequence starting at 1, so the check never fires.
- `get_estadisticas` (api/database.py:426-482) is not modelled. Its date arithmetic (`CURRENT_DATE`, `DATE_TRUNC('week')`) and `GROUP BY` aggregation happen entirely in the database.
- `verificar_usuario` and `init_db` (api/database.py:123-155, 532-554) are not modelled. They are a plaintext credential lookup and admin seeding, with no logic of their own.
- `api/index.py` is not modelled. It is the Flask/CORS bootstrap and a hello route, and its route blueprints are commented out.
