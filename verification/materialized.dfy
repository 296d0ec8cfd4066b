/** The values the three pipeline stages exchange: the `(data, metadata)`
    envelope (`MaterializedInput` / `MaterializedOutput`), the per-request
    context bag, and the untyped `Object` values stored in them. */
module Materialized {
  import opened Assoc

  /** Backend kind a query engine or source provider declares; `Jdbc` stands for
      `JdbcQueryEngine` / `JdbcSourceProvider`, anything else for other classes. */
  datatype Kind = Jdbc | OtherKind(className: string)

  /** A Java `Object` as it appears in the pipeline's maps. Engines and source
      providers are opaque handles: only their kind and identity matter here. */
  datatype Value =
    | Null
    | Int(i: int)
    | Str(s: string)
    | List(items: seq<Value>)
    | Map(entries: seq<(string, Value)>)
    | EngineHandle(engineKind: Kind, engineId: nat)
    | ProviderHandle(providerKind: Kind, providerId: nat)

  /** One result row: column name to value, in column order. */
  type Row = Entries<Value>

  /** The immutable `(data, metadata)` pair handed from stage to stage. */
  datatype Envelope = Envelope(data: Entries<Value>, metadata: Entries<Value>)

  /** Both maps are Java maps: no key twice. */
  predicate WellFormed(e: Envelope) {
    Unique(e.data) && Unique(e.metadata)
  }

  /** The per-request context bag; every value written into it is a timestamp string. */
  type Context = Entries<string>
}
