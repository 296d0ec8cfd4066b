/** The execution stage (`BlogExecutor.apply`): extract the runtime parameters,
    resolve the template through the query builder, find the JDBC engine and
    the first JDBC source provider in the metadata, run the query, and turn the
    engine's rows and columns into the `{count, data, columns}` response. The
    template builder and the query engine are foreign code and appear as
    oracle functions that may fail. */
module Executor {
  import opened Wrappers
  import opened Assoc
  import opened Materialized

  /** Reserved keys. The framework's `Key` enum (not part of this model) owns the
      strings behind `Key.ENGINE`, `Key.SOURCES` and `Key.PAYLOAD_PARAMETERS`. */
  const EngineKey: string := "engine"
  const SourcesKey: string := "sources"
  const ParametersKey: string := "parameters"
  const TemplateEntry: string := "template"
  const NameEntry: string := "name"

  const ExecutedAtKey: string := "executed-at"
  const NameKey: string := "executor-name"
  const ResolvedKey: string := "executor-template-resolved"

  const TotalFoundColumn: string := "total_found"
  const JdbcProviderName: string := "JdbcSourceProvider"

  const QueryFailedMessage: string := "Query execution failed"
  const UnexpectedMessage: string := "Unexpected execution failure"

  /** `SqlQueryEngineRequest`: statement text, bound parameters, dialect. */
  datatype SqlRequest = SqlRequest(sql: string, bound: Entries<Value>, dialect: string)

  datatype BuildOutcome = Built(request: SqlRequest) | BuildFailed(reason: string)

  /** `QueryEngineResult`: rows in engine order plus column descriptors. */
  datatype QueryResult = QueryResult(rows: seq<Row>, columns: seq<Value>)

  /** What `JdbcQueryEngine.execute` does: answers, throws a
      `QueryExecutionException`, or throws another `QueryEngineException`. */
  datatype EngineOutcome =
    | Completed(result: QueryResult)
    | ExecutionFailed(reason: string)
    | OtherEngineFailure(reason: string)

  /** The foreign collaborators. `build` is `SqlTemplateQueryBuilder.buildQuery`
      applied to the template (`None` for a null reference) and the extracted
      parameter map (which may be a null reference); `execute` receives the engine's identity, the request
      and the chosen source provider's identity. */
  datatype Oracles = Oracles(
    build: (Option<string>, Value) -> BuildOutcome,
    execute: (nat, SqlRequest, nat) -> EngineOutcome)

  /** The stage's `template` and `name` fields, each a `String` that is null
      (`None`) when the configuration map has no such entry. */
  datatype Config = Config(template: Option<string>, name: Option<string>)

  /** Why the constructor throws: a configuration entry that is neither a
      string nor null fails its `(String)` cast. */
  datatype ConfigError = NotAString(entry: string)

  /** A `String` field as the `Object` it becomes when stored in a map. */
  function StrOrNull(s: Option<string>): Value {
    match s
    case Some(t) => Str(t)
    case None => Null
  }

  /** Whether `(String) config.get(key)` succeeds: a missing entry or a stored
      null gives null, a string passes, anything else throws. */
  predicate CastsToString(v: Option<Value>) {
    v.None? || v.value.Null? || v.value.Str?
  }

  /** The constructor: `template` is cast first, then `name`; each field keeps
      what its configuration entry holds, null included. */
  function FromConfig(config: Entries<Value>): (r: Result<Config, ConfigError>)
    ensures r.Ok? <==> CastsToString(Lookup(config, TemplateEntry)) && CastsToString(Lookup(config, NameEntry))
    ensures r.Ok? ==> StrOrNull(r.value.template) == Lookup(config, TemplateEntry).GetOr(Null)
    ensures r.Ok? ==> StrOrNull(r.value.name) == Lookup(config, NameEntry).GetOr(Null)
    ensures r.Err? ==> r.error == NotAString(if CastsToString(Lookup(config, TemplateEntry)) then NameEntry
                                            else TemplateEntry)
  {
    var template :- CastEntry(config, TemplateEntry);
    var name :- CastEntry(config, NameEntry);
    Ok(Config(template, name))
  }

  /** `(String) config.get(key)`. */
  function CastEntry(config: Entries<Value>, key: string): Result<Option<string>, ConfigError> {
    match Lookup<Value>(config, key)
    case Some(Str(t)) => Ok(Some(t))
    case Some(Null) => Ok(None)
    case None => Ok(None)
    case Some(_) => Err(NotAString(key))
  }

  /** The exception that reached `apply`'s catch blocks. */
  datatype Cause =
    | TemplateNotResolved          // PipelineException from buildResolvedQuery
    | NoEngine                     // QueryExecutionException: no JDBC engine in metadata
    | NoSources                    // PipelineException: no sources map in metadata
    | NoSourceOfType(typeName: string)  // CheshireRuntimeError: no provider of the type
    | QueryFailed(detail: string)  // QueryExecutionException thrown by execute
    | EngineFailed(detail: string) // any other QueryEngineException thrown by execute

  /** `apply` rethrows every failure as a `PipelineException` wrapping its cause. */
  datatype ExecError = PipelineException(message: string, cause: Cause)

  /** The two catch blocks of `apply`: a `QueryExecutionException` gets one
      message, every other exception the other. */
  function Wrap(c: Cause): ExecError {
    if c.NoEngine? || c.QueryFailed? then PipelineException(QueryFailedMessage, c)
    else PipelineException(UnexpectedMessage, c)
  }

  // ---------------------------------------------------------------- parameters

  /** `data.getOrDefault(PAYLOAD_PARAMETERS, new HashMap())` cast to `Map`: an
      absent key gives an empty map, a stored null passes through as null, and
      any non-map value fails the cast. */
  function ExtractParameters(data: Entries<Value>): (r: Result<Value, Cause>)
    ensures ParametersKey !in KeySet(data) ==> r == Ok(Map([]))
    ensures r.Ok? ==> r.value.Map? || r.value.Null?
    ensures r.Ok? && ParametersKey in KeySet(data) ==> Lookup(data, ParametersKey) == Some(r.value)
    ensures r.Err? <==> (ParametersKey in KeySet(data) &&
                         !Lookup(data, ParametersKey).value.Map? && !Lookup(data, ParametersKey).value.Null?)
  {
    match Lookup(data, ParametersKey)
    case None => Ok(Map([]))
    case Some(v) => if v.Map? || v.Null? then Ok(v) else Err(TemplateNotResolved)
  }

  /** `buildResolvedQuery`: parameters, then the builder; every failure becomes
      the resolution failure. */
  function Resolve(template: Option<string>, build: (Option<string>, Value) -> BuildOutcome, data: Entries<Value>)
    : (r: Result<SqlRequest, Cause>)
    ensures r.Err? ==> r.error == TemplateNotResolved
    ensures r.Ok? <==> ExtractParameters(data).Ok? && build(template, ExtractParameters(data).value).Built?
    ensures r.Ok? ==> r.value == build(template, ExtractParameters(data).value).request
  {
    var params :- ExtractParameters(data);
    match build(template, params)
    case Built(req) => Ok(req)
    case BuildFailed(_) => Err(TemplateNotResolved)
  }

  // ------------------------------------------------------- engine and sources

  /** `input.getMetadata(Key.ENGINE, JdbcQueryEngine.class)`: present only when
      the metadata holds a JDBC engine under the engine key. */
  function JdbcEngine(metadata: Entries<Value>): (r: Result<nat, Cause>)
    ensures r.Ok? ==> Lookup(metadata, EngineKey) == Some(EngineHandle(Jdbc, r.value))
    ensures r.Err? <==> !HasJdbcEngine(metadata)
    ensures r.Err? ==> r.error == NoEngine
  {
    match Lookup<Value>(metadata, EngineKey)
    case Some(EngineHandle(Jdbc, id)) => Ok(id)
    case _ => Err(NoEngine)
  }

  predicate HasJdbcEngine(metadata: Entries<Value>) {
    var v := Lookup(metadata, EngineKey);
    v.Some? && v.value.EngineHandle? && v.value.engineKind == Jdbc
  }

  predicate IsProviderOf(v: Value, kind: Kind) {
    v.ProviderHandle? && v.providerKind == kind
  }

  /** `sources.values().stream().filter(type::isInstance).findFirst()`: the
      position of the first provider of the kind, in iteration order. */
  function FirstProviderIndex(sources: Entries<Value>, kind: Kind): (r: Option<nat>)
    ensures r.Some? ==> r.value < |sources| && IsProviderOf(sources[r.value].1, kind)
    ensures r.Some? ==> forall j :: 0 <= j < r.value ==> !IsProviderOf(sources[j].1, kind)
    ensures r.None? <==> forall j :: 0 <= j < |sources| ==> !IsProviderOf(sources[j].1, kind)
  {
    if |sources| == 0 then None
    else if IsProviderOf(sources[0].1, kind) then Some(0)
    else
      match FirstProviderIndex(sources[1..], kind)
      case Some(i) =>
        assert forall j :: 1 <= j < i + 1 ==> sources[j] == sources[1..][j - 1];
        Some(i + 1)
      case None =>
        assert forall j :: 1 <= j < |sources| ==> sources[j] == sources[1..][j - 1];
        None
  }

  /** `getSourceProvider(JdbcSourceProvider.class, input)`. */
  function SelectSource(metadata: Entries<Value>): (r: Result<nat, Cause>)
    ensures (match Lookup<Value>(metadata, SourcesKey) case Some(Map(_)) => false case _ => true)
            ==> r == Err(NoSources)
    ensures r.Err? ==> r.error == NoSources || r.error == NoSourceOfType(JdbcProviderName)
    ensures r.Ok? ==> exists i :: 0 <= i < |Lookup(metadata, SourcesKey).value.entries| &&
                        Lookup(metadata, SourcesKey).value.entries[i].1 == ProviderHandle(Jdbc, r.value)
    // with a sources map, the provider taken is the first JDBC one in iteration
    // order, and there is none to take exactly when the map holds no JDBC provider
    ensures Lookup<Value>(metadata, SourcesKey).Some? && Lookup<Value>(metadata, SourcesKey).value.Map? ==>
              var s := Lookup<Value>(metadata, SourcesKey).value.entries;
              (r.Ok? <==> exists i :: 0 <= i < |s| && IsProviderOf(s[i].1, Jdbc)) &&
              (r.Ok? ==> exists i :: 0 <= i < |s| && s[i].1 == ProviderHandle(Jdbc, r.value) &&
                                    forall j :: 0 <= j < i ==> !IsProviderOf(s[j].1, Jdbc)) &&
              (r.Err? ==> r.error == NoSourceOfType(JdbcProviderName))
  {
    match Lookup<Value>(metadata, SourcesKey)
    case Some(Map(sources)) =>
      (match FirstProviderIndex(sources, Jdbc)
       case Some(i) => Ok(sources[i].1.providerId)
       case None => Err(NoSourceOfType(JdbcProviderName)))
    case _ => Err(NoSources)
  }

  /** `executeJdbcQuery`: engine first, then source provider, then the engine call. */
  function Dispatch(execute: (nat, SqlRequest, nat) -> EngineOutcome, metadata: Entries<Value>, req: SqlRequest)
    : (r: Result<QueryResult, Cause>)
    ensures JdbcEngine(metadata).Err? ==> r == Err(NoEngine)
    ensures JdbcEngine(metadata).Ok? && SelectSource(metadata).Err? ==> r == Err(SelectSource(metadata).error)
    ensures r.Ok? ==> execute(JdbcEngine(metadata).value, req, SelectSource(metadata).value) == Completed(r.value)
    // with an engine and a provider, the engine's answer decides: a result is
    // returned as is, a `QueryExecutionException` and any other engine failure
    // keep their detail under distinct causes
    ensures JdbcEngine(metadata).Ok? && SelectSource(metadata).Ok? ==>
              var out := execute(JdbcEngine(metadata).value, req, SelectSource(metadata).value);
              (out.Completed? ==> r == Ok(out.result)) &&
              (out.ExecutionFailed? ==> r == Err(QueryFailed(out.reason))) &&
              (out.OtherEngineFailure? ==> r == Err(EngineFailed(out.reason)))
  {
    var engine :- JdbcEngine(metadata);
    var provider :- SelectSource(metadata);
    match execute(engine, req, provider)
    case Completed(q) => Ok(q)
    case ExecutionFailed(d) => Err(QueryFailed(d))
    case OtherEngineFailure(d) => Err(EngineFailed(d))
  }

  // ------------------------------------------------------ result normalisation

  /** `rows().stream().findFirst().map(row -> row.get("total_found")).orElse(rows().size())`:
      `Optional.map` turns a null `total_found` into an empty optional. */
  function TotalFound(rows: seq<Row>): Value {
    if |rows| > 0 then
      match Lookup(rows[0], TotalFoundColumn)
      case Some(v) => if v.Null? then Int(|rows|) else v
      case None => Int(|rows|)
    else Int(|rows|)
  }

  function RowValues(rows: seq<Row>): seq<Value> {
    seq(|rows|, i requires 0 <= i < |rows| => Map(rows[i]))
  }

  /** `toMap`: the response map `{count: {total_found, page_size}, data, columns}`. */
  function ToMap(q: QueryResult): (r: Entries<Value>)
    ensures Keys(r) == ["count", "data", "columns"] && Unique(r)
    ensures ReadResponse(r) == Some(q)
    ensures ReadCount(r) == Some((TotalFound(q.rows), Int(|q.rows|)))
  {
    var count := [(TotalFoundColumn, TotalFound(q.rows)), ("page_size", Int(|q.rows|))];
    var r := [("count", Map(count)), ("data", List(RowValues(q.rows))), ("columns", List(q.columns))];
    Triple("count", Map(count), "data", List(RowValues(q.rows)), "columns", List(q.columns));
    CountBlock(TotalFound(q.rows), Int(|q.rows|));
    RowsRoundTrip(q.rows);
    r
  }

  lemma CountBlock(t: Value, n: Value)
    ensures Lookup([(TotalFoundColumn, t), ("page_size", n)], TotalFoundColumn) == Some(t)
    ensures Lookup([(TotalFoundColumn, t), ("page_size", n)], "page_size") == Some(n)
  {
    var c := [(TotalFoundColumn, t), ("page_size", n)];
    assert Lookup(c, "page_size") == Lookup(c[1..], "page_size");
  }

  lemma RowsRoundTrip(rows: seq<Row>)
    ensures AllMaps(RowValues(rows)) && RowsOf(RowValues(rows)) == rows
  {
  }

  predicate AllMaps(items: seq<Value>) {
    forall i :: 0 <= i < |items| ==> items[i].Map?
  }

  /** Reads rows back out of a response's `data` list, if every item is a map. */
  function RowsOf(items: seq<Value>): seq<Row> {
    seq(|items|, i requires 0 <= i < |items| => if items[i].Map? then items[i].entries else [])
  }

  /** A caller's reading of a response: its `data` rows and `columns`. */
  function ReadResponse(resp: Entries<Value>): Option<QueryResult> {
    match (Lookup<Value>(resp, "data"), Lookup<Value>(resp, "columns"))
    case (Some(List(items)), Some(List(cols))) =>
      if AllMaps(items) then Some(QueryResult(RowsOf(items), cols))
      else None
    case _ => None
  }

  /** A caller's reading of a response's `count`: `(total_found, page_size)`. */
  function ReadCount(resp: Entries<Value>): Option<(Value, Value)> {
    match Lookup<Value>(resp, "count")
    case Some(Map(c)) =>
      (match (Lookup(c, TotalFoundColumn), Lookup(c, "page_size"))
       case (Some(t), Some(p)) => Some((t, p))
       case _ => None)
    case _ => None
  }

  /** `page_size` is the number of rows returned. When the first row carries no
      (or a null) `total_found`, `total_found` falls back to that same number. */
  lemma CountFallback(q: QueryResult)
    requires |q.rows| == 0 || Lookup(q.rows[0], TotalFoundColumn).None? ||
             Lookup(q.rows[0], TotalFoundColumn) == Some(Null)
    ensures ReadCount(ToMap(q)) == Some((Int(|q.rows|), Int(|q.rows|)))
  {
  }

  /** The first row's non-null `total_found` is the total, whatever the number of rows. */
  lemma CountFromFirstRow(q: QueryResult, t: Value)
    requires |q.rows| > 0 && Lookup(q.rows[0], TotalFoundColumn) == Some(t) && t != Null
    ensures ReadCount(ToMap(q)) == Some((t, Int(|q.rows|)))
  {
  }

  /** Rows after the first are never consulted for the total. */
  lemma TotalFoundReadsFirstRowOnly(a: seq<Row>, b: seq<Row>)
    requires |a| == |b| && (|a| > 0 ==> a[0] == b[0])
    ensures TotalFound(a) == TotalFound(b)
  {
  }

  /** When every row carries the same non-null `total_found`, that is the total. */
  lemma CountOverride(q: QueryResult, t: Value)
    requires t != Null && |q.rows| > 0
    requires forall i :: 0 <= i < |q.rows| ==> Lookup(q.rows[i], TotalFoundColumn) == Some(t)
    ensures ReadCount(ToMap(q)).Some? && ReadCount(ToMap(q)).value.0 == t
  {
    CountFromFirstRow(q, t);
  }

  // ----------------------------------------------------------------- the stage

  /** The outcome of `apply` together with the context as the stage leaves it
      (the context write happens before anything can fail). */
  datatype ExecRun = ExecRun(outcome: Result<Envelope, ExecError>, ctx: Context)

  /** `apply` without the context: resolve, dispatch, normalise; output metadata
      is a copy of the input metadata with the executor's name and the resolved
      SQL put on top. */
  function Execute(cfg: Config, o: Oracles, input: Envelope): (r: Result<Envelope, ExecError>)
    ensures r.Ok? ==> Resolve(cfg.template, o.build, input.data).Ok? && JdbcEngine(input.metadata).Ok? &&
                      SelectSource(input.metadata).Ok?
    // the response carries exactly the engine's rows and columns
    ensures r.Ok? ==> ReadResponse(r.value.data).Some? &&
                      o.execute(JdbcEngine(input.metadata).value, Resolve(cfg.template, o.build, input.data).value,
                                SelectSource(input.metadata).value) == Completed(ReadResponse(r.value.data).value)
    // metadata propagation
    ensures r.Ok? ==> Lookup(r.value.metadata, NameKey) == Some(StrOrNull(cfg.name))
    ensures r.Ok? ==> Lookup(r.value.metadata, ResolvedKey) == Some(Str(Resolve(cfg.template, o.build, input.data).value.sql))
    ensures r.Ok? ==> forall k :: k != NameKey && k != ResolvedKey ==> Lookup(r.value.metadata, k) == Lookup(input.metadata, k)
    ensures r.Ok? && Unique(input.metadata) ==> Unique(r.value.metadata)
    // success exactly when resolution and dispatch succeed; otherwise the failing
    // step's cause, wrapped by the catch block that takes it
    ensures r.Ok? <==> Resolve(cfg.template, o.build, input.data).Ok? &&
                       Dispatch(o.execute, input.metadata, Resolve(cfg.template, o.build, input.data).value).Ok?
    ensures Resolve(cfg.template, o.build, input.data).Err? ==>
              r == Err(Wrap(Resolve(cfg.template, o.build, input.data).error))
    ensures Resolve(cfg.template, o.build, input.data).Ok? &&
            Dispatch(o.execute, input.metadata, Resolve(cfg.template, o.build, input.data).value).Err? ==>
              r == Err(Wrap(Dispatch(o.execute, input.metadata, Resolve(cfg.template, o.build, input.data).value).error))
  {
    var named := Put(input.metadata, NameKey, StrOrNull(cfg.name));
    match Resolve(cfg.template, o.build, input.data)
    case Err(c) => Err(Wrap(c))
    case Ok(req) =>
      var meta := Put(named, ResolvedKey, Str(req.sql));
      match Dispatch(o.execute, input.metadata, req)
      case Err(c) => Err(Wrap(c))
      case Ok(q) => Ok(Envelope(ToMap(q), meta))
  }

  /** A resolution failure is reported as an unexpected failure. */
  lemma ResolutionFailure(cfg: Config, o: Oracles, input: Envelope)
    requires Resolve(cfg.template, o.build, input.data).Err?
    ensures Execute(cfg, o, input) == Err(PipelineException(UnexpectedMessage, TemplateNotResolved))
  {
  }

  /** A missing JDBC engine is reported as a query-execution failure. */
  lemma MissingEngineFailure(cfg: Config, o: Oracles, input: Envelope)
    requires Resolve(cfg.template, o.build, input.data).Ok? && !HasJdbcEngine(input.metadata)
    ensures Execute(cfg, o, input) == Err(PipelineException(QueryFailedMessage, NoEngine))
  {
    var req := Resolve(cfg.template, o.build, input.data).value;
    assert Dispatch(o.execute, input.metadata, req) == Err(NoEngine);
  }

  /** A missing sources map or JDBC provider is reported as an unexpected failure. */
  lemma MissingSourceFailure(cfg: Config, o: Oracles, input: Envelope)
    requires Resolve(cfg.template, o.build, input.data).Ok? && HasJdbcEngine(input.metadata)
    requires SelectSource(input.metadata).Err?
    ensures Execute(cfg, o, input) == Err(PipelineException(UnexpectedMessage, SelectSource(input.metadata).error))
  {
    var req := Resolve(cfg.template, o.build, input.data).value;
    assert Dispatch(o.execute, input.metadata, req) == Err(SelectSource(input.metadata).error);
  }

  /** Only a `QueryExecutionException` (no engine, or the engine call failing that
      way) is reported as "Query execution failed". */
  lemma FailureMessages(cfg: Config, o: Oracles, input: Envelope)
    requires Execute(cfg, o, input).Err?
    ensures Execute(cfg, o, input).error.message == QueryFailedMessage <==>
            Execute(cfg, o, input).error.cause.NoEngine? || Execute(cfg, o, input).error.cause.QueryFailed?
  {
    match Resolve(cfg.template, o.build, input.data)
    case Err(c) =>
      assert Execute(cfg, o, input) == Err(Wrap(c));
    case Ok(req) =>
      assert Execute(cfg, o, input) == Err(Wrap(Dispatch(o.execute, input.metadata, req).error));
  }

  /** With everything in place, the engine's answer decides the outcome: rows come
      back as the response, a `QueryExecutionException` is reported as "Query
      execution failed" and any other engine failure as "Unexpected execution
      failure", each with its detail kept. */
  lemma EngineAnswerDecides(cfg: Config, o: Oracles, input: Envelope)
    requires Resolve(cfg.template, o.build, input.data).Ok?
    requires JdbcEngine(input.metadata).Ok? && SelectSource(input.metadata).Ok?
    ensures var out := o.execute(JdbcEngine(input.metadata).value, Resolve(cfg.template, o.build, input.data).value,
                                 SelectSource(input.metadata).value);
            (out.Completed? ==> Execute(cfg, o, input).Ok? &&
                                ReadResponse(Execute(cfg, o, input).value.data) == Some(out.result)) &&
            (out.ExecutionFailed? ==>
               Execute(cfg, o, input) == Err(PipelineException(QueryFailedMessage, QueryFailed(out.reason)))) &&
            (out.OtherEngineFailure? ==>
               Execute(cfg, o, input) == Err(PipelineException(UnexpectedMessage, EngineFailed(out.reason))))
  {
  }

  /** `apply`: the context gets `executed-at` if it has none, then the stage runs. */
  function Apply(cfg: Config, o: Oracles, input: Envelope, ctx: Context, now: string): (run: ExecRun)
    ensures Lookup(run.ctx, ExecutedAtKey) == Some(Lookup(ctx, ExecutedAtKey).GetOr(now))
    ensures forall k :: k != ExecutedAtKey ==> Lookup(run.ctx, k) == Lookup(ctx, k)
    ensures run.outcome == Execute(cfg, o, input)
  {
    ExecRun(Execute(cfg, o, input), PutIfAbsent(ctx, ExecutedAtKey, now))
  }

  /** Without a JDBC engine the engine is never called: the outcome is the same
      whatever `execute` would have done. */
  lemma NoEngineNoExecute(cfg: Config, o1: Oracles, o2: Oracles, input: Envelope)
    requires o1.build == o2.build
    requires JdbcEngine(input.metadata).Err?
    ensures Execute(cfg, o1, input) == Execute(cfg, o2, input)
    ensures Execute(cfg, o1, input).Err?
  {
  }

  /** A resolution failure happens before any engine or source lookup: the
      outcome does not depend on the metadata or on the engine. */
  lemma ResolutionFailsBeforeLookup(cfg: Config, o1: Oracles, o2: Oracles, data: Entries<Value>,
                                     m1: Entries<Value>, m2: Entries<Value>)
    requires o1.build == o2.build
    requires Resolve(cfg.template, o1.build, data).Err?
    ensures Execute(cfg, o1, Envelope(data, m1)) == Execute(cfg, o2, Envelope(data, m2))
  {
  }

  /** From the configuration map to the output: `executor-name` holds whatever
      the `name` entry held, so a configuration without one yields a null name. */
  lemma ConfiguredNameStored(config: Entries<Value>, o: Oracles, input: Envelope)
    requires FromConfig(config).Ok?
    requires Execute(FromConfig(config).value, o, input).Ok?
    ensures Lookup(Execute(FromConfig(config).value, o, input).value.metadata, NameKey)
            == Some(Lookup(config, NameEntry).GetOr(Null))
    ensures NameEntry !in KeySet(config) ==>
              Lookup(Execute(FromConfig(config).value, o, input).value.metadata, NameKey) == Some(Null)
  {
  }

  /** Output metadata keeps the input's keys in their order; new keys come after. */
  lemma MetadataOrderKept(cfg: Config, o: Oracles, input: Envelope)
    requires Execute(cfg, o, input).Ok?
    ensures |input.metadata| <= |Execute(cfg, o, input).value.metadata|
    ensures Keys(Execute(cfg, o, input).value.metadata)[..|input.metadata|] == Keys(input.metadata)
  {
    var req := Resolve(cfg.template, o.build, input.data).value;
    var named := Put(input.metadata, NameKey, StrOrNull(cfg.name));
    var meta := Put(named, ResolvedKey, Str(req.sql));
    var q := Dispatch(o.execute, input.metadata, req).value;
    assert Execute(cfg, o, input) == Ok(Envelope(ToMap(q), meta));
    PutKeysPrefix(input.metadata, NameKey, StrOrNull(cfg.name));
    PutKeysPrefix(named, ResolvedKey, Str(req.sql));
    PrefixOfPrefix(Keys(input.metadata), Keys(named), Keys(meta));
  }

  lemma PrefixOfPrefix(a: seq<string>, b: seq<string>, c: seq<string>)
    requires |a| <= |b| <= |c| && b[..|a|] == a && c[..|b|] == b
    ensures c[..|a|] == a
  {
    assert c[..|a|] == c[..|b|][..|a|];
  }
}
