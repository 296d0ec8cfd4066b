/** The post-processing stage (`BlogOutputProcessor`): a pass-through that
    inspects `data["data"]` only to choose a log line, and records its own
    timestamp in the context if none is there. Also the unused alternative
    response shaper with a pagination block. */
module OutputProcessor {
  import opened Wrappers
  import opened Assoc
  import opened Materialized
  import Executor

  const PostProcessorAtKey: string := "post-processor-at"

  /** Which of the three log lines `apply` writes about `data["data"]`. */
  datatype Diagnostic = ListPayload(size: nat) | OtherPayload | MissingPayload

  /** `instanceof List` / non-null / null-or-missing, as `apply` tests them. */
  function Diagnose(data: Entries<Value>): (d: Diagnostic)
    ensures d.MissingPayload? <==> Lookup(data, "data").None? || Lookup(data, "data") == Some(Null)
    ensures d.ListPayload? <==> Lookup(data, "data").Some? && Lookup(data, "data").value.List?
    ensures d.ListPayload? ==> d.size == |Lookup(data, "data").value.items|
  {
    match Lookup<Value>(data, "data")
    case Some(List(items)) => ListPayload(|items|)
    case Some(Null) => MissingPayload
    case Some(_) => OtherPayload
    case None => MissingPayload
  }

  /** What `apply` hands back, the context it leaves, and the log line it chose. */
  datatype PostRun = PostRun(output: Envelope, ctx: Context, diagnostic: Diagnostic)

  /** `apply`: the returned envelope is the received one, whatever the payload
      looks like; the context gains `post-processor-at` only when absent, and no
      other context key changes. */
  function PostProcess(input: Envelope, ctx: Context, now: string): (run: PostRun)
    ensures run.output == input
    ensures Lookup(run.ctx, PostProcessorAtKey) == Some(Lookup(ctx, PostProcessorAtKey).GetOr(now))
    ensures forall k :: k != PostProcessorAtKey ==> Lookup(run.ctx, k) == Lookup(ctx, k)
    ensures KeySet(run.ctx) == KeySet(ctx) + {PostProcessorAtKey}
  {
    PostRun(input, PutIfAbsent(ctx, PostProcessorAtKey, now), Diagnose(input.data))
  }

  /** `MapQueryResult`: rows, column descriptors and the engine-reported row count. */
  datatype MapQueryResult = MapQueryResult(rows: seq<Row>, columns: seq<Value>, rowCount: int)

  /** The unused `toMap`: `{data, pagination: {totalRows, pageSize, currentPage, totalPages}, columns}`. */
  function PaginationShape(q: MapQueryResult): (r: Entries<Value>)
    ensures Keys(r) == ["data", "pagination", "columns"] && Unique(r)
    ensures ReadPagination(r) == Some(Pagination(q.rowCount, |q.rows|, 1, 1))
  {
    var pagination := [("totalRows", Int(q.rowCount)), ("pageSize", Int(|q.rows|)),
                       ("currentPage", Int(1)), ("totalPages", Int(1))];
    var r := [("data", List(Executor.RowValues(q.rows))), ("pagination", Map(pagination)),
              ("columns", List(q.columns))];
    Triple("data", List(Executor.RowValues(q.rows)), "pagination", Map(pagination), "columns", List(q.columns));
    PaginationBlock(q.rowCount, |q.rows|);
    r
  }

  lemma PaginationBlock(t: int, s: int)
    ensures var p := [("totalRows", Int(t)), ("pageSize", Int(s)), ("currentPage", Int(1)), ("totalPages", Int(1))];
            && Lookup(p, "totalRows") == Some(Int(t))
            && Lookup(p, "pageSize") == Some(Int(s))
            && Lookup(p, "currentPage") == Some(Int(1))
            && Lookup(p, "totalPages") == Some(Int(1))
  {
    var p := [("totalRows", Int(t)), ("pageSize", Int(s)), ("currentPage", Int(1)), ("totalPages", Int(1))];
    assert Lookup(p, "pageSize") == Lookup(p[1..], "pageSize");
    assert Lookup(p, "currentPage") == Lookup(p[1..], "currentPage") == Lookup(p[2..], "currentPage");
    assert Lookup(p, "totalPages") == Lookup(p[1..], "totalPages") == Lookup(p[2..], "totalPages")
        == Lookup(p[3..], "totalPages");
  }

  datatype Pagination = Pagination(totalRows: int, pageSize: int, currentPage: int, totalPages: int)

  /** A caller's reading of the `pagination` block. */
  function ReadPagination(resp: Entries<Value>): Option<Pagination> {
    match Lookup<Value>(resp, "pagination")
    case Some(Map(p)) =>
      (match (Lookup<Value>(p, "totalRows"), Lookup<Value>(p, "pageSize"),
              Lookup<Value>(p, "currentPage"), Lookup<Value>(p, "totalPages"))
       case (Some(Int(t)), Some(Int(s)), Some(Int(c)), Some(Int(n))) => Some(Pagination(t, s, c, n))
       case _ => None)
    case _ => None
  }

  /** The alternative shaper and the executor's response agree on what they both
      carry: the same `data` and `columns` entries, and `pageSize` equal to
      `page_size`. Switching shapes cannot lose the rows. */
  lemma ShapesAgree(rows: seq<Row>, columns: seq<Value>, rowCount: int)
    ensures var a := Executor.ToMap(Executor.QueryResult(rows, columns));
            var b := PaginationShape(MapQueryResult(rows, columns, rowCount));
            && Lookup(a, "data") == Lookup(b, "data")
            && Lookup(a, "columns") == Lookup(b, "columns")
            && Executor.ReadCount(a).value.1 == Int(ReadPagination(b).value.pageSize)
  {
    var data := List(Executor.RowValues(rows));
    var count := [(Executor.TotalFoundColumn, Executor.TotalFound(rows)), ("page_size", Int(|rows|))];
    var pagination := [("totalRows", Int(rowCount)), ("pageSize", Int(|rows|)),
                       ("currentPage", Int(1)), ("totalPages", Int(1))];
    assert Executor.ToMap(Executor.QueryResult(rows, columns)) ==
           [("count", Map(count)), ("data", data), ("columns", List(columns))];
    assert PaginationShape(MapQueryResult(rows, columns, rowCount)) ==
           [("data", data), ("pagination", Map(pagination)), ("columns", List(columns))];
    Triple("count", Map(count), "data", data, "columns", List(columns));
    Triple("data", data, "pagination", Map(pagination), "columns", List(columns));
  }
}
