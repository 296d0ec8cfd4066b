/** The loader's execution of a SQL file (`DatabasePopulator.execute_sql_file`):
    the text is split into statements, each is sent to the database, and the
    run succeeds when no statement failed. The database is an oracle giving one
    outcome per statement; a database error on one statement does not stop the
    run, any other exception ends it at once. */
module Populate {
  import opened Wrappers
  import opened SqlSplitter

  /** What executing one statement did: it ran, the driver raised a database
      error (`psycopg2.Error`), or something else was raised. */
  datatype Outcome = Executed | DbError(message: string) | Unexpected

  /** The database's reaction to each statement, by position. */
  function Outcomes(statements: seq<string>, run: (nat, string) -> Outcome): seq<Outcome> {
    seq(|statements|, i requires 0 <= i < |statements| => run(i, statements[i]))
  }

  /** Number of statements that raised a database error. */
  function Failures(os: seq<Outcome>): (n: nat)
    ensures n <= |os|
  {
    if |os| == 0 then 0
    else Failures(os[..|os| - 1]) + (if os[|os| - 1].DbError? then 1 else 0)
  }

  /** The statement loop: every database error, duplicate-key ones included,
      counts as a failure; an unexpected exception ends the run with failure.
      Success means every statement ran. */
  method ExecuteStatements(statements: seq<string>, run: (nat, string) -> Outcome)
    returns (success: bool, executed: nat, failed: nat)
    ensures success <==> forall i :: 0 <= i < |statements| ==> run(i, statements[i]).Executed?
    ensures executed + failed <= |statements|
    ensures (forall i :: 0 <= i < |statements| ==> !run(i, statements[i]).Unexpected?) ==>
              failed == Failures(Outcomes(statements, run)) && executed + failed == |statements|
  {
    var os := Outcomes(statements, run);
    assert |os| == |statements| && forall j :: 0 <= j < |statements| ==> os[j] == run(j, statements[j]);
    executed, failed := 0, 0;
    var i := 0;
    while i < |statements|
      invariant 0 <= i <= |statements|
      invariant executed + failed == i
      invariant failed == Failures(os[..i])
      invariant forall j :: 0 <= j < i ==> !os[j].Unexpected?
      invariant failed == 0 <==> forall j :: 0 <= j < i ==> os[j].Executed?
    {
      assert os[..i + 1][..i] == os[..i];
      match run(i, statements[i]) {
        case Executed =>
          executed := executed + 1;
        case DbError(_) =>
          failed := failed + 1;
        case Unexpected =>
          return false, executed, failed;
      }
      i := i + 1;
    }
    assert os[..i] == os;
    return failed == 0, executed, failed;
  }

  /** `execute_sql_file`: a missing or unreadable file fails; otherwise the
      split statements are executed in order. */
  method ExecuteSqlFile(content: Option<string>, run: (nat, string) -> Outcome) returns (success: bool)
    ensures success <==>
              content.Some? &&
              forall i :: 0 <= i < |SplitSql(content.value)| ==> run(i, SplitSql(content.value)[i]).Executed?
    ensures content.Some? && |SplitSql(content.value)| == 0 ==> success
  {
    if content.None? {
      return false;
    }
    var statements := SplitSql(content.value);
    var executed, failed;
    success, executed, failed := ExecuteStatements(statements, run);
  }
}
