/** The statement splitter of the database loader (`execute_sql_file`): the
    SQL text is read line by line, blank lines, `--` lines and `/* ... */`
    regions are dropped, and the remaining lines are grouped into statements,
    each group closed by a line whose stripped form ends with `;`. */
module SqlSplitter {
  import opened Wrappers
  import opened Strings

  /** A stripped line the splitter ignores before looking at comments. */
  predicate Ignored(stripped: string) {
    stripped == [] || StartsWith(stripped, "--")
  }

  predicate OpensComment(stripped: string) {
    Contains(stripped, "/*")
  }

  predicate ClosesComment(stripped: string) {
    Contains(stripped, "*/")
  }

  /** A line whose last non-space character is `;` closes the statement being
      collected; `StripEndsStatement` shows this is the loop's test on the stripped line. */
  predicate EndsStatement(line: string) {
    LastNonSpace(line) == Some(';')
  }

  lemma StripEndsStatement(line: string)
    ensures EndsWith(Strip(line), ";") <==> EndsStatement(line)
  {
    StripLast(line);
    var r := Strip(line);
    if |r| > 0 {
      assert EndsWith(r, ";") <==> r[|r| - 1] == ';' by {
        assert r[|r| - 1..] == [r[|r| - 1]];
      }
    }
  }

  /** The loop's state: finished statements, the lines of the pending one, and
      whether a block comment is open. */
  datatype SplitterState = SplitterState(statements: seq<string>, current: seq<string>, inComment: bool)

  /** One iteration of the line loop. */
  function Step(st: SplitterState, line: string): SplitterState {
    var stripped := Strip(line);
    if Ignored(stripped) then st
    else
      var inComment := st.inComment || OpensComment(stripped);
      if ClosesComment(stripped) then st.(inComment := false)
      else if inComment then st.(inComment := true)
      else
        var current := st.current + [line];
        if EndsWith(stripped, ";") then
          var statement := Strip(Join(current, "\n"));
          SplitterState(if statement != [] then st.statements + [statement] else st.statements, [], false)
        else SplitterState(st.statements, current, false)
  }

  /** The loop over all lines. */
  function Scan(lines: seq<string>): SplitterState {
    if |lines| == 0 then SplitterState([], [], false)
    else Step(Scan(lines[..|lines| - 1]), lines[|lines| - 1])
  }

  /** `execute_sql_file`'s split of the file text into statements. */
  function SplitSql(content: string): (r: seq<string>)
    ensures forall i :: 0 <= i < |r| ==> r[i] != [] && r[i][|r[i]| - 1] == ';'
  {
    var lines := Split(content, '\n');
    ScanMatchesReference(lines);
    var c := Chunks(Kept(lines));
    forall i | 0 <= i < |c.groups|
      ensures Statements(c.groups)[i] != [] && Statements(c.groups)[i][|Statements(c.groups)[i]| - 1] == ';'
    {
      StatementEnds(c.groups[i]);
      StatementsAt(c.groups, i);
    }
    Scan(lines).statements
  }

  // ----- Reference definition: filter the lines, then cut after each `;` line -----

  /** Whether a block comment is open after reading `lines`. */
  function CommentState(lines: seq<string>): bool {
    if |lines| == 0 then false
    else NextComment(CommentState(lines[..|lines| - 1]), lines[|lines| - 1])
  }

  /** The comment flag after one more line. */
  function NextComment(inComment: bool, line: string): bool {
    var stripped := Strip(line);
    if Ignored(stripped) then inComment
    else if ClosesComment(stripped) then false
    else inComment || OpensComment(stripped)
  }

  /** Whether a line read in the given comment state becomes part of a statement. */
  predicate Keeps(inComment: bool, line: string) {
    var stripped := Strip(line);
    !Ignored(stripped) && !ClosesComment(stripped) && !inComment && !OpensComment(stripped)
  }

  /** The lines that survive the filter, in input order. */
  function Kept(lines: seq<string>): (r: seq<string>)
    ensures SubsequenceOf(r, lines)
    ensures forall i :: 0 <= i < |r| ==>
              var s := Strip(r[i]); s != [] && !StartsWith(s, "--") && !OpensComment(s) && !ClosesComment(s)
  {
    if |lines| == 0 then []
    else
      var pre := Kept(lines[..|lines| - 1]);
      var last := lines[|lines| - 1];
      if Keeps(CommentState(lines[..|lines| - 1]), last) then
        assert (pre + [last])[..|pre|] == pre;
        pre + [last]
      else
        SubsequenceExtend(pre, lines[..|lines| - 1], last);
        assert lines[..|lines| - 1] + [last] == lines;
        pre
  }

  /** `a` is `b` with some elements left out, order kept. */
  predicate SubsequenceOf(a: seq<string>, b: seq<string>) {
    if |a| == 0 then true
    else if |b| == 0 then false
    else if a[|a| - 1] == b[|b| - 1] then SubsequenceOf(a[..|a| - 1], b[..|b| - 1])
    else SubsequenceOf(a, b[..|b| - 1])
  }

  lemma {:induction false} SubsequenceExtend(a: seq<string>, b: seq<string>, x: string)
    requires SubsequenceOf(a, b)
    ensures SubsequenceOf(a, b + [x])
    decreases |a| + |b|, 1
  {
    var bx := b + [x];
    assert bx[..|b|] == b;
    if |a| > 0 && a[|a| - 1] == x {
      SubsequenceDropLast(a, b);
    }
  }

  lemma {:induction false} SubsequenceDropLast(a: seq<string>, b: seq<string>)
    requires |a| > 0 && SubsequenceOf(a, b)
    ensures SubsequenceOf(a[..|a| - 1], b)
    decreases |a| + |b|, 0
  {
    if |b| > 0 {
      if a[|a| - 1] == b[|b| - 1] {
        SubsequenceExtend(a[..|a| - 1], b[..|b| - 1], b[|b| - 1]);
        assert b[..|b| - 1] + [b[|b| - 1]] == b;
      } else {
        SubsequenceDropLast(a, b[..|b| - 1]);
        SubsequenceExtend(a[..|a| - 1], b[..|b| - 1], b[|b| - 1]);
        assert b[..|b| - 1] + [b[|b| - 1]] == b;
      }
    }
  }

  /** Kept lines cut into statement groups, plus an unterminated tail. */
  datatype Chunking = Chunking(groups: seq<seq<string>>, pending: seq<string>)

  function Flatten(groups: seq<seq<string>>): seq<string> {
    if |groups| == 0 then [] else Flatten(groups[..|groups| - 1]) + groups[|groups| - 1]
  }

  /** No line of `lines` closes a statement. */
  predicate Open(lines: seq<string>) {
    forall j :: 0 <= j < |lines| ==> !EndsStatement(lines[j])
  }

  /** A statement group: lines that do not close a statement, then one that does. */
  predicate Closed(group: seq<string>) {
    |group| > 0 && EndsStatement(group[|group| - 1]) && Open(group[..|group| - 1])
  }

  /** Each group is closed and the tail is open. */
  function Chunks(kept: seq<string>): (c: Chunking)
    ensures Open(c.pending)
    ensures forall i :: 0 <= i < |c.groups| ==> Closed(c.groups[i])
  {
    if |kept| == 0 then Chunking([], [])
    else
      var pre := Chunks(kept[..|kept| - 1]);
      var line := kept[|kept| - 1];
      assert kept == kept[..|kept| - 1] + [line];
      if EndsStatement(line) then
        var group := pre.pending + [line];
        var groups := pre.groups + [group];
        assert groups[..|groups| - 1] == pre.groups;
        assert group[..|group| - 1] == pre.pending;
        assert Closed(group);
        Chunking(groups, [])
      else
        var pending := pre.pending + [line];
        assert Open(pending) by {
          forall j | 0 <= j < |pending| ensures !EndsStatement(pending[j]) {
            if j < |pre.pending| { assert pending[j] == pre.pending[j]; }
          }
        }
        Chunking(pre.groups, pending)
  }

  /** Cutting loses and reorders nothing: the groups and the tail, concatenated,
      are the kept lines. */
  lemma {:induction false} ChunksFlatten(kept: seq<string>)
    ensures Flatten(Chunks(kept).groups) + Chunks(kept).pending == kept
  {
    if |kept| > 0 {
      var rest := kept[..|kept| - 1];
      var line := kept[|kept| - 1];
      ChunksFlatten(rest);
      var pre := Chunks(rest);
      assert kept[..|kept| - 1] == rest;
      if EndsStatement(line) {
        assert Chunks(kept) == Chunking(pre.groups + [pre.pending + [line]], []);
        FlattenSnoc(pre.groups, pre.pending + [line]);
        calc {
          Flatten(Chunks(kept).groups) + Chunks(kept).pending;
          Flatten(pre.groups) + (pre.pending + [line]);
          (Flatten(pre.groups) + pre.pending) + [line];
        }
      } else {
        assert Chunks(kept) == Chunking(pre.groups, pre.pending + [line]);
        assert Flatten(pre.groups) + (pre.pending + [line]) == (Flatten(pre.groups) + pre.pending) + [line];
      }
      assert rest + [line] == kept;
    }
  }

  lemma FlattenSnoc(groups: seq<seq<string>>, group: seq<string>)
    ensures Flatten(groups + [group]) == Flatten(groups) + group
  {
    assert (groups + [group])[..|groups|] == groups;
  }

  /** The text of one statement: its lines joined and stripped. */
  function Statement(group: seq<string>): string {
    Strip(Join(group, "\n"))
  }

  function Statements(groups: seq<seq<string>>): (r: seq<string>)
    ensures |r| == |groups|
  {
    if |groups| == 0 then []
    else Statements(groups[..|groups| - 1]) + [Statement(groups[|groups| - 1])]
  }

  lemma {:induction false} StatementsAt(groups: seq<seq<string>>, i: nat)
    requires i < |groups|
    ensures Statements(groups)[i] == Statement(groups[i])
  {
    if i < |groups| - 1 {
      StatementsAt(groups[..|groups| - 1], i);
    }
  }

  /** A group closed by a `;` line yields a non-empty statement ending in `;`,
      so the loop's `if statement:` test never drops one. */
  lemma StatementEnds(group: seq<string>)
    requires |group| > 0 && EndsStatement(group[|group| - 1])
    ensures Statement(group) != [] && Statement(group)[|Statement(group)| - 1] == ';'
  {
    var last := group[|group| - 1];
    var q := LastNonSpaceAt(last);
    var pre: string := if |group| == 1 then "" else Join(group[..|group| - 1], "\n") + "\n";
    if |group| > 1 {
      JoinSnoc(group[..|group| - 1], last, "\n");
      assert group[..|group| - 1] + [last] == group;
    }
    var t := Join(group, "\n");
    assert t == pre + last;
    var p := |pre| + q;
    assert t[p] == ';';
    assert t[p + 1..] == last[q + 1..];
    StripEndsAt(t, p);
  }

  /** The reference split, in the loop's state shape. */
  function Reference(lines: seq<string>): SplitterState {
    var c := Chunks(Kept(lines));
    SplitterState(Statements(c.groups), c.pending, CommentState(lines))
  }

  /** The single-pass loop computes exactly the reference: the statements of the
      groups of the kept lines, the unterminated tail, and the comment flag. */
  lemma {:induction false} ScanMatchesReference(lines: seq<string>)
    ensures Scan(lines) == Reference(lines)
  {
    if |lines| > 0 {
      ScanMatchesReference(lines[..|lines| - 1]);
      StepMatchesReference(lines);
    }
  }

  lemma StepMatchesReference(lines: seq<string>)
    requires |lines| > 0
    requires Scan(lines[..|lines| - 1]) == Reference(lines[..|lines| - 1])
    ensures Scan(lines) == Reference(lines)
  {
    var pre := lines[..|lines| - 1];
    var line := lines[|lines| - 1];
    var st := Scan(pre);
    var c := Chunks(Kept(pre));
    assert Scan(lines) == Step(st, line);
    assert CommentState(lines) == NextComment(CommentState(pre), line);
    assert st == SplitterState(Statements(c.groups), c.pending, CommentState(pre));
    if Keeps(CommentState(pre), line) {
      var k := Kept(pre) + [line];
      assert Kept(lines) == k;
      StepKeep(st, line);
      ChunksSnoc(Kept(pre), line);
      if EndsStatement(line) {
        assert (c.groups + [c.pending + [line]])[..|c.groups|] == c.groups;
        assert Chunks(k) == Chunking(c.groups + [c.pending + [line]], []);
        assert Reference(lines) == SplitterState(Statements(c.groups + [c.pending + [line]]), [], false);
        assert Step(st, line) == SplitterState(Statements(c.groups) + [Statement(c.pending + [line])], [], false);
      } else {
        assert Reference(lines) == SplitterState(Statements(c.groups), c.pending + [line], false);
        assert Step(st, line) == SplitterState(Statements(c.groups), c.pending + [line], false);
      }
    } else {
      assert Kept(lines) == Kept(pre);
      StepSkip(st, line);
      assert Reference(lines) == SplitterState(Statements(c.groups), c.pending, NextComment(CommentState(pre), line));
    }
  }

  /** A kept line extends the pending statement, and closes it when it ends with `;`. */
  lemma StepKeep(st: SplitterState, line: string)
    requires Keeps(st.inComment, line)
    ensures Step(st, line) ==
            if EndsStatement(line) then SplitterState(st.statements + [Statement(st.current + [line])], [], false)
            else SplitterState(st.statements, st.current + [line], false)
  {
    StripEndsStatement(line);
    if EndsStatement(line) {
      StatementEnds(st.current + [line]);
    }
  }

  /** A dropped line changes nothing but the comment flag. */
  lemma StepSkip(st: SplitterState, line: string)
    requires !Keeps(st.inComment, line)
    ensures Step(st, line) == st.(inComment := NextComment(st.inComment, line))
  {
  }

  lemma ChunksSnoc(kept: seq<string>, line: string)
    ensures Chunks(kept + [line]) ==
            if EndsStatement(line) then Chunking(Chunks(kept).groups + [Chunks(kept).pending + [line]], [])
            else Chunking(Chunks(kept).groups, Chunks(kept).pending + [line])
  {
    assert (kept + [line])[..|kept|] == kept;
  }

  /** The split is the reference split of the file's lines. */
  lemma SplitSqlReference(content: string)
    ensures SplitSql(content) == Statements(Chunks(Kept(Split(content, '\n'))).groups)
  {
    ScanMatchesReference(Split(content, '\n'));
  }

  /** Once a line opens a block comment, no line is kept until one closes it. */
  lemma {:induction false} CommentHidesLines(lines: seq<string>, j: nat, i: nat)
    requires j < i < |lines|
    requires !Ignored(Strip(lines[j])) && OpensComment(Strip(lines[j]))
    requires forall k :: j <= k <= i ==> !ClosesComment(Strip(lines[k]))
    ensures !Keeps(CommentState(lines[..i]), lines[i])
  {
    CommentOpenAfter(lines, j, i);
  }

  lemma {:induction false} CommentOpenAfter(lines: seq<string>, j: nat, i: nat)
    requires j < i <= |lines|
    requires !Ignored(Strip(lines[j])) && OpensComment(Strip(lines[j]))
    requires forall k :: j <= k < i ==> !ClosesComment(Strip(lines[k]))
    ensures CommentState(lines[..i])
  {
    var pre := lines[..i - 1];
    assert lines[..i][..i - 1] == pre;
    assert lines[..i][i - 1] == lines[i - 1];
    if i - 1 > j {
      CommentOpenAfter(lines, j, i - 1);
    }
  }

  /** A line that closes a block comment is itself never part of a statement;
      it ends the comment unless it is blank or a `--` line, which are dropped
      before the comment markers are looked at. */
  lemma CloserDropped(lines: seq<string>, i: nat)
    requires i < |lines| && ClosesComment(Strip(lines[i]))
    ensures !Keeps(CommentState(lines[..i]), lines[i])
    ensures !Ignored(Strip(lines[i])) ==> !CommentState(lines[..i + 1])
    ensures Ignored(Strip(lines[i])) ==> CommentState(lines[..i + 1]) == CommentState(lines[..i])
  {
    assert lines[..i + 1][..i] == lines[..i];
    assert lines[..i + 1][i] == lines[i];
  }
}
