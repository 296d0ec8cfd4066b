/** The referential-integrity check run over a generated seed file
    (`extract_uuids_from_sql`): it finds each table's VALUES body, collects the
    author ids, the article ids and the article-to-author and
    comment-to-article references line by line, and fails on the first kind of
    reference that names an id it did not collect.

    Regular expressions are modelled by what they match on this input: a
    first-match search over positions, and for `finditer` a left-to-right scan
    of non-overlapping matches. */
module Relationships {
  import opened Wrappers
  import opened Strings
  import opened SqlLiteral
  import opened SeedGenerator

  // ----- Patterns -----

  /** `[a-f0-9-]` */
  predicate UuidChar(c: char) {
    ('a' <= c <= 'f') || ('0' <= c <= '9') || c == '-'
  }

  /** `[a-f0-9-]{36}` matched as a whole. */
  predicate IsUuid(s: string) {
    |s| == 36 && forall i :: 0 <= i < |s| ==> UuidChar(s[i])
  }

  /** `'([a-f0-9-]{36})'` matches at `p`; the group is `t[p + 1..p + 37]`. */
  predicate QuotedUuidAt(t: string, p: nat) {
    p + 38 <= |t| && t[p] == Quote && IsUuid(t[p + 1..p + 37]) && t[p + 37] == Quote
  }

  /** `\('([a-f0-9-]{36})'` matches at `p`; the group is `t[p + 2..p + 38]`. */
  predicate OpenUuidAt(t: string, p: nat) {
    p < |t| && t[p] == '(' && QuotedUuidAt(t, p + 1)
  }

  /** The patterns searched for, each matched at one position. */
  datatype Pattern =
    | OpenUuid            // \('([a-f0-9-]{36})'
    | QuotedUuid          // '([a-f0-9-]{36})'
    | Word(w: string)     // a literal text
    | Keyword(k: string)  // a literal text and then \s, as in VALUES\s
    | NonSpace            // \S
    | Char(c: char)       // one literal character

  predicate MatchesAt(t: string, pat: Pattern, i: nat) {
    match pat
    case OpenUuid => OpenUuidAt(t, i)
    case QuotedUuid => QuotedUuidAt(t, i)
    case Word(w) => At(t, i, w)
    case Keyword(k) => KeywordAt(t, i, k)
    case NonSpace => i < |t| && !IsSpace(t[i])
    case Char(c) => i < |t| && t[i] == c
  }

  /** The first position at or after `from` where `pat` matches: how `re.search`
      picks its match. */
  function FirstFrom(t: string, pat: Pattern, from: nat): (r: Option<nat>)
    decreases |t| - from
    ensures r.Some? ==> from <= r.value < |t|
  {
    if from >= |t| then None
    else if MatchesAt(t, pat, from) then Some(from)
    else FirstFrom(t, pat, from + 1)
  }

  /** The search finds a match exactly when there is one, and then the leftmost. */
  lemma {:induction false} FirstFromSpec(t: string, pat: Pattern, from: nat)
    decreases |t| - from
    ensures FirstFrom(t, pat, from).Some? ==>
              var p := FirstFrom(t, pat, from).value;
              from <= p < |t| && MatchesAt(t, pat, p) && forall j :: from <= j < p ==> !MatchesAt(t, pat, j)
    ensures FirstFrom(t, pat, from).None? ==> forall j :: from <= j < |t| ==> !MatchesAt(t, pat, j)
  {
    if from < |t| && !MatchesAt(t, pat, from) {
      FirstFromSpec(t, pat, from + 1);
    }
  }

  /** Two first-match characterisations pin down the same position. */
  lemma FirstFromIs(t: string, pat: Pattern, from: nat, p: nat)
    requires from <= p < |t| && MatchesAt(t, pat, p)
    requires forall j :: from <= j < p ==> !MatchesAt(t, pat, j)
    ensures FirstFrom(t, pat, from) == Some(p)
  {
    FirstFromSpec(t, pat, from);
  }

  /** `re.search(r"\('([a-f0-9-]{36})'", t).group(1)`. */
  function SearchOpenUuid(t: string): (r: Option<string>)
    ensures r.None? <==> forall p :: 0 <= p < |t| ==> !MatchesAt(t, OpenUuid, p)
    ensures r.Some? ==> IsUuid(r.value)
    // the group is that of the leftmost match
    ensures r.Some? ==> exists p :: 0 <= p < |t| && MatchesAt(t, OpenUuid, p) && r.value == t[p + 2..p + 38] &&
                                    forall j :: 0 <= j < p ==> !MatchesAt(t, OpenUuid, j)
  {
    FirstFromSpec(t, OpenUuid, 0);
    match FirstFrom(t, OpenUuid, 0)
    case Some(p) =>
      assert 0 <= p < |t| && MatchesAt(t, OpenUuid, p) && forall j :: 0 <= j < p ==> !MatchesAt(t, OpenUuid, j);
      Some(t[p + 2..p + 38])
    case None => None
  }

  /** `re.search(r"'([a-f0-9-]{36})'", t).group(1)`. */
  function SearchQuotedUuid(t: string): (r: Option<string>)
    ensures r.None? <==> forall p :: 0 <= p < |t| ==> !MatchesAt(t, QuotedUuid, p)
    ensures r.Some? ==> IsUuid(r.value)
    // the group is that of the leftmost match
    ensures r.Some? ==> exists p :: 0 <= p < |t| && MatchesAt(t, QuotedUuid, p) && r.value == t[p + 1..p + 37] &&
                                    forall j :: 0 <= j < p ==> !MatchesAt(t, QuotedUuid, j)
  {
    FirstFromSpec(t, QuotedUuid, 0);
    match FirstFrom(t, QuotedUuid, 0)
    case Some(p) =>
      assert 0 <= p < |t| && MatchesAt(t, QuotedUuid, p) && forall j :: 0 <= j < p ==> !MatchesAt(t, QuotedUuid, j);
      Some(t[p + 1..p + 37])
    case None => None
  }

  /** `w` occurs in `t` at position `i`. */
  predicate At(t: string, i: nat, w: string) {
    i + |w| <= |t| && t[i..i + |w|] == w
  }

  /** A keyword followed by at least one whitespace character. */
  predicate KeywordAt(t: string, i: nat, k: string) {
    At(t, i, k) && i + |k| < |t| && IsSpace(t[i + |k|])
  }

  /** `re.search(r"INSERT INTO <table>.*?VALUES\s+(.*?);", content, re.DOTALL).group(1)`.
      The leftmost header is the only one that can match: a later header sees
      only a suffix of the text, so if the first finds no `VALUES\s` with a `;`
      after it, none does. Likewise the first `VALUES\s` after the header is the
      one taken, the greedy `\s+` eats the whole blank run, and the lazy group
      stops at the first `;`. */
  function ValuesBlock(content: string, table: string): Option<string>
  {
    match FirstFrom(content, Word("INSERT INTO " + table), 0)
    case None => None
    case Some(p) => ValuesAfterHeader(content, p + |"INSERT INTO " + table|)
  }

  /** From the end of the header on: the first `VALUES\s`, then the group after it. */
  function ValuesAfterHeader(content: string, h: nat): Option<string>
  {
    match FirstFrom(content, Keyword("VALUES"), h)
    case None => None
    case Some(j) => GroupFrom(content, j + 6)
  }

  /** From the end of `VALUES` on: the greedy `\s+` runs to the first non-blank,
      and the lazy group from there to the first `;`. */
  function GroupFrom(content: string, from: nat): Option<string>
  {
    match FirstFrom(content, NonSpace, from)
    case None => None
    case Some(k) =>
      match FirstFrom(content, Char(';'), k)
      case None => None
      case Some(q) => Some(content[k..q])
  }

  /** The group holds no `;` and does not start with whitespace. */
  lemma ValuesBlockShape(content: string, table: string)
    ensures ValuesBlock(content, table).Some? ==>
              var v := ValuesBlock(content, table).value;
              ';' !in v && (v == [] || !IsSpace(v[0]))
  {
    var p := FirstFrom(content, Word("INSERT INTO " + table), 0);
    if p.Some? {
      var j := FirstFrom(content, Keyword("VALUES"), p.value + |"INSERT INTO " + table|);
      if j.Some? {
        GroupShape(content, j.value + 6);
      }
    }
  }

  lemma GroupShape(content: string, from: nat)
    ensures GroupFrom(content, from).Some? ==>
              var v := GroupFrom(content, from).value;
              ';' !in v && (v == [] || !IsSpace(v[0]))
  {
    var k := FirstFrom(content, NonSpace, from);
    FirstFromSpec(content, NonSpace, from);
    if k.Some? {
      var q := FirstFrom(content, Char(';'), k.value);
      FirstFromSpec(content, Char(';'), k.value);
      if q.Some? {
        var v := content[k.value..q.value];
        forall i | 0 <= i < |v| ensures v[i] != ';' {
          assert v[i] == content[k.value + i];
          assert !MatchesAt(content, Char(';'), k.value + i);
        }
      }
    }
  }

  /** A document laid out as the generator lays it out (a header naming the
      table, column list, `VALUES`, a line break, the body, `;`) yields exactly
      that body, provided the header does not occur earlier, the column list
      holds no `VALUES` keyword, and the body holds no `;` and does not start
      blank. */
  lemma ValuesBlockOfLayout(pre: string, table: string, columns: string, body: string, post: string)
    requires forall i :: 0 <= i < |pre| ==> !At(pre + ("INSERT INTO " + table), i, "INSERT INTO " + table)
    requires forall i :: 0 <= i < |columns| ==> !KeywordAt(columns + "VALUES", i, "VALUES")
    requires |body| > 0 && !IsSpace(body[0]) && ';' !in body
    ensures ValuesBlock(pre + ("INSERT INTO " + table) + columns + "VALUES" + "\n" + body + ";" + post, table)
            == Some(body)
  {
    var header := "INSERT INTO " + table;
    var content := pre + header + columns + "VALUES" + "\n" + body + ";" + post;
    LayoutFacts(pre + header + columns + "VALUES", body, post);
    ValuesBlockOfContent(content, pre, table, columns, body);
  }

  /** Where the parts of the generator's layout sit in the document. */
  lemma LayoutFacts(lead: string, body: string, post: string)
    ensures |lead + "\n" + body + ";" + post| == |lead| + |body| + 2 + |post|
    ensures (lead + "\n" + body + ";" + post)[..|lead|] == lead
    ensures (lead + "\n" + body + ";" + post)[|lead|] == '\n'
    ensures (lead + "\n" + body + ";" + post)[|lead| + 1..|lead| + 1 + |body|] == body
    ensures (lead + "\n" + body + ";" + post)[|lead| + 1 + |body|] == ';'
  {
    var content := lead + "\n" + body + ";" + post;
    assert content == lead + ("\n" + body + ";" + post);
    assert content[|lead| + 1..] == body + ";" + post;
  }

  /** `ValuesBlockOfLayout` over a document known only through where its parts sit. */
  lemma ValuesBlockOfContent(content: string, pre: string, table: string, columns: string, body: string)
    requires forall i :: 0 <= i < |pre| ==> !At(pre + ("INSERT INTO " + table), i, "INSERT INTO " + table)
    requires forall i :: 0 <= i < |columns| ==> !KeywordAt(columns + "VALUES", i, "VALUES")
    requires |body| > 0 && !IsSpace(body[0]) && ';' !in body
    requires |pre + ("INSERT INTO " + table) + columns + "VALUES"| + 1 + |body| < |content|
    requires content[..|pre + ("INSERT INTO " + table) + columns + "VALUES"|] == pre + ("INSERT INTO " + table) + columns + "VALUES"
    requires content[|pre + ("INSERT INTO " + table) + columns + "VALUES"|] == '\n'
    requires content[|pre + ("INSERT INTO " + table) + columns + "VALUES"| + 1..|pre + ("INSERT INTO " + table) + columns + "VALUES"| + 1 + |body|] == body
    requires content[|pre + ("INSERT INTO " + table) + columns + "VALUES"| + 1 + |body|] == ';'
    ensures ValuesBlock(content, table) == Some(body)
  {
    var lead := pre + ("INSERT INTO " + table) + columns + "VALUES";
    BodyFound(content, |lead|, body);
    assert |lead| == |pre| + |"INSERT INTO " + table| + |columns| + |"VALUES"|;
    HeaderSteps(content, pre, table, columns);
    StagesTo(content, table, |pre|, |pre| + |"INSERT INTO " + table| + |columns|, |lead|);
  }

  /** Once the header and then the keyword are found, the group is what follows the keyword. */
  lemma StagesTo(content: string, table: string, p: nat, j: nat, k: nat)
    requires FirstFrom(content, Word("INSERT INTO " + table), 0) == Some(p)
    requires FirstFrom(content, Keyword("VALUES"), p + |"INSERT INTO " + table|) == Some(j)
    requires k == j + |"VALUES"|
    ensures ValuesBlock(content, table) == GroupFrom(content, k)
  {
    HeaderStage(content, table, p);
    KeywordStage(content, p + |"INSERT INTO " + table|, j);
  }

  /** After the line break at `nl`, the group starts at the body and stops at the `;` closing it. */
  lemma BodyFound(content: string, nl: nat, body: string)
    requires |body| > 0 && !IsSpace(body[0]) && ';' !in body
    requires nl + 1 + |body| < |content|
    requires content[nl] == '\n'
    requires content[nl + 1..nl + 1 + |body|] == body
    requires content[nl + 1 + |body|] == ';'
    ensures GroupFrom(content, nl) == Some(body)
  {
    var k := nl + 1;
    assert content[k] == body[0];
    FirstNonSpaceIs(content, nl, k);
    forall j | k <= j < k + |body| ensures content[j] != ';' {
      assert content[j] == content[k..k + |body|][j - k];
    }
    FirstCharIs(content, ';', k, k + |body|);
    assert FirstFrom(content, NonSpace, nl) == Some(k);
  }

  /** The header is found after `pre` and the keyword right after the column list. */
  lemma HeaderSteps(content: string, pre: string, table: string, columns: string)
    requires forall i :: 0 <= i < |pre| ==> !At(pre + ("INSERT INTO " + table), i, "INSERT INTO " + table)
    requires forall i :: 0 <= i < |columns| ==> !KeywordAt(columns + "VALUES", i, "VALUES")
    requires |pre + ("INSERT INTO " + table) + columns + "VALUES"| < |content|
    requires content[..|pre + ("INSERT INTO " + table) + columns + "VALUES"|] == pre + ("INSERT INTO " + table) + columns + "VALUES"
    requires IsSpace(content[|pre + ("INSERT INTO " + table) + columns + "VALUES"|])
    ensures FirstFrom(content, Word("INSERT INTO " + table), 0) == Some(|pre|)
    ensures FirstFrom(content, Keyword("VALUES"), |pre| + |"INSERT INTO " + table|)
         == Some(|pre| + |"INSERT INTO " + table| + |columns|)
  {
    var header := "INSERT INTO " + table;
    var lead := pre + header + columns + "VALUES";
    assert content[..|pre + header|] == lead[..|pre + header|] == pre + header;
    HeaderFirst(pre, header, content);
    KeywordFirst(pre + header, columns, "VALUES", content);
  }

  /** Once the header is found, the group is what follows it. */
  lemma HeaderStage(content: string, table: string, p: nat)
    requires FirstFrom(content, Word("INSERT INTO " + table), 0) == Some(p)
    ensures ValuesBlock(content, table) == ValuesAfterHeader(content, p + |"INSERT INTO " + table|)
  {
  }

  /** Once the keyword is found, the group is what follows it. */
  lemma KeywordStage(content: string, h: nat, j: nat)
    requires FirstFrom(content, Keyword("VALUES"), h) == Some(j)
    ensures ValuesAfterHeader(content, h) == GroupFrom(content, j + 6)
  {
  }

  lemma FirstWordIs(t: string, w: string, from: nat, p: nat)
    requires from <= p < |t| && At(t, p, w)
    requires forall j :: from <= j < p ==> !At(t, j, w)
    ensures FirstFrom(t, Word(w), from) == Some(p)
  {
    FirstFromIs(t, Word(w), from, p);
  }

  lemma FirstKeywordIs(t: string, k: string, from: nat, p: nat)
    requires from <= p < |t| && KeywordAt(t, p, k)
    requires forall j :: from <= j < p ==> !KeywordAt(t, j, k)
    ensures FirstFrom(t, Keyword(k), from) == Some(p)
  {
    FirstFromIs(t, Keyword(k), from, p);
  }

  lemma FirstNonSpaceIs(t: string, from: nat, p: nat)
    requires from <= p < |t| && !IsSpace(t[p])
    requires forall j :: from <= j < p ==> IsSpace(t[j])
    ensures FirstFrom(t, NonSpace, from) == Some(p)
  {
    FirstFromIs(t, NonSpace, from, p);
  }

  lemma FirstCharIs(t: string, c: char, from: nat, p: nat)
    requires from <= p < |t| && t[p] == c
    requires forall j :: from <= j < p ==> t[j] != c
    ensures FirstFrom(t, Char(c), from) == Some(p)
  {
    FirstFromIs(t, Char(c), from, p);
  }

  /** The first occurrence of the header is the one after `pre`. */
  lemma HeaderFirst(pre: string, header: string, t: string)
    requires |pre + header| <= |t| && t[..|pre + header|] == pre + header
    requires forall i :: 0 <= i < |pre| ==> !At(pre + header, i, header)
    requires |header| > 0
    ensures FirstFrom(t, Word(header), 0) == Some(|pre|)
  {
    var p := |pre|;
    assert t[p..p + |header|] == (pre + header)[p..];
    forall i | 0 <= i < p ensures !At(t, i, header) {
      var n := |pre + header|;
      assert !At(pre + header, i, header);
      assert t[..n][i..i + |header|] == t[i..i + |header|];
    }
    FirstWordIs(t, header, 0, p);
  }

  /** The first `VALUES\s` after the header is the one closing the column list. */
  lemma KeywordFirst(lead: string, columns: string, kw: string, t: string)
    requires |lead + columns + kw| < |t| && t[..|lead + columns + kw|] == lead + columns + kw
    requires IsSpace(t[|lead + columns + kw|])
    requires forall i :: 0 <= i < |columns| ==> !KeywordAt(columns + kw, i, kw)
    ensures FirstFrom(t, Keyword(kw), |lead|) == Some(|lead| + |columns|)
  {
    var j := |lead| + |columns|;
    assert t[j..j + |kw|] == (lead + columns + kw)[j..];
    forall i | |lead| <= i < j ensures !KeywordAt(t, i, kw) {
      var c := i - |lead|;
      assert !KeywordAt(columns + kw, c, kw);
      assert t[..|lead + columns + kw|][i..i + |kw|] == t[i..i + |kw|];
      assert (lead + columns + kw)[i..i + |kw|] == (columns + kw)[c..c + |kw|];
      assert t[i + |kw|] == (columns + kw)[c + |kw|];
    }
    FirstKeywordIs(t, kw, |lead|, j);
  }

  // ----- Author ids -----

  /** `re.finditer(r"\('([a-f0-9-]{36})'", values)` from position `from`: a match
      is taken and the scan resumes after it, otherwise the scan moves on by one. */
  function OpenUuids(t: string, from: nat): (r: set<string>)
    decreases |t| - from
    ensures forall u :: u in r ==> IsUuid(u)
  {
    if from >= |t| then {}
    else if OpenUuidAt(t, from) then {t[from + 2..from + 38]} + OpenUuids(t, from + 39)
    else OpenUuids(t, from + 1)
  }

  /** Every group the pattern matches at or after `from`, wherever it sits. */
  function AllOpenUuids(t: string, from: nat): set<string> {
    set p | from <= p < |t| && OpenUuidAt(t, p) :: t[p + 2..p + 38]
  }

  /** Two matches of `\('…'` never overlap: inside a match there is no `(`. */
  lemma NoOverlap(t: string, p: nat, q: nat)
    requires OpenUuidAt(t, p) && p < q < p + 39
    ensures !OpenUuidAt(t, q)
  {
    if p + 2 <= q < p + 38 {
      assert t[q] == t[p + 2..p + 38][q - p - 2];
    }
  }

  /** The left-to-right scan misses nothing: it collects every match. */
  lemma {:induction false} ScanFindsEveryMatch(t: string, from: nat)
    decreases |t| - from
    ensures OpenUuids(t, from) == AllOpenUuids(t, from)
  {
    if from >= |t| {
    } else if OpenUuidAt(t, from) {
      ScanFindsEveryMatch(t, from + 39);
      forall u | u in AllOpenUuids(t, from)
        ensures u in {t[from + 2..from + 38]} + AllOpenUuids(t, from + 39)
      {
        var p :| from <= p < |t| && OpenUuidAt(t, p) && u == t[p + 2..p + 38];
        if from < p < from + 39 {
          NoOverlap(t, from, p);
        }
      }
    } else {
      ScanFindsEveryMatch(t, from + 1);
    }
  }

  /** `author_ids`: the matches in the Authors VALUES body, or none without one. */
  function AuthorIds(content: string): set<string> {
    match ValuesBlock(content, "Authors")
    case Some(values) => OpenUuids(values, 0)
    case None => {}
  }

  /** An author id is exactly a 36-character group right after `('` somewhere
      in the Authors VALUES body. */
  lemma AuthorIdsAreMatches(content: string)
    ensures ValuesBlock(content, "Authors").None? ==> AuthorIds(content) == {}
    ensures ValuesBlock(content, "Authors").Some? ==>
              AuthorIds(content) == AllOpenUuids(ValuesBlock(content, "Authors").value, 0)
  {
    if ValuesBlock(content, "Authors").Some? {
      ScanFindsEveryMatch(ValuesBlock(content, "Authors").value, 0);
    }
  }

  // ----- Line-by-line extraction -----

  /** `line.strip().startswith('(')` */
  predicate TupleLine(line: string) {
    StartsWith(Strip(line), "(")
  }

  /** The article id a line contributes: the first `('uuid'` of a tuple line. */
  function ArticleLineId(line: string): (r: Option<string>)
    ensures r.Some? ==> TupleLine(line) && IsUuid(r.value)
    // every tuple line holding a `('uuid'` registers an article, with the leftmost one's id
    ensures r.Some? <==> TupleLine(line) && exists p :: 0 <= p < |line| && MatchesAt(line, OpenUuid, p)
    ensures r.Some? ==> r == SearchOpenUuid(line)
  {
    if TupleLine(line) then SearchOpenUuid(line) else None
  }

  /** The `(article, author)` reference a line contributes, as written: the first
      quoted uuid in the sixth comma-separated piece of the line, if the line has
      six pieces. */
  function ArticleLineRef(line: string): (r: Option<(string, string)>)
    ensures r.Some? ==> ArticleLineId(line) == Some(r.value.0) && IsUuid(r.value.1)
    ensures r.Some? ==> |Split(line, ',')| >= 6
    // a reference is read exactly when the line registers an article, has six
    // comma pieces and the sixth holds a quoted uuid, which is the author
    ensures r.Some? <==> ArticleLineId(line).Some? && |Split(line, ',')| >= 6 &&
                         SearchQuotedUuid(Strip(Split(line, ',')[5])).Some?
    ensures r.Some? ==> r.value == (ArticleLineId(line).value, SearchQuotedUuid(Strip(Split(line, ',')[5])).value)
  {
    match ArticleLineId(line)
    case None => None
    case Some(id) =>
      var parts := Split(line, ',');
      if |parts| >= 6 then
        match SearchQuotedUuid(Strip(parts[5]))
        case Some(author) => Some((id, author))
        case None => None
      else None
  }

  /** The `(comment, article)` reference a line contributes: the first quoted
      uuid in the second comma-separated piece of a tuple line that starts
      with `('uuid'`. */
  function CommentLineRef(line: string): (r: Option<(string, string)>)
    ensures r.Some? ==> TupleLine(line) && IsUuid(r.value.0) && IsUuid(r.value.1)
    // a reference is read exactly when a tuple line holds a `('uuid'`, has two
    // comma pieces and the second holds a quoted uuid, which is the article
    ensures r.Some? <==> TupleLine(line) && SearchOpenUuid(line).Some? && |Split(line, ',')| >= 2 &&
                         SearchQuotedUuid(Strip(Split(line, ',')[1])).Some?
    ensures r.Some? ==> r.value == (SearchOpenUuid(line).value, SearchQuotedUuid(Strip(Split(line, ',')[1])).value)
  {
    if !TupleLine(line) then None
    else
      match SearchOpenUuid(line)
      case None => None
      case Some(id) =>
        var parts := Split(line, ',');
        if |parts| >= 2 then
          match SearchQuotedUuid(Strip(parts[1]))
          case Some(article) => Some((id, article))
          case None => None
        else None
  }

  /** What a loop over `xs` appends: `f(x)` for each `x` that yields one, in order. */
  function Collect<S, T>(xs: seq<S>, f: S -> Option<T>): (r: seq<T>)
    ensures |r| <= |xs|
    ensures forall y :: y in r ==> exists i :: 0 <= i < |xs| && f(xs[i]) == Some(y)
    ensures forall i :: 0 <= i < |xs| && f(xs[i]).Some? ==> f(xs[i]).value in r
  {
    if |xs| == 0 then []
    else
      var rest := Collect(xs[1..], f);
      assert forall i :: 1 <= i < |xs| ==> xs[i] == xs[1..][i - 1];
      match f(xs[0])
      case Some(y) => [y] + rest
      case None => rest
  }

  /** When every element yields something, collecting is mapping. */
  lemma {:induction false} CollectAll<S, T>(xs: seq<S>, f: S -> Option<T>)
    requires forall i :: 0 <= i < |xs| ==> f(xs[i]).Some?
    ensures Collect(xs, f) == seq(|xs|, i requires 0 <= i < |xs| => f(xs[i]).value)
  {
    if |xs| > 0 {
      assert forall i :: 0 <= i < |xs[1..]| ==> xs[1..][i] == xs[i + 1];
      CollectAll(xs[1..], f);
    }
  }

  /** The lines of a table's VALUES body; none when the body is not found. */
  function ValuesLines(content: string, table: string): seq<string> {
    match ValuesBlock(content, table)
    case Some(values) => Split(values, '\n')
    case None => []
  }

  function ArticleIds(content: string): set<string> {
    var ids := Collect(ValuesLines(content, "Articles"), ArticleLineId);
    set i | 0 <= i < |ids| :: ids[i]
  }

  function ArticleRefs(content: string): seq<(string, string)> {
    Collect(ValuesLines(content, "Articles"), ArticleLineRef)
  }

  function CommentRefs(content: string): seq<(string, string)> {
    Collect(ValuesLines(content, "Comments"), CommentLineRef)
  }

  /** Every article whose reference is read is also registered as an article;
      the converse does not hold. */
  lemma ReferencingArticlesAreRegistered(content: string, x: (string, string))
    requires x in ArticleRefs(content)
    ensures x.0 in ArticleIds(content)
  {
    var lines := ValuesLines(content, "Articles");
    var i :| 0 <= i < |lines| && ArticleLineRef(lines[i]) == Some(x);
    var ids := Collect(lines, ArticleLineId);
    assert ArticleLineId(lines[i]) == Some(x.0);
    assert x.0 in ids;
  }

  // ----- The decision -----

  /** The references whose target is not a known id, in order. */
  function Dangling(refs: seq<(string, string)>, known: set<string>): (r: seq<(string, string)>)
    ensures |r| <= |refs|
    ensures forall x :: x in r <==> x in refs && x.1 !in known
    ensures r == [] <==> forall x :: x in refs ==> x.1 in known
  {
    if |refs| == 0 then []
    else
      var rest := Dangling(refs[1..], known);
      assert forall x :: x in refs <==> x == refs[0] || x in refs[1..];
      if refs[0].1 in known then rest else [refs[0]] + rest
  }

  datatype Verdict =
    | ArticlesBroken(articleRefs: seq<(string, string)>)
    | CommentsBroken(commentRefs: seq<(string, string)>)
    | AllValid

  /** The checks in order, stopping at the first that finds dangling references. */
  function Judge(authors: set<string>, articles: set<string>,
                 articleRefs: seq<(string, string)>, commentRefs: seq<(string, string)>): (v: Verdict)
    ensures v.AllValid? <==>
              (forall x :: x in articleRefs ==> x.1 in authors) &&
              (forall x :: x in commentRefs ==> x.1 in articles)
    ensures v.ArticlesBroken? ==>
              v.articleRefs != [] && forall x :: x in v.articleRefs <==> x in articleRefs && x.1 !in authors
    ensures v.CommentsBroken? ==>
              (forall x :: x in articleRefs ==> x.1 in authors) &&
              v.commentRefs != [] && forall x :: x in v.commentRefs <==> x in commentRefs && x.1 !in articles
  {
    var badArticles := Dangling(articleRefs, authors);
    if badArticles != [] then ArticlesBroken(badArticles)
    else
      var badComments := Dangling(commentRefs, articles);
      if badComments != [] then CommentsBroken(badComments)
      else AllValid
  }

  /** `extract_uuids_from_sql` on the file's text: true exactly when the verdict
      is that every extracted reference names an extracted id. */
  function ExtractUuidsFromSql(content: string): (ok: bool)
    ensures ok <==> (forall x :: x in ArticleRefs(content) ==> x.1 in AuthorIds(content)) &&
                    (forall x :: x in CommentRefs(content) ==> x.1 in ArticleIds(content))
  {
    Judge(AuthorIds(content), ArticleIds(content), ArticleRefs(content), CommentRefs(content)).AllValid?
  }

  // ----- Against the generator's output -----

  /** The first line of a comment tuple yields the comment's id and its
      article's id, whatever follows them. */
  lemma CommentLineReadsRef(row: CommentRow, tail: string)
    requires IsUuid(row.id) && IsUuid(row.articleId)
    ensures CommentLineRef(Split(CommentTuple(row) + tail, '\n')[0]) == Some((row.id, row.articleId))
  {
    var fields := [Lit(row.id), Lit(row.articleId), Lit(row.authorName), Lit(row.authorEmail), Lit(row.content),
                   row.commentDate, row.createdAt];
    var more := Join(fields[2..], ", ") + ")" + tail;
    var a := "(" + Lit(row.id) + "," + " " + Lit(row.articleId) + ",";
    assert CommentTuple(row) + tail == a + (" " + more) by {
      assert fields[1..][1..] == fields[2..];
      assert Join(fields, ", ") == Lit(row.id) + ", " + (Lit(row.articleId) + ", " + Join(fields[2..], ", "));
    }
    UuidHasNoBreak(row.id);
    UuidHasNoBreak(row.articleId);
    assert '\n' !in a;
    SplitFirst(a, " " + more, '\n');
    var line := a + Split(" " + more, '\n')[0];
    LineStartingWithUuids(row.id, row.articleId, Split(" " + more, '\n')[0]);
  }

  lemma UuidHasNoBreak(u: string)
    requires IsUuid(u)
    ensures '\n' !in u && ',' !in u && '(' !in u && Quote !in u
  {
    forall i | 0 <= i < |u| ensures u[i] != '\n' && u[i] != ',' && u[i] != '(' && u[i] != Quote {
      assert UuidChar(u[i]);
    }
  }

  /** A line `('id', 'ref',…` yields `(id, ref)` by the comment rule. */
  lemma LineStartingWithUuids(id: string, ref: string, rest: string)
    requires IsUuid(id) && IsUuid(ref)
    ensures CommentLineRef("(" + Lit(id) + "," + " " + Lit(ref) + "," + rest) == Some((id, ref))
  {
    var line := "(" + Lit(id) + "," + " " + Lit(ref) + "," + rest;
    UuidHasNoBreak(id);
    UuidHasNoBreak(ref);
    StripHead(line);
    assert TupleLine(line);
    assert OpenUuidAt(line, 0) by {
      assert line[1..39] == Lit(id);
      assert line[2..38] == id;
    }
    assert SearchOpenUuid(line) == Some(id) by {
      assert line[2..38] == id;
    }
    var first := "(" + Lit(id);
    var second := " " + Lit(ref);
    assert line == first + [','] + (second + [','] + rest);
    SplitPrefix(first, second + [','] + rest, ',');
    SplitPrefix(second, rest, ',');
    assert Split(line, ',')[1] == second;
    StripLeadingSpace(' ', Lit(ref));
    StripTrimmed(Lit(ref));
    assert QuotedUuidAt(Lit(ref), 0) by {
      assert Lit(ref)[1..37] == ref;
    }
    assert SearchQuotedUuid(Lit(ref)) == Some(ref) by {
      assert Lit(ref)[1..37] == ref;
    }
  }

  // ----- The article -> author reference, as written and as intended -----

  /** Split at its first line break, an article tuple whose title has no comma
      or line break, and whose content's first paragraph has no comma, begins
      with the line `('id', 'title', 'first paragraph`. */
  lemma ArticleTupleFirstLine(row: ArticleRow, c1: string, c2: string)
    requires IsUuid(row.id)
    requires ',' !in row.title && '\n' !in row.title
    requires row.content == c1 + "\n" + c2 && ',' !in c1 && '\n' !in c1
    ensures Split(ArticleTuple(row), '\n')[0] == "(" + Lit(row.id) + "," + " " + Lit(row.title) + "," + " " + [Quote] + c1
  {
    var fields := [Lit(row.id), Lit(row.title), Lit(row.content), row.publishDate, row.isPublished,
                   Lit(row.authorId), row.createdAt, row.createdAt];
    var a := "(" + Lit(row.id) + "," + " " + Lit(row.title) + "," + " " + [Quote] + c1;
    var rest := Join(fields[3..], ", ");
    var b := c2 + [Quote] + ", " + rest + ")";
    assert Join(fields, ", ") == Lit(row.id) + ", " + (Lit(row.title) + ", " + (Lit(row.content) + ", " + rest)) by {
      assert fields[1..][1..] == fields[2..];
      assert fields[2..][1..] == fields[3..];
      assert Join(fields[2..], ", ") == Lit(row.content) + ", " + rest;
      assert Join(fields[1..], ", ") == Lit(row.title) + ", " + Join(fields[2..], ", ");
    }
    TupleBreaksAt(row.id, row.title, c1, c2, rest);
    UuidHasNoBreak(row.id);
    assert '\n' !in a;
    SplitPrefix(a, b, '\n');
  }

  /** Where the line break inside the content falls in the rendered tuple. */
  lemma TupleBreaksAt(id: string, title: string, c1: string, c2: string, rest: string)
    ensures "(" + (Lit(id) + ", " + (Lit(title) + ", " + (Lit(c1 + "\n" + c2) + ", " + rest))) + ")"
         == ("(" + Lit(id) + "," + " " + Lit(title) + "," + " " + [Quote] + c1) + "\n" + (c2 + [Quote] + ", " + rest + ")")
  {
  }

  /** Such a line registers the article but yields no reference: it has three
      comma-separated pieces, not six. */
  lemma FirstLineHasNoRef(id: string, title: string, c1: string)
    requires IsUuid(id) && ',' !in title && ',' !in c1
    ensures ArticleLineId("(" + Lit(id) + "," + " " + Lit(title) + "," + " " + [Quote] + c1) == Some(id)
    ensures ArticleLineRef("(" + Lit(id) + "," + " " + Lit(title) + "," + " " + [Quote] + c1) == None
  {
    FirstLineId(id, title, c1);
    FirstLinePieces(id, title, c1);
  }

  lemma FirstLineId(id: string, title: string, c1: string)
    requires IsUuid(id)
    ensures ArticleLineId("(" + Lit(id) + "," + " " + Lit(title) + "," + " " + [Quote] + c1) == Some(id)
  {
    var line := "(" + Lit(id) + "," + " " + Lit(title) + "," + " " + [Quote] + c1;
    UuidHasNoBreak(id);
    StripHead(line);
    assert TupleLine(line);
    assert OpenUuidAt(line, 0) by {
      assert line[1..39] == Lit(id);
      assert line[2..38] == id;
    }
    assert SearchOpenUuid(line) == Some(id) by {
      assert line[2..38] == id;
    }
  }

  lemma FirstLinePieces(id: string, title: string, c1: string)
    requires IsUuid(id) && ',' !in title && ',' !in c1
    ensures |Split("(" + Lit(id) + "," + " " + Lit(title) + "," + " " + [Quote] + c1, ',')| == 3
  {
    UuidHasNoBreak(id);
    ThreePieces("(" + Lit(id), " " + Lit(title), " " + [Quote] + c1);
    Regroup("(", Lit(id), ",", " ", Lit(title), ",", " ", [Quote], c1);
  }

  lemma Regroup(a: string, b: string, c: string, d: string, e: string, f: string, g: string, h: string, i: string)
    ensures a + b + c + d + e + f + g + h + i == (a + b) + c + ((d + e) + f + (g + h + i))
  {
  }

  /** Three comma-free pieces joined by commas split back into three. */
  lemma ThreePieces(first: string, second: string, third: string)
    requires ',' !in first && ',' !in second && ',' !in third
    ensures |Split(first + [','] + (second + [','] + third), ',')| == 3
  {
    SplitPrefix(first, second + [','] + third, ',');
    SplitPrefix(second, third, ',');
    SplitNoSep(third, ',');
  }

  /** The generator joins three or more paragraphs with a blank line, so every
      article's content holds a line break, and of the tuple's lines only the
      first is a tuple line. For a comma-free title and first paragraph, that
      line has three pieces: it registers the article and yields no reference. */
  lemma ArticleFirstLineDropsRef(row: ArticleRow, c1: string, c2: string)
    requires IsUuid(row.id)
    requires ',' !in row.title && '\n' !in row.title
    requires row.content == c1 + "\n" + c2 && ',' !in c1 && '\n' !in c1
    ensures ArticleLineId(Split(ArticleTuple(row), '\n')[0]) == Some(row.id)
    ensures ArticleLineRef(Split(ArticleTuple(row), '\n')[0]) == None
  {
    ArticleTupleFirstLine(row, c1, c2);
    FirstLineHasNoRef(row.id, row.title, c1);
  }

  /** The `(article, author)` pair of one tuple read as a whole: its first and
      sixth values, when both are quoted. */
  function RefOfRow(items: seq<Item>): (r: Option<(string, string)>)
    ensures r.Some? <==> |items| >= 6 && items[0].Quoted? && items[5].Quoted?
    ensures r.Some? ==> r.value == (items[0].text, items[5].text)
  {
    if |items| >= 6 && items[0].Quoted? && items[5].Quoted? then Some((items[0].text, items[5].text)) else None
  }

  /** The references of an Articles VALUES body read tuple by tuple instead of
      line by line; `None` when the body does not read as tuples. */
  function ArticleRefsRead(values: string): Option<seq<(string, string)>> {
    match ReadValues(values + ";")
    case None => None
    case Some((rows, _)) => Some(Collect(rows, RefOfRow))
  }

  /** Read tuple by tuple, a generated Articles body yields every article with
      the author it was given, in order, whatever line breaks and commas its
      title and content hold. */
  lemma {:induction false} GeneratedArticleRefsRead(draws: seq<ArticleDraw>, authorIds: seq<string>, rows: seq<ArticleRow>)
    requires GenerateArticles(draws, authorIds) == Some(rows) && |draws| >= 1
    requires PlainIds(authorIds) && forall i :: 0 <= i < |draws| ==> PlainArticleDraw(draws[i])
    ensures ArticleRefsRead(Join(ArticleTuples(rows), ",\n")) ==
            Some(seq(|rows|, i requires 0 <= i < |rows| => (rows[i].id, rows[i].authorId)))
    ensures forall x :: x in ArticleRefsRead(Join(ArticleTuples(rows), ",\n")).value ==> x.1 in authorIds
  {
    ArticleBodyReads(draws, authorIds, rows);
    forall i | 0 <= i < |rows| ensures rows[i].id == draws[i].id {
      assert BuildArticle(draws[i], authorIds) == Some(rows[i]);
    }
    ReadbackRefs(draws, rows);
  }

  lemma {:induction false} ArticleBodyReads(draws: seq<ArticleDraw>, authorIds: seq<string>, rows: seq<ArticleRow>)
    requires GenerateArticles(draws, authorIds) == Some(rows) && |draws| >= 1
    requires PlainIds(authorIds) && forall i :: 0 <= i < |draws| ==> PlainArticleDraw(draws[i])
    ensures ArticleRefsRead(Join(ArticleTuples(rows), ",\n")) == Some(Collect(ArticleReadback(draws, rows), RefOfRow))
  {
    ArticlesBlockReadsBack(draws, authorIds, rows, "");
    assert Join(ArticleTuples(rows), ",\n") + ";" == ValuesText(ArticleTuples(rows)) + "";
  }

  lemma ReadbackRefs(draws: seq<ArticleDraw>, rows: seq<ArticleRow>)
    requires |rows| == |draws| && forall i :: 0 <= i < |rows| ==> rows[i].id == draws[i].id
    ensures Collect(ArticleReadback(draws, rows), RefOfRow) ==
            seq(|rows|, i requires 0 <= i < |rows| => (rows[i].id, rows[i].authorId))
  {
    var back := ArticleReadback(draws, rows);
    forall i | 0 <= i < |rows| ensures RefOfRow(back[i]) == Some((rows[i].id, rows[i].authorId)) {
      RefOfArticleItems(draws[i], rows[i].authorId);
    }
    CollectAll(back, RefOfRow);
    var a := Collect(back, RefOfRow);
    var b := seq(|rows|, i requires 0 <= i < |rows| => (rows[i].id, rows[i].authorId));
    forall i | 0 <= i < |rows| ensures a[i] == b[i] {
    }
    assert a == b;
  }

  /** An article's tuple yields its own id and its author's. */
  lemma RefOfArticleItems(d: ArticleDraw, authorId: string)
    ensures RefOfRow(ArticleItems(d, authorId)) == Some((d.id, authorId))
  {
    var items := ArticleItems(d, authorId);
    assert items[0] == Quoted(d.id) && items[5] == Quoted(authorId);
  }

  /** The corrected article references of a file: none without an Articles
      statement, `None` when its body does not read as tuples. */
  function ArticleRefsCorrected(content: string): Option<seq<(string, string)>> {
    match ValuesBlock(content, "Articles")
    case None => Some([])
    case Some(values) => ArticleRefsRead(values)
  }

  /** The check with articles read tuple by tuple: true exactly when the
      Articles body reads, every article's author is an extracted author, and
      every comment's article is an extracted article. */
  function ExtractUuidsFromSqlCorrected(content: string): (ok: bool)
    ensures ok <==> ArticleRefsCorrected(content).Some? &&
                    (forall x :: x in ArticleRefsCorrected(content).value ==> x.1 in AuthorIds(content)) &&
                    (forall x :: x in CommentRefs(content) ==> x.1 in ArticleIds(content))
  {
    match ArticleRefsCorrected(content)
    case None => false
    case Some(refs) => Judge(AuthorIds(content), ArticleIds(content), refs, CommentRefs(content)).AllValid?
  }
}
