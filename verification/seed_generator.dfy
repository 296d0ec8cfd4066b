/** The seed-data generator (`generate_test_data.py`): authors, articles and
    comments are built from random draws, then serialised into three multi-row
    INSERT statements and a summary SELECT. Every random or Faker-produced value
    (ids, names, texts, timestamps, the index `choice` picks) is an input here. */
module SeedGenerator {
  import opened Wrappers
  import opened Strings
  import opened SqlLiteral

  // ----- Foreign-key choice -----

  /** `random.choice(xs)` with the random index as an input: an empty list
      raises, so there is no result; otherwise the result is one of `xs`. */
  function Choice(xs: seq<string>, draw: nat): (r: Option<string>)
    ensures r.None? <==> |xs| == 0
    ensures r.Some? ==> r.value in xs
  {
    if |xs| == 0 then None else Some(xs[draw % |xs|])
  }

  /** Every member of the list can be chosen. */
  lemma ChoiceReachesAll(xs: seq<string>, i: nat)
    requires i < |xs|
    ensures Choice(xs, i) == Some(xs[i])
  {
    assert i % |xs| == i;
  }

  // ----- Records, as the tuples the builders return -----

  /** `(uuid, username, email, created_at)`. */
  datatype AuthorRow = AuthorRow(id: string, username: string, email: string, createdAt: string)

  /** `(uuid, title, content, publish_date, is_published, author_id, created_at)`:
      title and content already escaped, the two dates already rendered as SQL. */
  datatype ArticleRow = ArticleRow(
    id: string, title: string, content: string, publishDate: string,
    isPublished: string, authorId: string, createdAt: string)

  /** `(uuid, article_id, author_name, author_email, content, comment_date, created_at)`. */
  datatype CommentRow = CommentRow(
    id: string, articleId: string, authorName: string, authorEmail: string,
    content: string, commentDate: string, createdAt: string)

  /** The random values one article is made of. */
  datatype ArticleDraw = ArticleDraw(
    id: string, authorPick: nat, title: string, content: string,
    published: bool, publishedAt: string, createdAt: string)

  /** The random values one comment is made of. */
  datatype CommentDraw = CommentDraw(
    id: string, articlePick: nat, authorName: string, authorEmail: string,
    content: string, commentedAt: string)

  /** `str(flag).upper()`. */
  function BoolLiteral(b: bool): string {
    if b then "TRUE" else "FALSE"
  }

  /** A value between single quotes, written verbatim (the `'{...}'` of the f-strings). */
  function Lit(s: string): string {
    [Quote] + s + [Quote]
  }

  /** One article: its author is chosen among `authorIds`, title and content get
      their quotes doubled, a draft has the literal `NULL` as publish date, and
      `is_published` is `TRUE` or `FALSE`. */
  function BuildArticle(d: ArticleDraw, authorIds: seq<string>): (r: Option<ArticleRow>)
    ensures r.None? <==> |authorIds| == 0
    ensures r.Some? ==> r.value.authorId in authorIds
    ensures r.Some? ==> (r.value.publishDate == "NULL" <==> !d.published)
    ensures r.Some? ==> (r.value.isPublished == "TRUE" <==> d.published)
  {
    match Choice(authorIds, d.authorPick)
    case None => None
    case Some(authorId) =>
      var publishDate := if d.published then Lit(d.publishedAt) else "NULL";
      assert d.published ==> publishDate[0] == Quote;
      Some(ArticleRow(d.id, Escape(d.title), Escape(d.content), publishDate,
                      BoolLiteral(d.published), authorId, Lit(d.createdAt)))
  }

  /** One comment: its article is chosen among `articleIds`, name and content
      get their quotes doubled, the e-mail is kept verbatim, and both dates are
      the same instant. */
  function BuildComment(d: CommentDraw, articleIds: seq<string>): (r: Option<CommentRow>)
    ensures r.None? <==> |articleIds| == 0
    ensures r.Some? ==> r.value.articleId in articleIds
    ensures r.Some? ==> r.value.commentDate == r.value.createdAt
  {
    match Choice(articleIds, d.articlePick)
    case None => None
    case Some(articleId) =>
      Some(CommentRow(d.id, articleId, Escape(d.authorName), d.authorEmail, Escape(d.content),
                      Lit(d.commentedAt), Lit(d.commentedAt)))
  }

  /** `generate_articles`: one article per draw, in order; the first `choice`
      on an empty author list raises. */
  function GenerateArticles(draws: seq<ArticleDraw>, authorIds: seq<string>): (r: Option<seq<ArticleRow>>)
    ensures r.None? <==> |draws| > 0 && |authorIds| == 0
    ensures r.Some? ==> |r.value| == |draws|
    ensures r.Some? ==> forall i :: 0 <= i < |draws| ==> BuildArticle(draws[i], authorIds) == Some(r.value[i])
    ensures r.Some? ==> forall i :: 0 <= i < |draws| ==> r.value[i].authorId in authorIds
  {
    if |draws| == 0 then Some([])
    else
      match BuildArticle(draws[0], authorIds)
      case None => None
      case Some(a) =>
        match GenerateArticles(draws[1..], authorIds)
        case None => None
        case Some(rest) =>
          assert forall i :: 1 <= i < |draws| ==> draws[i] == draws[1..][i - 1];
          Some([a] + rest)
  }

  /** `generate_comments`: one comment per draw, in order. */
  function GenerateComments(draws: seq<CommentDraw>, articleIds: seq<string>): (r: Option<seq<CommentRow>>)
    ensures r.None? <==> |draws| > 0 && |articleIds| == 0
    ensures r.Some? ==> |r.value| == |draws|
    ensures r.Some? ==> forall i :: 0 <= i < |draws| ==> BuildComment(draws[i], articleIds) == Some(r.value[i])
    ensures r.Some? ==> forall i :: 0 <= i < |draws| ==> r.value[i].articleId in articleIds
  {
    if |draws| == 0 then Some([])
    else
      match BuildComment(draws[0], articleIds)
      case None => None
      case Some(c) =>
        match GenerateComments(draws[1..], articleIds)
        case None => None
        case Some(rest) =>
          assert forall i :: 1 <= i < |draws| ==> draws[i] == draws[1..][i - 1];
          Some([c] + rest)
  }

  // ----- Usernames -----

  /** A Faker user name is lower-cased and its spaces become underscores. */
  function NormalizeUsername(name: string): string {
    ReplaceChar(Lower(name), ' ', "_")
  }

  /** Draws allowed before the fallback: attempts 0 to 100. */
  const MaxDraws: nat := 101

  /** `f"user_{hex[:8]}"`. */
  function Fallback(hex: string): string {
    "user_" + (if |hex| <= 8 then hex else hex[..8])
  }

  /** The first draw at or after `k` whose normalised name is not taken yet. */
  function FirstFreeDraw(taken: set<string>, name: nat -> string, k: nat): (r: Option<nat>)
    requires k <= MaxDraws
    ensures r.Some? ==> k <= r.value < MaxDraws && NormalizeUsername(name(r.value)) !in taken
    ensures r.Some? ==> forall i :: k <= i < r.value ==> NormalizeUsername(name(i)) in taken
    ensures r.None? ==> forall i :: k <= i < MaxDraws ==> NormalizeUsername(name(i)) in taken
    decreases MaxDraws - k
  {
    if k == MaxDraws then None
    else if NormalizeUsername(name(k)) !in taken then Some(k)
    else FirstFreeDraw(taken, name, k + 1)
  }

  /** The de-duplication loop of `generate_authors`: draw names until one is
      free, at most 101 times; then take the `user_` fallback without checking it. */
  method PickUsername(taken: set<string>, name: nat -> string, hex: string) returns (username: string, draws: nat)
    ensures draws <= MaxDraws
    ensures FirstFreeDraw(taken, name, 0).Some? ==>
              var k := FirstFreeDraw(taken, name, 0).value;
              username == NormalizeUsername(name(k)) && draws == k + 1 && username !in taken
    ensures FirstFreeDraw(taken, name, 0).None? ==> username == Fallback(hex) && draws == MaxDraws
    ensures username in taken ==> username == Fallback(hex)
    ensures Drawn(username, name, hex)
  {
    var current: Option<string> := None;
    var attempts: nat := 0;
    var fellBack := false;
    while current.None? || current.value in taken
      invariant attempts <= MaxDraws
      invariant current.None? <==> attempts == 0
      invariant !fellBack
      invariant attempts > 0 ==> current == Some(NormalizeUsername(name(attempts - 1)))
      invariant forall i :: 0 <= i < attempts - 1 ==> NormalizeUsername(name(i)) in taken
      decreases MaxDraws + 1 - attempts
    {
      if attempts > 100 {
        current := Some(Fallback(hex));
        fellBack := true;
        break;
      }
      current := Some(NormalizeUsername(name(attempts)));
      attempts := attempts + 1;
    }
    if !fellBack {
      FirstFreeIsFirst(taken, name, attempts - 1);
    } else {
      assert forall i :: 0 <= i < MaxDraws ==> NormalizeUsername(name(i)) in taken;
      NoFreeDraw(taken, name, 0);
    }
    username, draws := current.value, attempts;
    if !fellBack {
      assert username == NormalizeUsername(name(attempts - 1));
    }
  }

  /** A username is one of the first 101 normalised draws, or the fallback. */
  predicate Drawn(username: string, name: nat -> string, hex: string) {
    username == Fallback(hex) || exists k :: 0 <= k < MaxDraws && username == NormalizeUsername(name(k))
  }

  lemma {:induction false} FirstFreeIsFirst(taken: set<string>, name: nat -> string, k: nat)
    requires k < MaxDraws && NormalizeUsername(name(k)) !in taken
    requires forall i :: 0 <= i < k ==> NormalizeUsername(name(i)) in taken
    ensures FirstFreeDraw(taken, name, 0) == Some(k)
  {
    FirstFreeFrom(taken, name, 0, k);
  }

  lemma {:induction false} FirstFreeFrom(taken: set<string>, name: nat -> string, j: nat, k: nat)
    requires j <= k < MaxDraws && NormalizeUsername(name(k)) !in taken
    requires forall i :: j <= i < k ==> NormalizeUsername(name(i)) in taken
    ensures FirstFreeDraw(taken, name, j) == Some(k)
    decreases k - j
  {
    if j < k {
      FirstFreeFrom(taken, name, j + 1, k);
    }
  }

  lemma {:induction false} NoFreeDraw(taken: set<string>, name: nat -> string, j: nat)
    requires j <= MaxDraws
    requires forall i :: j <= i < MaxDraws ==> NormalizeUsername(name(i)) in taken
    ensures FirstFreeDraw(taken, name, j).None?
    decreases MaxDraws - j
  {
    if j < MaxDraws {
      NoFreeDraw(taken, name, j + 1);
    }
  }

  /** The random values one author is made of; `name(k)` is the k-th Faker user name. */
  datatype AuthorDraw = AuthorDraw(id: string, name: nat -> string, hex: string, email: string, createdAt: string)

  /** The first `n` authors come from the first `n` draws: fields copied, each
      username drawn, and a repeated username only ever the fallback. */
  predicate AuthorsFrom(authors: seq<AuthorRow>, draws: seq<AuthorDraw>, n: nat)
    requires n <= |draws| && |authors| == n
  {
    && (forall i :: 0 <= i < n ==>
          authors[i].id == draws[i].id && authors[i].email == draws[i].email &&
          authors[i].createdAt == draws[i].createdAt)
    && (forall i :: 0 <= i < n ==> Drawn(authors[i].username, draws[i].name, draws[i].hex))
    && (forall i, j :: 0 <= j < i < n && authors[i].username == authors[j].username ==>
          authors[i].username == Fallback(draws[i].hex))
  }

  /** `generate_authors`: one author per draw, in order. A username repeats an
      earlier one only when it is the unchecked fallback. */
  method GenerateAuthors(draws: seq<AuthorDraw>) returns (authors: seq<AuthorRow>)
    ensures |authors| == |draws|
    ensures AuthorsFrom(authors, draws, |draws|)
  {
    authors := [];
    var usernames: set<string> := {};
    for n := 0 to |draws|
      invariant |authors| == n
      invariant forall j :: 0 <= j < n ==> authors[j].username in usernames
      invariant AuthorsFrom(authors, draws, n)
    {
      var d := draws[n];
      var username, _ := PickUsername(usernames, d.name, d.hex);
      var row := AuthorRow(d.id, username, d.email, d.createdAt);
      forall j | 0 <= j < n && authors[j].username == username ensures username == Fallback(d.hex) {
        assert username in usernames;
      }
      AppendAuthor(authors, draws, n, row);
      authors := authors + [row];
      usernames := usernames + {username};
    }
  }

  lemma AppendAuthor(authors: seq<AuthorRow>, draws: seq<AuthorDraw>, n: nat, row: AuthorRow)
    requires n < |draws| && |authors| == n && AuthorsFrom(authors, draws, n)
    requires row.id == draws[n].id && row.email == draws[n].email && row.createdAt == draws[n].createdAt
    requires Drawn(row.username, draws[n].name, draws[n].hex)
    requires forall j :: 0 <= j < n && authors[j].username == row.username ==> row.username == Fallback(draws[n].hex)
    ensures AuthorsFrom(authors + [row], draws, n + 1)
  {
    var next := authors + [row];
    forall i | 0 <= i < n + 1
      ensures next[i].id == draws[i].id && next[i].email == draws[i].email
      ensures next[i].createdAt == draws[i].createdAt
      ensures Drawn(next[i].username, draws[i].name, draws[i].hex)
    {
      if i < n { assert next[i] == authors[i]; }
    }
    forall i, j | 0 <= j < i < n + 1 && next[i].username == next[j].username
      ensures next[i].username == Fallback(draws[i].hex)
    {
      assert next[j] == authors[j];
      if i < n { assert next[i] == authors[i]; }
    }
  }

  // ----- Argument checks -----

  /** The count checks of `main`, in order: the first count below 1 is reported. */
  function ValidateCounts(authors: int, articles: int, comments: int): (r: Result<(), string>)
    ensures r.Ok? <==> authors >= 1 && articles >= 1 && comments >= 1
    ensures authors < 1 ==> r == Err("Error: --authors must be at least 1")
    ensures authors >= 1 && articles < 1 ==> r == Err("Error: --articles must be at least 1")
    ensures authors >= 1 && articles >= 1 && comments < 1 ==> r == Err("Error: --comments must be at least 1")
  {
    if authors < 1 then Err("Error: --authors must be at least 1")
    else if articles < 1 then Err("Error: --articles must be at least 1")
    else if comments < 1 then Err("Error: --comments must be at least 1")
    else Ok(())
  }

  // ----- Serialisation (`generate_sql`) -----

  /** `('{uuid}', '{username}', '{email}', '{created_at}')`: nothing is escaped here. */
  function AuthorTuple(a: AuthorRow): string {
    TupleText([Lit(a.id), Lit(a.username), Lit(a.email), Lit(a.createdAt)])
  }

  /** The article tuple; the two rendered dates go in bare, and `created_at`
      fills both `created_at` and `updated_at`. */
  function ArticleTuple(a: ArticleRow): string {
    TupleText([Lit(a.id), Lit(a.title), Lit(a.content), a.publishDate, a.isPublished,
               Lit(a.authorId), a.createdAt, a.createdAt])
  }

  function CommentTuple(c: CommentRow): string {
    TupleText([Lit(c.id), Lit(c.articleId), Lit(c.authorName), Lit(c.authorEmail), Lit(c.content),
               c.commentDate, c.createdAt])
  }

  function AuthorTuples(authors: seq<AuthorRow>): seq<string> {
    seq(|authors|, i requires 0 <= i < |authors| => AuthorTuple(authors[i]))
  }

  function ArticleTuples(articles: seq<ArticleRow>): seq<string> {
    seq(|articles|, i requires 0 <= i < |articles| => ArticleTuple(articles[i]))
  }

  function CommentTuples(comments: seq<CommentRow>): seq<string> {
    seq(|comments|, i requires 0 <= i < |comments| => CommentTuple(comments[i]))
  }

  const AuthorsInsert: string := "INSERT INTO Authors (id, username, email, created_at) VALUES"
  const ArticlesInsert: string :=
    "INSERT INTO Articles (id, title, content, publish_date, is_published, author_id, created_at, updated_at) VALUES"
  const CommentsInsert: string :=
    "INSERT INTO Comments (id, article_id, author_name, author_email, content, comment_date, created_at) VALUES"

  /** A line of the summary `SELECT`: `    <n> AS <column>` and its `,` or `;`. */
  function SummaryLine(n: nat, tail: string): string {
    "    " + NatToString(n) + tail
  }

  /** How a reader of the summary gets a count back: the digits between the
      four-space indent and the line's known tail. */
  function SummaryCount(line: string, tail: string): Option<nat> {
    if |line| > 4 + |tail| && line[..4] == "    " && line[|line| - |tail|..] == tail &&
       AllDigits(line[4..|line| - |tail|])
    then Some(ParseNat(line[4..|line| - |tail|]))
    else None
  }

  /** A summary line reads back as the count it was written with. */
  lemma SummaryCountReads(n: nat, tail: string)
    ensures SummaryCount(SummaryLine(n, tail), tail) == Some(n)
  {
    var line := SummaryLine(n, tail);
    assert line[..4] == "    ";
    assert line[|line| - |tail|..] == tail;
    assert line[4..|line| - |tail|] == NatToString(n);
    ParseNatToString(n);
  }

  /** The document's lines before the final `"\n".join`. The summary `SELECT`
      reports the three counts, and they read back as the numbers of rows. */
  function SqlLines(authors: seq<AuthorRow>, articles: seq<ArticleRow>, comments: seq<CommentRow>,
                    generatedAt: string): (lines: seq<string>)
    ensures |lines| == 22
    ensures lines[0] == "-- Generated SQL INSERT statements"
    ensures lines[21] == SummaryLine(|comments|, " AS total_comments;")
    ensures SummaryCount(lines[19], " AS total_authors,") == Some(|authors|)
    ensures SummaryCount(lines[20], " AS total_articles,") == Some(|articles|)
    ensures SummaryCount(lines[21], " AS total_comments;") == Some(|comments|)
  {
    SummaryCountReads(|authors|, " AS total_authors,");
    SummaryCountReads(|articles|, " AS total_articles,");
    SummaryCountReads(|comments|, " AS total_comments;");
    [ "-- Generated SQL INSERT statements",
      "-- Generated at: " + generatedAt,
      "-- Authors: " + NatToString(|authors|) + ", Articles: " + NatToString(|articles|)
        + ", Comments: " + NatToString(|comments|),
      "",
      "-- Insert Authors",
      AuthorsInsert,
      ValuesText(AuthorTuples(authors)),
      "",
      "-- Insert Articles",
      ArticlesInsert,
      ValuesText(ArticleTuples(articles)),
      "",
      "-- Insert Comments",
      CommentsInsert,
      ValuesText(CommentTuples(comments)),
      "",
      "-- Summary",
      "SELECT",
      "    'Data Generation Complete' AS message,",
      SummaryLine(|authors|, " AS total_authors,"),
      SummaryLine(|articles|, " AS total_articles,"),
      SummaryLine(|comments|, " AS total_comments;")
    ]
  }

  /** `generate_sql`: the whole seed file; `generatedAt` is the header timestamp.
      The file opens with the banner line and closes, with no trailing line
      break, on the summary line that reports the number of comments. */
  function GenerateSql(authors: seq<AuthorRow>, articles: seq<ArticleRow>, comments: seq<CommentRow>,
                       generatedAt: string): (doc: string)
    ensures StartsWith(doc, "-- Generated SQL INSERT statements\n")
    ensures EndsWith(doc, "\n" + SummaryLine(|comments|, " AS total_comments;"))
    ensures SummaryCount(doc[|doc| - |SummaryLine(|comments|, " AS total_comments;")|..], " AS total_comments;")
            == Some(|comments|)
  {
    JoinLines(SqlLines(authors, articles, comments, generatedAt))
  }

  /** `"\n".join(sql_lines)` for a document of at least two lines. */
  function JoinLines(lines: seq<string>): (doc: string)
    requires |lines| >= 2
    ensures StartsWith(doc, lines[0] + "\n")
    ensures EndsWith(doc, "\n" + lines[|lines| - 1])
    ensures doc[|doc| - |lines[|lines| - 1]|..] == lines[|lines| - 1]
  {
    JoinEnds(lines, "\n");
    Join(lines, "\n")
  }

  // ----- Reading the output back -----

  /** An author as the reader of its tuple sees it. */
  function AuthorItems(a: AuthorRow): seq<Item> {
    [Quoted(a.id), Quoted(a.username), Quoted(a.email), Quoted(a.createdAt)]
  }

  /** An article as the reader of its tuple sees it, in terms of its draw. */
  function ArticleItems(d: ArticleDraw, authorId: string): seq<Item> {
    [ Quoted(d.id), Quoted(d.title), Quoted(d.content),
      if d.published then Quoted(d.publishedAt) else Bare("NULL"),
      Bare(BoolLiteral(d.published)), Quoted(authorId), Quoted(d.createdAt), Quoted(d.createdAt) ]
  }

  /** A comment as the reader of its tuple sees it, in terms of its draw. */
  function CommentItems(d: CommentDraw, articleId: string): seq<Item> {
    [ Quoted(d.id), Quoted(articleId), Quoted(d.authorName), Quoted(d.authorEmail), Quoted(d.content),
      Quoted(d.commentedAt), Quoted(d.commentedAt) ]
  }

  lemma AllReadable(items: seq<Item>)
    requires forall i :: 0 <= i < |items| ==> items[i].Quoted? || items[i] in {Bare("NULL"), Bare("TRUE"), Bare("FALSE")}
    ensures forall i :: 0 <= i < |items| ==> ReadableItem(items[i])
  {
  }

  /** An author tuple reads back as the author's four values when none of
      them holds a quote; username and e-mail are not escaped, so that
      condition is needed. */
  lemma AuthorTupleReadsBack(a: AuthorRow, rest: string)
    requires Quote !in a.id && Quote !in a.username && Quote !in a.email && Quote !in a.createdAt
    ensures AuthorTuple(a) == RenderTuple(AuthorItems(a))
    ensures ReadTuple(AuthorTuple(a) + rest) == Some((AuthorItems(a), rest))
  {
    var items := AuthorItems(a);
    assert RenderEach(items) == [Lit(a.id), Lit(a.username), Lit(a.email), Lit(a.createdAt)];
    TupleRoundTrip(items, rest);
  }

  /** An article tuple reads back as the drawn values: title and content come
      back exactly, quotes included, because they were escaped. */
  lemma ArticleTupleReadsBack(d: ArticleDraw, authorIds: seq<string>, rest: string)
    requires |authorIds| > 0 && forall i :: 0 <= i < |authorIds| ==> Quote !in authorIds[i]
    requires Quote !in d.id && Quote !in d.publishedAt && Quote !in d.createdAt
    ensures var row := BuildArticle(d, authorIds).value;
            ArticleTuple(row) == RenderTuple(ArticleItems(d, row.authorId))
    ensures var row := BuildArticle(d, authorIds).value;
            ReadTuple(ArticleTuple(row) + rest) == Some((ArticleItems(d, row.authorId), rest))
  {
    var row := BuildArticle(d, authorIds).value;
    var items := ArticleItems(d, row.authorId);
    assert Quote !in row.authorId;
    ArticleItemsRender(d, row);
    AllReadable(items);
    TupleRoundTrip(items, rest);
  }

  lemma ArticleItemsRender(d: ArticleDraw, row: ArticleRow)
    requires Quote !in d.id && Quote !in d.publishedAt && Quote !in d.createdAt && Quote !in row.authorId
    requires row.id == d.id && row.title == Escape(d.title) && row.content == Escape(d.content)
    requires row.publishDate == (if d.published then Lit(d.publishedAt) else "NULL")
    requires row.isPublished == BoolLiteral(d.published) && row.createdAt == Lit(d.createdAt)
    ensures ArticleTuple(row) == RenderTuple(ArticleItems(d, row.authorId))
  {
    var items := ArticleItems(d, row.authorId);
    var fields := [Lit(row.id), Lit(row.title), Lit(row.content), row.publishDate, row.isPublished,
                   Lit(row.authorId), row.createdAt, row.createdAt];
    forall i | 0 <= i < 8 ensures RenderEach(items)[i] == fields[i] {
    }
    assert RenderEach(items) == fields;
  }

  /** A comment tuple reads back as the drawn values when the unescaped
      e-mail, the ids and the date hold no quote. */
  lemma CommentTupleReadsBack(d: CommentDraw, articleIds: seq<string>, rest: string)
    requires |articleIds| > 0 && forall i :: 0 <= i < |articleIds| ==> Quote !in articleIds[i]
    requires Quote !in d.id && Quote !in d.authorEmail && Quote !in d.commentedAt
    ensures var row := BuildComment(d, articleIds).value;
            CommentTuple(row) == RenderTuple(CommentItems(d, row.articleId))
    ensures var row := BuildComment(d, articleIds).value;
            ReadTuple(CommentTuple(row) + rest) == Some((CommentItems(d, row.articleId), rest))
  {
    var row := BuildComment(d, articleIds).value;
    var items := CommentItems(d, row.articleId);
    assert Quote !in row.articleId;
    assert RenderEach(items) ==
           [Lit(row.id), Lit(row.articleId), Lit(row.authorName), Lit(row.authorEmail), Lit(row.content),
            row.commentDate, row.createdAt];
    TupleRoundTrip(items, rest);
  }

  predicate PlainAuthor(a: AuthorRow) {
    Quote !in a.id && Quote !in a.username && Quote !in a.email && Quote !in a.createdAt
  }

  predicate PlainArticleDraw(d: ArticleDraw) {
    Quote !in d.id && Quote !in d.publishedAt && Quote !in d.createdAt
  }

  predicate PlainCommentDraw(d: CommentDraw) {
    Quote !in d.id && Quote !in d.authorEmail && Quote !in d.commentedAt
  }

  predicate PlainIds(ids: seq<string>) {
    forall i :: 0 <= i < |ids| ==> Quote !in ids[i]
  }

  /** The whole Authors VALUES body reads back as the authors, in order. */
  lemma AuthorsBlockReadsBack(authors: seq<AuthorRow>, rest: string)
    requires |authors| >= 1 && forall i :: 0 <= i < |authors| ==> PlainAuthor(authors[i])
    ensures ReadValues(ValuesText(AuthorTuples(authors)) + rest) ==
            Some((seq(|authors|, i requires 0 <= i < |authors| => AuthorItems(authors[i])), rest))
  {
    var rows := seq(|authors|, i requires 0 <= i < |authors| => AuthorItems(authors[i]));
    forall i | 0 <= i < |authors|
      ensures AuthorTuples(authors)[i] == RenderTuples(rows)[i]
      ensures |rows[i]| >= 1 && forall j :: 0 <= j < |rows[i]| ==> ReadableItem(rows[i][j])
    {
      AuthorRowRenders(authors[i]);
    }
    assert AuthorTuples(authors) == RenderTuples(rows);
    ValuesRoundTrip(rows, rest);
  }

  lemma AuthorRowRenders(a: AuthorRow)
    requires PlainAuthor(a)
    ensures AuthorTuple(a) == RenderTuple(AuthorItems(a))
    ensures |AuthorItems(a)| >= 1
    ensures forall j :: 0 <= j < |AuthorItems(a)| ==> ReadableItem(AuthorItems(a)[j])
  {
    AuthorTupleReadsBack(a, "");
  }

  /** The rows the reader gets back from the Articles VALUES body. */
  function ArticleReadback(draws: seq<ArticleDraw>, rows: seq<ArticleRow>): seq<seq<Item>>
    requires |rows| == |draws|
  {
    seq(|draws|, i requires 0 <= i < |draws| => ArticleItems(draws[i], rows[i].authorId))
  }

  /** The whole Articles VALUES body reads back as the drawn articles, each with
      the author it was given. */
  lemma {:induction false} ArticlesBlockReadsBack(draws: seq<ArticleDraw>, authorIds: seq<string>, rows: seq<ArticleRow>, rest: string)
    requires GenerateArticles(draws, authorIds) == Some(rows) && |draws| >= 1
    requires PlainIds(authorIds) && forall i :: 0 <= i < |draws| ==> PlainArticleDraw(draws[i])
    ensures ReadValues(ValuesText(ArticleTuples(rows)) + rest) == Some((ArticleReadback(draws, rows), rest))
  {
    ArticleTuplesRender(draws, authorIds, rows);
    ValuesRoundTrip(ArticleReadback(draws, rows), rest);
  }

  lemma {:induction false} ArticleTuplesRender(draws: seq<ArticleDraw>, authorIds: seq<string>, rows: seq<ArticleRow>)
    requires GenerateArticles(draws, authorIds) == Some(rows) && |draws| >= 1
    requires PlainIds(authorIds) && forall i :: 0 <= i < |draws| ==> PlainArticleDraw(draws[i])
    ensures ArticleTuples(rows) == RenderTuples(ArticleReadback(draws, rows))
    ensures ReadableRows(ArticleReadback(draws, rows))
  {
    var back := ArticleReadback(draws, rows);
    forall i | 0 <= i < |draws|
      ensures ArticleTuples(rows)[i] == RenderTuples(back)[i]
      ensures |back[i]| >= 1 && forall j :: 0 <= j < |back[i]| ==> ReadableItem(back[i][j])
    {
      assert BuildArticle(draws[i], authorIds) == Some(rows[i]);
      ArticleRowRenders(draws[i], authorIds, rows[i]);
    }
  }

  lemma ArticleRowRenders(d: ArticleDraw, authorIds: seq<string>, row: ArticleRow)
    requires BuildArticle(d, authorIds) == Some(row)
    requires PlainIds(authorIds) && PlainArticleDraw(d)
    ensures ArticleTuple(row) == RenderTuple(ArticleItems(d, row.authorId))
    ensures |ArticleItems(d, row.authorId)| >= 1
    ensures forall j :: 0 <= j < |ArticleItems(d, row.authorId)| ==> ReadableItem(ArticleItems(d, row.authorId)[j])
  {
    ArticleTupleReadsBack(d, authorIds, "");
    AllReadable(ArticleItems(d, row.authorId));
  }

  function CommentReadback(draws: seq<CommentDraw>, rows: seq<CommentRow>): seq<seq<Item>>
    requires |rows| == |draws|
  {
    seq(|draws|, i requires 0 <= i < |draws| => CommentItems(draws[i], rows[i].articleId))
  }

  /** The whole Comments VALUES body reads back as the drawn comments, each
      with the article it was given. */
  lemma {:induction false} CommentsBlockReadsBack(draws: seq<CommentDraw>, articleIds: seq<string>, rows: seq<CommentRow>, rest: string)
    requires GenerateComments(draws, articleIds) == Some(rows) && |draws| >= 1
    requires PlainIds(articleIds) && forall i :: 0 <= i < |draws| ==> PlainCommentDraw(draws[i])
    ensures ReadValues(ValuesText(CommentTuples(rows)) + rest) == Some((CommentReadback(draws, rows), rest))
  {
    var back := CommentReadback(draws, rows);
    forall i | 0 <= i < |draws|
      ensures CommentTuples(rows)[i] == RenderTuples(back)[i]
      ensures |back[i]| >= 1 && forall j :: 0 <= j < |back[i]| ==> ReadableItem(back[i][j])
    {
      assert BuildComment(draws[i], articleIds) == Some(rows[i]);
      CommentRowRenders(draws[i], articleIds, rows[i]);
    }
    assert CommentTuples(rows) == RenderTuples(back);
    ValuesRoundTrip(back, rest);
  }

  lemma CommentRowRenders(d: CommentDraw, articleIds: seq<string>, row: CommentRow)
    requires BuildComment(d, articleIds) == Some(row)
    requires PlainIds(articleIds) && PlainCommentDraw(d)
    ensures CommentTuple(row) == RenderTuple(CommentItems(d, row.articleId))
    ensures |CommentItems(d, row.articleId)| >= 1
    ensures forall j :: 0 <= j < |CommentItems(d, row.articleId)| ==> ReadableItem(CommentItems(d, row.articleId)[j])
  {
    CommentTupleReadsBack(d, articleIds, "");
  }

  /** The username is written between quotes without escaping: one holding a
      quote ends its literal early, and the reader then finds neither `, ` nor
      `)` where the next separator should be, so the tuple does not read. */
  lemma UnescapedUsernameBreaksTuple(a: AuthorRow, prefix: string, suffix: string, rest: string)
    requires a.username == prefix + [Quote] + suffix
    requires Quote !in a.id && Quote !in prefix
    requires |suffix| > 0 && suffix[0] != Quote && suffix[0] != ',' && suffix[0] != ')'
    ensures ReadTuple(AuthorTuple(a) + rest) == None
  {
    var x := Join([Lit(a.email), Lit(a.createdAt)], ", ") + ")" + rest;
    var r := Lit(a.username) + ", " + x;
    AuthorTupleOpens(a, rest);
    ReadTupleOpen(Lit(a.id) + ", " + r);
    CutLiteralFails(prefix, suffix, ", " + x);
    StrayQuote(prefix, suffix, x);
    SkipLiteral(a.id, r);
  }

  /** An author tuple, and what follows it, seen as its id literal and the rest. */
  lemma AuthorTupleOpens(a: AuthorRow, rest: string)
    ensures AuthorTuple(a) + rest ==
            "(" + (Lit(a.id) + ", " + (Lit(a.username) + ", " + (Join([Lit(a.email), Lit(a.createdAt)], ", ") + ")" + rest)))
  {
    var fields := [Lit(a.id), Lit(a.username), Lit(a.email), Lit(a.createdAt)];
    assert fields[1..] == [Lit(a.username), Lit(a.email), Lit(a.createdAt)];
    assert fields[1..][1..] == [Lit(a.email), Lit(a.createdAt)];
    assert Join(fields, ", ") == Lit(a.id) + ", " + (Lit(a.username) + ", " + Join([Lit(a.email), Lit(a.createdAt)], ", "));
  }

  /** The literal of a text holding a quote, seen as the reader meets it. */
  lemma StrayQuote(prefix: string, suffix: string, x: string)
    ensures Lit(prefix + [Quote] + suffix) + ", " + x == [Quote] + prefix + [Quote] + suffix + [Quote] + (", " + x)
  {
  }

  /** A literal cut short by a stray quote leaves text the reader cannot continue from. */
  lemma CutLiteralFails(prefix: string, suffix: string, after: string)
    requires Quote !in prefix
    requires |suffix| > 0 && suffix[0] != Quote && suffix[0] != ',' && suffix[0] != ')'
    ensures ReadItems([Quote] + prefix + [Quote] + suffix + [Quote] + after) == None
  {
    var r := [Quote] + prefix + [Quote] + suffix + [Quote] + after;
    assert ReadItem(r) == Some((Quoted(prefix), suffix + [Quote] + after)) by {
      UnescapedQuoteCutsLiteral(prefix, suffix, after);
      assert r[1..] == prefix + [Quote] + suffix + [Quote] + after;
    }
    var rest := suffix + [Quote] + after;
    assert rest[0] == suffix[0];
    assert !StartsWith(rest, ", ") && !StartsWith(rest, ")");
  }

  /** A well-formed first literal is skipped, so a failure after it is the tuple's failure. */
  lemma SkipLiteral(id: string, r: string)
    requires Quote !in id && ReadItems(r) == None
    ensures ReadItems(Lit(id) + ", " + r) == None
  {
    assert ReadItem(Lit(id) + ", " + r) == Some((Quoted(id), ", " + r)) by {
      EscapeRoundTrip(id, ", " + r);
      assert (Lit(id) + ", " + r)[1..] == Escape(id) + [Quote] + (", " + r);
    }
    assert (", " + r)[2..] == r;
  }
}
