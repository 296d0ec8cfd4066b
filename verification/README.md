# Blog pipeline and seed tooling — a Dafny model

This project models the request pipeline of the blog service and the three
scripts that create and check its seed data. It also proves properties of the model.

- **Pipeline.** A request's `(data, metadata)` envelope goes through three stages.
  - `BlogInputProcessor` filters, renames and coerces entries and stamps the metadata.
  - `BlogExecutor` resolves the SQL template, finds the JDBC engine and the first
    JDBC source provider, runs the query and shapes the `{count, data, columns}` response.
  - `BlogOutputProcessor` passes the result through and stamps the context.
- **Command line.** `BlogApp` picks a configuration file from the first argument
  that starts with `--`.
- **Loader.** `populate_db.py` splits a SQL file into statements line by line and
  tallies the database's answers.
- **Generator.** `generate_test_data.py` draws authors, articles and comments,
  doubles the quotes in free text, and writes three multi-row `INSERT` statements.
- **Checker.** `verify_relationships.py` reads the generated file back with regular
  expressions and reports whether every article names a known author and every
  comment a known article.

Modules follow the source: `Assoc` (Java maps as association lists), `Materialized`,
`InputProcessor`, `Executor`, `OutputProcessor`, `Pipeline`, `AppConfig`,
`SqlSplitter`, `Populate`, `SqlLiteral`, `SeedGenerator`, `Relationships`, with
`Wrappers` and `Strings` as support.

Foreign code appears as function-valued parameters:
- the template builder and the query engine (`Executor.Oracles`);
- the database (`Populate.ExecuteStatements`'s `run`);
- Faker and `random` (the `*Draw` records).

Clocks are plain string parameters.

Behaviours of the code worth knowing, which the model follows:
- The pre-processor writes `pre-processor-executed-at` with `put`, so an
  existing value is overwritten.
- The pre-processor can fail. `Collectors.toMap` rejects a null value with a
  null-reference exception (`InputProcessor.Collect` returns an error).
- A missing JDBC engine is raised as a `QueryExecutionException`, so it is
  reported as "Query execution failed", the same message as a failing query.
- The source provider is always looked up by the fixed type `JdbcSourceProvider`,
  not by the resolved query's dialect.
- A resolution failure carries the message "Unexpected execution failure" with
  the cause kept. It does not name the template or the parameter.

## Model

| member | source | states |
|---|---|---|
| Assoc.Lookup | src/main/java/io/blog/pipeline/BlogExecutor.java:163-164 | `map.get`: absent exactly when the key is not in the map, and otherwise a value stored under that key |
| Assoc.Put | src/main/java/io/blog/pipeline/BlogExecutor.java:112-121 | `LinkedHashMap.put`: the key then maps to the new value, every other key keeps its lookup, the key set grows by that key, and unique keys stay unique |
| Assoc.PutKeys | src/main/java/io/blog/pipeline/BlogExecutor.java:112-121 | `put` never reorders: an existing key keeps its place and a new key is appended last |
| Assoc.PutNew | src/main/java/io/blog/pipeline/BlogExecutor.java:114 | putting a fresh key appends exactly one entry and leaves the rest as it was |
| Assoc.PutIfAbsent | src/main/java/io/blog/pipeline/BlogOutputProcessor.java:80 | `putIfAbsent`: the key then maps to its old value if it had one and to the new value otherwise; every other key keeps its lookup; the key set gains the key; unique keys stay unique; an existing key keeps the order and a new one is appended |
| Assoc.LookupAt | src/main/java/io/blog/pipeline/BlogExecutor.java:163-164 | in a map with unique keys, looking up an entry's key gives that entry's value |
| InputProcessor.Collect | src/main/java/io/blog/pipeline/BlogInputProcessor.java:83-99 | the `filter`/`toMap` collection fails exactly when a kept entry's value is null; otherwise keys are unique and every key maps to the value of the last kept entry renamed to it |
| InputProcessor.LastValueDefined | src/main/java/io/blog/pipeline/BlogInputProcessor.java:83-90 | a key is present after collection exactly when some kept entry is renamed to it |
| InputProcessor.LastWriteWins | src/main/java/io/blog/pipeline/BlogInputProcessor.java:44 | on a collision of renamed keys, the value of the last kept entry in iteration order wins |
| InputProcessor.LastValueIdentity | src/main/java/io/blog/pipeline/BlogInputProcessor.java:92-99 | metadata keeps its keys and values; only the filter applies |
| InputProcessor.PreProcess | src/main/java/io/blog/pipeline/BlogInputProcessor.java:81-104 | fails exactly on a null data or metadata value; data is the last-write-wins collection; metadata is the filtered input plus `pre-processor-executed-at` set to the clock, overwriting any earlier value |
| InputProcessor.CurrentHooksKeepData | src/main/java/io/blog/pipeline/BlogInputProcessor.java:121-161 | with the shipped pass-through hooks and no null values, the data map comes out as it went in |
| Executor.FromConfig | src/main/java/io/blog/pipeline/BlogExecutor.java:75-78 | construction succeeds exactly when the `template` and `name` entries are each a string, null or missing; each field then holds its entry, with a missing entry read as null; otherwise the first entry that fails its cast is named, `template` before `name` |
| Executor.ConfiguredNameStored | src/main/java/io/blog/pipeline/BlogExecutor.java:112-114 | after a successful run, `executor-name` holds exactly what the configuration's `name` entry held, and null when the configuration has no `name` |
| Executor.ExtractParameters | src/main/java/io/blog/pipeline/BlogExecutor.java:277-281 | an absent parameters key gives an empty map; a stored map or null passes through; any other value fails the cast |
| Executor.Resolve | src/main/java/io/blog/pipeline/BlogExecutor.java:270-303 | succeeds exactly when extraction succeeds and the builder builds, with the builder's request; every failure is the resolution failure |
| Executor.JdbcEngine | src/main/java/io/blog/pipeline/BlogExecutor.java:163-170 | the engine is found exactly when the metadata holds a JDBC engine under the engine key; otherwise the failure is "no engine" |
| Executor.FirstProviderIndex | src/main/java/io/blog/pipeline/BlogExecutor.java:342-345 | `filter(isInstance).findFirst()`: the first provider of the kind, with none of that kind before it; none exactly when no provider has the kind |
| Executor.SelectSource | src/main/java/io/blog/pipeline/BlogExecutor.java:329-352 | no sources map gives "no sources"; with a sources map, a provider is found exactly when the map holds a JDBC provider, it is the first JDBC one in iteration order, and otherwise the failure is "no source of type JdbcSourceProvider" |
| Executor.Dispatch | src/main/java/io/blog/pipeline/BlogExecutor.java:158-187 | the engine is checked before the sources; with both found, a returned result is passed on as is, a `QueryExecutionException` and any other engine failure become distinct causes with their detail |
| Executor.ToMap | src/main/java/io/blog/pipeline/BlogExecutor.java:379-395 | the response has keys `count`, `data`, `columns` in that order; reading it back gives the engine's rows and columns unchanged; `count` is `(total_found, page_size)` |
| Executor.CountFallback | src/main/java/io/blog/pipeline/BlogExecutor.java:382-387 | with no rows, or a first row without (or with a null) `total_found`, both counts are the number of rows |
| Executor.CountFromFirstRow | src/main/java/io/blog/pipeline/BlogExecutor.java:382-386 | a non-null `total_found` in the first row is the total, while `page_size` is the number of rows |
| Executor.TotalFoundReadsFirstRowOnly | src/main/java/io/blog/pipeline/BlogExecutor.java:383-385 | rows after the first never affect the total |
| Executor.CountOverride | src/main/java/io/blog/pipeline/BlogExecutor.java:382-386 | when every row carries the same non-null `total_found`, that value is the total |
| Executor.Execute | src/main/java/io/blog/pipeline/BlogExecutor.java:112-136 | succeeds exactly when resolution and dispatch do, otherwise fails with the failing step's cause under the catch block's message; the response carries exactly the engine's rows and columns; output metadata is the input metadata plus the executor name (null when the configuration gave none) and the resolved SQL, nothing else changed |
| Executor.ResolutionFailure | src/main/java/io/blog/pipeline/BlogExecutor.java:116-117 | a resolution failure surfaces as "Unexpected execution failure" |
| Executor.MissingEngineFailure | src/main/java/io/blog/pipeline/BlogExecutor.java:130-132 | a missing JDBC engine surfaces as "Query execution failed" |
| Executor.MissingSourceFailure | src/main/java/io/blog/pipeline/BlogExecutor.java:133-135 | a missing sources map or JDBC provider surfaces as "Unexpected execution failure" with that cause |
| Executor.EngineAnswerDecides | src/main/java/io/blog/pipeline/BlogExecutor.java:123-136 | with template, engine and provider in place, the engine's rows become the response, a `QueryExecutionException` from the engine gives "Query execution failed" and any other engine failure "Unexpected execution failure", detail kept |
| Executor.FailureMessages | src/main/java/io/blog/pipeline/BlogExecutor.java:130-136 | the message is "Query execution failed" exactly when the cause is a `QueryExecutionException` |
| Executor.Apply | src/main/java/io/blog/pipeline/BlogExecutor.java:105-110 | the context gains `executed-at` only when absent, no other context key changes, and the outcome is the stage's |
| Executor.NoEngineNoExecute | src/main/java/io/blog/pipeline/BlogExecutor.java:163-186 | without a JDBC engine the stage fails whatever the engine would have answered |
| Executor.ResolutionFailsBeforeLookup | src/main/java/io/blog/pipeline/BlogExecutor.java:116-124 | a resolution failure does not depend on the metadata or on the engine |
| Executor.MetadataOrderKept | src/main/java/io/blog/pipeline/BlogExecutor.java:112-121 | output metadata lists the input's keys first, in their order |
| OutputProcessor.Diagnose | src/main/java/io/blog/pipeline/BlogOutputProcessor.java:68-78 | the log branch: "missing" exactly when `data` is absent or null, "list" exactly when it is a list (with its size) |
| OutputProcessor.PostProcess | src/main/java/io/blog/pipeline/BlogOutputProcessor.java:66-83 | returns the received envelope; the context gains `post-processor-at` only when absent, and no other key changes |
| OutputProcessor.PaginationShape | src/main/java/io/blog/pipeline/BlogOutputProcessor.java:110-124 | keys `data`, `pagination`, `columns` in order; pagination reads as `(rowCount, number of rows, 1, 1)` |
| OutputProcessor.ShapesAgree | src/main/java/io/blog/pipeline/BlogOutputProcessor.java:110-124 | the unused shaper and the executor's response carry the same `data` and `columns`, with `pageSize` equal to `page_size` |
| Pipeline.RunRequest | src/main/java/io/blog/pipeline/BlogExecutor.java:105-136 | the three stages in order: a pre-processing failure leaves the context untouched; once the executor runs, its `executed-at` write stays even when it fails; success exactly when both stages succeed, with the executor's output passed through; an executor failure is reported as is |
| Pipeline.MetadataPropagates | src/main/java/io/blog/pipeline/BlogExecutor.java:112-128 | end to end with the shipped hooks, every metadata key that no stage writes reaches the caller unchanged |
| Pipeline.ContextAnnotations | src/main/java/io/blog/pipeline/BlogOutputProcessor.java:80 | after a successful request the context holds the executor's and the post-processor's timestamps, each only if absent before, and nothing else changed |
| Pipeline.PreFailureStopsEarly | src/main/java/io/blog/pipeline/BlogInputProcessor.java:83-90 | a null data value stops the request in the first stage with the context untouched |
| AppConfig.MapArgToConfig | src/main/java/io/blog/BlogApp.java:119-138 | `--mcp-stdio` and `--mcp-http` pick their files exactly; every other argument, `--rest` included, gives the REST file |
| AppConfig.FirstFlagIndex | src/main/java/io/blog/BlogApp.java:97-99 | the first argument starting with `--`, with none before it; none exactly when no argument starts with `--` |
| AppConfig.SelectConfigFromArgs | src/main/java/io/blog/BlogApp.java:91-104 | no arguments or no flag give the default; otherwise the first flag decides |
| AppConfig.SelectMatchesStream | src/main/java/io/blog/BlogApp.java:97-103 | the index scan equals the stream pipeline `filter`, `findFirst`, `map`, `orElse` |
| AppConfig.LaterArgumentsIgnored | src/main/java/io/blog/BlogApp.java:97-99 | appending arguments after a flag never changes the choice |
| SqlSplitter.StripEndsStatement | infra/postgres/populate_db.py:122 | `strip().endswith(';')` holds exactly when the last non-space character is `;` |
| SqlSplitter.SplitSql | infra/postgres/populate_db.py:97-126 | every statement produced is non-empty and ends with `;` |
| SqlSplitter.Kept | infra/postgres/populate_db.py:103-119 | the kept lines are a subsequence of the input, none blank, a `--` line, or a comment marker line |
| SqlSplitter.Chunks | infra/postgres/populate_db.py:119-126 | each group ends with its only `;`-terminated line; the tail has none |
| SqlSplitter.ChunksFlatten | infra/postgres/populate_db.py:119-126 | the groups and the tail, concatenated, are exactly the kept lines |
| SqlSplitter.StatementEnds | infra/postgres/populate_db.py:123-125 | a closed group's joined, stripped text is non-empty and ends with `;`, so `if statement:` never drops one |
| SqlSplitter.ScanMatchesReference | infra/postgres/populate_db.py:99-126 | the single-pass loop equals the reference: filter the lines, cut after each `;` line, join and strip each group |
| SqlSplitter.SplitSqlReference | infra/postgres/populate_db.py:97-126 | the split is the reference split of the file's lines |
| SqlSplitter.CommentHidesLines | infra/postgres/populate_db.py:111-117 | after a line opening `/*`, no line is kept until one contains `*/` |
| SqlSplitter.CloserDropped | infra/postgres/populate_db.py:113-115 | a line containing `*/` is never kept; it closes the comment unless it is blank or a `--` line |
| Populate.ExecuteStatements | infra/postgres/populate_db.py:130-164 | success exactly when every statement ran; without an unexpected exception, `failed` counts the database errors, duplicate-key ones included, and executed plus failed is the number of statements |
| Populate.ExecuteSqlFile | infra/postgres/populate_db.py:73-164 | a missing file fails; otherwise success exactly when every split statement ran; an empty split succeeds |
| SqlLiteral.Escape | infra/postgres/generate_test_data.py:119 | text without a quote is left unchanged |
| SqlLiteral.EscapeRoundTrip | infra/postgres/generate_test_data.py:141 | an escaped text, closed by a quote, reads back as exactly the original text |
| SqlLiteral.UnescapedQuoteCutsLiteral | infra/postgres/generate_test_data.py:246 | a text written without escaping reads back only up to its first quote |
| SqlLiteral.TupleRoundTrip | infra/postgres/generate_test_data.py:256-258 | a rendered tuple reads back as its items, leaving what followed |
| SqlLiteral.ValuesRoundTrip | infra/postgres/generate_test_data.py:248 | a `,\n`-joined, `;`-closed VALUES body reads back as exactly its rows, in order |
| SeedGenerator.Choice | infra/postgres/generate_test_data.py:97 | `choice` on an empty list raises; otherwise it returns a member of the list |
| SeedGenerator.ChoiceReachesAll | infra/postgres/generate_test_data.py:188 | every member of the list can be chosen |
| SeedGenerator.BuildArticle | infra/postgres/generate_test_data.py:95-147 | the author is one of the given ids; a draft has publish date `NULL`; `is_published` is `TRUE` exactly for published articles |
| SeedGenerator.BuildComment | infra/postgres/generate_test_data.py:186-221 | the article is one of the given ids; comment date and creation date are the same instant |
| SeedGenerator.GenerateArticles | infra/postgres/generate_test_data.py:68-149 | fails exactly when there are articles to make and no authors; otherwise one article per draw, each naming a given author |
| SeedGenerator.GenerateComments | infra/postgres/generate_test_data.py:151-223 | fails exactly when there are comments to make and no articles; otherwise one comment per draw, each naming a given article |
| SeedGenerator.FirstFreeDraw | infra/postgres/generate_test_data.py:50-56 | the first of the 101 draws whose normalised name is free, with every earlier one taken |
| SeedGenerator.PickUsername | infra/postgres/generate_test_data.py:48-56 | takes the first free draw, after that many draws, and the result is free; with no free draw it takes the unchecked `user_` fallback; a taken result is always the fallback |
| SeedGenerator.GenerateAuthors | infra/postgres/generate_test_data.py:37-66 | one author per draw with its id, e-mail and date; each username drawn; a repeated username is always the fallback |
| SeedGenerator.ValidateCounts | infra/postgres/generate_test_data.py:330-338 | accepts exactly when all three counts are at least 1; otherwise reports the first count below 1 with its message |
| SeedGenerator.SqlLines | infra/postgres/generate_test_data.py:232-279 | the document is 22 lines, and reading the numbers back from the summary `SELECT` gives the numbers of authors, articles and comments |
| SeedGenerator.SummaryCountReads | infra/postgres/generate_test_data.py:277-279 | a summary line reads back as the count written into it |
| SeedGenerator.GenerateSql | infra/postgres/generate_test_data.py:225-281 | the joined file opens with the banner line and ends, with no trailing line break, on the summary line that reports the number of comments |
| SeedGenerator.AuthorTupleReadsBack | infra/postgres/generate_test_data.py:244-247 | an author tuple with quote-free fields reads back as the author's four values |
| SeedGenerator.ArticleTupleReadsBack | infra/postgres/generate_test_data.py:255-258 | an article tuple reads back as the drawn values, title and content exactly, quotes included |
| SeedGenerator.CommentTupleReadsBack | infra/postgres/generate_test_data.py:266-269 | a comment tuple reads back as the drawn values when the unescaped e-mail holds no quote |
| SeedGenerator.AuthorsBlockReadsBack | infra/postgres/generate_test_data.py:242-248 | the whole Authors VALUES body reads back as the authors, in order |
| SeedGenerator.ArticlesBlockReadsBack | infra/postgres/generate_test_data.py:253-259 | the whole Articles VALUES body reads back as the drawn articles, each with the author it was given |
| SeedGenerator.CommentsBlockReadsBack | infra/postgres/generate_test_data.py:264-270 | the whole Comments VALUES body reads back as the drawn comments, each with the article it was given |
| SeedGenerator.UnescapedUsernameBreaksTuple | infra/postgres/generate_test_data.py:246 | a username holding a quote (not followed by a delimiter) makes the author tuple unreadable |
| Relationships.FirstFromSpec | infra/postgres/verify_relationships.py:19 | the search finds a match exactly when there is one, and then the leftmost |
| Relationships.SearchOpenUuid | infra/postgres/verify_relationships.py:42 | `\('uuid'` is found exactly when it occurs; the group is the uuid of the leftmost match |
| Relationships.SearchQuotedUuid | infra/postgres/verify_relationships.py:53 | `'uuid'` is found exactly when it occurs; the group is the uuid of the leftmost match |
| Relationships.ValuesBlockShape | infra/postgres/verify_relationships.py:18-23 | the captured VALUES group holds no `;` and does not start with whitespace |
| Relationships.ValuesBlockOfLayout | infra/postgres/verify_relationships.py:18-23 | for a header, column list, `VALUES`, line break, body and `;`, the group is exactly the body when the header does not occur earlier, the columns hold no `VALUES` keyword, and the body holds no `;` and does not start blank |
| Relationships.OpenUuids | infra/postgres/verify_relationships.py:24-25 | every id collected by the `finditer` scan is a uuid |
| Relationships.ScanFindsEveryMatch | infra/postgres/verify_relationships.py:24-25 | the non-overlapping scan collects exactly the uuids of all `('uuid'` occurrences |
| Relationships.AuthorIdsAreMatches | infra/postgres/verify_relationships.py:17-25 | the author ids are exactly the `('uuid'` matches in the Authors VALUES group |
| Relationships.ArticleLineId | infra/postgres/verify_relationships.py:40-45 | a line registers an article exactly when it starts with `(` after stripping and holds a `('uuid'`; the id is the leftmost such uuid |
| Relationships.ArticleLineRef | infra/postgres/verify_relationships.py:47-55 | a reference is read exactly when the line registers an article, has at least six comma pieces and the stripped sixth piece holds a quoted uuid; the pair is the article id and that uuid |
| Relationships.CommentLineRef | infra/postgres/verify_relationships.py:81-92 | a reference is read exactly when a tuple line holds a `('uuid'`, has at least two comma pieces and the stripped second piece holds a quoted uuid; the pair is the comment id and that uuid |
| Relationships.Collect | infra/postgres/verify_relationships.py:39-55 | the loop appends exactly the results of the lines that yield one |
| Relationships.CollectAll | infra/postgres/verify_relationships.py:80-92 | when every line yields a result, collecting is mapping |
| Relationships.ReferencingArticlesAreRegistered | infra/postgres/verify_relationships.py:43-55 | every article whose reference is read is also registered as an article |
| Relationships.Dangling | infra/postgres/verify_relationships.py:60-63 | the dangling references are exactly those whose target is unknown, and there are none exactly when all targets are known |
| Relationships.Judge | infra/postgres/verify_relationships.py:59-111 | valid exactly when both checks pass; the article check runs first and its failure reports exactly the bad article references |
| Relationships.ExtractUuidsFromSql | infra/postgres/verify_relationships.py:12-111 | true exactly when every read article reference names an extracted author and every comment reference an extracted article |
| Relationships.CommentLineReadsRef | infra/postgres/verify_relationships.py:80-92 | the first line of a generated comment tuple yields the comment's id and its article's id |
| Relationships.ArticleFirstLineDropsRef | infra/postgres/verify_relationships.py:39-55 | the first line of a generated article whose content has a line break registers the article but yields no author reference |
| Relationships.GeneratedArticleRefsRead | infra/postgres/verify_relationships.py:37-38 | read tuple by tuple, a generated Articles body yields every article with its author, in order, each a given author |
| Relationships.ExtractUuidsFromSqlCorrected | infra/postgres/verify_relationships.py:12-111 | true exactly when the Articles body reads as tuples, every article's author is an extracted author, and every comment's article an extracted article |

## Left out

- Logging, `print` output, progress lines, `sys.exit` codes and file reading or writing.
  - Files are passed in as their contents (`Option<string>` when the file may be missing).
- Faker, `uuid4`, `random`, `datetime.now()` and `Instant.now()`: their values are inputs.
- The `published_ratio` float comparison, `randint` ranges and date arithmetic.
  - `generate_articles` and `generate_comments` take the drawn flag and dates as given.
  - The float range check in `main` is not modelled; only the three integer count checks are.
- Database connection and retries (`connect`), `get_table_counts`, `close`, and the argument parsers.
- The framework code that chains the three stages is not part of this model. `Pipeline.RunRequest`
  chains them in order, passing one stage's output to the next and sharing one context.
- The unused `executeQuery` of `BlogExecutor`: it is dead code, never called by `apply`.
- The foreign collaborators, which are oracles here:
  - `SqlTemplateQueryBuilder`, the query engine, and the `Key` enum, whose key strings are named constants;
  - `QueryEngineContext` construction.
- Java `HashMap` iteration order.
  - The pre-processor's maps are built in first-insertion order.
  - Its contracts speak only of lookups and key sets, which do not depend on order.
- Unicode: `strip()` and `\s` use the listed whitespace characters; `lower()` handles ASCII letters only.
- Regular expressions are modelled only for the patterns used, as leftmost-match searches.
- GenerateSql: no lemma runs the whole generated document through `SplitSql` or `ValuesBlock`.
  - Instead, each VALUES body is proved to read back.
  - `ValuesBlockOfLayout` states when the regex group is exactly such a body.
- SeedGenerator.SqlLines: the contract does not restate the VALUES lines. Their content is
  pinned down by the read-back lemmas.
- Executor.JdbcEngine: assumes that `MaterializedInput.getMetadata(key, type)`, whose code is not part of
  this model, returns an empty `Optional` for a missing entry, a null, or a value of another type.
  If it casts instead, a non-JDBC engine raises a `ClassCastException`, which `apply` reports as
  "Unexpected execution failure" rather than the "no engine" failure modelled here.
- Executor.SelectSource: makes the same assumption about the typed lookup of the sources map. A
  sources entry that is not a map is read as "no sources" (`PipelineException`); a casting lookup
  would give a `ClassCastException`, reported under the same message with another cause.
- Executor.MissingSourceFailure: assumes that `CheshireRuntimeError`, thrown when no JDBC
  provider is found, is caught by `catch (final Exception e)`. Its class is not part of this
  model. It must be unchecked, since `getSourceProvider` does not declare it; if it extends
  `java.lang.Error`, it leaves `apply` unwrapped instead.
- Populate.ExecuteStatements: statements are numbered from 0, not 1. The number appears only in log lines.

## Findings

| source | as written | input that shows it | evidently intended | confidence | as-written member | corrected member |
|---|---|---|---|---|---|---|
| infra/postgres/verify_relationships.py:39-55 | the author of an article is read from the sixth comma-separated piece of the first line of its tuple | any generated article: its content is paragraphs joined by a blank line, so the first line is `('id', 'title', 'first paragraph`, three pieces when title and paragraph have no comma; the article is registered but no author reference is read, so the article→author check never fails | read each article tuple as a whole and take its sixth value as the author | not executed | Relationships.ArticleFirstLineDropsRef | Relationships.GeneratedArticleRefsRead |
