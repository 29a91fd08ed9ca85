# pg_tiny_client, modelled in Dafny

pg_tiny_client is a small Flask tool that runs ad-hoc SQL against a
PostgreSQL database. This project models the logic that sits beneath its web
and driver plumbing, and proves what that logic promises:

- **`db.py`** (modules `DbConfig`, `QueryRunner`, `Catalog`):
  - choosing the environment (`safe_env`);
  - building the connection configuration from the settings of `.env.{env}`, with its defaults, the redacted view that is logged and the password-free view shown in the UI;
  - the `lru_cache` around the loader, as a `ConfigCache` object;
  - the batch runner `run_query`: split on `;`, strip, skip the empty pieces, set the search path, run each statement, keep the last statement's result, stop at the first exception and fall back to a message when nothing useful was produced;
  - the catalog helpers `get_table_fullnames` and `get_default_tables`.
- **`app.py`** (modules `QueryCleaning`, `History`, `WebApp`):
  - removing comment and blank lines (`clean_submitted_query`);
  - the bounded, duplicate-free query history (`save_query_to_history`), as a `QueryHistory` object whose `entries` field stands for the history file;
  - `truncate_log`;
  - the rule in `index` that replaces an empty result list with a message;
  - choosing the `/config` page's environment, its five-line settings file and the form it reads back.
- **`PyText` and `Values`**: the Python string operations the code relies on (`strip`, `split`, `splitlines`, `join`, `startswith`, slicing) and the values that flow through it (`None`-or-string, row values, `dict(zip(cols, row))`).

The database is an oracle, `QueryRunner.Driver`:
- `replies[0]` is the server's answer to `SET search_path`;
- `replies[k]` is its answer to the k-th user statement sent: a result set with columns and rows, no result set, or an exception;
- `connectError` is an exception raised while loading the configuration or connecting;
- `commitError` is an exception raised by the commit at the end of the connection's `with` block.

The file system is a map from the path of each existing env file to what the dotenv parser returns for it. Clock readings are parameters.

Three places where the code is modelled as written:
- **The result of an empty result set.** `run_query` ends with `final_result or [...]` (db.py:160-162). An empty row list is falsy, so an empty result set gives the "Nessun risultato utile" message, not an empty list. The model follows the code (`QueryRunner.NothingUseful`). As a consequence, the empty-list message of `index` and the "no tables" message of `get_default_tables` are never produced (`WebApp.IndexNeverShowsNoResult`, `Catalog.NoTablesMessageUnreachable`).
- **Which statement's result is returned.** The docstring of `run_query` (db.py:126-129) promises the result of the last statement that produces rows, or a message when no statement produces results. The code instead overwrites `final_result` after every statement (db.py:150-158): a statement without a result set stores the "eseguita con successo" message. So `SELECT * FROM t; UPDATE t SET x = 1` returns the success message, not the rows of the SELECT. The model follows the code (`QueryRunner.LastStatementWins`, `QueryRunner.RowsThenCommand`).
- **The settings file names.** The `/config` page writes `env.{env}` (app.py:145), while `load_db_config` reads `.env.{env}` (db.py:61). The model keeps both names and proves that the page's file is never the one loaded (`WebApp.ConfigFileNeverLoaded`, `WebApp.ConfigPageInvisibleToLoad`).

## Model

| member | source | states |
|---|---|---|
| DbConfig.SafeEnv | db.py:16-20 | the result is always a valid environment; it equals the input exactly when the input is valid, and is "dev" otherwise |
| DbConfig.SafeEnvIdempotent | db.py:19-20 | normalising twice is normalising once |
| DbConfig.Or | db.py:72-75 | `v or default`: the value when it is a non-empty string, the default for `None` or "" |
| DbConfig.EnvFileName | db.py:60-61 | definition: `.env.` followed by the environment, or by "dev" when it is `None` or ""; `EnvDefaultsToDev` and `WebApp.ConfigFileNeverLoaded` state what it selects |
| DbConfig.Truthy | db.py:72-75 | definition: Python truthiness of a string-or-`None`, true exactly for a non-empty string; `Or`, `WebApp.ConfigEnv` and `WebApp.IndexResult` use it |
| DbConfig.Get | db.py:70-75 | definition: `config_values.get(key)`, the setting's value or `None` when the key is absent; `LoadDbConfigFields` states the fields it yields |
| DbConfig.ConfigValues | db.py:61-67 | the settings are those parsed from `.env.{env}` when that file exists, and the empty map when it does not |
| DbConfig.EnvDefaultsToDev | db.py:60-61 | `None` and "" both select `.env.dev` |
| DbConfig.LoadDbConfig | db.py:69-76 | the configuration has exactly the six keys, and `name` and `schema` are never empty |
| DbConfig.LoadDbConfigFields | db.py:69-76 | host, port, user and password are copied from their settings as they are (possibly `None`); name and schema are the setting when it is non-empty, and "postgres" or "public" otherwise |
| DbConfig.MissingEnvFile | db.py:62-76 | without an env file every field is `None` except the two defaults |
| DbConfig.SafeConfig | db.py:78 | the logged view has the same keys, "****" for the password and every other value unchanged |
| DbConfig.DbInfo | db.py:88 | exactly the keys host, port, name, user and schema, with the configuration's values, and never the password |
| DbConfig.PasswordNeverShown | db.py:78-88 | two settings files that differ only in the password give the same logged view and the same UI view |
| DbConfig.ConfigCache.constructor | db.py:57 | the cache starts empty |
| DbConfig.ConfigCache.Load | db.py:56-81 | a cached environment returns its cached configuration; otherwise the configuration is loaded and cached |
| DbConfig.ConfigCache.GetDbInfo | db.py:84-88 | the display view of the cached configuration when the environment is cached, and otherwise of the configuration loaded from the env files, which is then cached; the cache is given in full |
| DbConfig.FirstDbInfo | db.py:84-88 | the first `get_db_info` of an environment shows the display fields of `LoadDbConfig` for it, and never the password |
| DbConfig.LoadTwice | db.py:57-58 | a second load of the same environment returns the first result, whatever the env files hold by then |
| QueryRunner.ActiveSchema | db.py:134 | never empty: the configured schema when it is a non-empty string, "public" otherwise |
| QueryRunner.SearchPath | db.py:140 | definition: the statement `SET search_path TO {schema};`; `SearchPathFirst` states that it is sent first |
| QueryRunner.StripAll | db.py:144 | one stripped piece per piece; `StripAllAt` states that piece i is `Strip` of piece i |
| QueryRunner.NonEmpty | db.py:145-146 | keeps at most as many strings as it looks at; `NonEmptyKept`, `AllEmptyNoneKept` and `NoneEmptyAllKept` state which strings it keeps |
| QueryRunner.Statements | db.py:143-146 | definition: the non-empty stripped pieces of `query.split(";")`, in order; `StatementsWellFormed`, `StatementsOfJoin` and `BlankQueryNoStatements` state what they are |
| QueryRunner.SentStatements | db.py:136-148 | nothing is sent when connecting fails; otherwise the search path and then a prefix of the statements in order, at least the search path and at most all of them |
| QueryRunner.Step | db.py:144-158 | definition: one turn of the loop, skipping an empty piece, doing nothing once a statement has raised, and otherwise sending the statement and keeping its candidate; `StepSentOf` and `StepMatchesReplies` state the invariants it keeps |
| QueryRunner.ActiveSchemaOfLoaded | db.py:133-134 | for a loaded configuration the search path uses the configured schema, which is never empty |
| QueryRunner.StatementsWellFormed | db.py:143-146 | every statement executed is non-empty, has no surrounding whitespace and holds no ';' |
| QueryRunner.StatementsOfJoin | db.py:143-146 | well-formed statements joined with ';' are split back into exactly those statements |
| QueryRunner.BlankQueryNoStatements | db.py:143-146 | a text of only separators and whitespace executes no statement |
| QueryRunner.Candidate | db.py:149-158 | a result set with columns gives one dictionary per row; anything else gives the single "eseguita con successo" message |
| QueryRunner.FirstRaise | db.py:148-165 | the position of the first exception among the replies, with no exception before it, or none at all |
| QueryRunner.Fallback | db.py:160-162 | never empty: a non-empty candidate as it is, the "nothing useful" message for none or an empty one |
| QueryRunner.RunQueryResult | db.py:124-165 | the result of `run_query` is never an empty list |
| QueryRunner.Executed | db.py:142-158 | the loop never sends more statements than there are non-empty stripped pieces |
| QueryRunner.ExecutedStops | db.py:147-148 | once a statement has raised, the remaining pieces change nothing |
| QueryRunner.ExecuteStatements | db.py:142-158 | the loop's statements sent, last candidate and early stop are those of the reference `Executed` |
| QueryRunner.ExecutedSent | db.py:143-148 | the statements sent are the non-empty stripped pieces in split order, or a prefix of them ending at the one that raised |
| QueryRunner.ExecutedReplies | db.py:148-158 | no earlier statement raised; the loop stopped exactly when the last statement raised; without a stop, the candidate is that of the last statement |
| QueryRunner.LoopRaised | db.py:148-165 | a loop stopped by an exception sends the search path and the statements up to that one, and returns exactly that error record |
| QueryRunner.LoopCompleted | db.py:136-162 | a loop run to the end sends every statement, and returns the commit's error or the fallback of the last candidate |
| QueryRunner.RunQuery | db.py:124-165 | the method returns `RunQueryResult` and sends `SentStatements` for every driver behaviour |
| QueryRunner.CompletedRun | db.py:136-162 | with no exception, the search path and every statement are sent, and the result is the commit's error or the fallback of the last statement's candidate |
| QueryRunner.SearchPathFirst | db.py:140-148 | the search path is sent before any user statement, and the user statements follow in split order |
| QueryRunner.AbortOnRaise | db.py:140-165 | an exception at reply k (0 is the search path) stops the batch: only the statements up to it are sent, and the result is exactly that one error record |
| QueryRunner.ConnectFailure | db.py:132-165 | a failure to load the configuration or to connect sends nothing and returns that one error record |
| QueryRunner.LastStatementWins | db.py:149-162 | without exceptions the result depends on the last statement's reply alone |
| QueryRunner.EarlierResultsOverwritten | db.py:149-158 | two runs that agree on the last reply return the same result, whatever the earlier statements returned |
| QueryRunner.RowsThenCommand | db.py:126-158 | a final statement without a result set replaces the rows of an earlier statement: the result is the single success message |
| QueryRunner.RowsOfLastStatement | db.py:149-152 | a last result set with columns gives one record per row, built with `dict(zip(cols, row))` |
| QueryRunner.NothingUseful | db.py:160-162 | with no statement, or an empty last result set, the result is the single "nothing useful" message |
| Values.Str | db.py:181 | an integer prints as a non-empty run of decimal digits, with a leading "-" exactly when it is negative |
| Values.ZipDict | db.py:152 | every key is one of the column names and every value one of the row's values; no column or no value gives the empty dictionary; `ZipDictAt` states the keys and the lookups |
| Values.RowsToRecords | db.py:150-152 | one dictionary per row, in row order, each the `ZipDict` of the columns and that row |
| Values.MessageRecord | db.py:155-162 | definition: the one-key dictionary `{"message": text}` |
| Values.ErrorRecord | db.py:165 | definition: the one-key dictionary `{"error": str(e)}` |
| Catalog.HasNames | db.py:180 | definition: the row carries both "schemaname" and "tablename"; `FullnamesOne` and `ErrorAndMessageContributeNothing` state its effect |
| Catalog.FullName | db.py:181 | definition: `f"{row['schemaname']}.{row['tablename']}"`; `FullnamesOne` and `CatalogRows` state where it is used |
| Catalog.Fullnames | db.py:177-182 | at most one full name per row |
| Catalog.FullnamesOne | db.py:178-181 | one row contributes "schema.table" when it has both columns, and nothing otherwise |
| Catalog.TableFullnames | db.py:177-182 | the loop's list is the reference `Fullnames` of the rows |
| Catalog.AllNamed | db.py:178-181 | when every row has both columns, there is one full name per row, in row order |
| Catalog.ErrorAndMessageContributeNothing | db.py:178-181 | error and message records give no full name |
| Catalog.NoTablesListed | db.py:173-182 | a failed connection, or a catalog with no rows, lists no table |
| Catalog.CatalogRows | db.py:173-181 | the catalog query's rows give "schemaname.tablename" for every row, in row order |
| Catalog.DefaultTables | db.py:95-101 | the "Nessuna tabella" message exactly when the result is an empty list, and the result unchanged otherwise |
| Catalog.NoTablesMessageUnreachable | db.py:93-101 | because `run_query` never returns an empty list, the "no tables" message is never produced |
| QueryCleaning.KeepLine | app.py:100-101 | definition: the test of the loop, a stripped line that is non-empty and does not start with "--"; `KeptLinesPass`, `AllPassAllKept` and `NonePassNoneKept` state what it keeps |
| QueryCleaning.CleanedQuery | app.py:96-103 | the cleaned query is "" exactly when no line survives the test |
| QueryCleaning.KeptLines | app.py:99-102 | never more lines than the input |
| QueryCleaning.CleanSubmittedQuery | app.py:96-103 | the loop's output is the reference `CleanedQuery`: the "\n"-join of the kept lines |
| QueryCleaning.KeptLinesPass | app.py:100-102 | every kept line is an input line whose stripped form is non-empty and does not start with "--" |
| QueryCleaning.AllPassAllKept | app.py:100-102 | lines that pass the test are all kept, unmodified and in order |
| QueryCleaning.NonePassNoneKept | app.py:100-102 | lines that fail the test are all dropped |
| QueryCleaning.CommentOnlyCleansEmpty | app.py:99-103 | a query of only comment and blank lines cleans to "" |
| QueryCleaning.CleanIdempotent | app.py:96-103 | cleaning an already cleaned query changes nothing |
| History.HasDuplicate | app.py:119 | definition: some entry's query, stripped, equals the query; `DuplicateLeavesHistory` states its effect |
| History.SavedHistory | app.py:105-126 | definition: the history unchanged for a duplicate, otherwise the stripped entry on top and the list cut to 20; `FreshQueryPrepended`, `SavedHistoryBounded`, `SaveIdempotent` and `SavePreservesDistinct` state its properties |
| History.QueryHistory.constructor | app.py:115-116 | with no history file the history is the empty list |
| History.QueryHistory.Save | app.py:105-129 | the new entries are `SavedHistory` of the old ones; a valid history (at most 20 entries, no query twice) stays valid |
| History.DuplicateLeavesHistory | app.py:119-120 | a query already present, compared after stripping, leaves the history unchanged |
| History.FreshQueryPrepended | app.py:106-126 | a new query goes on top, stripped and stamped; the older entries follow in order, cut to 20 in all |
| History.SavedHistoryBounded | app.py:126 | a history of at most 20 entries stays at most 20 |
| History.SavedQueryPresent | app.py:106-126 | after a save the stripped query is in the history |
| History.SaveIdempotent | app.py:105-126 | saving the same query twice is saving it once |
| History.SavePreservesDistinct | app.py:119-126 | saving keeps the stripped queries pairwise distinct |
| PyText.IsSpace | db.py:144 | definition: the characters for which Python's `str.isspace()` holds, which `strip()` removes: space, "\t" to "\r", U+1C to U+1F, U+85, U+A0, U+1680, U+2000 to U+200A, U+2028, U+2029, U+202F, U+205F and U+3000 |
| PyText.IsLineBreak | app.py:99 | definition: the characters at which `str.splitlines()` ends a line: "\n" to "\r", U+1C to U+1E, U+85, U+2028 and U+2029 |
| PyText.Strip | db.py:144 | never longer than its input; `StripEdges`, `StripRemovesEdges`, `StripEmpty` and `StripIdempotent` state what `strip()` does |
| PyText.StripEdges | db.py:144 | what `strip()` returns has whitespace at neither end |
| PyText.StripRemovesEdges | db.py:144 | `strip()` removes a leading and a trailing run of whitespace and nothing else |
| PyText.StripEmpty | db.py:144-146 | a piece strips to "" exactly when it is all whitespace |
| PyText.StripChars | db.py:144 | stripping adds no character |
| PyText.StripIdempotent | app.py:106 | stripping twice is stripping once |
| PyText.Split | db.py:143 | `split(";")` gives at least one piece, and no piece holds the separator |
| PyText.SplitChars | db.py:143 | every character of a piece is a character of the text |
| PyText.JoinSplit | db.py:143 | joining the pieces of a split gives back the text |
| PyText.SplitCons | db.py:143 | a text that starts with a separator-free part and a separator splits into that part followed by the split of the rest |
| PyText.SplitJoin | db.py:143 | splitting a join gives back the pieces when none holds the separator |
| PyText.Join | app.py:103 | definition: `sep.join(pieces)`, "" for no piece; `JoinFront`, `JoinSplit`, `SplitJoin` and `SplitLinesJoin` state its properties |
| PyText.JoinFront | app.py:103 | a join is "" when there is no piece, and otherwise begins with its first piece |
| PyText.SplitLines | app.py:99 | `splitlines()` gives lines that hold no line break |
| PyText.StartsWith | app.py:101 | a string that starts with `prefix` is `prefix` followed by the rest of the string |
| PyText.SplitLinesJoin | app.py:99-103 | `"\n".join(lines).splitlines()` gives back the lines when none is empty or holds a line break |
| PyText.SliceTo | app.py:184 | `s[:n]`, with a negative `n` counting from the end |
| WebApp.TruncateLog | app.py:182-184 | the text unchanged when it fits; otherwise its first `max_length` characters and "...", of length `max_length + 3` |
| WebApp.TruncatedIsMarkedPrefix | app.py:182-184 | what is logged is the text itself, or a prefix of it followed by "..." |
| WebApp.TruncateLogBounded | app.py:182-184 | with the default limit no logged text exceeds 503 characters |
| WebApp.EmptyListRule | app.py:75-76 | an empty list becomes the "Nessun risultato trovato" message exactly when the result was an empty list; anything else is shown as it is |
| WebApp.IndexResult | app.py:62-76 | definition: a POST with a truthy query shows the run of the cleaned query, any other request the catalog, with the empty-list rule applied last; `IndexNeverShowsNoResult` and `CommentOnlySubmission` state what is shown |
| WebApp.IndexNeverShowsNoResult | app.py:62-76 | a POST with a query shows the run's records, any other request shows the catalog, and the message never appears |
| WebApp.EmptyQueryRun | db.py:142-162 | the empty query runs nothing after the search path and gives the "nothing useful" message |
| WebApp.CommentOnlySubmission | app.py:62-66 | submitting only comments and blank lines runs the empty query and shows the "nothing useful" message |
| WebApp.ConfigEnv | app.py:144 | the query argument, else the form field, else "dev", normalised to a valid environment |
| WebApp.ConfigFileName | app.py:145 | definition: `env.{env}`; `ConfigFileNeverLoaded` states that it is never the file that is loaded |
| WebApp.ConfigFileNeverLoaded | app.py:145 | the page's file `env.{env}` is never the file `load_db_config` reads |
| WebApp.ConfigPageInvisibleToLoad | app.py:145-161 | writing or removing the page's file leaves every loaded configuration unchanged |
| WebApp.SettingLine | app.py:157-161 | definition: the f-string `KEY=value`; `WrittenLinesPrefix` and `SettingLineSplits` state what it writes and how it reads back |
| WebApp.WrittenLines | app.py:156-161 | a save writes at most five lines |
| WebApp.WrittenLinesPrefix | app.py:156-161 | the lines written are `KEY=value` for the fields in order, up to the first field missing from the form |
| WebApp.CompleteSave | app.py:156-161 | a complete form gives exactly the five lines DB_HOST, DB_PORT, DB_NAME, DB_USER, DB_PASSWORD, in order |
| WebApp.NeverWritesSchema | app.py:156-161 | no line written sets DB_SCHEMA |
| WebApp.GetOrEmpty | app.py:169-173 | definition: `config_data.get(key, "")`, the value of the setting or "" when it is absent; `FormView` states the form it builds |
| WebApp.FormView | app.py:168-174 | the form has the five keys, each the value of its setting, or "" when the setting is absent |
| WebApp.ConfigPageForm | app.py:165-174 | without the page's file every form field is "" |
| WebApp.Terminated | app.py:157-161 | at least one character per line, and a non-empty list of lines ends in "\n" |
| WebApp.SavedConfigText | app.py:156-161 | definition: the written lines, each followed by "\n"; `SavedTextLines` and `SaveReadBack` state what it reads back as |
| WebApp.SplitLinesTerminated | app.py:157-161 | the text of lines each written with a final "\n" splits back into those lines |
| WebApp.SavedTextLines | app.py:156-161 | the file text of a complete save splits back into its five lines |
| WebApp.FiveSettingsRead | app.py:156-161 | read line by line, the five lines set the five settings to the form's values |
| WebApp.SaveReadBack | app.py:156-174 | reading back a complete save shows the form's own five values |

## Left out

- **Database driver.** `psycopg.connect`, cursors, `fetchall` and `get_connection` (db.py:103-122) are a foreign library plus network I/O. The `Driver` oracle replaces them. Its replies stand for the server's answers, and `commitError` stands for the commit.
- **Exception text.** `str(e)` of an exception is the oracle's message text; how psycopg prints exceptions is not modelled.
- **Thread safety.** The `lru_cache` (db.py:57) is modelled as a map that is filled once per argument. Its thread safety and the `maxsize` bookkeeping are not modelled.
- **Logging.** `log_entry` (db.py:50-54), `smart_log` (app.py:186-190) and every `logger` call only log. `TruncateLog` takes the text that `str(data)` prints.
- **dotenv parsing.** `dotenv_values` is a library whose source is not part of this model.
  - Its result for the loaded file is a given map.
  - A setting that `dotenv_values` maps to `None` (a line with no `=`) cannot be expressed: a parsed file is a `map<string, string>`. For `load_db_config` that is harmless, because `config_values.get(key)` gives `None` for such a setting and for an absent one alike. For the `/config` form it is not: `config_data.get(key, "")` returns `None` there, while `WebApp.FormView` and `WebApp.GetOrEmpty` show "".
  - `WebApp.PlainReading` is a plain `KEY=value` reading of the written file. It only shows what the file encodes; it is not the library's parser.
- **Serialisation and time.**
  - `json.dumps` and `json.load` are not modelled. `Catalog.TablesJson` is the value that would be serialised, and the history file is the `entries` field.
  - History timestamps and the page timestamp are abstract strings passed in.
- **Web and file system.** Flask routes, templates, `flash`, the 404 and 500 handlers, the `/triggers` page and the context processor are not modelled. They only plumb the modelled functions into templates. Opening, reading, writing and checking whether files exist are replaced by the file-system map and the `entries` field.
- **Delete branch.** The delete branch of `/config` (app.py:148-153) removes a file. It appears only as the removal in `WebApp.ConfigPageInvisibleToLoad`.
- **main.py.** It is a console script of pure I/O.
- **SQL constants.** The fixed SQL texts (`GET_TABLE_LIST`, `DEFAULT_QUERY`, `TRIGGER_QUERY`) are not modelled. `Catalog.CatalogRows` assumes only that the catalog query returns the columns schemaname and tablename.
- **Override layers.** There is no environment-variable or JSON override layer. The code has none, and `CONFIG_FILE` (db.py:23) is unused.
- **Key order.** Maps are unordered, so the order of keys is not modelled. This holds for the configuration dictionaries, and for the row dictionaries that `Values.ZipDict` and `Values.RowsToRecords` build with `dict(zip(cols, row))`. The driver's column order, which is the order in which a result table shows its columns, is therefore not captured. The rows themselves stay in order.
- Catalog.TableFullnames: the non-list branch of `get_table_fullnames` (db.py:174-176) is not modelled. `run_query` always returns a list, so that branch cannot be reached from the code shown.
- QueryRunner.ExecuteStatements: it models the `for` loop of `run_query` as a separate method called by `QueryRunner.RunQuery`; in the code the loop sits inline.
- History.QueryHistory.Save: it reads and writes the `entries` field in place of the history file; `load_query_history` (app.py:89-93) is that field's value.
- WebApp.SaveReadBack: it holds only for form values without line breaks, and only for the plain reading, not for the dotenv parser.
- Catalog.Fullnames: its own contract only bounds the length. What the names are is stated by `Catalog.FullnamesOne`, `Catalog.AllNamed` and `Catalog.CatalogRows`.
- QueryRunner.Executed: its own contract only bounds the number of statements sent. What the loop does is stated by `QueryRunner.ExecutedSent` and `QueryRunner.ExecutedReplies`.
