/**
 * The request handlers' own logic: `truncate_log`, the rule by which `index`
 * replaces an empty result list with a message, and the `/config` page, which
 * picks an environment, writes a five-line settings file and reads the
 * settings back into the form with `""` for what is missing.
 */
module WebApp {
  import opened PyText
  import opened Values
  import opened DbConfig
  import opened QueryRunner
  import opened Catalog
  import opened QueryCleaning

  // ---------------------------------------------------------------- truncate_log

  /** The default `max_length` of `truncate_log`. */
  const LOG_MAX_LENGTH := 500

  /** `truncate_log(text, max_length)`: the first `max_length` characters, and
      "..." when something was cut (a negative `max_length` counts from the end). */
  function TruncateLog(text: string, maxLength: int): (r: string)
    ensures |text| <= maxLength ==> r == text
    ensures 0 <= maxLength < |text| ==> r == text[..maxLength] + "..." && |r| == maxLength + 3
    ensures maxLength < 0 ==> r == text[..if -maxLength <= |text| then |text| + maxLength else 0] + "..."
  {
    SliceTo(text, maxLength) + (if |text| > maxLength then "..." else "")
  }

  /** What is logged is the text itself, or a prefix of it marked with "...". */
  lemma TruncatedIsMarkedPrefix(text: string, maxLength: int)
    ensures var r := TruncateLog(text, maxLength);
      r == text || (|r| >= 3 && r[|r| - 3..] == "..." && StartsWith(text, r[..|r| - 3]))
  {
    var r := TruncateLog(text, maxLength);
    if r != text {
      assert r[..|r| - 3] == SliceTo(text, maxLength);
    }
  }

  /** With the default limit, no logged text is longer than 503 characters. */
  lemma TruncateLogBounded(text: string)
    ensures |TruncateLog(text, LOG_MAX_LENGTH)| <= LOG_MAX_LENGTH + 3
  {
  }

  // ---------------------------------------------------------------- index

  const NO_RESULT := "Nessun risultato trovato per la query eseguita."

  /** What `index` hands to the template as `result`: the record list of a run,
      the catalog JSON of `get_default_tables`, or a plain message. */
  datatype Shown = Records(records: seq<Record>) | Tables(json: TablesJson) | Message(text: string)

  /** An empty list becomes the "nothing found" message; anything else is shown as it is. */
  function EmptyListRule(result: Shown): (shown: Shown)
    ensures result == Records([]) <==> shown == Message(NO_RESULT) && !result.Message?
    ensures result != Records([]) ==> shown == result
  {
    if result.Records? && result.records == [] then Message(NO_RESULT) else result
  }

  /**
   * The `result` of `index`: a POST carrying a non-empty query runs the cleaned
   * query; any other request shows the catalog (`catalogResult` is what the
   * catalog query returned). The empty-list rule is applied last.
   */
  function IndexResult(isPost: bool, rawQuery: Option<string>, driver: Driver, catalogResult: seq<Record>): Shown
    requires isPost && Truthy(rawQuery) ==> Answers(CleanedQuery(rawQuery.value), driver)
  {
    EmptyListRule(
      if isPost && Truthy(rawQuery) then Records(RunQueryResult(CleanedQuery(rawQuery.value), driver))
      else Tables(DefaultTables(catalogResult)))
  }

  /** The empty-list rule never fires: a run never returns `[]`, and the catalog
      arrives as JSON text, not as a list. */
  lemma IndexNeverShowsNoResult(isPost: bool, rawQuery: Option<string>, driver: Driver, catalogResult: seq<Record>)
    requires isPost && Truthy(rawQuery) ==> Answers(CleanedQuery(rawQuery.value), driver)
    ensures var shown := IndexResult(isPost, rawQuery, driver, catalogResult);
      && !shown.Message?
      && (isPost && Truthy(rawQuery) ==> shown == Records(RunQueryResult(CleanedQuery(rawQuery.value), driver)))
      && (!(isPost && Truthy(rawQuery)) ==> shown == Tables(DefaultTables(catalogResult)))
  {
  }

  /** The empty query runs nothing but the search path and gives the "nothing useful" message. */
  lemma EmptyQueryRun(driver: Driver)
    requires |driver.replies| > 0 && !driver.replies[0].Raises?
    requires driver.connectError.None? && driver.commitError.None?
    ensures Statements("") == []
    ensures Answers("", driver) && RunQueryResult("", driver) == [MessageRecord(NOTHING_USEFUL)]
  {
    BlankQueryNoStatements("");
    NothingUseful("", driver);
  }

  /** Submitting only comments and blank lines runs the empty query, and shows
      the "nothing useful" message. */
  lemma CommentOnlySubmission(rawQuery: string, driver: Driver, catalogResult: seq<Record>)
    requires rawQuery != ""
    requires forall i :: 0 <= i < |SplitLines(rawQuery)| ==> !KeepLine(SplitLines(rawQuery)[i])
    requires |driver.replies| > 0 && !driver.replies[0].Raises?
    requires driver.connectError.None? && driver.commitError.None?
    ensures Answers(CleanedQuery(rawQuery), driver)
    ensures IndexResult(true, Some(rawQuery), driver, catalogResult) == Records([MessageRecord(NOTHING_USEFUL)])
  {
    CommentOnlyCleansEmpty(rawQuery);
    EmptyQueryRun(driver);
  }

  // ---------------------------------------------------------------- /config

  /** `safe_env(request.args.get("env") or request.form.get("env") or "dev")` */
  function ConfigEnv(argEnv: Option<string>, formEnv: Option<string>): (env: string)
    ensures env in VALID_ENVS
    ensures Truthy(argEnv) ==> env == SafeEnv(argEnv.value)
    ensures !Truthy(argEnv) && Truthy(formEnv) ==> env == SafeEnv(formEnv.value)
    ensures !Truthy(argEnv) && !Truthy(formEnv) ==> env == "dev"
  {
    SafeEnv(if Truthy(argEnv) then argEnv.value else Or(formEnv, "dev"))
  }

  /** The file the page reads and writes: `env.{env}`. */
  function ConfigFileName(env: string): string
  {
    "env." + env
  }

  /** The page's file is never the one `load_db_config` reads (`.env.{env}`). */
  lemma ConfigFileNeverLoaded(env: string, loaded: Option<string>)
    ensures ConfigFileName(env) != EnvFileName(loaded)
  {
    assert ConfigFileName(env)[0] == 'e';
    assert EnvFileName(loaded)[0] == '.';
  }

  /** So saving or deleting on the page leaves every loaded configuration as it was. */
  lemma ConfigPageInvisibleToLoad(env: string, files: FileSystem, contents: Dotenv, loaded: Option<string>)
    ensures LoadDbConfig(loaded, files[ConfigFileName(env) := contents]) == LoadDbConfig(loaded, files)
    ensures LoadDbConfig(loaded, files - {ConfigFileName(env)}) == LoadDbConfig(loaded, files)
  {
    ConfigFileNeverLoaded(env, loaded);
    assert ConfigValues(loaded, files[ConfigFileName(env) := contents]) == ConfigValues(loaded, files);
    assert ConfigValues(loaded, files - {ConfigFileName(env)}) == ConfigValues(loaded, files);
  }

  /** The form fields a save writes, in order, each with the setting it becomes. */
  const FORM_FIELDS: seq<(string, string)> :=
    [("host", "DB_HOST"), ("port", "DB_PORT"), ("name", "DB_NAME"), ("user", "DB_USER"), ("password", "DB_PASSWORD")]

  const FORM_KEYS: set<string> := {"host", "port", "name", "user", "password"}

  /** `f"{key}={value}"` */
  function SettingLine(key: string, value: string): string
  {
    key + "=" + value
  }

  /**
   * The lines a save writes, one per field: reading `request.form[field]` for a
   * missing field raises, so writing stops there and the lines already written
   * stay in the file.
   */
  function WrittenLines(form: map<string, string>, fields: seq<(string, string)>): (lines: seq<string>)
    ensures |lines| <= |fields|
  {
    if fields == [] || fields[0].0 !in form then []
    else [SettingLine(fields[0].1, form[fields[0].0])] + WrittenLines(form, fields[1..])
  }

  /** Each line followed by "\n", as the separate `f.write` calls produce them. */
  function Terminated(lines: seq<string>): (text: string)
    ensures |text| >= |lines|
    ensures lines != [] ==> text[|text| - 1] == '\n'
  {
    if lines == [] then "" else lines[0] + "\n" + Terminated(lines[1..])
  }

  /** The contents of `env.{env}` after a save from `form`. */
  function SavedConfigText(form: map<string, string>): string
  {
    Terminated(WrittenLines(form, FORM_FIELDS))
  }

  /** The written lines are the fields in order, up to the first one missing from the form. */
  lemma {:induction false} WrittenLinesPrefix(form: map<string, string>, fields: seq<(string, string)>)
    ensures var lines := WrittenLines(form, fields);
      && (forall i :: 0 <= i < |lines| ==>
            fields[i].0 in form && lines[i] == SettingLine(fields[i].1, form[fields[i].0]))
      && (|lines| < |fields| ==> fields[|lines|].0 !in form)
  {
    if fields != [] && fields[0].0 in form {
      WrittenLinesPrefix(form, fields[1..]);
    }
  }

  /** A form with all five fields gives exactly the five setting lines, in order. */
  lemma CompleteSave(form: map<string, string>)
    requires FORM_KEYS <= form.Keys
    ensures WrittenLines(form, FORM_FIELDS) == [
      SettingLine("DB_HOST", form["host"]), SettingLine("DB_PORT", form["port"]),
      SettingLine("DB_NAME", form["name"]), SettingLine("DB_USER", form["user"]),
      SettingLine("DB_PASSWORD", form["password"])]
  {
    WrittenLinesPrefix(form, FORM_FIELDS);
  }

  /** No save ever writes the schema setting, so the schema always comes from elsewhere. */
  lemma NeverWritesSchema(form: map<string, string>)
    ensures forall i :: 0 <= i < |WrittenLines(form, FORM_FIELDS)| ==>
      !StartsWith(WrittenLines(form, FORM_FIELDS)[i], "DB_SCHEMA=")
  {
    var lines := WrittenLines(form, FORM_FIELDS);
    WrittenLinesPrefix(form, FORM_FIELDS);
    forall i | 0 <= i < |lines|
      ensures !StartsWith(lines[i], "DB_SCHEMA=")
    {
      assert lines[i][3] == FORM_FIELDS[i].1[3];
    }
  }

  /** `config_data.get(setting, "")` */
  function GetOrEmpty(values: Dotenv, key: string): string
  {
    if key in values then values[key] else ""
  }

  /** The form the page shows: each field from its setting, `""` where the setting is absent. */
  function FormView(values: Dotenv): (view: map<string, string>)
    ensures view.Keys == FORM_KEYS
    ensures forall i :: 0 <= i < |FORM_FIELDS| ==>
      view[FORM_FIELDS[i].0] == if FORM_FIELDS[i].1 in values then values[FORM_FIELDS[i].1] else ""
  {
    map[
      "host" := GetOrEmpty(values, "DB_HOST"),
      "port" := GetOrEmpty(values, "DB_PORT"),
      "name" := GetOrEmpty(values, "DB_NAME"),
      "user" := GetOrEmpty(values, "DB_USER"),
      "password" := GetOrEmpty(values, "DB_PASSWORD")
    ]
  }

  /** The settings the page reads for `env`: the parsed file, or nothing when it is absent. */
  function ConfigPageForm(env: string, files: FileSystem): (view: map<string, string>)
    ensures ConfigFileName(env) !in files ==> forall k :: k in view ==> view[k] == ""
  {
    FormView(if ConfigFileName(env) in files then files[ConfigFileName(env)] else map[])
  }

  /**
   * A plain reading of a settings file: every line holding "=" sets the text
   * before the first "=" to the text after it, and later lines win. It stands
   * in for the parser only to show what the written file encodes.
   */
  function PlainReading(lines: seq<string>): Dotenv
  {
    if lines == [] then map[]
    else
      var line := lines[|lines| - 1];
      var eq := IndexOf(line, '=');
      var before := PlainReading(lines[..|lines| - 1]);
      if eq < |line| then before[line[..eq] := line[eq + 1..]] else before
  }

  /** `"".join(line + "\n" for line in lines).splitlines()` gives back the lines. */
  lemma {:induction false} SplitLinesTerminated(lines: seq<string>)
    requires forall i :: 0 <= i < |lines| ==> NoLineBreak(lines[i])
    ensures SplitLines(Terminated(lines)) == lines
  {
    if lines != [] {
      SplitLinesCons(lines[0], Terminated(lines[1..]));
      SplitLinesTerminated(lines[1..]);
      assert lines == [lines[0]] + lines[1..];
    }
  }

  /** A setting line splits back into its key and value at its first "=". */
  lemma SettingLineSplits(key: string, value: string)
    requires '=' !in key
    ensures var line := SettingLine(key, value);
      IndexOf(line, '=') == |key| && line[..|key|] == key && line[|key| + 1..] == value
  {
    IndexOfAfter(key, "=" + value, '=');
    assert SettingLine(key, value) == key + ("=" + value);
  }

  /** Adding a setting line to the end sets that key, whatever came before. */
  lemma PlainReadingAppend(lines: seq<string>, key: string, value: string)
    requires '=' !in key
    ensures PlainReading(lines + [SettingLine(key, value)]) == PlainReading(lines)[key := value]
  {
    SettingLineSplits(key, value);
    assert (lines + [SettingLine(key, value)])[..|lines|] == lines;
  }

  /** The file text of a complete save splits back into its five lines. */
  lemma SavedTextLines(form: map<string, string>)
    requires FORM_KEYS <= form.Keys
    requires forall k :: k in FORM_KEYS ==> NoLineBreak(form[k])
    ensures SplitLines(SavedConfigText(form)) == WrittenLines(form, FORM_FIELDS)
  {
    var lines := WrittenLines(form, FORM_FIELDS);
    WrittenLinesPrefix(form, FORM_FIELDS);
    forall i | 0 <= i < |lines|
      ensures NoLineBreak(lines[i])
    {
      assert NoLineBreak(FORM_FIELDS[i].1);
      assert lines[i] == FORM_FIELDS[i].1 + ("=" + form[FORM_FIELDS[i].0]);
    }
    SplitLinesTerminated(lines);
  }

  /** The plain reading of the five setting lines of a complete save. */
  lemma FiveSettingsRead(form: map<string, string>)
    requires FORM_KEYS <= form.Keys
    ensures PlainReading(WrittenLines(form, FORM_FIELDS)) == map[
      "DB_HOST" := form["host"], "DB_PORT" := form["port"], "DB_NAME" := form["name"],
      "DB_USER" := form["user"], "DB_PASSWORD" := form["password"]]
  {
    CompleteSave(form);
    var a := SettingLine("DB_HOST", form["host"]);
    var b := SettingLine("DB_PORT", form["port"]);
    var c := SettingLine("DB_NAME", form["name"]);
    var d := SettingLine("DB_USER", form["user"]);
    var e := SettingLine("DB_PASSWORD", form["password"]);
    PlainReadingAppend([], "DB_HOST", form["host"]);
    assert [] + [a] == [a];
    PlainReadingAppend([a], "DB_PORT", form["port"]);
    assert [a] + [b] == [a, b];
    PlainReadingAppend([a, b], "DB_NAME", form["name"]);
    assert [a, b] + [c] == [a, b, c];
    PlainReadingAppend([a, b, c], "DB_USER", form["user"]);
    assert [a, b, c] + [d] == [a, b, c, d];
    PlainReadingAppend([a, b, c, d], "DB_PASSWORD", form["password"]);
    assert [a, b, c, d] + [e] == [a, b, c, d, e];
  }

  /** Reading back a complete save gives the form's five values, provided none of
      them holds a line break. */
  lemma SaveReadBack(form: map<string, string>)
    requires FORM_KEYS <= form.Keys
    requires forall k :: k in FORM_KEYS ==> NoLineBreak(form[k])
    ensures var view := FormView(PlainReading(SplitLines(SavedConfigText(form))));
      forall k :: k in FORM_KEYS ==> view[k] == form[k]
  {
    SavedTextLines(form);
    FiveSettingsRead(form);
  }
}
