/**
 * `run_query`: split the submitted text on ';', set the search path, run
 * the statements one after the other on one cursor, keep the outcome of the
 * last one, and turn any exception into a single error record.
 *
 * The database is an oracle. `Driver.replies[0]` is what the server answers
 * to `SET search_path`, `replies[k]` what it answers to the k-th user
 * statement that is sent; `connectError` is an exception raised while
 * loading the configuration or connecting, `commitError` one raised when the
 * connection's `with` block commits on its way out.
 */
module QueryRunner {
  import opened PyText
  import opened Values
  import opened DbConfig

  /** What executing one statement yields: a result set (`cur.description` and
      `cur.fetchall()`), no result set (`cur.description` is `None`), or an exception. */
  datatype Outcome =
    | ResultSet(cols: seq<string>, rows: seq<seq<Value>>)
    | NoResultSet
    | Raises(message: string)

  datatype Driver = Driver(connectError: Option<string>, replies: seq<Outcome>, commitError: Option<string>)

  const EXECUTED_NO_ROWS := "Query eseguita con successo (nessun risultato)."
  const NOTHING_USEFUL := "Nessun risultato utile da mostrare."

  /** `config.get("schema") or "public"` */
  function ActiveSchema(config: Config): (schema: string)
    ensures schema != ""
    ensures "schema" in config && Truthy(config["schema"]) ==> schema == config["schema"].value
    ensures !("schema" in config && Truthy(config["schema"])) ==> schema == DEFAULT_SCHEMA
  {
    Or(if "schema" in config then config["schema"] else None, DEFAULT_SCHEMA)
  }

  lemma ActiveSchemaOfLoaded(env: Option<string>, files: FileSystem)
    ensures ActiveSchema(LoadDbConfig(env, files)) == LoadDbConfig(env, files)["schema"].value
  {
  }

  /** The statement sent before any user statement. */
  function SearchPath(schema: string): string
  {
    "SET search_path TO " + schema + ";"
  }

  /** `[p.strip() for p in pieces]` */
  function StripAll(pieces: seq<string>): (stripped: seq<string>)
    ensures |stripped| == |pieces|
  {
    if pieces == [] then [] else [Strip(pieces[0])] + StripAll(pieces[1..])
  }

  lemma {:induction false} StripAllAt(pieces: seq<string>, i: nat)
    requires i < |pieces|
    ensures StripAll(pieces)[i] == Strip(pieces[i])
  {
    if i > 0 {
      StripAllAt(pieces[1..], i - 1);
    }
  }

  /** The non-empty strings among the first `n` of `ss`, in order. */
  function NonEmpty(ss: seq<string>, n: nat): (kept: seq<string>)
    requires n <= |ss|
    ensures |kept| <= n
  {
    if n == 0 then []
    else NonEmpty(ss, n - 1) + (if ss[n - 1] == "" then [] else [ss[n - 1]])
  }

  /** What is kept is non-empty and was among the first `n`. */
  lemma {:induction false} NonEmptyKept(ss: seq<string>, n: nat)
    requires n <= |ss|
    ensures forall k :: 0 <= k < |NonEmpty(ss, n)| ==> NonEmpty(ss, n)[k] != "" && NonEmpty(ss, n)[k] in ss[..n]
  {
    if n > 0 {
      NonEmptyKept(ss, n - 1);
      assert ss[..n] == ss[..n - 1] + [ss[n - 1]];
    }
  }

  /** Only empty strings are dropped: with none of them, nothing is kept. */
  lemma {:induction false} AllEmptyNoneKept(ss: seq<string>, n: nat)
    requires n <= |ss|
    requires forall i :: 0 <= i < n ==> ss[i] == ""
    ensures NonEmpty(ss, n) == []
  {
    if n > 0 {
      AllEmptyNoneKept(ss, n - 1);
    }
  }

  /** Looking at fewer strings never keeps more. */
  lemma {:induction false} NonEmptyLength(ss: seq<string>, i: nat, n: nat)
    requires i <= n <= |ss|
    ensures |NonEmpty(ss, i)| <= |NonEmpty(ss, n)|
    decreases n
  {
    if i < n {
      NonEmptyLength(ss, i, n - 1);
    }
  }

  /** The statements `run_query` executes: the stripped non-empty pieces of `query.split(";")`. */
  function Statements(query: string): (stmts: seq<string>)
  {
    var stripped := StripAll(Split(query, ';'));
    NonEmpty(stripped, |stripped|)
  }

  /** Every statement is non-empty, has no surrounding whitespace and holds no ';'. */
  lemma StatementsWellFormed(query: string)
    ensures forall k :: 0 <= k < |Statements(query)| ==>
      && Statements(query)[k] != ""
      && Strip(Statements(query)[k]) == Statements(query)[k]
      && ';' !in Statements(query)[k]
  {
    var pieces := Split(query, ';');
    var stripped := StripAll(pieces);
    forall i | 0 <= i < |stripped|
      ensures Strip(stripped[i]) == stripped[i] && ';' !in stripped[i]
    {
      StripAllAt(pieces, i);
      StripIdempotent(pieces[i]);
      if ';' in stripped[i] {
        StripChars(pieces[i], ';');
      }
    }
    NonEmptyKept(stripped, |stripped|);
    assert stripped[..|stripped|] == stripped;
  }

  lemma {:induction false} StripAllFixed(ss: seq<string>)
    requires forall i :: 0 <= i < |ss| ==> Strip(ss[i]) == ss[i]
    ensures StripAll(ss) == ss
  {
    if ss != [] {
      StripAllFixed(ss[1..]);
    }
  }

  lemma {:induction false} NoneEmptyAllKept(ss: seq<string>, n: nat)
    requires n <= |ss|
    requires forall i :: 0 <= i < n ==> ss[i] != ""
    ensures NonEmpty(ss, n) == ss[..n]
  {
    if n > 0 {
      NoneEmptyAllKept(ss, n - 1);
      assert ss[..n] == ss[..n - 1] + [ss[n - 1]];
    }
  }

  /** Well-formed statements joined with ';' are split back into the same statements. */
  lemma StatementsOfJoin(stmts: seq<string>)
    requires forall k :: 0 <= k < |stmts| ==>
      stmts[k] != "" && Strip(stmts[k]) == stmts[k] && ';' !in stmts[k]
    ensures Statements(Join(stmts, ';')) == stmts
  {
    if stmts == [] {
      BlankQueryNoStatements("");
    } else {
      SplitJoin(stmts, ';');
      StripAllFixed(stmts);
      NoneEmptyAllKept(stmts, |stmts|);
      assert stmts[..|stmts|] == stmts;
    }
  }

  /** A text made only of separators and whitespace has no statements. */
  lemma BlankQueryNoStatements(query: string)
    requires forall j :: 0 <= j < |query| ==> query[j] == ';' || IsSpace(query[j])
    ensures Statements(query) == []
  {
    var pieces := Split(query, ';');
    var stripped := StripAll(pieces);
    forall i | 0 <= i < |stripped|
      ensures stripped[i] == ""
    {
      StripAllAt(pieces, i);
      forall j | 0 <= j < |pieces[i]|
        ensures IsSpace(pieces[i][j])
      {
        SplitChars(query, ';', i, pieces[i][j]);
      }
      StripEmpty(pieces[i]);
    }
    AllEmptyNoneKept(stripped, |stripped|);
  }

  /** The candidate result a successful statement leaves: its rows as dictionaries,
      or the success message when there is no result set (`cur.description` is
      `None`, or the empty column list of a zero-column result, which is falsy too). */
  function Candidate(reply: Outcome): (records: seq<Record>)
    requires !reply.Raises?
    ensures reply.ResultSet? && reply.cols != [] ==> |records| == |reply.rows|
    ensures !(reply.ResultSet? && reply.cols != []) ==> records == [MessageRecord(EXECUTED_NO_ROWS)]
  {
    if reply.ResultSet? && reply.cols != [] then RowsToRecords(reply.cols, reply.rows)
    else [MessageRecord(EXECUTED_NO_ROWS)]
  }

  /** Position of the first exception among the replies, if any. */
  function FirstRaise(replies: seq<Outcome>): (r: Option<nat>)
    ensures r.Some? ==> r.value < |replies| && replies[r.value].Raises?
                        && forall j :: 0 <= j < r.value ==> !replies[j].Raises?
    ensures r.None? ==> forall j :: 0 <= j < |replies| ==> !replies[j].Raises?
  {
    if replies == [] then None
    else if replies[0].Raises? then Some(0)
    else match FirstRaise(replies[1..])
      case None => None
      case Some(j) => Some(j + 1)
  }

  /** `final_result or [{"message": ...}]`: `None` and `[]` are both falsy. */
  function Fallback(final: Option<seq<Record>>): (records: seq<Record>)
    ensures records != []
    ensures final.Some? && final.value != [] ==> records == final.value
    ensures final.None? || final.value == [] ==> records == [MessageRecord(NOTHING_USEFUL)]
  {
    if final.Some? && final.value != [] then final.value else [MessageRecord(NOTHING_USEFUL)]
  }

  /** The driver answers every statement that can be sent. */
  predicate Answers(query: string, driver: Driver)
  {
    |driver.replies| > |Statements(query)|
  }

  /** What `run_query` returns: the first exception if one is raised, otherwise the
      outcome of the last statement, or the fallback message when none ran. */
  function RunQueryResult(query: string, driver: Driver): (result: seq<Record>)
    requires Answers(query, driver)
    ensures result != []
  {
    if driver.connectError.Some? then [ErrorRecord(driver.connectError.value)]
    else
      var n := |Statements(query)|;
      match FirstRaise(driver.replies[..n + 1])
      case Some(j) => [ErrorRecord(driver.replies[j].message)]
      case None =>
        if driver.commitError.Some? then [ErrorRecord(driver.commitError.value)]
        else Fallback(if n == 0 then None else Some(Candidate(driver.replies[n])))
  }

  /** The statements the server receives, in order: none when connecting fails,
      otherwise the search path and then the user statements up to and including
      the first that raises. */
  function SentStatements(query: string, config: Config, driver: Driver): (sent: seq<string>)
    requires Answers(query, driver)
    ensures driver.connectError.Some? ==> sent == []
    ensures driver.connectError.None? ==>
      && 1 <= |sent| <= |Statements(query)| + 1
      && sent == ([SearchPath(ActiveSchema(config))] + Statements(query))[..|sent|]
  {
    if driver.connectError.Some? then []
    else
      var all := [SearchPath(ActiveSchema(config))] + Statements(query);
      match FirstRaise(driver.replies[..|Statements(query)| + 1])
      case Some(j) => all[..j + 1]
      case None => all
  }

  /** The loop's state: the statements sent so far, the candidate result, and
      whether the last statement sent raised. */
  datatype Progress = Progress(executed: seq<string>, final: Option<seq<Record>>, raised: bool)

  /** One turn of the loop of `run_query` on a stripped piece. */
  function Step(p: Progress, statement: string, replies: seq<Outcome>): (q: Progress)
    requires !p.raised && statement != "" ==> |p.executed| + 1 < |replies|
  {
    if p.raised || statement == "" then p
    else
      var executed := p.executed + [statement];
      var reply := replies[|executed|];
      if reply.Raises? then Progress(executed, p.final, true)
      else Progress(executed, Some(Candidate(reply)), false)
  }

  /** How the loop's state matches the replies: no reply before the last statement
      sent raised, and the last one raised exactly when the loop stopped. */
  predicate MatchesReplies(p: Progress, replies: seq<Outcome>)
    requires |p.executed| < |replies|
  {
    && (forall j :: 0 < j < |p.executed| ==> !replies[j].Raises?)
    && (p.raised <==> 0 < |p.executed| && replies[|p.executed|].Raises?)
    && (!p.raised ==> p.final == if p.executed == [] then None else Some(Candidate(replies[|p.executed|])))
  }

  /** The statements sent are `stmts` when the loop did not stop early, and a
      prefix of them otherwise. */
  predicate SentOf(p: Progress, stmts: seq<string>)
  {
    && |p.executed| <= |stmts| && p.executed == stmts[..|p.executed|]
    && (!p.raised ==> p.executed == stmts)
  }

  lemma StepSentOf(p: Progress, statement: string, replies: seq<Outcome>, stmts: seq<string>)
    requires !p.raised && statement != "" ==> |p.executed| + 1 < |replies|
    requires SentOf(p, stmts)
    ensures SentOf(Step(p, statement, replies), stmts + if statement == "" then [] else [statement])
  {
    var after := stmts + if statement == "" then [] else [statement];
    assert after[..|p.executed|] == stmts[..|p.executed|];
    assert after[..|after|] == after;
  }

  lemma StepMatchesReplies(p: Progress, statement: string, replies: seq<Outcome>)
    requires !p.raised && statement != "" ==> |p.executed| + 1 < |replies|
    requires |p.executed| < |replies| && MatchesReplies(p, replies)
    ensures var q := Step(p, statement, replies); |q.executed| < |replies| && MatchesReplies(q, replies)
  {
  }

  /** The state of the loop of `run_query` after the first `n` pieces. */
  function Executed(pieces: seq<string>, replies: seq<Outcome>, n: nat): (p: Progress)
    requires n <= |pieces|
    requires |NonEmpty(StripAll(pieces), |pieces|)| < |replies|
    ensures |p.executed| <= |NonEmpty(StripAll(pieces), n)|
    ensures |p.executed| < |replies|
    decreases n
  {
    if n == 0 then Progress([], None, false)
    else
      StripAllAt(pieces, n - 1);
      NonEmptyLength(StripAll(pieces), n, |pieces|);
      Step(Executed(pieces, replies, n - 1), Strip(pieces[n - 1]), replies)
  }

  /** Once a statement has raised, the remaining pieces change nothing. */
  lemma {:induction false} ExecutedStops(pieces: seq<string>, replies: seq<Outcome>, i: nat, n: nat)
    requires i <= n <= |pieces|
    requires |NonEmpty(StripAll(pieces), |pieces|)| < |replies|
    requires Executed(pieces, replies, i).raised
    ensures Executed(pieces, replies, n) == Executed(pieces, replies, i)
    decreases n
  {
    if i < n {
      ExecutedStops(pieces, replies, i, n - 1);
    }
  }

  /**
   * The `for` loop of `run_query`: strip each piece, skip the empty ones, execute
   * the others in turn and keep the candidate result of each, stopping at the
   * first exception. `executed` are the statements sent, `raised` whether the
   * last of them raised.
   */
  method ExecuteStatements(pieces: seq<string>, replies: seq<Outcome>)
    returns (executed: seq<string>, final: Option<seq<Record>>, raised: bool)
    requires |NonEmpty(StripAll(pieces), |pieces|)| < |replies|
    ensures Progress(executed, final, raised) == Executed(pieces, replies, |pieces|)
  {
    executed := [];
    final := None;
    var i := 0;
    while i < |pieces|
      invariant 0 <= i <= |pieces|
      invariant Progress(executed, final, false) == Executed(pieces, replies, i)
    {
      ghost var next := Executed(pieces, replies, i + 1);
      var statement := Strip(pieces[i]);
      if statement != "" {
        executed := executed + [statement];
        var reply := replies[|executed|];
        if reply.Raises? {
          ExecutedStops(pieces, replies, i + 1, |pieces|);
          return executed, final, true;
        }
        final := Some(Candidate(reply));
      }
      i := i + 1;
    }
    raised := false;
  }

  /** The statements sent are the stripped non-empty pieces so far, or, once a
      reply raised, a prefix of them ending with the one that raised. */
  lemma {:induction false} ExecutedSent(pieces: seq<string>, replies: seq<Outcome>, n: nat)
    requires n <= |pieces|
    requires |NonEmpty(StripAll(pieces), |pieces|)| < |replies|
    ensures SentOf(Executed(pieces, replies, n), NonEmpty(StripAll(pieces), n))
    decreases n
  {
    if n > 0 {
      var stripped, statement := StripAll(pieces), Strip(pieces[n - 1]);
      ExecutedSent(pieces, replies, n - 1);
      StripAllAt(pieces, n - 1);
      NonEmptyLength(stripped, n, |pieces|);
      var before := NonEmpty(stripped, n - 1);
      StepSentOf(Executed(pieces, replies, n - 1), statement, replies, before);
      assert NonEmpty(stripped, n) == before + if statement == "" then [] else [statement];
      assert Executed(pieces, replies, n) == Step(Executed(pieces, replies, n - 1), statement, replies);
    }
  }

  /** No reply to a statement before the last one sent raised; the last one
      raised exactly when the loop stopped early. */
  lemma {:induction false} ExecutedReplies(pieces: seq<string>, replies: seq<Outcome>, n: nat)
    requires n <= |pieces|
    requires |NonEmpty(StripAll(pieces), |pieces|)| < |replies|
    ensures MatchesReplies(Executed(pieces, replies, n), replies)
    decreases n
  {
    if n > 0 {
      ExecutedReplies(pieces, replies, n - 1);
      StripAllAt(pieces, n - 1);
      NonEmptyLength(StripAll(pieces), n, |pieces|);
      StepMatchesReplies(Executed(pieces, replies, n - 1), Strip(pieces[n - 1]), replies);
    }
  }

  /** After the search path succeeded, a loop that stopped at an exception decides
      the run: the statements sent up to that one, and its error as the result. */
  lemma LoopRaised(query: string, config: Config, driver: Driver, p: Progress)
    requires Answers(query, driver)
    requires driver.connectError.None? && !driver.replies[0].Raises?
    requires p == Executed(Split(query, ';'), driver.replies, |Split(query, ';')|)
    requires p.raised
    ensures |p.executed| < |driver.replies| && driver.replies[|p.executed|].Raises?
    ensures SentStatements(query, config, driver) == [SearchPath(ActiveSchema(config))] + p.executed
    ensures RunQueryResult(query, driver) == [ErrorRecord(driver.replies[|p.executed|].message)]
  {
    var pieces := Split(query, ';');
    ExecutedSent(pieces, driver.replies, |pieces|);
    ExecutedReplies(pieces, driver.replies, |pieces|);
    var k := |p.executed|;
    assert 0 < k <= |Statements(query)| && p.executed == Statements(query)[..k];
    assert forall j :: 0 <= j < k ==> !driver.replies[j].Raises?;
    AbortOnRaise(query, config, driver, k);
  }

  /** After the search path succeeded, a loop that ran to the end sends every
      statement, and the commit's error or the candidate result is the result. */
  lemma LoopCompleted(query: string, config: Config, driver: Driver, p: Progress)
    requires Answers(query, driver)
    requires driver.connectError.None? && !driver.replies[0].Raises?
    requires p == Executed(Split(query, ';'), driver.replies, |Split(query, ';')|)
    requires !p.raised
    ensures SentStatements(query, config, driver) == [SearchPath(ActiveSchema(config))] + p.executed
    ensures RunQueryResult(query, driver)
            == if driver.commitError.Some? then [ErrorRecord(driver.commitError.value)] else Fallback(p.final)
  {
    var pieces := Split(query, ';');
    ExecutedSent(pieces, driver.replies, |pieces|);
    ExecutedReplies(pieces, driver.replies, |pieces|);
    var n := |Statements(query)|;
    assert p.executed == Statements(query);
    assert p.final == if n == 0 then None else Some(Candidate(driver.replies[n]));
    forall j | 0 <= j <= n
      ensures !driver.replies[j].Raises?
    {
      if 0 < j < n {
        assert 0 < j < |p.executed|;
      } else if 0 < j {
        assert j == |p.executed|;
      }
    }
    CompletedRun(query, config, driver);
  }

  /** `run_query(query)`, given the configuration `load_db_config` returned. */
  method RunQuery(query: string, config: Config, driver: Driver) returns (result: seq<Record>, sent: seq<string>)
    requires Answers(query, driver)
    ensures result == RunQueryResult(query, driver)
    ensures sent == SentStatements(query, config, driver)
  {
    if driver.connectError.Some? {
      return [ErrorRecord(driver.connectError.value)], [];
    }
    var setPath := SearchPath(ActiveSchema(config));
    if driver.replies[0].Raises? {
      AbortOnRaise(query, config, driver, 0);
      return [ErrorRecord(driver.replies[0].message)], [setPath];
    }
    var pieces := Split(query, ';');
    var executed, final, raised := ExecuteStatements(pieces, driver.replies);
    sent := [setPath] + executed;
    if raised {
      LoopRaised(query, config, driver, Progress(executed, final, raised));
      return [ErrorRecord(driver.replies[|executed|].message)], sent;
    }
    LoopCompleted(query, config, driver, Progress(executed, final, raised));
    if driver.commitError.Some? {
      return [ErrorRecord(driver.commitError.value)], sent;
    }
    result := Fallback(final);
  }

  /** A run in which nothing raises sends every statement and ends with the commit. */
  lemma CompletedRun(query: string, config: Config, driver: Driver)
    requires Answers(query, driver)
    requires driver.connectError.None?
    requires forall j :: 0 <= j <= |Statements(query)| ==> !driver.replies[j].Raises?
    ensures SentStatements(query, config, driver) == [SearchPath(ActiveSchema(config))] + Statements(query)
    ensures var n := |Statements(query)|;
      RunQueryResult(query, driver)
      == if driver.commitError.Some? then [ErrorRecord(driver.commitError.value)]
         else Fallback(if n == 0 then None else Some(Candidate(driver.replies[n])))
  {
    var n := |Statements(query)|;
    assert forall j :: 0 <= j < n + 1 ==> driver.replies[..n + 1][j] == driver.replies[j];
    assert FirstRaise(driver.replies[..n + 1]).None?;
  }

  /** The search path is set before any user statement, and the user statements
      are sent in split order. */
  lemma SearchPathFirst(query: string, config: Config, driver: Driver)
    requires Answers(query, driver)
    requires driver.connectError.None?
    ensures var sent := SentStatements(query, config, driver);
      && sent != [] && sent[0] == SearchPath(ActiveSchema(config))
      && sent[1..] == Statements(query)[..|sent| - 1]
  {
    var all := [SearchPath(ActiveSchema(config))] + Statements(query);
    var sent := SentStatements(query, config, driver);
    assert all[1..] == Statements(query);
    match FirstRaise(driver.replies[..|Statements(query)| + 1])
    case Some(j) =>
      assert sent == all[..j + 1];
      assert sent[1..] == all[1..j + 1];
    case None =>
  }

  /** An exception at the k-th reply (0 is the search path) stops the batch: the
      statements after it are never sent and the result is that one error record. */
  lemma AbortOnRaise(query: string, config: Config, driver: Driver, k: nat)
    requires Answers(query, driver)
    requires driver.connectError.None?
    requires k <= |Statements(query)|
    requires driver.replies[k].Raises?
    requires forall j :: 0 <= j < k ==> !driver.replies[j].Raises?
    ensures RunQueryResult(query, driver) == [ErrorRecord(driver.replies[k].message)]
    ensures SentStatements(query, config, driver)
         == [SearchPath(ActiveSchema(config))] + Statements(query)[..k]
  {
    var n := |Statements(query)|;
    var r := FirstRaise(driver.replies[..n + 1]);
    assert driver.replies[..n + 1][k].Raises?;
    assert r == Some(k);
    var all := [SearchPath(ActiveSchema(config))] + Statements(query);
    assert all[..k + 1] == [SearchPath(ActiveSchema(config))] + Statements(query)[..k];
  }

  /** A failure to load the configuration or to connect sends nothing. */
  lemma ConnectFailure(query: string, config: Config, driver: Driver)
    requires Answers(query, driver)
    requires driver.connectError.Some?
    ensures RunQueryResult(query, driver) == [ErrorRecord(driver.connectError.value)]
    ensures SentStatements(query, config, driver) == []
  {
  }

  /** Without exceptions every statement is sent, and the result is decided by the
      last one alone: its rows, one record per row, or the success message. */
  lemma LastStatementWins(query: string, config: Config, driver: Driver)
    requires Answers(query, driver)
    requires driver.connectError.None? && driver.commitError.None?
    requires forall j :: 0 <= j <= |Statements(query)| ==> !driver.replies[j].Raises?
    requires Statements(query) != []
    ensures var last := driver.replies[|Statements(query)|];
      RunQueryResult(query, driver) == Fallback(Some(Candidate(last)))
    ensures SentStatements(query, config, driver) == [SearchPath(ActiveSchema(config))] + Statements(query)
  {
    var n := |Statements(query)|;
    assert forall j :: 0 <= j < n + 1 ==> driver.replies[..n + 1][j] == driver.replies[j];
  }

  /** Two runs that agree on the last reply and raise nothing return the same result:
      earlier statements' results are overwritten. */
  lemma EarlierResultsOverwritten(query: string, d1: Driver, d2: Driver)
    requires Answers(query, d1) && Answers(query, d2)
    requires d1.connectError.None? && d1.commitError.None?
    requires d2.connectError.None? && d2.commitError.None?
    requires forall j :: 0 <= j <= |Statements(query)| ==> !d1.replies[j].Raises? && !d2.replies[j].Raises?
    requires d1.replies[|Statements(query)|] == d2.replies[|Statements(query)|]
    ensures RunQueryResult(query, d1) == RunQueryResult(query, d2)
  {
    var n := |Statements(query)|;
    assert forall j :: 0 <= j < n + 1 ==> d1.replies[..n + 1][j] == d1.replies[j];
    assert forall j :: 0 <= j < n + 1 ==> d2.replies[..n + 1][j] == d2.replies[j];
  }

  /** A statement without a result set after one that produced rows: its success
      message replaces those rows, since every statement overwrites the candidate. */
  lemma RowsThenCommand(query: string, config: Config, driver: Driver, k: nat)
    requires Answers(query, driver)
    requires driver.connectError.None? && driver.commitError.None?
    requires forall j :: 0 <= j <= |Statements(query)| ==> !driver.replies[j].Raises?
    requires 0 < k < |Statements(query)|
    requires driver.replies[k].ResultSet? && driver.replies[k].cols != [] && driver.replies[k].rows != []
    requires driver.replies[|Statements(query)|].NoResultSet?
    ensures RunQueryResult(query, driver) == [MessageRecord(EXECUTED_NO_ROWS)]
  {
    LastStatementWins(query, config, driver);
  }

  /** A last statement with columns and rows yields one dictionary per row. */
  lemma RowsOfLastStatement(query: string, driver: Driver, i: nat)
    requires Answers(query, driver)
    requires driver.connectError.None? && driver.commitError.None?
    requires forall j :: 0 <= j <= |Statements(query)| ==> !driver.replies[j].Raises?
    requires Statements(query) != []
    requires var last := driver.replies[|Statements(query)|];
      last.ResultSet? && last.cols != [] && i < |last.rows|
    ensures var last := driver.replies[|Statements(query)|];
      |RunQueryResult(query, driver)| == |last.rows|
      && RunQueryResult(query, driver)[i] == ZipDict(last.cols, last.rows[i])
  {
    LastStatementWins(query, map[], driver);
  }

  /** With no statement to run, or an empty last result set, the answer is the
      "nothing useful" message, never an empty list. */
  lemma NothingUseful(query: string, driver: Driver)
    requires Answers(query, driver)
    requires driver.connectError.None? && driver.commitError.None?
    requires forall j :: 0 <= j <= |Statements(query)| ==> !driver.replies[j].Raises?
    requires Statements(query) == []
          || (var last := driver.replies[|Statements(query)|];
              last.ResultSet? && last.cols != [] && last.rows == [])
    ensures RunQueryResult(query, driver) == [MessageRecord(NOTHING_USEFUL)]
  {
    var n := |Statements(query)|;
    assert forall j :: 0 <= j < n + 1 ==> driver.replies[..n + 1][j] == driver.replies[j];
  }
}
