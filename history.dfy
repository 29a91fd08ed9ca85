/**
 * The query history: `save_query_to_history` and `load_query_history`.
 *
 * The history file holds a list of entries, newest first. The object below
 * stands for that file: `entries` is its contents (the empty list while the
 * file does not exist), and the clock reading is a parameter.
 */
module History {
  import opened PyText
  import opened Values

  /** One history entry: `{"timestamp": ..., "query": ...}`. */
  datatype HistoryEntry = HistoryEntry(timestamp: string, query: string)

  /** The number of entries kept. */
  const MAX_HISTORY: nat := 20

  /** Some entry already holds `query`, ignoring whitespace at both ends of the entry. */
  predicate HasDuplicate(history: seq<HistoryEntry>, query: string)
  {
    exists i :: 0 <= i < |history| && Strip(history[i].query) == query
  }

  /** The history after saving `query` at time `now`. */
  function SavedHistory(history: seq<HistoryEntry>, query: string, now: string): seq<HistoryEntry>
  {
    var stripped := Strip(query);
    if HasDuplicate(history, stripped) then history
    else ([HistoryEntry(now, stripped)] + history)[..Min(MAX_HISTORY, |history| + 1)]
  }

  /** No two entries hold the same query once stripped. */
  predicate DistinctQueries(history: seq<HistoryEntry>)
  {
    forall i, j :: 0 <= i < j < |history| ==> Strip(history[i].query) != Strip(history[j].query)
  }

  class QueryHistory {
    /** Contents of the history file. */
    var entries: seq<HistoryEntry>

    /** What saving keeps: at most `MAX_HISTORY` entries, no query twice. */
    ghost predicate Valid()
      reads this
    {
      |entries| <= MAX_HISTORY && DistinctQueries(entries)
    }

    /** No history file yet: `load_query_history()` gives the empty list. */
    constructor ()
      ensures Valid() && entries == []
    {
      entries := [];
    }

    /** `save_query_to_history(query)`, with `now` as the timestamp. */
    method Save(query: string, now: string)
      modifies this
      ensures entries == SavedHistory(old(entries), query, now)
      ensures old(Valid()) ==> Valid()
    {
      if Valid() {
        SavedHistoryBounded(entries, query, now);
        SavePreservesDistinct(entries, query, now);
      }
      var stripped := Strip(query);
      var entry := HistoryEntry(now, stripped);
      var history := entries;
      if HasDuplicate(history, stripped) {
        return;
      }
      history := [entry] + history;
      history := history[..Min(MAX_HISTORY, |history|)];
      entries := history;
    }
  }

  /** A query already present (up to surrounding whitespace) is not saved again. */
  lemma DuplicateLeavesHistory(history: seq<HistoryEntry>, query: string, now: string, i: nat)
    requires i < |history| && Strip(history[i].query) == Strip(query)
    ensures SavedHistory(history, query, now) == history
  {
  }

  /** A new query goes on top, stripped and stamped with `now`; the older entries
      follow in their order, and the oldest falls off past the limit. */
  lemma FreshQueryPrepended(history: seq<HistoryEntry>, query: string, now: string)
    requires forall i :: 0 <= i < |history| ==> Strip(history[i].query) != Strip(query)
    ensures var saved := SavedHistory(history, query, now);
      && |saved| == Min(MAX_HISTORY, |history| + 1)
      && saved[0] == HistoryEntry(now, Strip(query))
      && saved[1..] == history[..|saved| - 1]
  {
    var stripped := Strip(query);
    assert !HasDuplicate(history, stripped);
    PrependKept(history, HistoryEntry(now, stripped));
  }

  /** Putting an entry on top and cutting to the limit keeps the older entries in order. */
  lemma PrependKept(history: seq<HistoryEntry>, entry: HistoryEntry)
    ensures var saved := ([entry] + history)[..Min(MAX_HISTORY, |history| + 1)];
      && |saved| == Min(MAX_HISTORY, |history| + 1)
      && saved[0] == entry
      && saved[1..] == history[..|saved| - 1]
  {
    var saved := ([entry] + history)[..Min(MAX_HISTORY, |history| + 1)];
    assert saved[1..] == history[..|saved| - 1];
  }

  /** Saving never grows a history beyond the limit. */
  lemma SavedHistoryBounded(history: seq<HistoryEntry>, query: string, now: string)
    requires |history| <= MAX_HISTORY
    ensures |SavedHistory(history, query, now)| <= MAX_HISTORY
  {
  }

  /** After a save the query is in the history, whether it was added or already there. */
  lemma SavedQueryPresent(history: seq<HistoryEntry>, query: string, now: string)
    ensures HasDuplicate(SavedHistory(history, query, now), Strip(query))
  {
    var saved := SavedHistory(history, query, now);
    if !HasDuplicate(history, Strip(query)) {
      StripIdempotent(query);
      assert Strip(saved[0].query) == Strip(query);
    }
  }

  /** Saving the same query twice is saving it once. */
  lemma SaveIdempotent(history: seq<HistoryEntry>, query: string, now: string, later: string)
    ensures SavedHistory(SavedHistory(history, query, now), query, later) == SavedHistory(history, query, now)
  {
    SavedQueryPresent(history, query, now);
  }

  /** Saving keeps the stripped queries of the history pairwise distinct. */
  lemma SavePreservesDistinct(history: seq<HistoryEntry>, query: string, now: string)
    requires DistinctQueries(history)
    ensures DistinctQueries(SavedHistory(history, query, now))
  {
    var stripped := Strip(query);
    if !HasDuplicate(history, stripped) {
      var saved := SavedHistory(history, query, now);
      StripIdempotent(query);
      forall i, j | 0 <= i < j < |saved|
        ensures Strip(saved[i].query) != Strip(saved[j].query)
      {
        assert saved[j] == history[j - 1];
        if i > 0 {
          assert saved[i] == history[i - 1];
        }
      }
    }
  }
}
