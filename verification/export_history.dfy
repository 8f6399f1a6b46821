/**
 * The export log of the app (`useExportHistory`): one entry per export,
 * newest first, keeping only the most recent fifty.
 */
module ExportLog {
  import opened Seqs
  import opened Types

  /** How many exports the log keeps. */
  const MaxHistory := 50

  /**
   * `[entry, ...prev].slice(0, 50)`: the new entry heads the log, the older
   * entries follow in order, and the oldest fall off past fifty.
   */
  function Logged(h: seq<ExportHistoryEntry>, e: ExportHistoryEntry): (r: seq<ExportHistoryEntry>)
    ensures |r| == if |h| + 1 <= MaxHistory then |h| + 1 else MaxHistory
    ensures r[0] == e
    ensures r[1..] == h[..|r| - 1]
  {
    Take([e] + h, MaxHistory)
  }

  /** Logging twice keeps both entries, newest first, as long as there is room. */
  lemma LoggedTwice(h: seq<ExportHistoryEntry>, e1: ExportHistoryEntry, e2: ExportHistoryEntry)
    ensures |h| + 2 <= MaxHistory ==> Logged(Logged(h, e1), e2) == [e2, e1] + h
    ensures |Logged(Logged(h, e1), e2)| >= 2 && Logged(Logged(h, e1), e2)[1] == e1
  {
    var once := Logged(h, e1);
    var twice := Logged(once, e2);
    assert twice[1] == twice[1..][0] == once[0];
    if |h| + 2 <= MaxHistory {
      assert once == [e1] + h by {
        assert once[1..] == h;
      }
      assert twice[1..] == once;
    }
  }

  /** The `useExportHistory` hook. */
  class History {
    var history: seq<ExportHistoryEntry>

    constructor()
      ensures history == []
    {
      history := [];
    }

    /** `logExport(itemCount, filename)`, with the fresh id and the time given by the caller. */
    method LogExport(itemCount: int, filename: string, freshId: string, now: string)
      modifies this
      ensures history == Logged(old(history), ExportHistoryEntry(freshId, now, itemCount, filename))
    {
      history := Logged(history, ExportHistoryEntry(freshId, now, itemCount, filename));
    }
  }
}
