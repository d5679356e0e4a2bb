/** The Log tab's row model: the log's newest rows, then the latest run's detail rows. */
module LogTab {
  const MAX_FEED_ROWS: nat := 10_000

  datatype Level = Error | Warn | Info | Debug | Trace

  datatype Severity = Logged(level: Level) | Detail

  datatype LogLine = LogLine(severity: Level, text: string)

  datatype Row = Row(text: string, severity: Severity)

  /** What a feed collected since its last drain; a reset drops the log's rows first. */
  datatype FeedUpdate = FeedUpdate(reset: bool, lines: seq<LogLine>)

  /** The newest rows a feed or a tab keeps. */
  function Capped<T>(rows: seq<T>): (capped: seq<T>)
    ensures |capped| <= MAX_FEED_ROWS && (|rows| <= MAX_FEED_ROWS ==> capped == rows)
  {
    if |rows| <= MAX_FEED_ROWS then rows else rows[|rows| - MAX_FEED_ROWS..]
  }

  /** As many as fit, and the newest of them all: counted from the end, nothing has moved. */
  lemma {:induction false} NewestAreKept<T>(rows: seq<T>, k: nat)
    ensures |Capped(rows)| == if |rows| < MAX_FEED_ROWS then |rows| else MAX_FEED_ROWS
    ensures k < |Capped(rows)| ==> Capped(rows)[|Capped(rows)| - 1 - k] == rows[|rows| - 1 - k]
  {
  }

  lemma {:induction false} CappedTwice<T>(a: seq<T>, b: seq<T>)
    ensures Capped(Capped(a) + b) == Capped(a + b)
    ensures Capped(a + Capped(b)) == Capped(a + b)
  {
    CappedFront(a, b);
    CappedBack(a, b);
  }

  lemma {:induction false} CappedFront<T>(a: seq<T>, b: seq<T>)
    ensures Capped(Capped(a) + b) == Capped(a + b)
  {
    if |a| > MAX_FEED_ROWS {
      var cut := |a| - MAX_FEED_ROWS;
      assert (a + b)[cut..] == a[cut..] + b;
      assert Capped(a + b) == (a + b)[cut..][|b|..];
    }
  }

  lemma {:induction false} CappedBack<T>(a: seq<T>, b: seq<T>)
    ensures Capped(a + Capped(b)) == Capped(a + b)
  {
    if |b| > MAX_FEED_ROWS {
      assert Capped(a + b) == b[|b| - MAX_FEED_ROWS..];
      assert (a + Capped(b))[|a|..] == Capped(b);
    }
  }

  /** The log rows after an update. */
  function Updated(logs: seq<LogLine>, update: FeedUpdate): seq<LogLine> {
    Capped(if update.reset then update.lines else logs + update.lines)
  }

  function RowOf(line: LogLine): Row {
    Row(line.text, Logged(line.severity))
  }

  function LogRows(lines: seq<LogLine>): (rows: seq<Row>)
    ensures |rows| == |lines| && forall i :: 0 <= i < |rows| ==> rows[i] == RowOf(lines[i])
  {
    seq(|lines|, i requires 0 <= i < |lines| => RowOf(lines[i]))
  }

  function DetailRows(details: seq<string>): (rows: seq<Row>)
    ensures |rows| == |details| && forall i :: 0 <= i < |rows| ==> rows[i] == Row(details[i], Detail)
  {
    seq(|details|, i requires 0 <= i < |details| => Row(details[i], Detail))
  }

  class Tab {
    var rows: seq<Row>
    /** The log's lines and the run's details that the rows show, in that order. */
    ghost var logs: seq<LogLine>
    ghost var details: seq<string>

    ghost predicate Valid()
      reads this
    {
      rows == LogRows(logs) + DetailRows(details) && |logs| <= MAX_FEED_ROWS
    }

    constructor ()
      ensures Valid() && logs == [] && details == []
    {
      rows, logs, details := [], [], [];
    }

    /** How many run-detail rows end the model. */
    method TrailingDetails() returns (n: nat)
      requires Valid()
      ensures n == |details|
    {
      n := 0;
      while n < |rows| && rows[|rows| - 1 - n].severity == Detail
        invariant n <= |details|
        decreases |rows| - n
      {
        n := n + 1;
      }
    }

    method Insert(at: nat, row: Row)
      requires at <= |rows|
      modifies this`rows
      ensures rows == old(rows)[..at] + [row] + old(rows)[at..]
    {
      rows := rows[..at] + [row] + rows[at..];
    }

    /** New rows, one by one, after the log's and before the details. */
    method InsertRows(lines: seq<LogLine>, logged: nat)
      requires Valid() && logged == |logs| && |logs| + |lines| <= MAX_FEED_ROWS
      modifies this
      ensures Valid() && logs == old(logs) + lines && details == old(details)
    {
      var new_ := LogRows(lines);
      for offset := 0 to |new_|
        invariant logs == old(logs) && details == old(details)
        invariant rows == LogRows(logs) + new_[..offset] + DetailRows(details)
      {
        InsertedNext(LogRows(logs), new_, offset, DetailRows(details));
        Insert(logged + offset, new_[offset]);
      }
      assert LogRows(logs) + new_[..|new_|] == LogRows(logs + lines);
      logs := logs + lines;
    }

    /** One drain applied: the new rows go after the log's and before the details, and the oldest go beyond the cap. */
    method Apply(update: FeedUpdate)
      requires Valid()
      modifies this
      ensures Valid() && logs == Updated(old(logs), update) && details == old(details)
    {
      var total := |rows|;
      var shown := TrailingDetails();
      var logged := total - shown;
      var new_ := LogRows(update.lines);
      if !update.reset && logged + |new_| <= MAX_FEED_ROWS {
        InsertRows(update.lines, logged);
        return;
      }
      Rebuild(update, logged);
    }

    /** The log's rows built anew: as many of the newest old ones as the newest new ones leave room for. */
    method Rebuild(update: FeedUpdate, logged: nat)
      requires Valid() && logged == |logs| && (update.reset || |logs| + |update.lines| > MAX_FEED_ROWS)
      modifies this
      ensures Valid() && logs == Updated(old(logs), update) && details == old(details)
    {
      var newest := Capped(LogRows(update.lines));
      var room := MAX_FEED_ROWS - |newest|;
      var kept := if update.reset then 0 else if logged < room then logged else room;
      Rebuilt(logs, update, kept, details);
      rows := rows[logged - kept..logged] + newest + rows[logged..];
      logs := Updated(logs, update);
    }

    /** The details' rows taken off the end, one by one. */
    method RemoveDetails()
      requires Valid()
      modifies this
      ensures Valid() && logs == old(logs) && details == []
    {
      var total := |rows|;
      var shown := TrailingDetails();
      for row := total downto total - shown
        invariant logs == old(logs) && details == old(details)
        invariant rows == LogRows(logs) + DetailRows(details)[..row - |logs|]
      {
        rows := rows[..row] + rows[row + 1..];
      }
      details := [];
    }

    method AppendDetail(detail: string)
      requires Valid()
      modifies this
      ensures Valid() && logs == old(logs) && details == old(details) + [detail]
    {
      assert DetailRows(details + [detail]) == DetailRows(details) + [Row(detail, Detail)];
      rows := rows + [Row(detail, Detail)];
      details := details + [detail];
    }

    /** The latest run's details, pinned below the log's rows: only new ones are appended, and fewer start afresh. */
    method ShowDetails(now: seq<string>)
      requires Valid()
      modifies this
      ensures Valid() && logs == old(logs)
      ensures details == if |now| < |old(details)| then now else old(details) + now[|old(details)|..]
    {
      var shown := TrailingDetails();
      if shown > |now| {
        RemoveDetails();
        shown := 0;
      }
      ghost var before := details;
      for i := shown to |now|
        invariant Valid() && logs == old(logs) && details == before + now[shown..i]
      {
        AppendDetail(now[i]);
      }
    }
  }

  lemma {:induction false} InsertedNext(logs: seq<Row>, more: seq<Row>, offset: nat, details: seq<Row>)
    requires offset < |more|
    ensures var rows := logs + more[..offset] + details;
            rows[..|logs| + offset] + [more[offset]] + rows[|logs| + offset..] == logs + more[..offset + 1] + details
  {
  }

  /** The rows that a rebuild keeps are the newest of the old and new lines together. */
  lemma {:induction false} Rebuilt(logs: seq<LogLine>, update: FeedUpdate, kept: nat, details: seq<string>)
    requires |logs| <= MAX_FEED_ROWS && kept <= |logs|
    requires update.reset ==> kept == 0
    requires !update.reset ==>
               var room := MAX_FEED_ROWS - |Capped(LogRows(update.lines))|;
               kept == (if |logs| < room then |logs| else room) && |logs| + |update.lines| > MAX_FEED_ROWS
    ensures LogRows(logs)[|logs| - kept..] + Capped(LogRows(update.lines)) == LogRows(Updated(logs, update))
  {
    assert Capped(LogRows(update.lines)) == LogRows(Capped(update.lines));
    if !update.reset {
      CappedBack(logs, update.lines);
      assert Updated(logs, update) == logs[|logs| - kept..] + Capped(update.lines);
    }
  }
}
