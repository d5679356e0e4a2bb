/**
 * The Application Log's feed to the Log tab: every producer and consumer step, each atomic under its lock, in any
 * interleaving.
 */
module LogFeed {
  import opened GamePaths
  import opened LogTab

  /** `push_capped`: the oldest row goes when the queue is full. */
  function PushCapped(rows: seq<LogLine>, line: LogLine): seq<LogLine> {
    (if |rows| == MAX_FEED_ROWS then rows[1..] else rows) + [line]
  }

  lemma {:induction false} PushedIsCapped(rows: seq<LogLine>, line: LogLine)
    requires |rows| <= MAX_FEED_ROWS
    ensures PushCapped(rows, line) == Capped(rows + [line])
  {
    if |rows| == MAX_FEED_ROWS { assert (rows + [line])[1..] == rows[1..] + [line]; }
  }

  predicate IsIdle(pending: FeedUpdate) {
    !pending.reset && pending.lines == []
  }

  /** The levels a row is kept for. */
  predicate IsEnabled(level: Level, debug: bool) {
    debug || level == Error || level == Warn || level == Info
  }

  /** The levels, most severe first. */
  const LEVELS: seq<Level> := [Error, Warn, Info, Debug, Trace]

  /** Debug logging keeps every level; otherwise Info is the least severe one kept. */
  lemma {:induction false} LevelsKept(i: nat, debug: bool)
    requires i < |LEVELS|
    ensures IsEnabled(LEVELS[i], debug) <==> debug || i <= 2
    ensures LEVELS[2] == Info
  {
  }

  /** Queuing a line queues it for the tab as well: what the update would show gains exactly that line. */
  lemma {:induction false} QueuedLine(shown: seq<LogLine>, pending: FeedUpdate, line: LogLine)
    requires |pending.lines| <= MAX_FEED_ROWS
    ensures Updated(shown, pending.(lines := PushCapped(pending.lines, line)))
         == Capped(Updated(shown, pending) + [line])
  {
    PushedIsCapped(pending.lines, line);
    if !pending.reset {
      CappedTwice(shown, pending.lines + [line]);
      assert shown + (pending.lines + [line]) == shown + pending.lines + [line];
      CappedTwice(shown + pending.lines, [line]);
    }
  }

  class ApplicationLog {
    const tab: Tab
    /** A record's text in the debug layout or the info layout. */
    const layout: (bool, Level, string) -> string
    var path: string
    var debug: bool
    var history: seq<LogLine>
    /** The attached feed's queue, if one is attached. */
    var pending: Option<FeedUpdate>
    /** Wake callbacks due but not yet made, and drains scheduled on the event loop. */
    var owed: nat
    var scheduled: nat
    /** An update drained but not yet applied. */
    var inFlight: Option<FeedUpdate>
    /** Every row logged since the file was opened. */
    ghost var session: seq<LogLine>

    /** What the tab shows once the update in flight is applied. */
    ghost function Shown(): seq<LogLine>
      reads this, tab
    {
      if inFlight.Some? then Updated(tab.logs, inFlight.value) else tab.logs
    }

    /**
     * The history is the session's newest rows; applying what is queued would show exactly it; and a queue with
     * anything in it has a wake owed or a drain scheduled.
     */
    ghost predicate Valid()
      reads this, tab
    {
      && tab.Valid() && history == Capped(session)
      && (pending.None? ==> inFlight.None?)
      && (pending.Some? ==>
            && |pending.value.lines| <= MAX_FEED_ROWS
            && Updated(Shown(), pending.value) == history
            && (!IsIdle(pending.value) ==> owed + scheduled > 0))
    }

    constructor (tab: Tab, layout: (bool, Level, string) -> string, path: string, debug: bool)
      requires tab.Valid()
      ensures Valid() && this.tab == tab && this.layout == layout && this.path == path && this.debug == debug
      ensures session == [] && pending.None?
    {
      this.tab, this.layout, this.path, this.debug := tab, layout, path, debug;
      history, pending, owed, scheduled, inFlight, session := [], None, 0, 0, None, [];
    }

    /**
     * Logs one record, from any thread. It was enabled before its message was formatted; the level is checked again
     * under the lock, because a redirect may have come between.
     */
    method Log(level: Level, message: string)
      requires Valid()
      modifies this
      ensures Valid() && path == old(path) && debug == old(debug) && scheduled == old(scheduled)
      ensures inFlight == old(inFlight)
      ensures session == if IsEnabled(level, debug) then old(session) + [LogLine(level, layout(debug, level, message))]
                         else old(session)
      ensures pending.Some? <==> old(pending.Some?)
      ensures owed == old(owed)
                      + if pending.Some? && IsEnabled(level, debug) && old(IsIdle(pending.value)) then 1 else 0
    {
      if !IsEnabled(level, debug) { return; }
      var line := LogLine(level, layout(debug, level, message));
      PushedIsCapped(history, line);
      CappedTwice(session, [line]);
      history := PushCapped(history, line);
      session := session + [line];
      if pending.Some? {
        var wasIdle := IsIdle(pending.value);
        QueuedLine(Shown(), pending.value, line);
        pending := Some(pending.value.(lines := PushCapped(pending.value.lines, line)));
        if wasIdle { owed := owed + 1; }
      }
    }

    /** Moves the log to a file and debug choice: a new file that cannot be opened swaps nothing. */
    method Redirect(path: string, debug: bool, opens: bool) returns (ok: bool)
      requires Valid()
      modifies this
      ensures Valid() && inFlight == old(inFlight) && scheduled == old(scheduled)
      ensures ok <==> path == old(this.path) || opens
      ensures ok ==> this.path == path && this.debug == debug
      ensures ok ==> session == if path == old(this.path) then old(session) else []
      ensures !ok ==> this.path == old(this.path) && this.debug == old(this.debug) && session == old(session)
                      && pending == old(pending) && owed == old(owed)
    {
      if this.path != path {
        if !opens { return false; }
        this.path := path;
        history, session := [], [];
        if pending.Some? {
          var wasIdle := IsIdle(pending.value);
          pending := Some(FeedUpdate(true, []));
          if wasIdle { owed := owed + 1; }
        }
      }
      this.debug := debug;
      ok := true;
    }

    /** A new feed starts from everything logged so far, with one wake owed for it. */
    method Subscribe()
      requires Valid() && inFlight.None?
      modifies this
      ensures Valid() && session == old(session) && pending.Some? && path == old(path) && debug == old(debug)
    {
      pending := Some(FeedUpdate(true, history));
      owed, scheduled := 1, 0;
    }

    /** A wake callback schedules one drain on the event loop. */
    method Wake()
      requires Valid() && owed > 0
      modifies this`owed, this`scheduled
      ensures Valid() && owed == old(owed) - 1 && scheduled == old(scheduled) + 1
    {
      owed := owed - 1;
      scheduled := scheduled + 1;
    }

    /** A scheduled drain takes the queue, on the event loop. */
    method Drain()
      requires Valid() && scheduled > 0 && inFlight.None? && pending.Some?
      modifies this`pending, this`inFlight, this`scheduled
      ensures Valid() && scheduled == old(scheduled) - 1
      ensures inFlight == old(pending) && pending == Some(FeedUpdate(false, []))
    {
      scheduled := scheduled - 1;
      ghost var shown := Updated(tab.logs, pending.value);
      assert Capped(shown + []) == shown by { assert shown + [] == shown; }
      inFlight, pending := pending, Some(FeedUpdate(false, []));
    }

    /** The drained update moves into the tab's rows; records may have been logged since the drain. */
    method ApplyUpdate()
      requires Valid() && inFlight.Some?
      modifies this`inFlight, tab
      ensures Valid() && inFlight.None? && tab.logs == old(Shown()) && tab.details == old(tab.details)
    {
      tab.Apply(inFlight.value);
      inFlight := None;
    }

    method ShowDetails(details: seq<string>)
      requires Valid()
      modifies tab
      ensures Valid() && tab.logs == old(tab.logs)
      ensures tab.details == if |details| < |old(tab.details)| then details
                             else old(tab.details) + details[|old(tab.details)|..]
    {
      tab.ShowDetails(details);
    }

    /**
     * No row is stranded: from any reachable state, making the wakes and drains that are due shows the whole history.
     */
    method Settle()
      requires Valid() && pending.Some?
      modifies this`owed, this`scheduled, this`pending, this`inFlight, tab
      ensures Valid() && owed == 0 && scheduled == 0 && pending.Some? && IsIdle(pending.value)
      ensures tab.logs == Capped(session) && tab.details == old(tab.details)
      ensures tab.rows == LogRows(Capped(session)) + DetailRows(old(tab.details))
    {
      if inFlight.Some? { ApplyUpdate(); }
      while owed > 0
        invariant Valid() && pending == old(pending) && inFlight.None? && tab.details == old(tab.details)
        invariant session == old(session) && history == old(history)
      {
        Wake();
      }
      while scheduled > 0
        invariant Valid() && pending.Some? && inFlight.None? && owed == 0 && tab.details == old(tab.details)
        invariant session == old(session) && history == old(history)
      {
        Drain();
        ApplyUpdate();
      }
      assert tab.logs + [] == tab.logs;
    }
  }

  /** One step of any thread. */
  datatype Step =
    | Log(level: Level, message: string)
    | Redirect(path: string, debug: bool, opens: bool)
    | Subscribe
    | Wake
    | Drain
    | Apply
    | ShowDetails(details: seq<string>)

  /** Any interleaving of steps, each taken when it can be, keeps the feed and the tab in agreement with the history. */
  method Run(log: ApplicationLog, steps: seq<Step>)
    requires log.Valid()
    modifies log, log.tab
    ensures log.Valid()
  {
    for i := 0 to |steps|
      invariant log.Valid()
    {
      match steps[i]
      case Log(level, message) => log.Log(level, message);
      case Redirect(path, debug, opens) => var _ := log.Redirect(path, debug, opens);
      case Subscribe => if log.inFlight.None? { log.Subscribe(); }
      case Wake => if log.owed > 0 { log.Wake(); }
      case Drain => if log.scheduled > 0 && log.inFlight.None? && log.pending.Some? { log.Drain(); }
      case Apply => if log.inFlight.Some? { log.ApplyUpdate(); }
      case ShowDetails(details) => log.ShowDetails(details);
    }
  }
}
