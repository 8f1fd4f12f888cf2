/** The asynchronous file logger as a machine over events: an entry queue, a staging buffer, at
    most one stream operation, flush, freeze and thaw, and the delayed copy-and-truncate. */
module LogRules {
  import opened Common

  /** The stream operation in flight. Some of an issued write may already be on disk. */
  datatype Operation = Idle | Write(issued: string, landed: nat) | Flush

  /** Whoever is told when a flush completes. */
  datatype Waiter = Caller | Truncation

  /** A copy made of the log file and whether the file was then truncated; and how many entries
      had by then been taken from the queue, what was still staged when the flush before the delay
      completed, and how many entries had been logged when the logger was frozen. */
  datatype Archive = Archive(content: string, truncated: bool, taken: int, rest: string, mark: nat)

  datatype State = State(
    hasFile: bool,
    queue: seq<string>,
    buffer: string,
    flushing: bool,
    waiter: Option<Waiter>,
    frozen: bool,
    op: Operation,
    file: string,
    timers: nat,
    initial: string,
    logged: seq<string>,
    archives: seq<Archive>,
    mark: nat,
    atFlush: string,
    flushes: nat)

  datatype Event =
    | Log(entry: string)
    | Land(bytes: nat)
    | WriteDone
    | FlushDone
    | FlushCall
    | Freeze
    | Thaw
    | CopyAndTruncate
    | Timeout(copied: bool, truncated: bool, started: string)
    | BlockFound(entry: string)

  function Fresh(hasFile: bool, content: string): State {
    State(hasFile, [], "", false, None, false, Idle, content, 0, content, [], [], 0, "", 0)
  }

  function Concat(entries: seq<string>): string {
    if entries == [] then "" else entries[0] + Concat(entries[1..])
  }

  // ---------- the logger's own functions ----------

  predicate MayDrain(s: State) {
    !s.frozen && !s.flushing && s.waiter.None?
  }

  function Drained(s: State): State {
    if MayDrain(s) then s.(buffer := s.buffer + Concat(s.queue), queue := []) else s
  }

  function Issued(s: State): State {
    if s.buffer != "" then s.(op := Write(s.buffer, 0)) else s
  }

  /** write_all */
  function WriteAll(s: State): State {
    if s.op.Idle? then Issued(Drained(s)) else s
  }

  /** file_logger_log */
  function Logged(s: State, entry: string): State {
    var t := s.(queue := s.queue + [entry + "\n"], logged := s.logged + [entry + "\n"]);
    if MayDrain(t) then WriteAll(t) else t
  }

  /** The stream puts bytes of the write in flight on disk. */
  function Landed(s: State, bytes: nat): State {
    if s.op.Write? && s.op.landed + bytes <= |s.op.issued|
    then s.(op := Write(s.op.issued, s.op.landed + bytes),
            file := s.file + s.op.issued[s.op.landed..s.op.landed + bytes])
    else s
  }

  /** on_log_entry_written, told how many bytes landed; none after a failure. */
  function Written(s: State, size: nat): State
    requires size <= |s.buffer|
  {
    var t := s.(op := Idle, buffer := s.buffer[size..], flushing := false);
    if s.flushing && t.buffer != "" then WriteAll(t)
    else if s.waiter.Some? then t.(op := Flush)
    else WriteAll(t)
  }

  /** on_flush */
  function Flushed(s: State): State {
    var t := s.(op := Idle, atFlush := s.buffer);
    match s.waiter
    case None => t
    case Some(Caller) => t.(waiter := None, flushes := s.flushes + 1)
    case Some(Truncation) => t.(waiter := None, flushes := s.flushes + 1, timers := s.timers + 1)
  }

  /** file_logger_flush; a second request while one is pending only gets an error. */
  function FlushAsked(s: State, waiter: Waiter): State {
    if s.waiter.Some? then s
    else
      var t := s.(waiter := Some(waiter), flushing := true);
      if !s.op.Idle? then t else WriteAll(t.(flushing := false))
  }

  /** file_logger_thaw */
  function Thawed(s: State): State {
    var t := s.(frozen := false);
    if t.buffer != "" || t.queue != [] then WriteAll(t) else t
  }

  /** file_logger_copy_and_truncate */
  function TruncationAsked(s: State): State {
    if !s.hasFile then s
    else FlushAsked(s.(frozen := true, mark := if s.waiter.None? then |s.logged| else s.mark), Truncation)
  }

  /** copy_and_truncate_on_timeout up to the callback: the stream refuses to truncate while an
      operation is pending. */
  function Copied(s: State, copied: bool, truncated: bool): State
    requires s.timers > 0
  {
    var t := s.(timers := s.timers - 1);
    if !copied then t
    else
      var cut := truncated && s.op.Idle?;
      t.(archives := s.archives + [Archive(s.file, cut, Taken(s), s.atFlush, s.mark)],
         file := if cut then "" else s.file)
  }

  /** The whole timeout; after success the round manager's callback logs that a round started. */
  function TimedOut(s: State, copied: bool, truncated: bool, started: string): State
    requires s.timers > 0
  {
    var t := Copied(s, copied, truncated);
    Thawed(if copied && truncated && s.op.Idle? then Logged(t, started) else t)
  }

  // ---------- steps and runs ----------

  function Step(s: State, e: Event): State {
    match e
    case Log(entry) => Logged(s, entry)
    case Land(bytes) => Landed(s, bytes)
    case WriteDone => if s.op.Write? && s.op.landed <= |s.buffer| then Written(s, s.op.landed) else s
    case FlushDone => if s.op.Flush? then Flushed(s) else s
    case FlushCall => FlushAsked(s, Caller)
    case Freeze => s.(frozen := true)
    case Thaw => Thawed(s)
    case CopyAndTruncate => TruncationAsked(s)
    case Timeout(copied, truncated, started) => if s.timers > 0 then TimedOut(s, copied, truncated, started) else s
    case BlockFound(entry) => TruncationAsked(Logged(s, entry))
  }

  function Run(s: State, es: seq<Event>): State
    decreases |es|
  {
    if es == [] then s else Run(Step(s, es[0]), es[1..])
  }

  // ---------- where the bytes are ----------

  /** Everything truncated away, from the copies made of it. */
  function Away(archives: seq<Archive>): string {
    if archives == [] then ""
    else Away(archives[..|archives| - 1])
         + if archives[|archives| - 1].truncated then archives[|archives| - 1].content else ""
  }

  function Unwritten(s: State): string {
    if s.op.Write? && s.op.landed <= |s.buffer| then s.buffer[s.op.landed..] else s.buffer
  }

  /** How many entries have left the queue. */
  function Taken(s: State): int {
    |s.logged| - |s.queue|
  }
}
