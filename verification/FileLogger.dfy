/** The file logger and the round manager that drives it, with their fields changed in place.
    Every callback is tied to the step of the machine in LogRules that it performs. */
module FileLoggers {
  import opened Common
  import opened LogRules
  import LogTheorems

  /** The output stream: one operation at a time. Starting one while another is pending is what
      the preconditions rule out. */
  class OutputStream {
    var op: Operation
    var file: string

    constructor (content: string)
      ensures op == Idle && file == content
    {
      op, file := Idle, content;
    }

    predicate HasPending()
      reads this
    {
      !op.Idle?
    }

    method WriteAsync(data: string)
      requires !HasPending()
      modifies this`op
      ensures op == Write(data, 0)
    {
      op := Write(data, 0);
    }

    method FlushAsync()
      requires !HasPending()
      modifies this`op
      ensures op == Flush
    {
      op := Flush;
    }

    /** Bytes of the write in flight reach the disk. */
    method Land(bytes: nat)
      requires op.Write? && op.landed + bytes <= |op.issued|
      modifies this
      ensures op == Write(old(op).issued, old(op).landed + bytes)
      ensures file == old(file) + old(op).issued[old(op).landed..old(op).landed + bytes]
    {
      file := file + op.issued[op.landed..op.landed + bytes];
      op := Write(op.issued, op.landed + bytes);
    }

    /** How many bytes the finished write put on disk. */
    method WriteFinish() returns (size: nat)
      requires op.Write?
      modifies this`op
      ensures op == Idle && size == old(op).landed
    {
      size := op.landed;
      op := Idle;
    }

    method FlushFinish()
      requires op.Flush?
      modifies this`op
      ensures op == Idle
    {
      op := Idle;
    }

    /** Refused while an operation is pending. */
    method Truncate(possible: bool) returns (done: bool)
      modifies this`file
      ensures done == (possible && op.Idle?)
      ensures file == if done then "" else old(file)
    {
      done := possible && !HasPending();
      if done {
        file := "";
      }
    }
  }

  class FileLogger {
    const hasFile: bool
    const stream: OutputStream
    var queue: seq<string>
    var writeAllString: string
    var flushing: bool
    var asyncResult: Option<Waiter>
    var frozen: bool

    // delays of truncations whose flush is done
    var timers: nat

    // what has happened so far
    ghost const initial: string
    ghost var logged: seq<string>
    ghost var archives: seq<Archive>
    ghost var mark: nat
    ghost var atFlush: string
    ghost var flushes: nat

    ghost function View(): State
      reads this, stream
    {
      State(hasFile, queue, writeAllString, flushing, asyncResult, frozen, stream.op, stream.file, timers,
            initial, logged, archives, mark, atFlush, flushes)
    }

    constructor (hasFile: bool, content: string)
      ensures View() == Fresh(hasFile, content) && fresh(stream)
    {
      this.hasFile := hasFile;
      stream := new OutputStream(content);
      queue, writeAllString, flushing, asyncResult, frozen, timers := [], "", false, None, false, 0;
      initial, logged, archives, mark, atFlush, flushes := content, [], [], 0, "", 0;
    }

    method WriteAll()
      modifies this`queue, this`writeAllString, stream`op
      ensures View() == LogRules.WriteAll(old(View()))
    {
      if stream.HasPending() {
        return;
      }
      if !frozen && !flushing && asyncResult.None? {
        ghost var all := writeAllString + Concat(queue);
        while |queue| > 0
          invariant writeAllString + Concat(queue) == all
          decreases |queue|
          modifies this`queue, this`writeAllString
        {
          var entry := queue[0];
          queue := queue[1..];
          writeAllString := writeAllString + entry;
        }
      }
      if |writeAllString| > 0 {
        stream.WriteAsync(writeAllString);
      }
    }

    method Log(entry: string)
      modifies this`queue, this`writeAllString, this`logged, stream`op
      ensures View() == Logged(old(View()), entry)
      ensures logged == old(logged) + [entry + "\n"]
      ensures writeAllString + Concat(queue) == old(writeAllString + Concat(queue)) + (entry + "\n")
    {
      LogTheorems.LoggedHolds(View(), entry);
      var copy := entry + "\n";
      queue := queue + [copy];
      logged := logged + [copy];
      if !frozen && !flushing && asyncResult.None? {
        WriteAll();
      }
    }

    method OnLogEntryWritten()
      requires LogTheorems.Coherent(View()) && stream.op.Write?
      modifies this`queue, this`writeAllString, this`flushing, stream`op
      ensures View() == Written(old(View()), old(stream.op.landed))
    {
      var size := stream.WriteFinish();
      if size > 0 {
        writeAllString := writeAllString[size..];
      }
      if flushing {
        flushing := false;
        if |writeAllString| > 0 {
          WriteAll();
          return;
        }
      }
      if asyncResult.Some? {
        stream.FlushAsync();
        return;
      }
      WriteAll();
    }

    /** Completing the flush of a truncation starts its delay. */
    method OnFlush()
      requires stream.op.Flush?
      modifies this`asyncResult, this`timers, this`atFlush, this`flushes, stream`op
      ensures View() == Flushed(old(View()))
    {
      stream.FlushFinish();
      atFlush := writeAllString;
      if asyncResult.Some? {
        var res := asyncResult.value;
        asyncResult := None;
        flushes := flushes + 1;
        if res == Truncation {
          timers := timers + 1;
        }
      }
    }

    /** False when a flush is already pending and the caller gets an error instead. */
    method RequestFlush(waiter: Waiter) returns (accepted: bool)
      modifies this`asyncResult, this`flushing, this`queue, this`writeAllString, stream`op
      ensures View() == FlushAsked(old(View()), waiter)
      ensures accepted == old(asyncResult).None?
    {
      if asyncResult.Some? {
        return false;
      }
      asyncResult := Some(waiter);
      flushing := true;
      if stream.HasPending() {
        return true;
      }
      flushing := false;
      WriteAll();
      return true;
    }

    method Freeze()
      modifies this`frozen
      ensures View() == old(View()).(frozen := true)
    {
      frozen := true;
    }

    method Thaw()
      modifies this`frozen, this`queue, this`writeAllString, stream`op
      ensures View() == Thawed(old(View()))
    {
      frozen := false;
      if |writeAllString| > 0 || |queue| > 0 {
        WriteAll();
      }
    }

    method CopyAndTruncate()
      modifies this`frozen, this`mark, this`asyncResult, this`flushing, this`queue, this`writeAllString, stream`op
      ensures View() == TruncationAsked(old(View()))
    {
      if !hasFile {
        return;
      }
      if asyncResult.None? {
        mark := |logged|;
      }
      Freeze();
      var _ := RequestFlush(Truncation);
    }

    /** The copy, and the truncation only after it. */
    method CopyThenTruncate(copied: bool, truncated: bool) returns (done: bool)
      requires timers > 0
      modifies this`timers, this`archives, stream`file
      ensures View() == Copied(old(View()), copied, truncated)
      ensures done == (copied && truncated && stream.op.Idle?)
    {
      timers := timers - 1;
      if !copied {
        return false;
      }
      ghost var a := Archive(stream.file, false, |logged| - |queue|, atFlush, mark);
      done := stream.Truncate(truncated);
      archives := archives + [a.(truncated := done)];
    }

    /** copy_and_truncate_on_timeout; the callback it completes is the round manager's, which
        logs that a round started when all went well. */
    method CopyAndTruncateOnTimeout(copied: bool, truncated: bool, started: string)
      requires timers > 0
      modifies this, stream
      ensures View() == TimedOut(old(View()), copied, truncated, started)
    {
      var done := CopyThenTruncate(copied, truncated);
      if done {
        Log(started);
      }
      Thaw();
    }
  }

  class RoundManager {
    const logger: FileLogger

    constructor (logger: FileLogger)
      ensures this.logger == logger
    {
      this.logger := logger;
    }

    method OnWorkValidated(entry: string)
      modifies logger, logger.stream
      ensures logger.View() == Step(old(logger.View()), Log(entry))
    {
      logger.Log(entry);
    }

    method OnBlockFound(entry: string)
      modifies logger, logger.stream
      ensures logger.View() == Step(old(logger.View()), BlockFound(entry))
    {
      logger.Log(entry);
      logger.CopyAndTruncate();
    }
  }
}
