/** What holds over every run of the file logger. */
module LogTheorems {
  import opened Common
  import opened LogRules

  // ---------- no byte lost, none out of order ----------

  ghost predicate Conserved(s: State) {
    && 0 <= Taken(s)
    && s.queue == s.logged[Taken(s)..]
    && Away(s.archives) + s.file + Unwritten(s) == s.initial + Concat(s.logged[..Taken(s)])
  }

  /** The stream and the flags. The buffer is what the write in flight was issued with. */
  ghost predicate Coherent(s: State) {
    && (s.op.Write? ==> s.buffer == s.op.issued && s.op.landed <= |s.op.issued| && s.op.issued != "")
    && (s.op.Flush? ==> s.waiter.Some? && !s.flushing)
    && (s.flushing ==> s.waiter.Some? && s.op.Write?)
    && (s.waiter.Some? && s.op.Idle? ==> s.buffer == "")
    && (s.waiter.None? ==> !s.flushing)
  }

  lemma Regroup<T>(a: seq<T>, b: seq<T>, c: seq<T>)
    ensures a + (b + c) == (a + b) + c
  {
  }

  lemma {:induction false} ConcatInParts(a: seq<string>, b: seq<string>)
    ensures Concat(a + b) == Concat(a) + Concat(b)
  {
    if a == [] {
      assert a + b == b;
    } else {
      ConcatInParts(a[1..], b);
      assert (a + b)[1..] == a[1..] + b && (a + b)[0] == a[0];
      Regroup(a[0], Concat(a[1..]), Concat(b));
    }
  }

  lemma StepKeepsCoherence(s: State, e: Event)
    requires Coherent(s)
    ensures Coherent(Step(s, e))
  {
    match e
    case Log(entry) => LoggedCoherently(s, entry);
    case WriteDone => if s.op.Write? { WrittenCoherently(s); }
    case FlushCall => FlushAskedCoherently(s, Caller);
    case CopyAndTruncate => TruncationAskedCoherently(s);
    case Timeout(copied, truncated, started) => if s.timers > 0 { TimedOutCoherently(s, copied, truncated, started); }
    case BlockFound(entry) =>
      LoggedCoherently(s, entry);
      TruncationAskedCoherently(Logged(s, entry));
    case _ =>
  }

  lemma LoggedCoherently(s: State, entry: string)
    requires Coherent(s)
    ensures Coherent(Logged(s, entry))
  {
  }

  lemma WrittenCoherently(s: State)
    requires Coherent(s) && s.op.Write?
    ensures Coherent(Written(s, s.op.landed))
  {
  }

  lemma FlushAskedCoherently(s: State, waiter: Waiter)
    requires Coherent(s)
    ensures Coherent(FlushAsked(s, waiter))
  {
  }

  lemma TruncationAskedCoherently(s: State)
    requires Coherent(s)
    ensures Coherent(TruncationAsked(s))
  {
    FlushAskedCoherently(s.(frozen := true, mark := TruncationAsked(s).mark), Truncation);
  }

  lemma ThawedCoherently(s: State)
    requires Coherent(s)
    ensures Coherent(Thawed(s))
  {
  }

  lemma CopiedCoherently(s: State, copied: bool, truncated: bool)
    requires Coherent(s) && s.timers > 0
    ensures Coherent(Copied(s, copied, truncated))
  {
  }

  lemma TimedOutCoherently(s: State, copied: bool, truncated: bool, started: string)
    requires Coherent(s) && s.timers > 0
    ensures Coherent(TimedOut(s, copied, truncated, started))
  {
    var t := Copied(s, copied, truncated);
    CopiedCoherently(s, copied, truncated);
    if copied && truncated && s.op.Idle? {
      LoggedCoherently(t, started);
      ThawedCoherently(Logged(t, started));
    } else {
      ThawedCoherently(t);
    }
  }

  /** Every byte is where it was. */
  predicate SameBytes(s: State, t: State) {
    && t.queue == s.queue && t.logged == s.logged && t.initial == s.initial
    && t.archives == s.archives && t.file == s.file && Unwritten(t) == Unwritten(s)
  }

  lemma SameBytesConserved(s: State, t: State)
    requires Conserved(s) && SameBytes(s, t)
    ensures Conserved(t)
  {
  }

  /** The same text after both of two equal ones. */
  lemma AppendBoth(a: string, b: string, c: string, d: string, more: string)
    requires a + b == c + d
    ensures a + (b + more) == c + (d + more)
  {
    assert a + (b + more) == (a + b) + more;
    assert c + (d + more) == (c + d) + more;
  }

  lemma MoveBoundary(a: string, b: string, c: string, d: string)
    ensures a + b + (c + d) == a + (b + c) + d
  {
  }

  lemma DrainedConserves(s: State)
    requires Conserved(s) && s.op.Idle?
    ensures Conserved(Drained(s))
  {
    if MayDrain(s) {
      var taken := s.logged[..Taken(s)];
      ConcatInParts(taken, s.queue);
      assert taken + s.queue == s.logged;
      assert s.logged[..|s.logged|] == s.logged;
      AppendBoth(Away(s.archives) + s.file, s.buffer, s.initial, Concat(taken), Concat(s.queue));
    }
  }

  lemma IssuedConserves(s: State)
    requires Conserved(s) && s.op.Idle?
    ensures Conserved(Issued(s))
  {
    assert s.buffer[0..] == s.buffer;
    SameBytesConserved(s, Issued(s));
  }

  lemma WriteAllConserves(s: State)
    requires Conserved(s)
    ensures Conserved(WriteAll(s))
  {
    if s.op.Idle? {
      DrainedConserves(s);
      IssuedConserves(Drained(s));
    }
  }

  lemma LoggedConserves(s: State, entry: string)
    requires Coherent(s) && Conserved(s)
    ensures Conserved(Logged(s, entry))
  {
    var t := s.(queue := s.queue + [entry + "\n"], logged := s.logged + [entry + "\n"]);
    assert t.logged[..Taken(t)] == s.logged[..Taken(s)];
    assert t.logged[Taken(t)..] == t.queue;
    assert Conserved(t);
    WriteAllConserves(t);
  }

  lemma LandedConserves(s: State, bytes: nat)
    requires Coherent(s) && Conserved(s)
    ensures Conserved(Landed(s, bytes))
  {
    if s.op.Write? && s.op.landed + bytes <= |s.op.issued| {
      var k := s.op.landed;
      var t, before, after := Landed(s, bytes), s.buffer[k..k + bytes], s.buffer[k + bytes..];
      assert Unwritten(s) == before + after;
      assert t.file == s.file + before && Unwritten(t) == after;
      MoveBoundary(Away(s.archives), s.file, before, after);
      assert Away(t.archives) + t.file + Unwritten(t) == Away(s.archives) + s.file + Unwritten(s);
    }
  }

  lemma WrittenConserves(s: State)
    requires Coherent(s) && Conserved(s) && s.op.Write?
    ensures Conserved(Written(s, s.op.landed))
  {
    var t := s.(op := Idle, buffer := s.buffer[s.op.landed..], flushing := false);
    assert Conserved(t);
    WriteAllConserves(t);
  }

  lemma TimedOutConserves(s: State, copied: bool, truncated: bool, started: string)
    requires Coherent(s) && Conserved(s) && s.timers > 0
    ensures Conserved(TimedOut(s, copied, truncated, started))
  {
    var t := Copied(s, copied, truncated);
    if copied {
      assert t.archives[..|t.archives| - 1] == s.archives;
    }
    assert Conserved(t);
    if copied && truncated && s.op.Idle? {
      LoggedConserves(t, started);
      StepKeepsCoherence(t, Log(started));
      ThawedConserves(Logged(t, started));
    } else {
      ThawedConserves(t);
    }
  }

  lemma ThawedConserves(s: State)
    requires Coherent(s) && Conserved(s)
    ensures Conserved(Thawed(s))
  {
    assert Conserved(s.(frozen := false));
    WriteAllConserves(s.(frozen := false));
  }

  lemma FlushAskedConserves(s: State, waiter: Waiter)
    requires Coherent(s) && Conserved(s)
    ensures Conserved(FlushAsked(s, waiter))
  {
  }

  lemma TruncationAskedConserves(s: State)
    requires Coherent(s) && Conserved(s)
    ensures Conserved(TruncationAsked(s))
  {
    FlushAskedConserves(s.(frozen := true, mark := TruncationAsked(s).mark), Truncation);
  }

  lemma FlushedConserves(s: State)
    requires Conserved(s) && s.op.Flush?
    ensures Conserved(Flushed(s))
  {
    assert SameBytes(s, Flushed(s));
    SameBytesConserved(s, Flushed(s));
  }

  lemma BlockFoundConserves(s: State, entry: string)
    requires Coherent(s) && Conserved(s)
    ensures Conserved(TruncationAsked(Logged(s, entry)))
  {
    LoggedConserves(s, entry);
    LoggedCoherently(s, entry);
    TruncationAskedConserves(Logged(s, entry));
  }

  lemma WriteDoneConserves(s: State)
    requires Coherent(s) && Conserved(s)
    ensures Conserved(Step(s, WriteDone))
  {
    if s.op.Write? {
      WrittenConserves(s);
    }
  }

  lemma TimeoutConserves(s: State, copied: bool, truncated: bool, started: string)
    requires Coherent(s) && Conserved(s)
    ensures Conserved(Step(s, Timeout(copied, truncated, started)))
  {
    if s.timers > 0 {
      TimedOutConserves(s, copied, truncated, started);
    }
  }

  lemma FreezeConserves(s: State)
    requires Conserved(s)
    ensures Conserved(s.(frozen := true))
  {
  }

  lemma StepConserves(s: State, e: Event)
    requires Coherent(s) && Conserved(s)
    ensures Conserved(Step(s, e))
  {
    match e
    case Log(entry) => LoggedConserves(s, entry);
    case Land(bytes) => LandedConserves(s, bytes);
    case WriteDone => WriteDoneConserves(s);
    case FlushDone => if s.op.Flush? { FlushedConserves(s); }
    case FlushCall => FlushAskedConserves(s, Caller);
    case Freeze => FreezeConserves(s);
    case Thaw => ThawedConserves(s);
    case CopyAndTruncate => TruncationAskedConserves(s);
    case Timeout(copied, truncated, started) => TimeoutConserves(s, copied, truncated, started);
    case BlockFound(entry) => BlockFoundConserves(s, entry);
  }

  /** What an event puts into the log: each entry with its newline, at once and whatever the flags; and
      the line that starts a round after a copy and a truncation that both worked. */
  function LineOf(s: State, e: Event): seq<string> {
    match e
    case Log(entry) => [entry + "\n"]
    case BlockFound(entry) => [entry + "\n"]
    case Timeout(copied, truncated, started) =>
      if s.timers > 0 && copied && truncated && s.op.Idle? then [started + "\n"] else []
    case _ => []
  }

  function Lines(s: State, es: seq<Event>): seq<string>
    decreases |es|
  {
    if es == [] then [] else LineOf(s, es[0]) + Lines(Step(s, es[0]), es[1..])
  }

  predicate HasLogged(s: State, t: State, lines: seq<string>) {
    t.logged == s.logged + lines && t.initial == s.initial
  }

  lemma EntryLogged(s: State, entry: string)
    ensures HasLogged(s, Logged(s, entry), [entry + "\n"])
  {
  }

  /** Buffer and queue hold the entry, last, whatever the flags. */
  lemma LoggedHolds(s: State, entry: string)
    ensures var t := Logged(s, entry);
            t.buffer + Concat(t.queue) == s.buffer + Concat(s.queue) + (entry + "\n")
            && t.logged == s.logged + [entry + "\n"]
  {
    ConcatInParts(s.queue, [entry + "\n"]);
    assert Concat([entry + "\n"]) == entry + "\n" by {
      assert [entry + "\n"][1..] == [];
    }
    Regroup(s.buffer, Concat(s.queue), entry + "\n");
    var t := s.(queue := s.queue + [entry + "\n"], logged := s.logged + [entry + "\n"]);
    DrainHolds(t);
  }

  lemma DrainHolds(s: State)
    ensures WriteAll(s).buffer + Concat(WriteAll(s).queue) == s.buffer + Concat(s.queue)
    ensures WriteAll(s).logged == s.logged
  {
    var all := s.buffer + Concat(s.queue);
    assert all + "" == all;
  }

  lemma ThawLogsNothing(s: State)
    ensures HasLogged(s, Thawed(s), [])
  {
  }

  lemma BlockLogged(s: State, entry: string)
    ensures HasLogged(s, TruncationAsked(Logged(s, entry)), [entry + "\n"])
  {
    EntryLogged(s, entry);
    assert HasLogged(Logged(s, entry), TruncationAsked(Logged(s, entry)), []);
  }

  lemma TimeoutLogged(s: State, copied: bool, truncated: bool, started: string)
    requires s.timers > 0
    ensures HasLogged(s, TimedOut(s, copied, truncated, started), LineOf(s, Timeout(copied, truncated, started)))
  {
    var t := Copied(s, copied, truncated);
    assert HasLogged(s, t, []);
    EntryLogged(t, started);
    ThawLogsNothing(t);
    ThawLogsNothing(Logged(t, started));
  }

  lemma LineLogged(s: State, e: Event)
    ensures HasLogged(s, Step(s, e), LineOf(s, e))
  {
    match e
    case Log(entry) => EntryLogged(s, entry);
    case Thaw => ThawLogsNothing(s);
    case Timeout(copied, truncated, started) => if s.timers > 0 { TimeoutLogged(s, copied, truncated, started); }
    case BlockFound(entry) => BlockLogged(s, entry);
    case _ =>
  }

  /** The log is the lines of the events, in their order. */
  lemma {:induction false} LinesLogged(s: State, es: seq<Event>)
    ensures Run(s, es).logged == s.logged + Lines(s, es) && Run(s, es).initial == s.initial
    decreases |es|
  {
    if es != [] {
      var t := Step(s, es[0]);
      LineLogged(s, es[0]);
      LinesLogged(t, es[1..]);
      Regroup(s.logged, LineOf(s, es[0]), Lines(t, es[1..]));
    }
  }

  lemma {:induction false} RunKeepsBytes(s: State, es: seq<Event>)
    requires Coherent(s) && Conserved(s)
    ensures Coherent(Run(s, es)) && Conserved(Run(s, es))
    decreases |es|
  {
    if es != [] {
      StepConserves(s, es[0]);
      StepKeepsCoherence(s, es[0]);
      RunKeepsBytes(Step(s, es[0]), es[1..]);
    }
  }

  lemma AllBytes(s: State)
    requires Conserved(s)
    ensures Away(s.archives) + s.file + Unwritten(s) + Concat(s.queue) == s.initial + Concat(s.logged)
  {
    var taken := s.logged[..Taken(s)];
    ConcatInParts(taken, s.queue);
    assert taken + s.queue == s.logged;
    Regroup(s.initial, Concat(taken), Concat(s.queue));
  }

  /** Over every run: what was truncated away (all of it copied before), then the file, then the bytes
      not yet on disk, then the queue, is what was there and the line of every event, in order. */
  lemma EveryByteInOrder(s: State, es: seq<Event>)
    requires Coherent(s) && Conserved(s)
    ensures var t := Run(s, es);
            && Coherent(t) && Conserved(t)
            && Away(t.archives) + t.file + Unwritten(t) + Concat(t.queue)
               == s.initial + Concat(s.logged + Lines(s, es))
  {
    RunKeepsBytes(s, es);
    LinesLogged(s, es);
    AllBytes(Run(s, es));
  }

  /** So from a fresh logger: nothing logged is lost, doubled or moved. */
  lemma EveryLineInOrder(hasFile: bool, content: string, es: seq<Event>)
    ensures var t := Run(Fresh(hasFile, content), es);
            Away(t.archives) + t.file + Unwritten(t) + Concat(t.queue)
            == content + Concat(Lines(Fresh(hasFile, content), es))
  {
    var s := Fresh(hasFile, content);
    assert Conserved(s);
    EveryByteInOrder(s, es);
    assert s.logged + Lines(s, es) == Lines(s, es);
  }

  // ---------- a flush completes, or never can ----------

  /** Someone waits for a flush and nothing is under way that could complete it. */
  predicate Wedged(s: State) {
    s.waiter.Some? && s.op.Idle? && s.buffer == "" && !s.flushing
  }

  /** How many stream completions a waiting flush is away from done. */
  function Rank(s: State): nat {
    if s.op.Flush? then 1 else if s.flushing then 3 else 2
  }

  predicate IsCompletion(s: State, e: Event) {
    (e.WriteDone? && s.op.Write?) || (e.FlushDone? && s.op.Flush?)
  }

  /** The waiting flush is as far from done as before, with an operation still in flight. */
  predicate StillWaiting(s: State, t: State) {
    t.waiter.Some? && !t.op.Idle? && t.flushes == s.flushes
  }

  lemma TimeoutKeepsRank(s: State, copied: bool, truncated: bool, started: string)
    requires s.waiter.Some? && !s.op.Idle? && s.timers > 0
    ensures var t := TimedOut(s, copied, truncated, started); StillWaiting(s, t) && Rank(t) == Rank(s)
  {
    assert !Copied(s, copied, truncated).op.Idle?;
  }

  lemma CompletionLowersRank(s: State, e: Event)
    requires Coherent(s) && s.waiter.Some? && IsCompletion(s, e)
    ensures var t := Step(s, e); t.flushes > s.flushes || (StillWaiting(s, t) && Rank(t) < Rank(s))
  {
  }

  lemma StepLowersRank(s: State, e: Event)
    requires Coherent(s) && s.waiter.Some? && !s.op.Idle?
    ensures var t := Step(s, e);
            if IsCompletion(s, e)
            then t.flushes > s.flushes || (StillWaiting(s, t) && Rank(t) < Rank(s))
            else StillWaiting(s, t) && Rank(t) == Rank(s)
  {
    if IsCompletion(s, e) {
      CompletionLowersRank(s, e);
    } else {
      match e
      case Timeout(copied, truncated, started) => if s.timers > 0 { TimeoutKeepsRank(s, copied, truncated, started); }
      case _ =>
    }
  }

  /** How many stream completions a run contains. */
  function Completions(s: State, es: seq<Event>): nat
    decreases |es|
  {
    if es == [] then 0 else (if IsCompletion(s, es[0]) then 1 else 0) + Completions(Step(s, es[0]), es[1..])
  }

  lemma TimeoutKeepsFlushes(s: State, copied: bool, truncated: bool, started: string)
    requires s.timers > 0
    ensures TimedOut(s, copied, truncated, started).flushes == s.flushes
  {
    assert Logged(Copied(s, copied, truncated), started).flushes == s.flushes;
  }

  lemma FlushesGrow(s: State, e: Event)
    ensures Step(s, e).flushes >= s.flushes
  {
    match e
    case Timeout(copied, truncated, started) => if s.timers > 0 { TimeoutKeepsFlushes(s, copied, truncated, started); }
    case BlockFound(entry) => assert Logged(s, entry).flushes == s.flushes;
    case _ =>
  }

  lemma {:induction false} FlushesGrowInRun(s: State, es: seq<Event>)
    ensures Run(s, es).flushes >= s.flushes
    decreases |es|
  {
    if es != [] {
      FlushesGrow(s, es[0]);
      FlushesGrowInRun(Step(s, es[0]), es[1..]);
    }
  }

  /** A waiting flush with an operation in flight is done after at most three completions,
      whatever their sizes, failures, and whatever else happens in between. */
  lemma {:induction false} FlushWithinThree(s: State, es: seq<Event>)
    requires Coherent(s) && s.waiter.Some? && !s.op.Idle?
    requires Completions(s, es) >= Rank(s)
    ensures Rank(s) <= 3 && Run(s, es).flushes > s.flushes
    decreases |es|
  {
    if es != [] {
      var t := Step(s, es[0]);
      StepLowersRank(s, es[0]);
      StepKeepsCoherence(s, es[0]);
      if t.flushes > s.flushes {
        FlushesGrowInRun(t, es[1..]);
      } else {
        FlushWithinThree(t, es[1..]);
      }
    }
  }

  /** A flush requested when none is pending can complete exactly if an operation is in flight
      or bytes are staged; otherwise the logger is wedged. */
  lemma FlushCanComplete(s: State, waiter: Waiter)
    requires Coherent(s) && s.waiter.None?
    ensures var t := FlushAsked(s, waiter);
            && t.waiter == Some(waiter)
            && (Wedged(t) <==> s.op.Idle? && s.buffer == "")
            && (!Wedged(t) <==> !t.op.Idle?)
  {
  }

  /** The same write is in flight for the same waiter. */
  predicate StillWriting(s: State, t: State) {
    s.op.Write? && t.op.Write? && t.op.issued == s.op.issued && t.flushing == s.flushing && t.waiter == s.waiter
  }

  lemma TimeoutKeepsWriting(s: State, copied: bool, truncated: bool, started: string)
    requires s.waiter.Some? && s.op.Write? && s.timers > 0
    ensures StillWriting(s, TimedOut(s, copied, truncated, started))
  {
    assert StillWriting(s, Copied(s, copied, truncated));
  }

  lemma StepKeepsWriting(s: State, e: Event)
    requires s.waiter.Some? && s.op.Write? && s.op.landed <= |s.buffer| && !IsCompletion(s, e)
    ensures StillWriting(s, Step(s, e))
  {
    match e
    case Timeout(copied, truncated, started) => if s.timers > 0 { TimeoutKeepsWriting(s, copied, truncated, started); }
    case _ =>
  }

  lemma {:induction false} RunKeepsWriting(s: State, es: seq<Event>)
    requires Coherent(s) && s.waiter.Some? && s.op.Write? && Completions(s, es) == 0
    ensures Coherent(Run(s, es)) && StillWriting(s, Run(s, es))
    decreases |es|
  {
    if es != [] {
      StepKeepsWriting(s, es[0]);
      StepKeepsCoherence(s, es[0]);
      RunKeepsWriting(Step(s, es[0]), es[1..]);
    }
  }

  /** What follows a write that ends while a flush is waiting. */
  lemma WriteEnds(s: State)
    requires Coherent(s) && s.waiter.Some? && s.op.Write?
    ensures var t, rest := Step(s, WriteDone), s.op.issued[s.op.landed..];
            t.waiter == s.waiter && t.buffer == rest && !t.flushing
            && t.op == if s.flushing && rest != "" then Write(rest, 0) else Flush
  {
  }

  /** A flush request finds a write in flight or bytes to write. The stream is flushed after that
      one write if the logger was idle or all of it lands, and otherwise after exactly one more;
      what is staged then is what the last write did not land. */
  lemma FlushLeavesBytes(s: State, waiter: Waiter, es: seq<Event>, fs: seq<Event>)
    requires Coherent(s) && s.waiter.None? && (s.op.Write? || s.buffer != "")
    requires Completions(FlushAsked(s, waiter), es) == 0
    ensures var u := Run(FlushAsked(s, waiter), es);
            u.op.Write? && u.op.landed <= |u.op.issued|
            && var v, rest := Step(u, WriteDone), u.op.issued[u.op.landed..];
            v.buffer == rest
            && v.op == (if s.op.Idle? || rest == "" then Flush else Write(rest, 0))
            && (v.op.Write? && Completions(v, fs) == 0 ==>
                  var w := Run(v, fs);
                  w.op.Write? && w.op.issued == rest && w.op.landed <= |rest|
                  && Step(w, WriteDone).op.Flush? && Step(w, WriteDone).buffer == rest[w.op.landed..])
  {
    var t := FlushAsked(s, waiter);
    FlushAskedCoherently(s, waiter);
    assert t.flushing <==> s.op.Write?;
    RunKeepsWriting(t, es);
    var u := Run(t, es);
    WriteEnds(u);
    var v := Step(u, WriteDone);
    StepKeepsCoherence(u, WriteDone);
    if v.op.Write? && Completions(v, fs) == 0 {
      RunKeepsWriting(v, fs);
      WriteEnds(Run(v, fs));
    }
  }

  /** No flush completed, no entry left the queue, and the file kept its content or was emptied. */
  predicate StillWedged(s: State, t: State) {
    && Wedged(t) && t.flushes == s.flushes
    && (t.file == s.file || t.file == "")
    && s.queue <= t.queue && Taken(t) == Taken(s)
  }

  lemma LoggingWhileWedged(s: State, entry: string)
    requires Wedged(s)
    ensures StillWedged(s, Logged(s, entry))
  {
  }

  lemma TimeoutWhileWedged(s: State, copied: bool, truncated: bool, started: string)
    requires Wedged(s) && s.timers > 0
    ensures StillWedged(s, TimedOut(s, copied, truncated, started))
  {
    LoggingWhileWedged(Copied(s, copied, truncated), started);
  }

  lemma StepStaysWedged(s: State, e: Event)
    requires Wedged(s)
    ensures StillWedged(s, Step(s, e))
  {
    match e
    case Log(entry) => LoggingWhileWedged(s, entry);
    case BlockFound(entry) => LoggingWhileWedged(s, entry);
    case Timeout(copied, truncated, started) => if s.timers > 0 { TimeoutWhileWedged(s, copied, truncated, started); }
    case _ =>
  }

  /** A wedged logger stays wedged over every further run: no flush completes, no entry leaves
      the queue, and the file can only be emptied. */
  lemma {:induction false} WedgedForever(s: State, es: seq<Event>)
    requires Wedged(s)
    ensures StillWedged(s, Run(s, es))
    decreases |es|
  {
    if es != [] {
      StepStaysWedged(s, es[0]);
      WedgedForever(Step(s, es[0]), es[1..]);
    }
  }

  lemma LoggingIssues(s: State, entry: string)
    requires Coherent(s) && MayDrain(s)
    ensures !Logged(s, entry).op.Idle?
  {
    ConcatInParts(s.queue, [entry + "\n"]);
    assert Concat([entry + "\n"]) == entry + "\n";
  }

  /** Announcing a found block wedges a logger with no flush pending exactly when it is frozen
      with nothing staged or in flight, as it is while an earlier truncation waits out its delay. */
  lemma BlockFoundWedges(s: State, entry: string)
    requires Coherent(s) && s.hasFile && s.waiter.None?
    ensures Wedged(Step(s, BlockFound(entry))) <==> s.frozen && s.op.Idle? && s.buffer == ""
    ensures !s.frozen ==> !Logged(s, entry).op.Idle?
  {
    if !s.frozen {
      LoggingIssues(s, entry);
    }
    LoggedCoherently(s, entry);
    FlushCanComplete(Logged(s, entry).(frozen := true, mark := TruncationAsked(Logged(s, entry)).mark), Truncation);
  }

  /** A logger whose first archived round waits out its delay. */
  lemma FirstBlockWaits(content: string, a: string)
    ensures var s := Run(Fresh(true, content), [BlockFound(a), Land(|a| + 1), WriteDone, FlushDone]);
            Coherent(s) && s.hasFile && s.waiter.None? && s.frozen && s.op.Idle? && s.buffer == "" && s.timers == 1
  {
    var s0, line := Fresh(true, content), a + "\n";
    var s1 := Step(s0, BlockFound(a));
    assert s0.queue + [line] == [line] && Concat([line]) == line && "" + line == line;
    assert s1.op == Write(line, 0) && s1.buffer == line && s1.flushing && s1.waiter == Some(Truncation);
    var s2 := Step(s1, Land(|a| + 1));
    assert s2.op == Write(line, |line|);
    var s3 := Step(s2, WriteDone);
    assert s3.op == Flush && s3.buffer == "";
    var s4 := Step(s3, FlushDone);
    assert Run(s4, []) == s4;
    RunOfFour(s0, BlockFound(a), Land(|a| + 1), WriteDone, FlushDone);
  }

  lemma RunOfFour(s: State, a: Event, b: Event, c: Event, d: Event)
    ensures Run(s, [a, b, c, d]) == Step(Step(Step(Step(s, a), b), c), d)
  {
    assert [a, b, c, d][1..] == [b, c, d] && [b, c, d][1..] == [c, d] && [c, d][1..] == [d] && [d][1..] == [];
    assert Run(s, [a, b, c, d]) == Run(Step(s, a), [b, c, d]);
    assert Run(Step(s, a), [b, c, d]) == Run(Step(Step(s, a), b), [c, d]);
    assert Run(Step(Step(s, a), b), [c, d]) == Run(Step(Step(Step(s, a), b), c), [d]);
  }

  /** It happens: a second block found before the first one's delay is over. */
  lemma SecondBlockWedges(content: string, a: string, b: string)
    ensures Wedged(Step(Run(Fresh(true, content), [BlockFound(a), Land(|a| + 1), WriteDone, FlushDone]), BlockFound(b)))
  {
    FirstBlockWaits(content, a);
    BlockFoundWedges(Run(Fresh(true, content), [BlockFound(a), Land(|a| + 1), WriteDone, FlushDone]), b);
  }

  // ---------- rounds archived one at a time ----------

  function Outstanding(s: State): nat {
    (if s.waiter.Some? then 1 else 0) + s.timers
  }

  /** The round manager's events, with no block found while a truncation waits out its delay. */
  predicate Driven(s: State, e: Event) {
    match e
    case FlushCall => false
    case Freeze => false
    case Thaw => false
    case CopyAndTruncate => false
    case BlockFound(_) => s.timers == 0
    case _ => true
  }

  predicate DrivenRun(s: State, es: seq<Event>)
    decreases |es|
  {
    es == [] || (Driven(s, es[0]) && DrivenRun(Step(s, es[0]), es[1..]))
  }

  /** Frozen means that a flush is under way or the delay is running, and it ends. Unfrozen and
      idle means that everything has been written. */
  ghost predicate Orderly(s: State) {
    && Coherent(s) && Conserved(s)
    && (s.waiter.Some? ==> s.waiter == Some(Truncation) && s.frozen && !s.op.Idle? && s.timers == 0)
    && s.timers <= 1
    && (s.timers == 1 ==> s.frozen && s.op.Idle? && s.atFlush == s.buffer)
    && (s.frozen <==> Outstanding(s) == 1)
    && (s.frozen ==> Taken(s) <= s.mark <= |s.logged|)
    && (!s.frozen && s.op.Idle? ==> s.queue == [] && s.buffer == "")
  }

  /** With everything truncated before it, a copy is the log up to some entry, short of exactly the
      bytes that were staged when its flush completed, and no entry logged after the freeze is in it. */
  ghost predicate GoodArchive(s: State, i: nat)
    requires i < |s.archives|
  {
    var a := s.archives[i];
    && 0 <= a.taken <= a.mark <= |s.logged|
    && Away(s.archives[..i]) + a.content + a.rest == s.initial + Concat(s.logged[..a.taken])
    && (Away(s.archives[..i]) + a.content == s.initial + Concat(s.logged[..a.taken]) <==> a.rest == "")
  }

  ghost predicate GoodArchives(s: State) {
    forall i :: 0 <= i < |s.archives| ==> GoodArchive(s, i)
  }

  lemma FirstBlockOrderly(s: State, entry: string)
    requires Orderly(s) && Outstanding(s) == 0
    ensures Orderly(Step(s, BlockFound(entry)))
  {
    StepConserves(s, BlockFound(entry));
    StepKeepsCoherence(s, BlockFound(entry));
    LoggingIssues(s, entry);
    LoggedConserves(s, entry);
  }

  /** A block found while the flush of an earlier truncation is pending is logged and gets no
      archive of its own. */
  lemma BlockDuringFlush(s: State, entry: string)
    requires Orderly(s) && s.waiter.Some?
    ensures Step(s, BlockFound(entry)) == Logged(s, entry)
  {
  }

  lemma BlockFoundOrderly(s: State, entry: string)
    requires Orderly(s) && s.timers == 0
    ensures Orderly(Step(s, BlockFound(entry)))
  {
    if s.waiter.Some? {
      BlockDuringFlush(s, entry);
      LoggedOrderly(s, entry);
    } else {
      FirstBlockOrderly(s, entry);
    }
  }

  /** A found block upsets an orderly logger exactly when it comes during the delay, and wedges
      it exactly when moreover nothing is staged. */
  lemma BlockDuringDelay(s: State, entry: string)
    requires Orderly(s) && s.hasFile
    ensures Orderly(Step(s, BlockFound(entry))) <==> s.timers == 0
    ensures Wedged(Step(s, BlockFound(entry))) <==> s.timers == 1 && s.buffer == ""
  {
    if s.timers == 0 {
      BlockFoundOrderly(s, entry);
    } else {
      BlockFoundWedges(s, entry);
    }
  }

  lemma TimeoutOrderly(s: State, copied: bool, truncated: bool, started: string)
    requires Orderly(s) && s.timers > 0
    ensures Orderly(TimedOut(s, copied, truncated, started))
  {
    TimedOutConserves(s, copied, truncated, started);
    TimedOutCoherently(s, copied, truncated, started);
  }

  lemma WrittenOrderly(s: State)
    requires Orderly(s) && s.op.Write?
    ensures Orderly(Written(s, s.op.landed))
  {
    WrittenConserves(s);
    WrittenCoherently(s);
  }

  lemma LoggedOrderly(s: State, entry: string)
    requires Orderly(s)
    ensures Orderly(Logged(s, entry))
  {
    LoggedConserves(s, entry);
    LoggedCoherently(s, entry);
  }

  lemma StepOrderly(s: State, e: Event)
    requires Orderly(s) && Driven(s, e)
    ensures Orderly(Step(s, e))
  {
    match e
    case Log(entry) => LoggedOrderly(s, entry);
    case Land(bytes) => LandedConserves(s, bytes);
    case WriteDone => if s.op.Write? { WrittenOrderly(s); }
    case FlushDone =>
    case Timeout(copied, truncated, started) => if s.timers > 0 { TimeoutOrderly(s, copied, truncated, started); }
    case BlockFound(entry) => BlockFoundOrderly(s, entry);
  }

  // ---------- the archives of such a run ----------

  /** The log grew, the archives did not. */
  lemma ArchivesKept(s: State, t: State)
    requires GoodArchives(s) && t.archives == s.archives && t.initial == s.initial
    requires s.logged <= t.logged
    ensures GoodArchives(t)
  {
    forall i | 0 <= i < |t.archives|
      ensures GoodArchive(t, i)
    {
      assert GoodArchive(s, i);
      assert t.logged[..s.archives[i].taken] == s.logged[..s.archives[i].taken];
    }
  }

  lemma NothingMore(a: string, b: string)
    ensures a == a + b <==> b == ""
  {
  }

  lemma CopyIsGood(s: State, copied: bool, truncated: bool)
    requires Orderly(s) && GoodArchives(s) && s.timers > 0
    ensures GoodArchives(Copied(s, copied, truncated))
  {
    var t := Copied(s, copied, truncated);
    if !copied {
      ArchivesKept(s, t);
    } else {
      forall i | 0 <= i < |t.archives|
        ensures GoodArchive(t, i)
      {
        assert t.archives[..i] == s.archives[..i];
        if i < |s.archives| {
          assert GoodArchive(s, i);
        } else {
          assert s.archives[..i] == s.archives;
          NothingMore(Away(s.archives) + s.file, s.atFlush);
        }
      }
    }
  }

  lemma TimeoutKeepsArchives(s: State, copied: bool, truncated: bool, started: string)
    requires s.timers > 0
    ensures var t, u := Copied(s, copied, truncated), TimedOut(s, copied, truncated, started);
            u.archives == t.archives && u.initial == t.initial && t.logged <= u.logged
  {
  }

  lemma StepKeepsArchivesGood(s: State, e: Event)
    requires Orderly(s) && GoodArchives(s) && Driven(s, e)
    ensures GoodArchives(Step(s, e))
  {
    match e
    case Timeout(copied, truncated, started) =>
      if s.timers > 0 {
        CopyIsGood(s, copied, truncated);
        TimeoutKeepsArchives(s, copied, truncated, started);
        ArchivesKept(Copied(s, copied, truncated), Step(s, e));
      }
    case _ => ArchivesKept(s, Step(s, e));
  }

  /** Over a whole run of the round manager's events, as long as no block is found during a
      delay. */
  lemma {:induction false} RoundsArchived(s: State, es: seq<Event>)
    requires Orderly(s) && GoodArchives(s) && DrivenRun(s, es)
    ensures Orderly(Run(s, es)) && GoodArchives(Run(s, es))
    decreases |es|
  {
    if es != [] {
      StepOrderly(s, es[0]);
      StepKeepsArchivesGood(s, es[0]);
      RoundsArchived(Step(s, es[0]), es[1..]);
    }
  }

  lemma FreshIsOrderly(hasFile: bool, content: string)
    ensures Orderly(Fresh(hasFile, content)) && GoodArchives(Fresh(hasFile, content))
  {
  }

  // ---------- from the flush to the copy ----------

  predicate NoTimeout(es: seq<Event>) {
    forall e :: e in es ==> !e.Timeout?
  }

  /** Only the end of the queue has grown. */
  predicate HeldFrozen(s: State, t: State) {
    && t.frozen && t.mark == s.mark && Taken(t) == Taken(s)
    && s.logged <= t.logged && t.initial == s.initial && t.archives == s.archives
  }

  lemma FrozenStep(s: State, e: Event)
    requires Orderly(s) && Driven(s, e) && s.frozen && !e.Timeout?
    ensures Orderly(Step(s, e)) && HeldFrozen(s, Step(s, e))
  {
    StepOrderly(s, e);
  }

  /** From the freeze to the end of the delay nothing leaves the queue. */
  lemma {:induction false} FrozenRun(s: State, es: seq<Event>)
    requires Orderly(s) && DrivenRun(s, es) && s.frozen && NoTimeout(es)
    ensures Orderly(Run(s, es)) && HeldFrozen(s, Run(s, es))
    decreases |es|
  {
    if es != [] {
      assert es[0] in es;
      FrozenStep(s, es[0]);
      FrozenRun(Step(s, es[0]), es[1..]);
    }
  }

  /** The delay is running and nothing was written since it began. */
  predicate Delayed(s: State, t: State) {
    && t.timers == 1 && t.buffer == s.buffer && t.file == s.file && t.atFlush == s.atFlush
  }

  lemma DelayStep(s: State, e: Event)
    requires Orderly(s) && Driven(s, e) && s.timers == 1 && !e.Timeout?
    ensures Delayed(s, Step(s, e))
  {
  }

  lemma {:induction false} DelayRun(s: State, es: seq<Event>)
    requires Orderly(s) && DrivenRun(s, es) && s.timers == 1 && NoTimeout(es)
    ensures Delayed(s, Run(s, es))
    decreases |es|
  {
    if es != [] {
      assert es[0] in es;
      DelayStep(s, es[0]);
      StepOrderly(s, es[0]);
      DelayRun(Step(s, es[0]), es[1..]);
    }
  }

  /** The archive that a timeout makes in this state, if the copy succeeds. */
  function NextArchive(s: State, truncated: bool): Archive {
    Archive(s.file, truncated && s.op.Idle?, Taken(s), s.atFlush, s.mark)
  }

  lemma TimeoutArchives(s: State, truncated: bool, started: string)
    requires s.timers > 0
    ensures Step(s, Timeout(true, truncated, started)).archives == s.archives + [NextArchive(s, truncated)]
  {
    assert Copied(s, true, truncated).archives == s.archives + [NextArchive(s, truncated)];
  }

  /** The copy is the file as it was when the flush completed, short of what was staged then; so it
      ends where the last entry taken from the queue ends exactly when nothing was staged. */
  lemma EntryBoundary(s: State, es: seq<Event>, truncated: bool, started: string)
    requires Orderly(s) && s.op.Flush?
    requires DrivenRun(Step(s, FlushDone), es) && NoTimeout(es)
    ensures var u := Run(Step(s, FlushDone), es); var a := NextArchive(u, truncated);
            && u.timers == 1 && Step(u, Timeout(true, truncated, started)).archives == s.archives + [a]
            && a.content == s.file && a.rest == s.buffer && a.taken == Taken(s) && a.mark == s.mark
            && (Away(s.archives) + a.content == s.initial + Concat(s.logged[..Taken(s)]) <==> s.buffer == "")
  {
    var t := Step(s, FlushDone);
    StepOrderly(s, FlushDone);
    FrozenRun(t, es);
    DelayRun(t, es);
    TimeoutArchives(Run(t, es), truncated, started);
    NothingMore(Away(s.archives) + s.file, s.buffer);
  }

  // ---------- what a round's archive holds of the block ----------

  /** What announcing a block stages: its own line if the logger was idle, nothing otherwise. */
  function LineStaged(s: State, entry: string): string {
    if s.op.Idle? then entry + "\n" else ""
  }

  lemma BlockLineStaged(s: State, entry: string)
    requires Orderly(s) && Outstanding(s) == 0 && s.hasFile
    ensures var t := Step(s, BlockFound(entry));
            && t.frozen && t.mark == |t.logged| && t.logged == s.logged + [entry + "\n"]
            && t.file == s.file && t.archives == s.archives && t.initial == s.initial
            && Unwritten(t) == Unwritten(s) + LineStaged(s, entry)
            && (Taken(t) == t.mark <==> s.op.Idle?)
  {
    assert s.queue + [entry + "\n"] == if s.queue == [] then [entry + "\n"] else s.queue + [entry + "\n"];
    assert Concat([entry + "\n"]) == entry + "\n" by {
      assert [entry + "\n"][1..] == [];
    }
  }

  lemma SamePrefix(a: string, b: string, c: string)
    requires a + b == a + c
    ensures b == c
  {
    assert (a + b)[|a|..] == b && (a + c)[|a|..] == c;
  }

  /** Entries from the k-th to the last, which is a whole line, are not nothing. */
  lemma LastLineCounts(logged: seq<string>, k: nat, line: string)
    requires k < |logged| && logged[|logged| - 1] == line && line != ""
    ensures |Concat(logged[..k])| < |Concat(logged)|
  {
    var n := |logged| - 1;
    ConcatInParts(logged[..k], logged[k..n]);
    ConcatInParts(logged[..n], [line]);
    assert logged[..k] + logged[k..n] == logged[..n] && logged[..n] + [line] == logged;
    assert [line][1..] == [];
  }

  /** The log up to the block's line and what two texts make of it. */
  lemma WholeLogCopied(all: string, upTo: string, copies: string, rest: string)
    requires copies + rest == upTo && upTo <= all
    ensures all <= copies <==> upTo == all && rest == ""
  {
    if all <= copies {
      assert |copies| + |rest| == |upTo| <= |all| <= |copies|;
      assert upTo == all;
    }
    if upTo == all && rest == "" {
      assert copies + rest == copies;
    }
  }

  lemma CopyOfRound(t: State, u: State)
    requires Orderly(t) && Orderly(u) && HeldFrozen(t, u) && u.timers == 1
    ensures u.file + u.atFlush == t.file + Unwritten(t)
    ensures Away(t.archives) + u.file + u.atFlush == u.initial + Concat(t.logged[..Taken(t)])
  {
    assert u.logged[..Taken(t)] == t.logged[..Taken(t)];
    var away := Away(t.archives);
    Regroup(away, u.file, u.atFlush);
    Regroup(away, t.file, Unwritten(t));
    SamePrefix(away, u.file + u.atFlush, t.file + Unwritten(t));
  }

  lemma PrefixOfLog(initial: string, logged: seq<string>, n: nat, line: string)
    requires n <= |logged| && logged != [] && logged[|logged| - 1] == line && line != ""
    ensures initial + Concat(logged[..n]) <= initial + Concat(logged)
    ensures initial + Concat(logged[..n]) == initial + Concat(logged) <==> n == |logged|
  {
    ConcatInParts(logged[..n], logged[n..]);
    assert logged[..n] + logged[n..] == logged;
    if n < |logged| {
      LastLineCounts(logged, n, line);
    } else {
      assert logged[..n] == logged;
    }
  }

  /** Of all that was logged up to the block's own line, the copies hold everything exactly when the
      logger was idle and nothing was still staged when its flush completed. In any case the copy
      ends with what announcing the block left to write, short of what was staged. */
  ghost predicate RoundCopy(s: State, entry: string, t: State, a: Archive) {
    && a.taken == Taken(t) && a.mark == |t.logged|
    && a.content + a.rest == s.file + Unwritten(s) + LineStaged(s, entry)
    && (s.initial + Concat(t.logged) <= Away(s.archives) + a.content <==> s.op.Idle? && a.rest == "")
  }

  lemma RoundIsCopied(s: State, entry: string, t: State, u: State, truncated: bool)
    requires Orderly(s) && Outstanding(s) == 0 && s.hasFile && t == Step(s, BlockFound(entry))
    requires Orderly(t) && Orderly(u) && HeldFrozen(t, u) && u.timers == 1
    ensures RoundCopy(s, entry, t, NextArchive(u, truncated))
  {
    BlockLineStaged(s, entry);
    CopyOfRound(t, u);
    Regroup(s.file, Unwritten(s), LineStaged(s, entry));
    RoundFacts(s, entry, t, u.file, u.atFlush);
  }

  lemma RoundFacts(s: State, entry: string, t: State, content: string, rest: string)
    requires 0 <= Taken(t) <= |t.logged| && t.logged == s.logged + [entry + "\n"] && t.initial == s.initial
    requires Away(s.archives) + content + rest == t.initial + Concat(t.logged[..Taken(t)])
    requires Taken(t) == |t.logged| <==> s.op.Idle?
    ensures s.initial + Concat(t.logged) <= Away(s.archives) + content <==> s.op.Idle? && rest == ""
  {
    LogInCopies(t, Away(s.archives) + content, rest, entry + "\n");
  }

  lemma LogInCopies(t: State, copies: string, rest: string, line: string)
    requires 0 <= Taken(t) <= |t.logged| && t.logged != [] && t.logged[|t.logged| - 1] == line && line != ""
    requires copies + rest == t.initial + Concat(t.logged[..Taken(t)])
    ensures t.initial + Concat(t.logged) <= copies <==> Taken(t) == |t.logged| && rest == ""
  {
    PrefixOfLog(t.initial, t.logged, Taken(t), line);
    WholeLogCopied(t.initial + Concat(t.logged), t.initial + Concat(t.logged[..Taken(t)]), copies, rest);
  }

  /** From a block found on an orderly logger with no truncation outstanding, through any driven run
      to the copy. */
  lemma BlockLineArchived(s: State, entry: string, es: seq<Event>, truncated: bool, started: string)
    requires Orderly(s) && Outstanding(s) == 0 && s.hasFile
    requires DrivenRun(Step(s, BlockFound(entry)), es) && NoTimeout(es)
    requires Run(Step(s, BlockFound(entry)), es).timers > 0
    ensures var t := Step(s, BlockFound(entry)); var u := Run(t, es); var a := NextArchive(u, truncated);
            && Step(u, Timeout(true, truncated, started)).archives == s.archives + [a]
            && RoundCopy(s, entry, t, a)
  {
    var t := Step(s, BlockFound(entry));
    FirstBlockOrderly(s, entry);
    BlockLineStaged(s, entry);
    FrozenRun(t, es);
    TimeoutArchives(Run(t, es), truncated, started);
    RoundIsCopied(s, entry, t, Run(t, es), truncated);
  }

  /** Both writes of a flush fail. */
  lemma FailsTwice(s: State)
    requires Orderly(s) && s.flushing && s.op.landed == 0
    ensures Step(Step(Step(s, WriteDone), WriteDone), FlushDone)
            == s.(flushing := false, waiter := None, op := Idle, timers := 1,
                  atFlush := s.buffer, flushes := s.flushes + 1)
  {
    assert s.buffer[0..] == s.buffer;
    WriteEnds(s);
    var t := Step(s, WriteDone);
    StepKeepsCoherence(s, WriteDone);
    WriteEnds(t);
  }

  lemma OrderlyToFlush(s: State)
    requires Orderly(s)
    ensures Orderly(Step(Step(Step(s, WriteDone), WriteDone), FlushDone))
  {
    StepOrderly(s, WriteDone);
    StepOrderly(Step(s, WriteDone), WriteDone);
    StepOrderly(Step(Step(s, WriteDone), WriteDone), FlushDone);
  }

  lemma FirstBlockAnnounced(content: string, a: string)
    ensures var s := Step(Fresh(true, content), BlockFound(a));
            && Orderly(s) && s.op == Write(a + "\n", 0) && s.buffer == a + "\n" && s.flushing
            && s.file == content && s.hasFile
  {
    FreshIsOrderly(true, content);
    FirstBlockOrderly(Fresh(true, content), a);
    BlockLineStaged(Fresh(true, content), a);
    assert "" + (a + "\n") == a + "\n";
  }

  /** It happens that an idle logger archives a round without any of its block's line: both writes
      fail, the stream is flushed with the line staged, and the delay begins. */
  lemma WritesFail(content: string, a: string)
    ensures var s := Run(Fresh(true, content), [BlockFound(a), WriteDone, WriteDone, FlushDone]);
            && Orderly(s) && s.hasFile && s.timers == 1
            && s.file == content && s.buffer == a + "\n" && s.atFlush == a + "\n"
  {
    FirstBlockAnnounced(content, a);
    FailsTwice(Step(Fresh(true, content), BlockFound(a)));
    OrderlyToFlush(Step(Fresh(true, content), BlockFound(a)));
    RunOfFour(Fresh(true, content), BlockFound(a), WriteDone, WriteDone, FlushDone);
  }

  // ---------- a block during the delay with bytes staged ----------

  lemma StagedBlock(s: State, entry: string)
    requires Orderly(s) && s.hasFile && s.timers == 1 && s.buffer != ""
    ensures Step(s, BlockFound(entry))
            == s.(queue := s.queue + [entry + "\n"], logged := s.logged + [entry + "\n"], mark := |s.logged| + 1,
                  waiter := Some(Truncation), op := Write(s.buffer, 0))
  {
  }

  /** Shares are logged and the stream makes progress; no block is found and no delay ends. */
  predicate Quiet(es: seq<Event>) {
    forall e :: e in es ==> e.Log? || e.Land? || e.WriteDone? || e.FlushDone?
  }

  /** How many completions the new block's flush is away from its own delay. */
  function Phase(s: State): nat {
    match s.op case Write(_, _) => 2 case Flush => 1 case Idle => 0
  }

  /** The new block's write, then its flush, then its delay, beside so many delays of other blocks. */
  ghost predicate FlushPhase(s: State, delays: nat) {
    && Coherent(s) && !s.flushing
    && (s.waiter == Some(Truncation) || s.waiter.None?)
    && (s.waiter.None? <==> s.op.Idle?)
    && s.timers == delays + if s.op.Idle? then 1 else 0
  }

  /** The log grew, and nothing left the queue. */
  predicate QueueHeld(s: State, t: State) {
    && t.frozen == s.frozen && t.mark == s.mark && t.archives == s.archives
    && Taken(t) == Taken(s) && s.logged <= t.logged
  }

  lemma PhaseStep(s: State, e: Event, delays: nat)
    requires FlushPhase(s, delays) && (s.frozen || !s.op.Idle?)
    requires e.Log? || e.Land? || e.WriteDone? || e.FlushDone?
    ensures var t := Step(s, e);
            && FlushPhase(t, delays) && QueueHeld(s, t)
            && Phase(t) + (if IsCompletion(s, e) then 1 else 0) == Phase(s)
  {
    StepKeepsCoherence(s, e);
  }

  /** As long as the logger is frozen or the flush is not done, completions count the phase down and
      nothing leaves the queue. */
  lemma {:induction false} PhaseRun(s: State, es: seq<Event>, delays: nat)
    requires FlushPhase(s, delays) && Quiet(es) && (s.frozen || Completions(s, es) < Phase(s))
    ensures var t := Run(s, es);
            FlushPhase(t, delays) && QueueHeld(s, t) && Phase(t) + Completions(s, es) == Phase(s)
    decreases |es|
  {
    if es != [] {
      assert es[0] in es;
      PhaseStep(s, es[0], delays);
      PhaseRun(Step(s, es[0]), es[1..], delays);
    }
  }

  lemma StagedBlockBegins(s: State, entry: string)
    requires Orderly(s) && s.hasFile && s.timers == 1 && s.buffer != ""
    ensures var t := Step(s, BlockFound(entry));
            FlushPhase(t, 1) && t.frozen && Phase(t) == 2 && t.mark == |t.logged| == |s.logged| + 1
            && Taken(t) == Taken(s) <= |s.logged| && t.archives == s.archives
  {
    StagedBlock(s, entry);
    StepKeepsCoherence(s, BlockFound(entry));
  }

  /** A block during the delay with bytes staged: when the earlier round's delay ends, the truncation
      of its file is refused exactly if the new block's write or flush is not yet done, and otherwise
      two delays are running. */
  lemma StagedBlockRefusal(s: State, entry: string, es: seq<Event>)
    requires Orderly(s) && s.hasFile && s.timers == 1 && s.buffer != "" && Quiet(es)
    ensures var t := Step(s, BlockFound(entry)); var u := Run(t, es);
            && u.timers > 0
            && (!NextArchive(u, true).truncated <==> Completions(t, es) < 2)
            && (u.timers == 2 <==> Completions(t, es) == 2) && (u.timers == 1 <==> Completions(t, es) < 2)
  {
    StagedBlockBegins(s, entry);
    PhaseRun(Step(s, BlockFound(entry)), es, 1);
  }

  lemma DrainedByThaw(s: State, copied: bool, truncated: bool, started: string)
    requires FlushPhase(s, 1) && s.frozen && s.op.Idle? && 0 <= Taken(s) <= |s.logged|
    ensures var v := Step(s, Timeout(copied, truncated, started));
            && !v.frozen && v.waiter.None? && v.timers == 1 && v.mark == s.mark
            && Taken(v) == |v.logged| && s.logged <= v.logged
            && (copied && truncated ==> |v.logged| == |s.logged| + 1)
            && (copied ==> v.archives == s.archives + [NextArchive(s, truncated)])
  {
    if copied {
      TimeoutArchives(s, truncated, started);
    }
  }

  /** Entries leave the queue for good, and the freeze is not moved. */
  lemma {:induction false} TakenGrows(s: State, es: seq<Event>)
    requires Quiet(es) && Taken(s) >= 0
    ensures var t := Run(s, es); Taken(t) >= Taken(s) && t.mark == s.mark && t.archives == s.archives
    decreases |es|
  {
    if es != [] {
      assert es[0] in es;
      TakenInStep(s, es[0]);
      TakenGrows(Step(s, es[0]), es[1..]);
    }
  }

  lemma TakenInStep(s: State, e: Event)
    requires e.Log? || e.Land? || e.WriteDone? || e.FlushDone?
    ensures var t := Step(s, e); Taken(t) >= Taken(s) && t.mark == s.mark && t.archives == s.archives
  {
  }

  /** If that truncation comes once the flush is done, it leaves the logger unfrozen and the queue
      empty while the new block's delay still runs. The new block's copy, whenever it comes, holds all
      that was logged until then, and past the freeze also the line that starts the round. */
  lemma StagedBlockPastFreeze(s: State, entry: string, es: seq<Event>, copied: bool, truncated: bool, started: string,
      fs: seq<Event>)
    requires Orderly(s) && s.hasFile && s.timers == 1 && s.buffer != "" && Quiet(es) && Quiet(fs)
    requires Completions(Step(s, BlockFound(entry)), es) == 2
    ensures var u := Run(Step(s, BlockFound(entry)), es); var v := Step(u, Timeout(copied, truncated, started));
            var a := NextArchive(Run(v, fs), true);
            && !v.frozen && v.timers == 1 && Taken(v) == |v.logged|
            && a.mark == |s.logged| + 1 && a.taken >= |v.logged| >= a.mark
            && (copied ==> v.archives == s.archives + [NextArchive(u, truncated)])
            && (copied && truncated ==> NextArchive(u, truncated).truncated && a.taken > a.mark)
  {
    var t := Step(s, BlockFound(entry));
    StagedBlockBegins(s, entry);
    PhaseRun(t, es, 1);
    DrainedByThaw(Run(t, es), copied, truncated, started);
    TakenGrows(Step(Run(t, es), Timeout(copied, truncated, started)), fs);
  }

  /** A timeout that comes while the write or flush is under way: copied but not truncated, and the
      logger thaws at once. */
  lemma FirstCopyRefused(s: State, truncated: bool, started: string)
    requires s.timers == 1 && s.waiter.Some? && !s.op.Idle?
    ensures Step(s, Timeout(true, truncated, started))
            == s.(timers := 0, frozen := false, archives := s.archives + [NextArchive(s, truncated)])
    ensures !NextArchive(s, truncated).truncated
  {
  }

  predicate LogsSome(es: seq<Event>) {
    exists e :: e in es && e.Log?
  }

  /** Without a freeze the first entry logged drains the queue. */
  lemma {:induction false} LogDrains(s: State, es: seq<Event>)
    requires Coherent(s) && !s.frozen && s.waiter.None? && s.op.Idle? && 0 <= Taken(s) <= s.mark <= |s.logged|
    requires Quiet(es)
    ensures Taken(Run(s, es)) > s.mark <==> LogsSome(es)
    ensures Run(s, es).mark == s.mark
    decreases |es|
  {
    if es != [] {
      var t := Step(s, es[0]);
      assert es[0] in es;
      if es[0].Log? {
        assert Taken(t) == |t.logged| == |s.logged| + 1;
        TakenGrows(t, es[1..]);
      } else {
        assert t == s;
        LogDrains(s, es[1..]);
        if LogsSome(es) {
          var e :| e in es && e.Log?;
          assert e in es[1..];
        }
      }
    }
  }

  /** If it was refused, the new block's copy holds entries logged after the freeze exactly if one
      is logged during its own delay, which no longer finds the logger frozen. */
  lemma RefusedPastFreeze(s: State, entry: string, es: seq<Event>, truncated: bool, started: string,
      fs: seq<Event>, gs: seq<Event>)
    requires Orderly(s) && s.hasFile && s.timers == 1 && s.buffer != "" && Quiet(es) && Quiet(fs) && Quiet(gs)
    requires var t := Step(s, BlockFound(entry)); var v := Step(Run(t, es), Timeout(true, truncated, started));
             Completions(t, es) < 2 && Completions(t, es) + Completions(v, fs) == 1
    ensures var v := Step(Run(Step(s, BlockFound(entry)), es), Timeout(true, truncated, started));
            var z := Step(Run(v, fs), FlushDone);
            && v.archives == s.archives + [NextArchive(Run(Step(s, BlockFound(entry)), es), truncated)]
            && !z.frozen && z.timers == 1
            && var a := NextArchive(Run(z, gs), true);
            a.mark == |s.logged| + 1 && (a.taken > a.mark <==> LogsSome(gs))
  {
    var t := Step(s, BlockFound(entry));
    StagedBlockBegins(s, entry);
    PhaseRun(t, es, 1);
    var u := Run(t, es);
    FirstCopyRefused(u, truncated, started);
    var v := Step(u, Timeout(true, truncated, started));
    PhaseRun(v, fs, 0);
    var w := Run(v, fs);
    assert w.op.Flush?;
    StepKeepsCoherence(w, FlushDone);
    LogDrains(Step(w, FlushDone), gs);
  }

  /** Its own write and flush done, the new block's delay starts on a logger that is not frozen. */
  lemma SecondDelayUnfrozen(s: State)
    requires !s.frozen && s.waiter == Some(Truncation) && !s.flushing && s.timers == 0
    requires s.op == Write(s.buffer, 0)
    ensures Step(Step(Step(s, Land(|s.buffer|)), WriteDone), FlushDone)
            == s.(file := s.file + s.buffer, buffer := "", waiter := None, op := Idle, timers := 1,
                  atFlush := "", flushes := s.flushes + 1)
  {
    assert s.buffer[0..0 + |s.buffer|] == s.buffer && s.buffer[|s.buffer|..] == "";
  }

  /** So an entry logged then is drained, written and copied. */
  lemma LoggedIntoCopy(s: State, entry: string)
    requires !s.frozen && s.waiter.None? && !s.flushing && s.op.Idle? && s.buffer == ""
    ensures var all := Concat(s.queue + [entry + "\n"]);
            Step(Step(s, Log(entry)), Land(|all|))
            == s.(queue := [], logged := s.logged + [entry + "\n"], buffer := all, op := Write(all, |all|),
                  file := s.file + all)
  {
    var all := Concat(s.queue + [entry + "\n"]);
    ConcatInParts(s.queue, [entry + "\n"]);
    assert Concat([entry + "\n"]) == entry + "\n" by {
      assert [entry + "\n"][1..] == [];
    }
    assert "" + all == all && all[0..0 + |all|] == all;
  }

  function StagedBlockRun(s: State, block: string, entry: string, started: string): (t: State) {
    var t := Step(Step(s, BlockFound(block)), Timeout(true, true, started));
    var u := Step(Step(Step(t, Land(|s.buffer|)), WriteDone), FlushDone);
    Step(Step(u, Log(entry)), Land(|Concat(u.queue + [entry + "\n"])|))
  }

  /** A run of that kind: the delay ends before the write lands, so the earlier round is copied but not
      truncated, and the block's own copy holds an entry logged after its freeze. */
  lemma StagedBlockMixesRounds(s: State, block: string, entry: string, started: string)
    requires Orderly(s) && s.hasFile && s.timers == 1 && s.buffer != ""
    ensures var t := StagedBlockRun(s, block, entry, started); var a := NextArchive(t, true);
            && |t.archives| == |s.archives| + 1 && !t.archives[|s.archives|].truncated
            && Step(t, Timeout(true, true, started)).archives == t.archives + [a]
            && a.mark == |s.logged| + 1 && a.taken == |s.logged| + 2 && !a.truncated
            && a.content == s.file + s.buffer + Concat(s.queue + [block + "\n"] + [entry + "\n"])
  {
    StagedBlock(s, block);
    var t := Step(s, BlockFound(block));
    FirstCopyRefused(t, true, started);
    SecondDelayUnfrozen(Step(t, Timeout(true, true, started)));
    var u := Step(t, Timeout(true, true, started));
    LoggedIntoCopy(Step(Step(Step(u, Land(|s.buffer|)), WriteDone), FlushDone), entry);
    TimeoutArchives(StagedBlockRun(s, block, entry, started), true, started);
  }

  // ---------- a logger that has no file ----------

  /** A logger made from a stream of a new file is given no file, and never archives: no run of the
      round manager's events makes a copy or loses a byte to truncation. */
  lemma {:induction false} NoFileNoArchive(s: State, es: seq<Event>)
    requires !s.hasFile && s.timers == 0 && s.waiter != Some(Truncation)
    ensures Run(s, es).archives == s.archives && Run(s, es).timers == 0
    decreases |es|
  {
    if es != [] {
      NoFileStep(s, es[0]);
      NoFileNoArchive(Step(s, es[0]), es[1..]);
    }
  }

  lemma NoFileStep(s: State, e: Event)
    requires !s.hasFile && s.timers == 0 && s.waiter != Some(Truncation)
    ensures var t := Step(s, e);
            !t.hasFile && t.timers == 0 && t.waiter != Some(Truncation) && t.archives == s.archives
  {
  }
  // ---------- every request is answered once ----------

  /** A flush request that is taken, rather than answered with an error because one is pending. */
  predicate AsksFlush(s: State, e: Event) {
    s.waiter.None? && (e.FlushCall? || AsksTruncation(s, e))
  }

  predicate AsksTruncation(s: State, e: Event) {
    s.waiter.None? && s.hasFile && (e.CopyAndTruncate? || e.BlockFound?)
  }

  function FlushesAsked(s: State, es: seq<Event>): nat
    decreases |es|
  {
    if es == [] then 0 else (if AsksFlush(s, es[0]) then 1 else 0) + FlushesAsked(Step(s, es[0]), es[1..])
  }

  function TruncationsAsked(s: State, es: seq<Event>): nat
    decreases |es|
  {
    if es == [] then 0 else (if AsksTruncation(s, es[0]) then 1 else 0) + TruncationsAsked(Step(s, es[0]), es[1..])
  }

  /** How many delays ended. */
  function DelaysEnded(s: State, es: seq<Event>): nat
    decreases |es|
  {
    if es == [] then 0
    else (if es[0].Timeout? && s.timers > 0 then 1 else 0) + DelaysEnded(Step(s, es[0]), es[1..])
  }

  function Pending(s: State): nat {
    if s.waiter.Some? then 1 else 0
  }

  function PendingTruncation(s: State): nat {
    if s.waiter == Some(Truncation) then 1 else 0
  }

  lemma TimeoutAnswers(s: State, copied: bool, truncated: bool, started: string)
    requires s.timers > 0
    ensures var t := TimedOut(s, copied, truncated, started);
            t.waiter == s.waiter && t.flushes == s.flushes && t.hasFile == s.hasFile && t.timers == s.timers - 1
  {
    var u := Copied(s, copied, truncated);
    assert Logged(u, started).waiter == u.waiter && Logged(u, started).flushes == u.flushes;
    assert Logged(u, started).hasFile == u.hasFile && Logged(u, started).timers == u.timers;
  }

  lemma LoggingAnswersNothing(s: State, entry: string)
    ensures var t := Logged(s, entry);
            t.waiter == s.waiter && t.flushes == s.flushes && t.hasFile == s.hasFile && t.timers == s.timers
  {
  }

  /** So many flushes and truncations more are asked for, and so many delays ended. */
  predicate Answering(s: State, t: State, flushes: nat, truncations: nat, ended: nat) {
    && t.flushes + Pending(t) == s.flushes + Pending(s) + flushes
    && t.timers + PendingTruncation(t) + ended == s.timers + PendingTruncation(s) + truncations
  }

  lemma TruncationAnswers(s: State)
    ensures var asks := if s.waiter.None? && s.hasFile then 1 else 0; Answering(s, TruncationAsked(s), asks, asks, 0)
  {
  }

  lemma CompletionAnswers(s: State, e: Event)
    requires e.WriteDone? || e.FlushDone?
    ensures Answering(s, Step(s, e), 0, 0, 0)
  {
  }

  lemma StepAnswers(s: State, e: Event)
    ensures Answering(s, Step(s, e), if AsksFlush(s, e) then 1 else 0, if AsksTruncation(s, e) then 1 else 0,
                      if e.Timeout? && s.timers > 0 then 1 else 0)
  {
    match e
    case Log(entry) => LoggingAnswersNothing(s, entry);
    case WriteDone => CompletionAnswers(s, e);
    case FlushDone => CompletionAnswers(s, e);
    case CopyAndTruncate => TruncationAnswers(s);
    case BlockFound(entry) =>
      LoggingAnswersNothing(s, entry);
      TruncationAnswers(Logged(s, entry));
    case Timeout(copied, truncated, started) => if s.timers > 0 { TimeoutAnswers(s, copied, truncated, started); }
    case _ =>
  }

  /** Over every run each flush request that was taken is answered once or still waits, and each
      truncation asked for still waits for its flush, waits out its delay, or had its delay end. */
  lemma {:induction false} RequestsAnswered(s: State, es: seq<Event>)
    ensures Answering(s, Run(s, es), FlushesAsked(s, es), TruncationsAsked(s, es), DelaysEnded(s, es))
    decreases |es|
  {
    if es != [] {
      StepAnswers(s, es[0]);
      RequestsAnswered(Step(s, es[0]), es[1..]);
    }
  }

  /** Neither a thaw nor anything that leads to one. */
  predicate NoThaw(es: seq<Event>) {
    forall e :: e in es ==> !e.Thaw? && !e.CopyAndTruncate? && !e.BlockFound?
  }

  /** A truncation asked for while someone else's flush is pending is refused, but has frozen the logger
      by then; nothing will thaw it, and no entry leaves the queue, before another one is asked for. */
  lemma {:induction false} RefusedTruncationFreezes(s: State, es: seq<Event>)
    requires Coherent(s) && s.hasFile && s.waiter == Some(Caller) && s.timers == 0 && NoThaw(es)
    ensures Step(s, CopyAndTruncate) == s.(frozen := true)
    ensures var t := Run(Step(s, CopyAndTruncate), es); t.frozen && t.timers == 0 && Taken(t) == Taken(s)
  {
    StaysFrozen(Step(s, CopyAndTruncate), es);
  }

  lemma {:induction false} StaysFrozen(s: State, es: seq<Event>)
    requires s.frozen && s.timers == 0 && s.waiter != Some(Truncation) && NoThaw(es)
    ensures var t := Run(s, es); t.frozen && t.timers == 0 && Taken(t) == Taken(s)
    decreases |es|
  {
    if es != [] {
      assert es[0] in es;
      FrozenInStep(s, es[0]);
      StaysFrozen(Step(s, es[0]), es[1..]);
    }
  }

  /** Between a freeze and a thaw no entry leaves the queue; the thaw drains it at once if no flush is
      pending and the stream is idle. */
  lemma FreezeThenThaw(s: State, es: seq<Event>)
    requires Coherent(s) && s.timers == 0 && s.waiter != Some(Truncation) && NoThaw(es)
    ensures var t := Run(Step(s, Freeze), es); var u := Step(t, Thaw);
            && t.frozen && Taken(t) == Taken(s) && !u.frozen
            && (t.waiter.None? && t.op.Idle? ==> u.queue == [] && Taken(u) == |t.logged|)
  {
    StaysFrozen(Step(s, Freeze), es);
    StaysCoherent(Step(s, Freeze), es);
  }

  lemma {:induction false} StaysCoherent(s: State, es: seq<Event>)
    requires Coherent(s)
    ensures Coherent(Run(s, es))
    decreases |es|
  {
    if es != [] {
      StepKeepsCoherence(s, es[0]);
      StaysCoherent(Step(s, es[0]), es[1..]);
    }
  }

  lemma FrozenInStep(s: State, e: Event)
    requires s.frozen && s.timers == 0 && s.waiter != Some(Truncation)
    requires !e.Thaw? && !e.CopyAndTruncate? && !e.BlockFound?
    ensures var t := Step(s, e);
            t.frozen && t.timers == 0 && t.waiter != Some(Truncation) && Taken(t) == Taken(s)
  {
  }
}
