/** What holds over every run of the share validator. */
module ShareTheorems {
  import opened Common
  import opened HexBytes
  import opened Headers
  import opened ShareRules

  // ---------- the verdict is fixed when the share comes in ----------

  ghost predicate Decided(env: Setting, s: State, id: nat, code: Code) {
    && id < s.submitted
    && (id in s.verdicts ==> s.verdicts[id] == code && id !in s.jobs)
    && (id !in s.verdicts ==> id in s.jobs && JobCode(env, s.jobs[id]) == code)
  }

  ghost predicate NumbersUsed(s: State) {
    && (forall id :: id in s.jobs ==> id < s.submitted)
    && (forall id :: id in s.verdicts ==> id < s.submitted)
  }

  lemma {:induction false} NumbersStayUsed(env: Setting, es: seq<Event>, n: nat)
    requires n <= |es|
    ensures NumbersUsed(At(env, es, n))
  {
    if n > 0 {
      NumbersStayUsed(env, es, n - 1);
      NumbersInStep(env, At(env, es, n - 1), es[n - 1]);
    }
  }

  lemma NumbersInStep(env: Setting, s: State, e: Event)
    requires NumbersUsed(s)
    ensures NumbersUsed(Step(env, s, e))
  {
  }

  lemma SubmitDecides(env: Setting, s: State, share: Share)
    requires NumbersUsed(s)
    ensures Decided(env, AfterSubmit(s, share), s.submitted, Verdict(env, s, share))
    ensures QuickError(s, share).Some? <==> s.submitted in AfterSubmit(s, share).verdicts
  {
  }

  lemma StepKeepsDecision(env: Setting, s: State, e: Event, id: nat, code: Code)
    requires Decided(env, s, id, code)
    ensures Decided(env, Step(env, s, e), id, code)
    ensures e == ThreadDone(id) ==> id in Step(env, s, e).verdicts
    ensures id in s.verdicts ==> id in Step(env, s, e).verdicts
  {
    if e.Submit? {
      DeliveryKeepsDecision(env, AfterQuickCheck(s, e.share), QuickError(s, e.share),
                            Job(e.share, FoundInPrevious(s, e.share)), id, code);
    }
  }

  lemma DeliveryKeepsDecision(env: Setting, s: State, error: Option<Code>, job: Job, id: nat, code: Code)
    requires Decided(env, s, id, code)
    ensures Decided(env, Delivered(s, error, job), id, code)
    ensures id in s.verdicts ==> id in Delivered(s, error, job).verdicts
  {
  }

  lemma {:induction false} DecisionStands(env: Setting, es: seq<Event>, m: nat, n: nat, id: nat, code: Code)
    requires m <= n <= |es| && Decided(env, At(env, es, m), id, code)
    ensures Decided(env, At(env, es, n), id, code)
    decreases n
  {
    if m < n {
      DecisionStands(env, es, m, n - 1, id, code);
      StepKeepsDecision(env, At(env, es, n - 1), es[n - 1], id, code);
    }
  }

  lemma {:induction false} StaysSettled(env: Setting, es: seq<Event>, m: nat, n: nat, id: nat, code: Code)
    requires m <= n <= |es| && Decided(env, At(env, es, m), id, code) && id in At(env, es, m).verdicts
    ensures id in At(env, es, n).verdicts
    decreases n
  {
    if m < n {
      StaysSettled(env, es, m, n - 1, id, code);
      DecisionStands(env, es, m, n - 1, id, code);
      StepKeepsDecision(env, At(env, es, n - 1), es[n - 1], id, code);
    }
  }

  /** The worker that finishes a queued share at event j settles it. */
  lemma WorkerSettles(env: Setting, es: seq<Event>, m: nat, j: nat, n: nat, id: nat, code: Code)
    requires m <= j < n <= |es| && Decided(env, At(env, es, m), id, code) && es[j] == ThreadDone(id)
    ensures id in At(env, es, n).verdicts
  {
    DecisionStands(env, es, m, j, id, code);
    StepKeepsDecision(env, At(env, es, j), es[j], id, code);
    StaysSettled(env, es, j + 1, n, id, code);
  }

  lemma ArrivalDecides(env: Setting, es: seq<Event>, i: nat)
    requires i < |es| && es[i].Submit?
    ensures var s, t := At(env, es, i), At(env, es, i + 1);
            && Decided(env, t, s.submitted, Verdict(env, s, es[i].share))
            && (QuickError(s, es[i].share).Some? <==> s.submitted in t.verdicts)
  {
    NumbersStayUsed(env, es, i);
    SubmitDecides(env, At(env, es, i), es[i].share);
    assert At(env, es, i + 1) == AfterSubmit(At(env, es, i), es[i].share);
  }

  /** Whatever block changes, other shares and thread completions come after share i, its code
      is the one its own arrival state prescribes; it has it at once if the cheap check fails. */
  lemma VerdictFixedAtArrival(env: Setting, es: seq<Event>, i: nat, n: nat)
    requires i < n <= |es| && es[i].Submit?
    ensures var s, id := At(env, es, i), At(env, es, i).submitted;
            && Decided(env, At(env, es, n), id, Verdict(env, s, es[i].share))
            && (QuickError(s, es[i].share).Some? ==> id in At(env, es, n).verdicts)
  {
    var s, code := At(env, es, i), Verdict(env, At(env, es, i), es[i].share);
    ArrivalDecides(env, es, i);
    DecisionStands(env, es, i + 1, n, s.submitted, code);
    if QuickError(s, es[i].share).Some? {
      StaysSettled(env, es, i + 1, n, s.submitted, code);
    }
  }

  /** Share i has code `code` after n events. */
  ghost predicate HasVerdict(env: Setting, es: seq<Event>, i: nat, n: nat, code: Code)
    requires i < n <= |es| && es[i].Submit?
  {
    var id := At(env, es, i).submitted;
    id in At(env, es, n).verdicts && At(env, es, n).verdicts[id] == code
  }

  lemma VerdictIs(env: Setting, es: seq<Event>, i: nat, n: nat, code: Code)
    requires i < n <= |es| && es[i].Submit?
    requires HasVerdict(env, es, i, n, code)
    ensures Verdict(env, At(env, es, i), es[i].share) == code
  {
    VerdictFixedAtArrival(env, es, i, n);
  }

  // ---------- a nonce is spent once ----------

  ghost predicate Spent(s: State, root: string, nonce: nat) {
    match Lookup(s, root)
    case None => true
    case Some(t) => nonce in t.nonces
  }

  /** A share takes its nonce if its root is known, its version and timestamp are the item's and the
      nonce is not held yet, whoever sent it and whatever block it builds on. */
  predicate Takes(s: State, share: Share) {
    && |share.data| == 256
    && Lookup(s, share.data[72..136]).Some?
    && var t := Lookup(s, share.data[72..136]).value;
    t.version == share.data[0..8] && t.timestamp == share.data[136..144] && Nonce(share.data) !in t.nonces
  }

  lemma TakesIsRecorded(s: State, share: Share)
    ensures Takes(s, share) <==> Records(s, share)
  {
  }

  lemma RecordingSpends(env: Setting, s: State, share: Share)
    requires Takes(s, share)
    ensures Spent(Step(env, s, Submit(share)), Root(share.data), Nonce(share.data))
  {
  }

  lemma StepKeepsSpent(env: Setting, s: State, e: Event, root: string, nonce: nat)
    requires Spent(s, root, nonce)
    requires e.Track? ==> Root(e.data) != root
    ensures Spent(Step(env, s, e), root, nonce)
  {
    if e.Submit? {
      QuickCheckKeepsSpent(s, e.share, root, nonce);
    }
  }

  lemma QuickCheckKeepsSpent(s: State, share: Share, root: string, nonce: nat)
    requires Spent(s, root, nonce)
    ensures Spent(AfterQuickCheck(s, share), root, nonce)
  {
    if |share.data| == 256 {
      ClaimKeepsSpent(s, ClaimOf(share.data, share.user), root, nonce);
    }
  }

  lemma ClaimKeepsSpent(s: State, c: Claim, root: string, nonce: nat)
    requires Spent(s, root, nonce)
    ensures Spent(AfterClaim(s, c), root, nonce)
  {
  }

  ghost predicate TrackedBetween(es: seq<Event>, i: nat, n: nat, root: string)
    requires n <= |es|
  {
    exists k :: i < k < n && es[k].Track? && Root(es[k].data) == root
  }

  lemma {:induction false} StaysSpent(env: Setting, es: seq<Event>, i: nat, n: nat)
    requires i < n <= |es| && es[i].Submit? && Takes(At(env, es, i), es[i].share)
    requires !TrackedBetween(es, i, n, Root(es[i].share.data))
    ensures Spent(At(env, es, n), Root(es[i].share.data), Nonce(es[i].share.data))
    decreases n
  {
    var share := es[i].share;
    if n == i + 1 {
      RecordingSpends(env, At(env, es, i), share);
    } else {
      StaysSpent(env, es, i, n - 1);
      StepKeepsSpent(env, At(env, es, n - 1), es[n - 1], Root(share.data), Nonce(share.data));
    }
  }

  /** Over a whole run, with any number of block changes in between, two shares with the same
      merkle root and nonce are both accepted only if that root was handed out again between
      them. */
  lemma AtMostOneAcceptance(env: Setting, es: seq<Event>, i: nat, j: nat, n: nat)
    requires i < j < n <= |es| && es[i].Submit? && es[j].Submit?
    requires HasVerdict(env, es, i, n, SUCCESS) && HasVerdict(env, es, j, n, SUCCESS)
    requires |es[i].share.data| == |es[j].share.data| == 256
    requires Root(es[i].share.data) == Root(es[j].share.data)
    requires Nonce(es[i].share.data) == Nonce(es[j].share.data)
    ensures TrackedBetween(es, i, j, Root(es[i].share.data))
  {
    VerdictIs(env, es, i, n, SUCCESS);
    VerdictIs(env, es, j, n, SUCCESS);
    if !TrackedBetween(es, i, j, Root(es[i].share.data)) {
      StaysSpent(env, es, i, j);
    }
  }

  /** The converse: after any accepted share, handing the same root out again and resubmitting
      gets the same share accepted a second time. */
  lemma HandedOutAgain(env: Setting, es: seq<Event>, share: Share, item: WorkData)
    requires |share.data| == 256 && Verdict(env, At(env, es, |es|), share) == SUCCESS
    requires Root(item) == Root(share.data) && Version(item) == Version(share.data)
    requires Timestamp(item) == Timestamp(share.data)
    ensures var run := es + Resubmission(At(env, es, |es|).submitted, share, item);
            HasVerdict(env, run, |es|, |run|, SUCCESS) && HasVerdict(env, run, |es| + 2, |run|, SUCCESS)
  {
    var n, id := |es|, At(env, es, |es|).submitted;
    var tail := Resubmission(id, share, item);
    var run := es + tail;
    SameStart(env, es, run, n);
    assert run[n] == tail[0] && run[n + 1] == tail[1] && run[n + 2] == tail[2];
    assert run[n + 3] == tail[3] && run[n + 4] == tail[4];
    BothAccepted(env, run, n, share, item);
  }

  function Resubmission(id: nat, share: Share, item: WorkData): (r: seq<Event>)
    ensures |r| == 5
  {
    [Submit(share), Track(item, share.user), Submit(share), ThreadDone(id), ThreadDone(id + 1)]
  }

  lemma BothAccepted(env: Setting, es: seq<Event>, n: nat, share: Share, item: WorkData)
    requires |es| == n + 5
    requires |share.data| == 256 && Verdict(env, At(env, es, n), share) == SUCCESS
    requires Root(item) == Root(share.data) && Version(item) == Version(share.data)
    requires Timestamp(item) == Timestamp(share.data)
    requires es[n] == es[n + 2] == Submit(share) && es[n + 1] == Track(item, share.user)
    requires es[n + 3] == ThreadDone(At(env, es, n).submitted)
    requires es[n + 4] == ThreadDone(At(env, es, n).submitted + 1)
    ensures HasVerdict(env, es, n, n + 5, SUCCESS) && HasVerdict(env, es, n + 2, n + 5, SUCCESS)
  {
    AcceptedAgain(env, At(env, es, n), share, item);
    TwoSteps(env, es, n);
    SettledByWorker(env, es, n, n + 3, n + 5);
    SettledByWorker(env, es, n + 2, n + 4, n + 5);
  }

  lemma TwoSteps(env: Setting, es: seq<Event>, n: nat)
    requires n + 2 <= |es|
    ensures At(env, es, n + 2) == Step(env, Step(env, At(env, es, n), es[n]), es[n + 1])
  {
    assert At(env, es, n + 1) == Step(env, At(env, es, n), es[n]);
  }

  lemma SettledByWorker(env: Setting, es: seq<Event>, i: nat, j: nat, n: nat)
    requires i < j < n <= |es| && es[i].Submit? && es[j] == ThreadDone(At(env, es, i).submitted)
    ensures HasVerdict(env, es, i, n, Verdict(env, At(env, es, i), es[i].share))
  {
    ArrivalDecides(env, es, i);
    WorkerSettles(env, es, i + 1, j, n, At(env, es, i).submitted, Verdict(env, At(env, es, i), es[i].share));
    VerdictFixedAtArrival(env, es, i, n);
  }

  lemma AcceptedAgain(env: Setting, s: State, share: Share, item: WorkData)
    requires |share.data| == 256 && Verdict(env, s, share) == SUCCESS
    requires Root(item) == Root(share.data) && Version(item) == Version(share.data)
    requires Timestamp(item) == Timestamp(share.data)
    ensures var t := Step(env, Step(env, s, Submit(share)), Track(item, share.user));
            t.submitted == s.submitted + 1 && Verdict(env, t, share) == SUCCESS
  {
    assert s.blockHash == Some(PreviousHash(share.data));
  }

  lemma {:induction false} SameStart(env: Setting, es: seq<Event>, fs: seq<Event>, n: nat)
    requires n <= |es| && n <= |fs| && es[..n] == fs[..n]
    ensures At(env, es, n) == At(env, fs, n)
  {
    if n > 0 {
      assert es[..n][..n - 1] == es[..n - 1] && fs[..n][..n - 1] == fs[..n - 1];
      SameStart(env, es, fs, n - 1);
      assert es[..n][n - 1] == es[n - 1] && fs[..n][n - 1] == fs[n - 1];
    }
  }

  // ---------- what the two tables hold ----------

  /** How many block changes the first n events contain. */
  function Epoch(es: seq<Event>, n: nat): nat
    requires n <= |es|
  {
    if n == 0 then 0 else Epoch(es, n - 1) + if es[n - 1].NewBlock? then 1 else 0
  }

  lemma {:induction false} EpochGrows(es: seq<Event>, k: nat, n: nat)
    requires k <= n <= |es|
    ensures Epoch(es, k) <= Epoch(es, n)
    decreases n
  {
    if k < n {
      EpochGrows(es, k, n - 1);
    }
  }

  /** Event k handed out this root during epoch e. */
  predicate Sent(es: seq<Event>, k: nat, root: string, e: int) {
    k < |es| && es[k].Track? && Root(es[k].data) == root && Epoch(es, k) == e
  }

  /** The table entry stands for the item sent at event k. */
  predicate Stands(es: seq<Event>, k: nat, t: Tracked) {
    k < |es| && es[k].Track? && t.user == es[k].user
    && t.version == Version(es[k].data) && t.timestamp == Timestamp(es[k].data)
  }

  ghost predicate TableOf(es: seq<Event>, n: nat, table: map<string, Tracked>, e: int)
  {
    && (forall root :: root in table ==>
          exists k :: 0 <= k < n && Sent(es, k, root, e) && Stands(es, k, table[root]))
    && (forall k: nat :: k < n && k < |es| && es[k].Track? && Epoch(es, k) == e ==> Root(es[k].data) in table)
  }

  /** The current table holds exactly the roots sent since the last block change, the other one
      exactly those sent during the epoch before. */
  lemma {:induction false} TablesHoldTwoEpochs(env: Setting, es: seq<Event>, n: nat)
    requires n <= |es|
    ensures TableOf(es, n, At(env, es, n).current, Epoch(es, n))
    ensures TableOf(es, n, At(env, es, n).prev, Epoch(es, n) - 1)
  {
    if n > 0 {
      TablesHoldTwoEpochs(env, es, n - 1);
      TablesAfterStep(env, es, n);
    }
  }

  lemma TablesAfterStep(env: Setting, es: seq<Event>, n: nat)
    requires 0 < n <= |es|
    requires TableOf(es, n - 1, At(env, es, n - 1).current, Epoch(es, n - 1))
    requires TableOf(es, n - 1, At(env, es, n - 1).prev, Epoch(es, n - 1) - 1)
    ensures TableOf(es, n, At(env, es, n).current, Epoch(es, n))
    ensures TableOf(es, n, At(env, es, n).prev, Epoch(es, n) - 1)
  {
    TablesInStep(env, es, n, At(env, es, n - 1), At(env, es, n));
  }

  lemma TablesInStep(env: Setting, es: seq<Event>, n: nat, s: State, t: State)
    requires 0 < n <= |es| && t == Step(env, s, es[n - 1])
    requires TableOf(es, n - 1, s.current, Epoch(es, n - 1))
    requires TableOf(es, n - 1, s.prev, Epoch(es, n - 1) - 1)
    ensures TableOf(es, n, t.current, Epoch(es, n))
    ensures TableOf(es, n, t.prev, Epoch(es, n) - 1)
  {
    if es[n - 1].Track? {
      TablesAfterTrack(es, n, s);
    } else if es[n - 1].NewBlock? {
      TablesAfterBlock(es, n, s);
    } else {
      EntriesKept(env, s, es[n - 1]);
      TablesUntouched(es, n, s, t);
    }
  }

  lemma TablesUntouched(es: seq<Event>, n: nat, s: State, t: State)
    requires 0 < n <= |es| && !es[n - 1].Track? && !es[n - 1].NewBlock?
    requires SameItems(s.current, t.current) && SameItems(s.prev, t.prev)
    requires TableOf(es, n - 1, s.current, Epoch(es, n - 1))
    requires TableOf(es, n - 1, s.prev, Epoch(es, n - 1) - 1)
    ensures TableOf(es, n, t.current, Epoch(es, n))
    ensures TableOf(es, n, t.prev, Epoch(es, n) - 1)
  {
    TableStays(es, n, s.current, t.current, Epoch(es, n));
    TableStays(es, n, s.prev, t.prev, Epoch(es, n) - 1);
  }

  lemma TablesAfterTrack(es: seq<Event>, n: nat, s: State)
    requires 0 < n <= |es| && es[n - 1].Track?
    requires TableOf(es, n - 1, s.current, Epoch(es, n - 1))
    requires TableOf(es, n - 1, s.prev, Epoch(es, n - 1) - 1)
    ensures TableOf(es, n, AfterTrack(s, es[n - 1].data, es[n - 1].user).current, Epoch(es, n))
    ensures TableOf(es, n, s.prev, Epoch(es, n) - 1)
  {
    TableTracks(es, n, s.current, Epoch(es, n));
    TableStays(es, n, s.prev, s.prev, Epoch(es, n) - 1);
  }

  lemma TableTracks(es: seq<Event>, n: nat, table: map<string, Tracked>, e: int)
    requires 0 < n <= |es| && es[n - 1].Track? && e == Epoch(es, n - 1) == Epoch(es, n) && TableOf(es, n - 1, table, e)
    ensures TableOf(es, n, table[Root(es[n - 1].data) := NewlyTracked(es[n - 1].data, es[n - 1].user)], e)
  {
    assert Sent(es, n - 1, Root(es[n - 1].data), e);
    TableGrows(es, n, table, table[Root(es[n - 1].data) := NewlyTracked(es[n - 1].data, es[n - 1].user)], e);
  }

  lemma TablesAfterBlock(es: seq<Event>, n: nat, s: State)
    requires 0 < n <= |es| && es[n - 1].NewBlock?
    requires TableOf(es, n - 1, s.current, Epoch(es, n - 1))
    ensures TableOf(es, n, map[], Epoch(es, n))
    ensures TableOf(es, n, s.current, Epoch(es, n) - 1)
  {
    FreshEpoch(es, n);
    TableStays(es, n, s.current, s.current, Epoch(es, n) - 1);
  }

  /** Only nonces and the stale mark of an entry ever change. */
  ghost predicate SameItems(table: map<string, Tracked>, next: map<string, Tracked>) {
    && next.Keys == table.Keys
    && forall root :: root in table ==>
         && next[root].user == table[root].user
         && next[root].version == table[root].version
         && next[root].timestamp == table[root].timestamp
  }

  lemma EntriesKept(env: Setting, s: State, e: Event)
    requires !e.Track? && !e.NewBlock?
    ensures SameItems(s.current, Step(env, s, e).current)
    ensures SameItems(s.prev, Step(env, s, e).prev)
  {
    if e.Submit? {
      QuickCheckKeepsEntries(s, e.share);
    }
  }

  lemma QuickCheckKeepsEntries(s: State, share: Share)
    ensures SameItems(s.current, AfterQuickCheck(s, share).current)
    ensures SameItems(s.prev, AfterQuickCheck(s, share).prev)
  {
    if |share.data| == 256 {
      ClaimKeepsEntries(s, ClaimOf(share.data, share.user));
    }
  }

  lemma ClaimKeepsEntries(s: State, c: Claim)
    ensures SameItems(s.current, AfterClaim(s, c).current)
    ensures SameItems(s.prev, AfterClaim(s, c).prev)
  {
    if Lookup(s, c.root).Some? {
      var t := Lookup(s, c.root).value;
      if c.root in s.current {
        UpdateKeepsEntries(s.current, c.root, WithNonce(t, c.nonce));
      } else {
        UpdateKeepsEntries(s.prev, c.root, t);
        UpdateKeepsEntries(Marked(s, c.root).prev, c.root, WithNonce(t, c.nonce));
      }
    }
  }

  lemma UpdateKeepsEntries(table: map<string, Tracked>, root: string, t: Tracked)
    requires root in table
    requires t.user == table[root].user && t.version == table[root].version && t.timestamp == table[root].timestamp
    ensures SameItems(table, table[root := t])
  {
  }

  /** No entry of the current table is ever marked stale. */
  lemma {:induction false} CurrentNeverMarked(env: Setting, es: seq<Event>, n: nat)
    requires n <= |es|
    ensures forall root :: root in At(env, es, n).current ==> !At(env, es, n).current[root].possibleStale
  {
    if n > 0 {
      CurrentNeverMarked(env, es, n - 1);
      MarksInStep(env, At(env, es, n - 1), es[n - 1]);
    }
  }

  lemma MarksInStep(env: Setting, s: State, e: Event)
    requires forall root :: root in s.current ==> !s.current[root].possibleStale
    ensures forall root :: root in Step(env, s, e).current ==> !Step(env, s, e).current[root].possibleStale
  {
  }

  lemma FreshEpoch(es: seq<Event>, n: nat)
    requires 0 < n <= |es| && es[n - 1].NewBlock?
    ensures TableOf(es, n, map[], Epoch(es, n))
  {
    forall k: nat | k < n && es[k].Track?
      ensures Epoch(es, k) < Epoch(es, n)
    {
      EpochGrows(es, k, n - 1);
    }
  }

  lemma TableStays(es: seq<Event>, n: nat, table: map<string, Tracked>, next: map<string, Tracked>, e: int)
    requires 0 < n <= |es| && TableOf(es, n - 1, table, e)
    requires es[n - 1].Track? ==> Epoch(es, n - 1) != e
    requires SameItems(table, next)
    ensures TableOf(es, n, next, e)
  {
    forall root | root in next
      ensures exists k :: 0 <= k < n && Sent(es, k, root, e) && Stands(es, k, next[root])
    {
      var k :| 0 <= k < n - 1 && Sent(es, k, root, e) && Stands(es, k, table[root]);
      assert Stands(es, k, next[root]);
    }
  }

  lemma TableGrows(es: seq<Event>, n: nat, table: map<string, Tracked>, next: map<string, Tracked>, e: int)
    requires 0 < n <= |es| && TableOf(es, n - 1, table, e)
    requires es[n - 1].Track? && Sent(es, n - 1, Root(es[n - 1].data), e)
    requires next == table[Root(es[n - 1].data) := NewlyTracked(es[n - 1].data, es[n - 1].user)]
    ensures TableOf(es, n, next, e)
  {
    var sent := Root(es[n - 1].data);
    forall root | root in next
      ensures exists k :: 0 <= k < n && Sent(es, k, root, e) && Stands(es, k, next[root])
    {
      if root == sent {
        assert Stands(es, n - 1, next[root]);
      } else {
        var k :| 0 <= k < n - 1 && Sent(es, k, root, e) && Stands(es, k, table[root]);
      }
    }
  }

  // ---------- epochs and verdicts ----------

  /** Some item with this root was handed out in epoch e, before event n. */
  ghost predicate SentDuring(es: seq<Event>, n: nat, root: string, e: int) {
    exists k: nat :: k < n && Sent(es, k, root, e)
  }

  lemma RootsOfTable(es: seq<Event>, n: nat, table: map<string, Tracked>, e: int, root: string)
    requires n <= |es| && TableOf(es, n, table, e)
    ensures root in table <==> SentDuring(es, n, root, e)
  {
  }

  lemma KnownRoots(env: Setting, es: seq<Event>, n: nat, root: string)
    requires n <= |es|
    ensures root in At(env, es, n).current <==> SentDuring(es, n, root, Epoch(es, n))
    ensures root in At(env, es, n).prev <==> SentDuring(es, n, root, Epoch(es, n) - 1)
  {
    TablesHoldTwoEpochs(env, es, n);
    RootsOfTable(es, n, At(env, es, n).current, Epoch(es, n), root);
    RootsOfTable(es, n, At(env, es, n).prev, Epoch(es, n) - 1, root);
  }

  /** An accepted share answers an item sent since the last block change, a stale one an item
      sent in the epoch just before and not since, and a share whose root was sent in neither is
      invalid. */
  lemma EpochOfVerdict(env: Setting, es: seq<Event>, i: nat)
    requires i < |es| && es[i].Submit? && |es[i].share.data| == 256
    ensures var root, code := Root(es[i].share.data), Verdict(env, At(env, es, i), es[i].share);
            && (code == SUCCESS ==> SentDuring(es, i, root, Epoch(es, i)))
            && (code == STALE ==> SentDuring(es, i, root, Epoch(es, i) - 1) && !SentDuring(es, i, root, Epoch(es, i)))
            && (!SentDuring(es, i, root, Epoch(es, i)) && !SentDuring(es, i, root, Epoch(es, i) - 1)
                ==> code == INVALID)
  {
    KnownRoots(env, es, i, Root(es[i].share.data));
    CurrentNeverMarked(env, es, i);
  }

  // ---------- the block hash held ----------

  /** The node answered with a hash. */
  predicate IsReply(e: Event) {
    e.HashReply? && e.reply.Some?
  }

  /** Event k is the last reply of the node among the first n. */
  predicate LastReply(es: seq<Event>, k: nat, n: nat) {
    && k < n <= |es| && IsReply(es[k])
    && forall j :: k < j < n ==> !IsReply(es[j])
  }

  ghost predicate HashFrom(es: seq<Event>, n: nat, hash: Option<string>)
    requires n <= |es|
  {
    match hash
    case None => forall k :: 0 <= k < n ==> !IsReply(es[k])
    case Some(h) => exists k :: 0 <= k < n && LastReply(es, k, n) && h == StoredHash(es[k].reply.value)
  }

  /** A hash is held exactly once a reply came, and it is that of the last reply. */
  lemma {:induction false} HashHeld(env: Setting, es: seq<Event>, n: nat)
    requires n <= |es|
    ensures HashFrom(es, n, At(env, es, n).blockHash)
  {
    if n > 0 {
      HashHeld(env, es, n - 1);
      HashInStep(env, es, n, At(env, es, n - 1), At(env, es, n));
    }
  }

  lemma HashInStep(env: Setting, es: seq<Event>, n: nat, s: State, t: State)
    requires 0 < n <= |es| && HashFrom(es, n - 1, s.blockHash) && t == Step(env, s, es[n - 1])
    ensures HashFrom(es, n, t.blockHash)
  {
    if IsReply(es[n - 1]) {
      assert LastReply(es, n - 1, n);
    } else if t.blockHash.Some? {
      var k :| 0 <= k < n - 1 && LastReply(es, k, n - 1) && s.blockHash.value == StoredHash(es[k].reply.value);
      assert LastReply(es, k, n);
    }
  }

  /** Event b is the last block change among the first n. */
  predicate LastBlock(es: seq<Event>, b: nat, n: nat) {
    && b < n <= |es| && es[b].NewBlock?
    && forall j :: b < j < n ==> !es[j].NewBlock?
  }

  ghost predicate PreviousFrom(es: seq<Event>, n: nat, hash: Option<string>) {
    match hash
    case None => forall b: nat, k: nat :: k < b && LastBlock(es, b, n) ==> !IsReply(es[k])
    case Some(h) =>
      exists b: nat, r: nat :: LastBlock(es, b, n) && LastReply(es, r, b) && h == StoredHash(es[r].reply.value)
  }

  /** A previous hash is held exactly if a reply came before the last block change, and it is that
      of the last such reply. */
  lemma {:induction false} PreviousHashHeld(env: Setting, es: seq<Event>, n: nat)
    requires n <= |es|
    ensures PreviousFrom(es, n, At(env, es, n).blockHashPrev)
  {
    if n > 0 {
      PreviousHashHeld(env, es, n - 1);
      HashHeld(env, es, n - 1);
      PreviousInStep(env, es, n, At(env, es, n - 1), At(env, es, n));
    }
  }

  lemma PreviousAtBlock(es: seq<Event>, n: nat, hash: Option<string>)
    requires 0 < n <= |es| && es[n - 1].NewBlock? && HashFrom(es, n - 1, hash)
    ensures PreviousFrom(es, n, hash)
  {
    assert LastBlock(es, n - 1, n);
    if hash.None? {
      forall b: nat, k: nat | k < b && LastBlock(es, b, n)
        ensures !IsReply(es[k])
      {
        assert b == n - 1;
      }
    }
  }

  lemma PreviousKept(es: seq<Event>, n: nat, hash: Option<string>)
    requires 0 < n <= |es| && !es[n - 1].NewBlock? && PreviousFrom(es, n - 1, hash)
    ensures PreviousFrom(es, n, hash)
  {
    if hash.Some? {
      var b: nat, r: nat :| LastBlock(es, b, n - 1) && LastReply(es, r, b)
                            && hash.value == StoredHash(es[r].reply.value);
      assert LastBlock(es, b, n);
    } else {
      forall b: nat, k: nat | k < b && LastBlock(es, b, n)
        ensures !IsReply(es[k])
      {
        assert LastBlock(es, b, n - 1);
      }
    }
  }

  lemma PreviousInStep(env: Setting, es: seq<Event>, n: nat, s: State, t: State)
    requires 0 < n <= |es| && HashFrom(es, n - 1, s.blockHash) && PreviousFrom(es, n - 1, s.blockHashPrev)
    requires t == Step(env, s, es[n - 1])
    ensures PreviousFrom(es, n, t.blockHashPrev)
  {
    if es[n - 1].NewBlock? {
      PreviousAtBlock(es, n, s.blockHash);
    } else {
      assert t.blockHashPrev == s.blockHashPrev;
      PreviousKept(es, n, s.blockHashPrev);
    }
  }

  // ---------- what an accepted share is ----------

  /** The header share i hashes to has version, merkle root and timestamp of item k, which was sent
      to the same user, the block hash of reply r backwards, and a double hash within the target.
      Only bits and nonce are the miner's. */
  ghost predicate Binds(env: Setting, es: seq<Event>, i: nat, k: nat, r: nat)
    requires i < |es| && es[i].Submit? && |es[i].share.data| == 256
    requires k < i && es[k].Track? && r < i && es[r].HashReply? && es[r].reply.Some?
  {
    var h, item := HeaderBytes(es[i].share.data), HeaderBytes(es[k].data);
    && h[0..4] == item[0..4]
    && h[4..36] == Backwards(Decoded(es[r].reply.value[..64]))
    && h[36..68] == item[36..68]
    && h[68..72] == item[68..72]
    && es[i].share.user == es[k].user
    && Little(env.sha(env.sha(h))) <= Little(env.target)
  }

  lemma FieldsBind(data: WorkData, item: WorkData, hash: HashText)
    requires Version(data) == Version(item) && Root(data) == Root(item) && Timestamp(data) == Timestamp(item)
    requires PreviousHash(data) == StoredHash(hash)
    ensures var h, g := HeaderBytes(data), HeaderBytes(item);
            && h[0..4] == g[0..4] && h[36..68] == g[36..68] && h[68..72] == g[68..72]
            && h[4..36] == Backwards(Decoded(hash[..64]))
  {
    HeadersAgree(data, item, 0, 1);
    HeadersAgree(data, item, 9, 8);
    HeadersAgree(data, item, 17, 1);
    PreviousHashBytes(data, hash[..64]);
  }

  predicate WellHashed(env: Setting, data: WorkData) {
    Header(data).Some? && Little(env.sha(env.sha(Header(data).value))) <= Little(env.target)
  }

  predicate SameWork(t: Tracked, data: WorkData) {
    t.version == Version(data) && t.timestamp == Timestamp(data)
  }

  /** What the validator compared before it accepted a share, or called it stale. */
  ghost predicate Matches(env: Setting, t: Tracked, hash: Option<string>, share: Share) {
    && |share.data| == 256 && SameWork(t, share.data) && t.user == share.user
    && hash == Some(PreviousHash(share.data)) && WellHashed(env, share.data)
  }

  lemma AcceptedMatches(env: Setting, s: State, share: Share)
    requires Verdict(env, s, share) == SUCCESS
    ensures |share.data| == 256 && Root(share.data) in s.current
    ensures Matches(env, s.current[Root(share.data)], s.blockHash, share)
  {
  }

  lemma StaleMatches(env: Setting, s: State, share: Share)
    requires Verdict(env, s, share) == STALE
    requires forall root :: root in s.current ==> !s.current[root].possibleStale
    ensures |share.data| == 256 && Root(share.data) in s.prev
    ensures Matches(env, s.prev[Root(share.data)], s.blockHashPrev, share)
  {
  }

  lemma MatchBinds(env: Setting, es: seq<Event>, i: nat, k: nat, r: nat, t: Tracked)
    requires i < |es| && es[i].Submit? && k < i && es[k].Track? && r < i && es[r].HashReply? && es[r].reply.Some?
    requires Matches(env, t, Some(StoredHash(es[r].reply.value)), es[i].share)
    requires Stands(es, k, t) && Root(es[k].data) == Root(es[i].share.data)
    ensures Binds(env, es, i, k, r)
  {
    FieldsBind(es[i].share.data, es[k].data, es[r].reply.value);
    HeaderDecodes(es[i].share.data);
  }

  /** An accepted share is bound to an item of its own epoch and to the latest block hash. */
  lemma AcceptedShareBinds(env: Setting, es: seq<Event>, i: nat, n: nat)
    requires i < n <= |es| && es[i].Submit? && HasVerdict(env, es, i, n, SUCCESS)
    ensures |es[i].share.data| == 256
    ensures exists k: nat, r: nat ::
              && k < i && Sent(es, k, Root(es[i].share.data), Epoch(es, i))
              && LastReply(es, r, i)
              && Binds(env, es, i, k, r)
  {
    var s, share := At(env, es, i), es[i].share;
    VerdictIs(env, es, i, n, SUCCESS);
    AcceptedMatches(env, s, share);
    TablesHoldTwoEpochs(env, es, i);
    HashHeld(env, es, i);
    var t := s.current[Root(share.data)];
    var k :| 0 <= k < i && Sent(es, k, Root(share.data), Epoch(es, i)) && Stands(es, k, t);
    var r :| 0 <= r < i && LastReply(es, r, i) && s.blockHash.value == StoredHash(es[r].reply.value);
    MatchBinds(env, es, i, k, r, t);
  }

  /** A stale share is bound in the same way, one block back: to an item of the epoch before, and
      to the hash that was held when that epoch ended. */
  lemma StaleShareBinds(env: Setting, es: seq<Event>, i: nat, n: nat)
    requires i < n <= |es| && es[i].Submit? && HasVerdict(env, es, i, n, STALE)
    ensures |es[i].share.data| == 256
    ensures exists k: nat, b: nat, r: nat ::
              && k < i && Sent(es, k, Root(es[i].share.data), Epoch(es, i) - 1)
              && LastBlock(es, b, i) && LastReply(es, r, b)
              && Binds(env, es, i, k, r)
  {
    var s, share := At(env, es, i), es[i].share;
    VerdictIs(env, es, i, n, STALE);
    CurrentNeverMarked(env, es, i);
    StaleMatches(env, s, share);
    TablesHoldTwoEpochs(env, es, i);
    PreviousHashHeld(env, es, i);
    var t := s.prev[Root(share.data)];
    var k :| 0 <= k < i && Sent(es, k, Root(share.data), Epoch(es, i) - 1) && Stands(es, k, t);
    var b: nat, r: nat :| LastBlock(es, b, i) && LastReply(es, r, b)
                          && s.blockHashPrev.value == StoredHash(es[r].reply.value);
    MatchBinds(env, es, i, k, r, t);
  }

  // ---------- each code exactly ----------

  /** An earlier share took this nonce of this root, and the root was not handed out since. */
  ghost predicate TakenBefore(env: Setting, es: seq<Event>, k: nat, n: nat, root: string, nonce: nat)
    requires k < n <= |es|
  {
    && es[k].Submit? && Takes(At(env, es, k), es[k].share)
    && Root(es[k].share.data) == root && Nonce(es[k].share.data) == nonce
    && !TrackedBetween(es, k, n, root)
  }

  ghost predicate Taken(env: Setting, es: seq<Event>, n: nat, root: string, nonce: nat)
    requires n <= |es|
  {
    exists k: nat :: k < n && TakenBefore(env, es, k, n, root, nonce)
  }

  /** How one step changes the nonces found under a root: exactly a share that takes its nonce
      appends it. */
  lemma NoncesInStep(env: Setting, s: State, e: Event, root: string)
    requires Lookup(Step(env, s, e), root).Some?
    requires e.Track? ==> Root(e.data) != root
    ensures Lookup(s, root).Some?
    ensures var before, after := Lookup(s, root).value.nonces, Lookup(Step(env, s, e), root).value.nonces;
            if e.Submit? && Takes(s, e.share) && Root(e.share.data) == root
            then after == before + [Nonce(e.share.data)]
            else after == before
  {
    if e.Submit? && |e.share.data| == 256 {
      NoncesInClaim(s, ClaimOf(e.share.data, e.share.user), root);
    }
  }

  lemma NoncesInClaim(s: State, c: Claim, root: string)
    requires Lookup(AfterClaim(s, c), root).Some?
    ensures Lookup(s, root).Some?
    ensures Lookup(AfterClaim(s, c), root).value.nonces
            == Lookup(s, root).value.nonces + if ClaimRecords(s, c) && c.root == root then [c.nonce] else []
  {
  }

  lemma {:induction false} NoncesWereTaken(env: Setting, es: seq<Event>, n: nat, root: string, nonce: nat)
    requires n <= |es| && Lookup(At(env, es, n), root).Some?
    requires nonce in Lookup(At(env, es, n), root).value.nonces
    ensures Taken(env, es, n, root, nonce)
  {
    if n > 0 && !(es[n - 1].Track? && Root(es[n - 1].data) == root) {
      NoncesInStep(env, At(env, es, n - 1), es[n - 1], root);
      if nonce in Lookup(At(env, es, n - 1), root).value.nonces {
        NoncesWereTaken(env, es, n - 1, root, nonce);
        StaysTaken(env, es, n - 1, root, nonce);
      } else {
        assert TakenBefore(env, es, n - 1, n, root, nonce);
      }
    }
  }

  lemma StaysTaken(env: Setting, es: seq<Event>, n: nat, root: string, nonce: nat)
    requires n < |es| && Taken(env, es, n, root, nonce)
    requires es[n].Track? ==> Root(es[n].data) != root
    ensures Taken(env, es, n + 1, root, nonce)
  {
    var k: nat :| k < n && TakenBefore(env, es, k, n, root, nonce);
    assert TakenBefore(env, es, k, n + 1, root, nonce);
  }

  /** The nonces held for a known root are exactly those that earlier shares took since the
      root was last handed out. */
  lemma NoncesHeldExactly(env: Setting, es: seq<Event>, n: nat, root: string, nonce: nat)
    requires n <= |es| && Lookup(At(env, es, n), root).Some?
    ensures nonce in Lookup(At(env, es, n), root).value.nonces <==> Taken(env, es, n, root, nonce)
  {
    if nonce in Lookup(At(env, es, n), root).value.nonces {
      NoncesWereTaken(env, es, n, root, nonce);
    }
    if Taken(env, es, n, root, nonce) {
      var k: nat :| k < n && TakenBefore(env, es, k, n, root, nonce);
      StaysSpent(env, es, k, n);
    }
  }

  /** How many shares took a nonce of this root since it was last handed out. */
  function RecordedSince(env: Setting, es: seq<Event>, n: nat, root: string): nat
    requires n <= |es|
  {
    if n == 0 || (es[n - 1].Track? && Root(es[n - 1].data) == root) then 0
    else
      RecordedSince(env, es, n - 1, root)
      + if es[n - 1].Submit? && Takes(At(env, es, n - 1), es[n - 1].share) && Root(es[n - 1].share.data) == root
        then 1 else 0
  }

  /** A known root holds one nonce for each of these shares, so the sixteen slots of the program suffice
      exactly as long as no more than sixteen are recorded. */
  lemma {:induction false} NoncesCounted(env: Setting, es: seq<Event>, n: nat, root: string)
    requires n <= |es| && Lookup(At(env, es, n), root).Some?
    ensures |Lookup(At(env, es, n), root).value.nonces| == RecordedSince(env, es, n, root)
  {
    if n > 0 && !(es[n - 1].Track? && Root(es[n - 1].data) == root) {
      NoncesInStep(env, At(env, es, n - 1), es[n - 1], root);
      NoncesCounted(env, es, n - 1, root);
    }
  }

  /** When each code other than INVALID is given, for a share of any run. */
  lemma CodesExactly(env: Setting, es: seq<Event>, i: nat)
    requires i < |es| && es[i].Submit? && |es[i].share.data| == 256
    ensures var s, data, user := At(env, es, i), es[i].share.data, es[i].share.user;
            var root, code := Root(data), Verdict(env, s, es[i].share);
            var taken := Taken(env, es, i, root, Nonce(data));
            && (code == SUCCESS <==>
                  root in s.current && SameWork(s.current[root], data) && !taken
                  && s.current[root].user == user && s.blockHash == Some(PreviousHash(data)) && WellHashed(env, data))
            && (code == STALE <==>
                  root !in s.current && root in s.prev && SameWork(s.prev[root], data) && !taken
                  && s.prev[root].user == user && s.blockHashPrev == Some(PreviousHash(data)) && WellHashed(env, data))
            && (code == DUPLICATED <==>
                  Lookup(s, root).Some? && SameWork(Lookup(s, root).value, data) && taken)
  {
    var s, root := At(env, es, i), Root(es[i].share.data);
    if Lookup(s, root).Some? {
      NoncesHeldExactly(env, es, i, root, Nonce(es[i].share.data));
    }
    CurrentNeverMarked(env, es, i);
  }

  // ---------- one header under two spellings ----------

  /** Two shares whose fields, apart from bits and nonce, are spelled alike. */
  predicate SameClaim(a: Share, b: Share) {
    && |a.data| == |b.data| == 256 && a.user == b.user
    && Version(a.data) == Version(b.data) && PreviousHash(a.data) == PreviousHash(b.data)
    && Root(a.data) == Root(b.data) && Timestamp(a.data) == Timestamp(b.data)
  }

  predicate SameHeader(a: Share, b: Share) {
    && |a.data| == |b.data| == 256 && HeaderBytes(a.data) == HeaderBytes(b.data)
  }

  lemma SameHeaderHashes(env: Setting, a: Share, b: Share)
    requires SameHeader(a, b) && WellHashed(env, a.data)
    ensures WellHashed(env, b.data) <==> Header(b.data).Some?
  {
    HeaderDecodes(a.data);
    HeaderDecodes(b.data);
  }

  /** Right after one share is accepted, another one with the same header is accepted too exactly
      if its data decodes and the nonce read from it for duplicates is new. */
  lemma AcceptedNext(env: Setting, s: State, a: Share, b: Share)
    requires SameClaim(a, b) && SameHeader(a, b) && Verdict(env, s, a) == SUCCESS
    ensures Root(a.data) in s.current
    ensures Verdict(env, Step(env, s, Submit(a)), b) == SUCCESS
            <==> Header(b.data).Some? && Nonce(b.data) != Nonce(a.data)
                 && Nonce(b.data) !in s.current[Root(a.data)].nonces
  {
    AcceptedMatches(env, s, a);
    SameHeaderHashes(env, a, b);
    NextVerdict(env, s, a, b);
  }

  lemma NextVerdict(env: Setting, s: State, a: Share, b: Share)
    requires SameClaim(a, b) && Verdict(env, s, a) == SUCCESS && Root(a.data) in s.current
    ensures Verdict(env, Step(env, s, Submit(a)), b) == SUCCESS
            <==> WellHashed(env, b.data) && Nonce(b.data) != Nonce(a.data)
                 && Nonce(b.data) !in s.current[Root(a.data)].nonces
  {
    var t := s.current[Root(a.data)];
    assert Records(s, a);
    assert Step(env, s, Submit(a)).current == s.current[Root(a.data) := WithNonce(t, Nonce(a.data))];
  }

  /** An entry lasts until its root is handed out again or the block changes. */
  lemma {:induction false} EntryLasts(env: Setting, es: seq<Event>, i: nat, n: nat, root: string)
    requires i < n <= |es| && !es[i].Track? && root in At(env, es, i).current
    requires !TrackedBetween(es, i, n, root) && Epoch(es, n) == Epoch(es, i)
    ensures root in At(env, es, n).current
    ensures var t, u := At(env, es, i).current[root], At(env, es, n).current[root];
            u.user == t.user && u.version == t.version && u.timestamp == t.timestamp
    decreases n
  {
    EpochGrows(es, i, n - 1);
    if n - 1 > i {
      EntryLasts(env, es, i, n - 1, root);
    }
    EntryInStep(env, At(env, es, n - 1), es[n - 1], root);
  }

  lemma EntryInStep(env: Setting, s: State, e: Event, root: string)
    requires root in s.current && !e.NewBlock? && (e.Track? ==> Root(e.data) != root)
    ensures root in Step(env, s, e).current
    ensures var t, u := s.current[root], Step(env, s, e).current[root];
            u.user == t.user && u.version == t.version && u.timestamp == t.timestamp
  {
    if !e.Track? {
      EntriesKept(env, s, e);
    }
  }

  /** A root known as current at both ends, and not handed out in between, saw no block change. */
  lemma SameEpoch(env: Setting, es: seq<Event>, i: nat, j: nat, root: string)
    requires i < j <= |es| && !es[i].Track? && !TrackedBetween(es, i, j, root)
    requires root in At(env, es, j).current
    ensures Epoch(es, i) == Epoch(es, j)
  {
    KnownRoots(env, es, j, root);
    var k: nat :| k < j && Sent(es, k, root, Epoch(es, j));
    assert k < i;
    EpochGrows(es, k, i);
    EpochGrows(es, i, j);
  }

  /** Over a whole run: a share with the header of an accepted one is accepted later, without its
      root being handed out again, exactly if no block changed in between, the hash held is still the
      same, its data decodes, and no share took the nonce read from it. The accepted share took its
      own. */
  lemma HeaderAcceptedAgain(env: Setting, es: seq<Event>, i: nat, j: nat)
    requires i < j < |es| && es[i].Submit? && es[j].Submit?
    requires SameClaim(es[i].share, es[j].share) && SameHeader(es[i].share, es[j].share)
    requires Verdict(env, At(env, es, i), es[i].share) == SUCCESS
    requires !TrackedBetween(es, i, j, Root(es[i].share.data))
    ensures var data := es[j].share.data; var taken := Taken(env, es, j, Root(data), Nonce(data));
            && (Verdict(env, At(env, es, j), es[j].share) == SUCCESS
                <==> Epoch(es, i) == Epoch(es, j) && At(env, es, i).blockHash == At(env, es, j).blockHash
                     && Header(data).Some? && !taken)
            && (Nonce(data) == Nonce(es[i].share.data) ==> taken)
  {
    var a, b, root := es[i].share, es[j].share, Root(es[i].share.data);
    AcceptedMatches(env, At(env, es, i), a);
    SameHeaderHashes(env, a, b);
    CodesExactly(env, es, j);
    if root in At(env, es, j).current {
      SameEpoch(env, es, i, j, root);
    }
    if Epoch(es, i) == Epoch(es, j) {
      EntryLasts(env, es, i, j, root);
    }
    if Nonce(b.data) == Nonce(a.data) {
      assert TakenBefore(env, es, i, j, root, Nonce(a.data));
    }
  }

  lemma {:induction false} SwappedTwice<T>(p: seq<T>)
    ensures WordsSwapped(WordsSwapped(p)) == p
  {
    if |p| >= 4 {
      SwappedTwice(p[4..]);
      BackwardsTwice(p[..4]);
      var q := WordsSwapped(p);
      assert q[..4] == Backwards(p[..4]) && q[4..] == WordsSwapped(p[4..]);
      assert p == p[..4] + p[4..];
    }
  }

  /** A field of the header determines what its characters decode to. */
  lemma RootBytes(data: WorkData)
    ensures HeaderBytes(data)[36..68] == WordsSwapped(Decoded(Root(data)))
  {
    forall w | 0 <= w < 8
      ensures Word(HeaderBytes(data)[36..68], w) == Word(WordsSwapped(Decoded(Root(data))), w)
    {
      HeaderFieldWord(data, 9, 8, w);
      SwappedBytesWord(Root(data), w);
    }
    WordsDetermine(HeaderBytes(data)[36..68], WordsSwapped(Decoded(Root(data))), 8);
  }

  predicate SpelledAlike(root: string, other: string) {
    Decoded(root) == Decoded(other) ==> root == other
  }

  /** The node hands out no merkle root in two spellings. */
  predicate OneSpelling(es: seq<Event>) {
    forall k, l :: 0 <= k < |es| && 0 <= l < |es| && es[k].Track? && es[l].Track? ==>
      SpelledAlike(Root(es[k].data), Root(es[l].data))
  }

  lemma SameRootText(env: Setting, es: seq<Event>, i: nat, j: nat)
    requires i < |es| && j < |es| && es[i].Submit? && es[j].Submit? && OneSpelling(es)
    requires SameHeader(es[i].share, es[j].share)
    requires Verdict(env, At(env, es, i), es[i].share) == SUCCESS
    requires Verdict(env, At(env, es, j), es[j].share) == SUCCESS
    ensures Root(es[i].share.data) == Root(es[j].share.data)
  {
    var a, b := es[i].share.data, es[j].share.data;
    KnownRoots(env, es, i, Root(a));
    KnownRoots(env, es, j, Root(b));
    AcceptedMatches(env, At(env, es, i), es[i].share);
    AcceptedMatches(env, At(env, es, j), es[j].share);
    var k: nat :| k < i && Sent(es, k, Root(a), Epoch(es, i));
    var l: nat :| l < j && Sent(es, l, Root(b), Epoch(es, j));
    RootBytes(a);
    RootBytes(b);
    SwappedTwice(Decoded(Root(a)));
    SwappedTwice(Decoded(Root(b)));
    assert SpelledAlike(Root(es[k].data), Root(es[l].data));
  }

  /** One header accepted twice over any run, its root not handed out again in between: then the two
      shares spell the root differently, or their nonces are read differently for duplicates. */
  lemma HeaderAcceptedTwice(env: Setting, es: seq<Event>, i: nat, j: nat, n: nat)
    requires i < j < n <= |es| && es[i].Submit? && es[j].Submit? && SameHeader(es[i].share, es[j].share)
    requires HasVerdict(env, es, i, n, SUCCESS) && HasVerdict(env, es, j, n, SUCCESS)
    requires !TrackedBetween(es, i, j, Root(es[i].share.data))
    ensures Nonce(es[i].share.data) != Nonce(es[j].share.data) || Root(es[i].share.data) != Root(es[j].share.data)
    ensures OneSpelling(es) ==>
              && Nonce(es[i].share.data) != Nonce(es[j].share.data)
              && !(ReadAlike(es[i].share.data[152..160]) && ReadAlike(es[j].share.data[152..160]))
  {
    var a, b := es[i].share.data, es[j].share.data;
    if Nonce(a) == Nonce(b) && Root(a) == Root(b) {
      AtMostOneAcceptance(env, es, i, j, n);
    }
    if OneSpelling(es) {
      VerdictIs(env, es, i, n, SUCCESS);
      VerdictIs(env, es, j, n, SUCCESS);
      SameRootText(env, es, i, j);
      if ReadAlike(a[152..160]) && ReadAlike(b[152..160]) {
        NoncesEqualIffBytesEqual(a, b);
      }
    }
  }

  /** So with roots handed out in one spelling and nonce fields that both readers take for the same word,
      as all plain ones are, no header is accepted twice unless its root was handed out again. */
  lemma NoHeaderAcceptedTwice(env: Setting, es: seq<Event>, i: nat, j: nat, n: nat)
    requires i < j < n <= |es| && es[i].Submit? && es[j].Submit? && SameHeader(es[i].share, es[j].share)
    requires HasVerdict(env, es, i, n, SUCCESS) && HasVerdict(env, es, j, n, SUCCESS)
    requires OneSpelling(es)
    requires ReadAlike(es[i].share.data[152..160]) && ReadAlike(es[j].share.data[152..160])
    ensures TrackedBetween(es, i, j, Root(es[i].share.data))
  {
    if !TrackedBetween(es, i, j, Root(es[i].share.data)) {
      HeaderAcceptedTwice(env, es, i, j, n);
    }
  }

  // ---------- it happens ----------

  /** The item's data with another nonce field. */
  function Respelled(item: WorkData, nonce: string): (data: WorkData)
    requires |nonce| == 8
  {
    item[..152] + nonce + item[160..]
  }

  const ONE_SPELLED := "00000001"
  const ONE_SPACED := "00 00001"

  lemma OneDecodes(s: string)
    requires s == ONE_SPELLED || s == ONE_SPACED
    ensures |s| == 8 && Parses(Pairs(s)) && Decoded(s) == [0, 0, 0, 1] && !AllZero(Decoded(s))
  {
    forall k | 0 <= k < 4
      ensures ParsePair(Pairs(s)[k]) == Parsed(if k == 3 then 1 else 0, 2)
    {
      assert Pairs(s)[k] == (s[2 * k], s[2 * k + 1]);
    }
    assert Decoded(s)[3] == 1;
  }

  lemma OneTwoWays()
    ensures Parses(Pairs(ONE_SPELLED)) && Parses(Pairs(ONE_SPACED))
    ensures Decoded(ONE_SPELLED) == Decoded(ONE_SPACED)
    ensures SwapEnds(Strtoull(ONE_SPELLED) % TWO_32) != SwapEnds(Strtoull(ONE_SPACED) % TWO_32)
  {
    OneDecodes(ONE_SPELLED);
    OneDecodes(ONE_SPACED);
    assert ONE_SPACED[1..][1] == ' ';
    assert AllHex(ONE_SPELLED[1..]);
    ReadersAgree(ONE_SPELLED);
    ReadersAgree(ONE_SPACED);
  }

  lemma RespelledHeader(item: WorkData, nonce: string, other: string)
    requires |nonce| == |other| == 8 && Decoded(nonce) == Decoded(other)
    ensures HeaderBytes(Respelled(item, nonce)) == HeaderBytes(Respelled(item, other))
  {
    var a, b := Respelled(item, nonce), Respelled(item, other);
    forall g | 0 <= g < 20
      ensures Word(HeaderBytes(a), g) == Word(HeaderBytes(b), g)
    {
      HeaderWord(a, g);
      HeaderWord(b, g);
      if g == 19 {
        assert a[8 * g..8 * g + 8] == nonce && b[8 * g..8 * g + 8] == other;
      } else {
        assert a[8 * g..8 * g + 8] == item[8 * g..8 * g + 8] == b[8 * g..8 * g + 8];
      }
    }
    WordsDetermine(HeaderBytes(a), HeaderBytes(b), 20);
  }

  lemma RespelledDecodes(item: WorkData, nonce: string, other: string)
    requires |nonce| == |other| == 8 && Parses(Pairs(nonce)) && Parses(Pairs(other))
    ensures Header(Respelled(item, nonce)).Some? <==> Header(Respelled(item, other)).Some?
  {
    var a, b := Respelled(item, nonce), Respelled(item, other);
    HeaderDecodes(a);
    HeaderDecodes(b);
    assert a[..160] == item[..152] + nonce && b[..160] == item[..152] + other;
    PairsInParts(item[..152], nonce, 76);
    PairsInParts(item[..152], other, 76);
    ParsesInParts(Pairs(item[..152]), Pairs(nonce));
    ParsesInParts(Pairs(item[..152]), Pairs(other));
  }

  lemma RespelledFields(item: WorkData, nonce: string)
    requires |nonce| == 8
    ensures var data := Respelled(item, nonce);
            && Version(data) == Version(item) && PreviousHash(data) == PreviousHash(item)
            && Root(data) == Root(item) && Timestamp(data) == Timestamp(item) && data[152..160] == nonce
  {
    var data := Respelled(item, nonce);
    assert data[..152] == item[..152];
    SameSlice(data, item, 152, 0, 8);
    SameSlice(data, item, 152, 8, 72);
    SameSlice(data, item, 152, 72, 136);
    SameSlice(data, item, 152, 136, 144);
  }

  lemma SameSlice(s: string, t: string, n: nat, k: nat, l: nat)
    requires k <= l <= n <= |s| && n <= |t| && s[..n] == t[..n]
    ensures s[k..l] == t[k..l]
  {
    SliceOfSlice(s, 0, n, k, l);
    SliceOfSlice(t, 0, n, k, l);
  }

  lemma TwoShares(item: WorkData, user: User)
    ensures var a, b := Share(Respelled(item, ONE_SPELLED), user), Share(Respelled(item, ONE_SPACED), user);
            && SameClaim(a, b) && SameHeader(a, b) && Root(a.data) == Root(item)
            && (Header(a.data).Some? <==> Header(b.data).Some?)
            && Nonce(a.data) != Nonce(b.data)
  {
    OneTwoWays();
    RespelledHeader(item, ONE_SPELLED, ONE_SPACED);
    RespelledDecodes(item, ONE_SPELLED, ONE_SPACED);
    RespelledFields(item, ONE_SPELLED);
    RespelledFields(item, ONE_SPACED);
  }

  function TwoSpellings(hash: HashText, item: WorkData, user: User): (es: seq<Event>)
    ensures |es| == 6
  {
    [HashReply(Some(hash)), Track(item, user), Submit(Share(Respelled(item, ONE_SPELLED), user)),
     Submit(Share(Respelled(item, ONE_SPACED), user)), ThreadDone(0), ThreadDone(1)]
  }

  /** A run in which one header is accepted twice: for any item of the latest block and any target its
      hash meets, both spellings of the nonce 1 succeed, and the root was handed out once. */
  lemma TwoSpellingsAccepted(env: Setting, hash: HashText, item: WorkData, user: User)
    requires PreviousHash(item) == StoredHash(hash) && WellHashed(env, Respelled(item, ONE_SPELLED))
    ensures var es := TwoSpellings(hash, item, user);
            && SameHeader(es[2].share, es[3].share)
            && HasVerdict(env, es, 2, 6, SUCCESS) && HasVerdict(env, es, 3, 6, SUCCESS)
            && !TrackedBetween(es, 2, 3, Root(item))
  {
    var a, b := Share(Respelled(item, ONE_SPELLED), user), Share(Respelled(item, ONE_SPACED), user);
    TwoShares(item, user);
    SixEvents(env, TwoSpellings(hash, item, user), hash, item, user, a, b);
  }

  lemma SixEvents(env: Setting, es: seq<Event>, hash: HashText, item: WorkData, user: User, a: Share, b: Share)
    requires PreviousHash(item) == StoredHash(hash) && WellHashed(env, Respelled(item, ONE_SPELLED))
    requires |es| == 6 && es[0] == HashReply(Some(hash)) && es[1] == Track(item, user)
    requires es[2] == Submit(a) && es[3] == Submit(b) && es[4] == ThreadDone(0) && es[5] == ThreadDone(1)
    requires a == Share(Respelled(item, ONE_SPELLED), user)
    requires SameClaim(a, b) && SameHeader(a, b) && Nonce(a.data) != Nonce(b.data) && Header(b.data).Some?
    requires Root(a.data) == Root(item)
    ensures HasVerdict(env, es, 2, 6, SUCCESS) && HasVerdict(env, es, 3, 6, SUCCESS)
  {
    FirstTwoEvents(env, es, hash, item, user);
    RunOfTwo(env, es, a, b);
  }

  lemma FirstTwoEvents(env: Setting, es: seq<Event>, hash: HashText, item: WorkData, user: User)
    requires PreviousHash(item) == StoredHash(hash) && WellHashed(env, Respelled(item, ONE_SPELLED))
    requires |es| >= 2 && es[0] == HashReply(Some(hash)) && es[1] == Track(item, user)
    ensures var s := At(env, es, 2);
            && Verdict(env, s, Share(Respelled(item, ONE_SPELLED), user)) == SUCCESS
            && s.submitted == 0 && Root(item) in s.current && s.current[Root(item)].nonces == []
  {
    TwoSteps(env, es, 0);
    FirstOfRun(env, At(env, es, 2), hash, item, user);
  }

  lemma NextState(env: Setting, es: seq<Event>, n: nat)
    requires n < |es| && es[n].Submit?
    ensures At(env, es, n + 1) == Step(env, At(env, es, n), es[n])
    ensures At(env, es, n + 1).submitted == At(env, es, n).submitted + 1
  {
  }

  lemma RunOfTwo(env: Setting, es: seq<Event>, a: Share, b: Share)
    requires |es| == 6 && es[2] == Submit(a) && es[3] == Submit(b)
    requires es[4] == ThreadDone(0) && es[5] == ThreadDone(1) && At(env, es, 2).submitted == 0
    requires SameClaim(a, b) && SameHeader(a, b) && Nonce(a.data) != Nonce(b.data) && Header(b.data).Some?
    requires Root(a.data) in At(env, es, 2).current && At(env, es, 2).current[Root(a.data)].nonces == []
    requires Verdict(env, At(env, es, 2), a) == SUCCESS
    ensures HasVerdict(env, es, 2, 6, SUCCESS) && HasVerdict(env, es, 3, 6, SUCCESS)
  {
    AcceptedNext(env, At(env, es, 2), a, b);
    NextState(env, es, 2);
    SettledByWorker(env, es, 2, 4, 6);
    SettledByWorker(env, es, 3, 5, 6);
  }

  lemma FirstOfRun(env: Setting, s: State, hash: HashText, item: WorkData, user: User)
    requires PreviousHash(item) == StoredHash(hash) && WellHashed(env, Respelled(item, ONE_SPELLED))
    requires s == Step(env, Step(env, INITIAL, HashReply(Some(hash))), Track(item, user))
    ensures Verdict(env, s, Share(Respelled(item, ONE_SPELLED), user)) == SUCCESS
    ensures s.submitted == 0 && Root(item) in s.current && s.current[Root(item)].nonces == []
  {
    RespelledFields(item, ONE_SPELLED);
  }
}
