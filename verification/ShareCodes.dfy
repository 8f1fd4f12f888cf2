/** The code of every share, told from the events alone: what was handed out, which shares came in,
    which hashes the node reported. No table, entry or mark of the validator appears in it. */
module ShareCodes {
  import opened Common
  import opened HexBytes
  import opened Headers
  import opened ShareRules
  import opened ShareTheorems

  // ---------- the last sending of a root ----------

  predicate Sends(e: Event, root: string) {
    e.Track? && e.data[72..136] == root
  }

  /** Event k is the last of the first n that handed this root out. */
  ghost predicate LastSent(es: seq<Event>, k: nat, n: nat, root: string) {
    k < n <= |es| && Sends(es[k], root) && forall j :: k < j < n ==> !Sends(es[j], root)
  }

  /** The share answers this item: version, merkle root and timestamp, each in full and nothing else. */
  predicate Answers(item: string, data: string) {
    && |item| == |data| == 256
    && item[0..8] == data[0..8] && item[72..136] == data[72..136] && item[136..144] == data[136..144]
  }

  /** A share that answers the item with this nonce, whoever sent it. */
  predicate Uses(e: Event, item: string, nonce: nat) {
    e.Submit? && Answers(item, e.share.data) && Nonce(e.share.data) == nonce
  }

  ghost predicate Used(es: seq<Event>, k: nat, n: nat, nonce: nat)
    requires k < n <= |es| && es[k].Track?
  {
    exists j :: k < j < n && Uses(es[j], es[k].data, nonce)
  }

  // ---------- what the validator holds of it ----------

  /** The entry found stands for the item sent at event k, and holds the nonces used since. */
  ghost predicate EntryOf(es: seq<Event>, k: nat, n: nat, t: Tracked)
    requires k < n <= |es| && es[k].Track?
  {
    && t.user == es[k].user && t.version == es[k].data[0..8] && t.timestamp == es[k].data[136..144]
    && forall nonce :: nonce in t.nonces <==> Used(es, k, n, nonce)
  }

  /** In the current table during the epoch of its sending, only in the previous one during the next. */
  ghost predicate HeldFor(es: seq<Event>, k: nat, n: nat, s: State, root: string)
    requires k < n <= |es| && es[k].Track?
  {
    && (Epoch(es, n) == Epoch(es, k) ==>
          root in s.current && EntryOf(es, k, n, s.current[root]) && !s.current[root].possibleStale)
    && (Epoch(es, n) == Epoch(es, k) + 1 ==>
          root !in s.current && root in s.prev && EntryOf(es, k, n, s.prev[root]))
  }

  lemma NothingUsedYet(es: seq<Event>, k: nat, nonce: nat)
    requires k < |es| && es[k].Track?
    ensures !Used(es, k, k + 1, nonce)
  {
  }

  lemma UsedInStep(es: seq<Event>, k: nat, n: nat, nonce: nat)
    requires k < n < |es| && es[k].Track?
    ensures Used(es, k, n + 1, nonce) <==> Used(es, k, n, nonce) || Uses(es[n], es[k].data, nonce)
  {
    if Used(es, k, n, nonce) {
      var j :| k < j < n && Uses(es[j], es[k].data, nonce);
      assert k < j < n + 1;
    }
  }

  /** What a share does to the entry of a root. */
  function Noting(t: Tracked, share: Share, root: string): Tracked {
    if |share.data| == 256 && share.data[72..136] == root && share.data[0..8] == t.version
       && share.data[136..144] == t.timestamp && Nonce(share.data) !in t.nonces
    then t.(nonces := t.nonces + [Nonce(share.data)])
    else t
  }

  lemma ShareInCurrent(s: State, share: Share, root: string)
    requires root in s.current
    ensures root in AfterSubmit(s, share).current
    ensures AfterSubmit(s, share).current[root] == Noting(s.current[root], share, root)
  {
    if |share.data| == 256 {
      ClaimInCurrent(s, ClaimOf(share.data, share.user), root);
    }
  }

  lemma ClaimInCurrent(s: State, c: Claim, root: string)
    requires root in s.current
    ensures root in AfterClaim(s, c).current
    ensures AfterClaim(s, c).current[root]
            == if c.root == root && NonceIsNew(s.current[root], c) then WithNonce(s.current[root], c.nonce)
               else s.current[root]
  {
  }

  /** The same for an entry in the previous table alone, which a share of its root also marks. */
  lemma ShareInPrevious(s: State, share: Share, root: string)
    requires root !in s.current && root in s.prev
    ensures var t := AfterSubmit(s, share);
            && root !in t.current && root in t.prev
            && t.prev[root].(possibleStale := true) == Noting(s.prev[root].(possibleStale := true), share, root)
  {
    if |share.data| == 256 {
      ClaimInPrevious(s, ClaimOf(share.data, share.user), root);
    }
  }

  lemma ClaimInPrevious(s: State, c: Claim, root: string)
    requires root !in s.current && root in s.prev
    ensures var t, e := AfterClaim(s, c), s.prev[root].(possibleStale := true);
            && root !in t.current && root in t.prev
            && t.prev[root].(possibleStale := true)
               == if c.root == root && NonceIsNew(e, c) then WithNonce(e, c.nonce) else e
  {
  }

  lemma NotedEntry(es: seq<Event>, k: nat, n: nat, t: Tracked, root: string)
    requires k < n < |es| && es[n].Submit? && LastSent(es, k, n, root) && EntryOf(es, k, n, t)
    ensures EntryOf(es, k, n + 1, Noting(t, es[n].share, root))
  {
    var u := Noting(t, es[n].share, root);
    forall nonce
      ensures nonce in u.nonces <==> Used(es, k, n + 1, nonce)
    {
      UsedInStep(es, k, n, nonce);
    }
  }

  lemma KeptEntry(es: seq<Event>, k: nat, n: nat, t: Tracked)
    requires k < n < |es| && es[k].Track? && !es[n].Submit? && EntryOf(es, k, n, t)
    ensures EntryOf(es, k, n + 1, t)
  {
    forall nonce
      ensures nonce in t.nonces <==> Used(es, k, n + 1, nonce)
    {
      UsedInStep(es, k, n, nonce);
    }
  }

  lemma HeldAtSending(env: Setting, es: seq<Event>, k: nat, s: State, root: string)
    requires k < |es| && Sends(es[k], root)
    ensures HeldFor(es, k, k + 1, Step(env, s, es[k]), root)
  {
    var n := k + 1;
    forall nonce
      ensures !Used(es, k, n, nonce)
    {
      NothingUsedYet(es, k, nonce);
    }
  }

  lemma HeldAfterShare(env: Setting, es: seq<Event>, k: nat, n: nat, s: State, root: string)
    requires k < n < |es| && es[n].Submit? && LastSent(es, k, n, root) && HeldFor(es, k, n, s, root)
    ensures HeldFor(es, k, n + 1, Step(env, s, es[n]), root)
  {
    if Epoch(es, n) == Epoch(es, k) {
      ShareInCurrent(s, es[n].share, root);
      NotedEntry(es, k, n, s.current[root], root);
    } else if Epoch(es, n) == Epoch(es, k) + 1 {
      ShareInPrevious(s, es[n].share, root);
      NotedEntry(es, k, n, s.prev[root].(possibleStale := true), root);
      var t := AfterSubmit(s, es[n].share).prev[root];
      assert EntryOf(es, k, n + 1, t.(possibleStale := true));
    }
  }

  lemma HeldAfterBlock(env: Setting, es: seq<Event>, k: nat, n: nat, s: State, root: string)
    requires k < n < |es| && es[n].NewBlock? && LastSent(es, k, n, root) && HeldFor(es, k, n, s, root)
    ensures HeldFor(es, k, n + 1, Step(env, s, es[n]), root)
  {
    EpochGrows(es, k, n);
    if Epoch(es, n) == Epoch(es, k) {
      KeptEntry(es, k, n, s.current[root]);
    }
  }

  lemma HeldAfterOther(env: Setting, es: seq<Event>, k: nat, n: nat, s: State, root: string)
    requires k < n < |es| && LastSent(es, k, n, root) && HeldFor(es, k, n, s, root)
    requires !es[n].Submit? && !es[n].NewBlock? && !Sends(es[n], root)
    ensures HeldFor(es, k, n + 1, Step(env, s, es[n]), root)
  {
    if Epoch(es, n) == Epoch(es, k) {
      KeptEntry(es, k, n, s.current[root]);
    } else if Epoch(es, n) == Epoch(es, k) + 1 {
      KeptEntry(es, k, n, s.prev[root]);
    }
  }

  /** Until the second block change after it, the last sending of a root is what is found under the
      root, with exactly the nonces used since. */
  lemma {:induction false} LastSendingHeld(env: Setting, es: seq<Event>, k: nat, n: nat, root: string)
    requires LastSent(es, k, n, root)
    ensures HeldFor(es, k, n, At(env, es, n), root)
    decreases n
  {
    if n == k + 1 {
      HeldAtSending(env, es, k, At(env, es, k), root);
    } else {
      LastSendingHeld(env, es, k, n - 1, root);
      var s := At(env, es, n - 1);
      if es[n - 1].Submit? {
        HeldAfterShare(env, es, k, n - 1, s, root);
      } else if es[n - 1].NewBlock? {
        HeldAfterBlock(env, es, k, n - 1, s, root);
      } else {
        HeldAfterOther(env, es, k, n - 1, s, root);
      }
    }
  }

  /** A root found was handed out in this epoch or the one before. */
  lemma {:induction false} SomeLastSent(es: seq<Event>, j: nat, n: nat, root: string)
    requires j < n <= |es| && Sends(es[j], root)
    ensures exists k :: j <= k < n && LastSent(es, k, n, root)
    decreases n
  {
    if n == j + 1 {
      assert LastSent(es, j, n, root);
    } else if Sends(es[n - 1], root) {
      assert LastSent(es, n - 1, n, root);
    } else {
      SomeLastSent(es, j, n - 1, root);
      var k :| j <= k < n - 1 && LastSent(es, k, n - 1, root);
      assert LastSent(es, k, n, root);
    }
  }

  ghost predicate Known(es: seq<Event>, k: nat, n: nat, root: string) {
    LastSent(es, k, n, root) && Epoch(es, n) <= Epoch(es, k) + 1
  }

  lemma FoundIsKnown(env: Setting, es: seq<Event>, n: nat, root: string)
    requires n <= |es| && Lookup(At(env, es, n), root).Some?
    ensures exists k :: 0 <= k < n && Known(es, k, n, root)
  {
    KnownRoots(env, es, n, root);
    if root in At(env, es, n).current {
      var j: nat :| j < n && Sent(es, j, root, Epoch(es, n));
      SentIsKnown(es, j, n, root);
    } else {
      var j: nat :| j < n && Sent(es, j, root, Epoch(es, n) - 1);
      SentIsKnown(es, j, n, root);
    }
  }

  lemma SentIsKnown(es: seq<Event>, j: nat, n: nat, root: string)
    requires j < n <= |es| && Sends(es[j], root) && Epoch(es, n) <= Epoch(es, j) + 1
    ensures exists k :: 0 <= k < n && Known(es, k, n, root)
  {
    SomeLastSent(es, j, n, root);
    var k :| j <= k < n && LastSent(es, k, n, root);
    EpochGrows(es, j, k);
    assert Known(es, k, n, root);
  }

  // ---------- the code ----------

  /** The first 160 characters decode, and the header they stand for, hashed twice, is within the
      target. */
  predicate Meets(env: Setting, data: string)
    requires |data| == 256
  {
    Parses(Pairs(data[..160])) && Little(env.sha(env.sha(HeaderBytes(data)))) <= Little(env.target)
  }

  /** Share i is good work on item k with the block hash of reply r. */
  ghost predicate GoodWork(env: Setting, es: seq<Event>, i: nat, k: nat, r: nat)
    requires k < i < |es| && es[i].Submit? && es[k].Track? && r < i && IsReply(es[r])
  {
    var data := es[i].share.data;
    && Answers(es[k].data, data) && !Used(es, k, i, Nonce(data))
    && es[k].user == es[i].share.user
    && data[8..72] == StoredHash(es[r].reply.value)
    && Meets(env, data)
  }

  /** Work on an item of this epoch with the node's latest block hash. */
  ghost predicate FreshWork(env: Setting, es: seq<Event>, i: nat, k: nat, r: nat)
    requires i < |es| && es[i].Submit? && |es[i].share.data| == 256
  {
    && LastSent(es, k, i, es[i].share.data[72..136]) && Epoch(es, i) == Epoch(es, k)
    && LastReply(es, r, i) && GoodWork(env, es, i, k, r)
  }

  /** Work on an item of the epoch before with the latest hash of that time. */
  ghost predicate OldWork(env: Setting, es: seq<Event>, i: nat, k: nat, b: nat, r: nat)
    requires i < |es| && es[i].Submit? && |es[i].share.data| == 256
  {
    && LastSent(es, k, i, es[i].share.data[72..136]) && Epoch(es, i) == Epoch(es, k) + 1
    && LastBlock(es, b, i) && LastReply(es, r, b) && GoodWork(env, es, i, k, r)
  }

  ghost predicate UsedWork(es: seq<Event>, i: nat, k: nat)
    requires i < |es| && es[i].Submit? && |es[i].share.data| == 256
  {
    var data := es[i].share.data;
    Known(es, k, i, data[72..136]) && Answers(es[k].data, data) && Used(es, k, i, Nonce(data))
  }

  // what the verdict on a share says in terms of the entry found

  lemma MeetsIsHashed(env: Setting, data: string)
    requires |data| == 256
    ensures Meets(env, data) <==> WellHashed(env, data)
  {
    HeaderDecodes(data);
  }

  lemma CodeOfState(env: Setting, s: State, share: Share)
    requires |share.data| == 256
    ensures var data, root, code := share.data, share.data[72..136], Verdict(env, s, share);
            && (code == SUCCESS <==>
                  Lookup(s, root).Some? && var t := Lookup(s, root).value;
                  && t.version == data[0..8] && t.timestamp == data[136..144] && Nonce(data) !in t.nonces
                  && t.user == share.user && !t.possibleStale && s.blockHash == Some(data[8..72])
                  && WellHashed(env, data))
            && (code == STALE <==>
                  Lookup(s, root).Some? && var t := Lookup(s, root).value;
                  && t.version == data[0..8] && t.timestamp == data[136..144] && Nonce(data) !in t.nonces
                  && t.user == share.user && t.possibleStale && s.blockHashPrev == Some(data[8..72])
                  && WellHashed(env, data))
            && (code == DUPLICATED <==>
                  Lookup(s, root).Some? && var t := Lookup(s, root).value;
                  t.version == data[0..8] && t.timestamp == data[136..144] && Nonce(data) in t.nonces)
  {
  }

  lemma KnownIsFound(env: Setting, es: seq<Event>, k: nat, n: nat, root: string)
    requires Known(es, k, n, root)
    ensures Lookup(At(env, es, n), root).Some?
    ensures var t := Lookup(At(env, es, n), root).value;
            EntryOf(es, k, n, t) && (t.possibleStale <==> Epoch(es, n) == Epoch(es, k) + 1)
  {
    LastSendingHeld(env, es, k, n, root);
    EpochGrows(es, k, n);
    if Epoch(es, n) == Epoch(es, k) + 1 {
      assert EntryOf(es, k, n, At(env, es, n).prev[root]);
    }
  }

  lemma OneLastSent(es: seq<Event>, k: nat, l: nat, n: nat, root: string)
    requires LastSent(es, k, n, root) && LastSent(es, l, n, root)
    ensures k == l
  {
  }

  lemma FreshIsSuccess(env: Setting, es: seq<Event>, i: nat, k: nat, r: nat)
    requires i < |es| && es[i].Submit? && |es[i].share.data| == 256 && FreshWork(env, es, i, k, r)
    ensures Verdict(env, At(env, es, i), es[i].share) == SUCCESS
  {
    KnownIsFound(env, es, k, i, es[i].share.data[72..136]);
    HashHeld(env, es, i);
    MeetsIsHashed(env, es[i].share.data);
    CodeOfState(env, At(env, es, i), es[i].share);
    ReplyHeld(es, i, r, At(env, es, i).blockHash);
  }

  lemma ReplyHeld(es: seq<Event>, n: nat, r: nat, hash: Option<string>)
    requires n <= |es| && HashFrom(es, n, hash) && LastReply(es, r, n)
    ensures hash == Some(StoredHash(es[r].reply.value))
  {
    assert hash.Some?;
    var k :| 0 <= k < n && LastReply(es, k, n) && hash.value == StoredHash(es[k].reply.value);
    assert k == r;
  }

  lemma PreviousReplyHeld(es: seq<Event>, n: nat, b: nat, r: nat, hash: Option<string>)
    requires PreviousFrom(es, n, hash) && LastBlock(es, b, n) && LastReply(es, r, b)
    ensures hash == Some(StoredHash(es[r].reply.value))
  {
    assert hash.Some?;
    var c: nat, k: nat :| LastBlock(es, c, n) && LastReply(es, k, c) && hash.value == StoredHash(es[k].reply.value);
    assert c == b && k == r;
  }

  lemma OldIsStale(env: Setting, es: seq<Event>, i: nat, k: nat, b: nat, r: nat)
    requires i < |es| && es[i].Submit? && |es[i].share.data| == 256 && OldWork(env, es, i, k, b, r)
    ensures Verdict(env, At(env, es, i), es[i].share) == STALE
  {
    KnownIsFound(env, es, k, i, es[i].share.data[72..136]);
    PreviousHashHeld(env, es, i);
    MeetsIsHashed(env, es[i].share.data);
    CodeOfState(env, At(env, es, i), es[i].share);
    PreviousReplyHeld(es, i, b, r, At(env, es, i).blockHashPrev);
  }

  lemma SuccessIsFresh(env: Setting, es: seq<Event>, i: nat)
    requires i < |es| && es[i].Submit? && |es[i].share.data| == 256
    requires Verdict(env, At(env, es, i), es[i].share) == SUCCESS
    ensures exists k: nat, r: nat :: FreshWork(env, es, i, k, r)
  {
    var s, root := At(env, es, i), es[i].share.data[72..136];
    CodeOfState(env, s, es[i].share);
    MeetsIsHashed(env, es[i].share.data);
    FoundIsKnown(env, es, i, root);
    var k :| 0 <= k < i && Known(es, k, i, root);
    KnownIsFound(env, es, k, i, root);
    EpochGrows(es, k, i);
    HashHeld(env, es, i);
    var r :| 0 <= r < i && LastReply(es, r, i) && s.blockHash.value == StoredHash(es[r].reply.value);
    assert FreshWork(env, es, i, k, r);
  }

  lemma StaleIsOld(env: Setting, es: seq<Event>, i: nat)
    requires i < |es| && es[i].Submit? && |es[i].share.data| == 256
    requires Verdict(env, At(env, es, i), es[i].share) == STALE
    ensures exists k: nat, b: nat, r: nat :: OldWork(env, es, i, k, b, r)
  {
    var s, root := At(env, es, i), es[i].share.data[72..136];
    CodeOfState(env, s, es[i].share);
    MeetsIsHashed(env, es[i].share.data);
    FoundIsKnown(env, es, i, root);
    var k :| 0 <= k < i && Known(es, k, i, root);
    KnownIsFound(env, es, k, i, root);
    PreviousHashHeld(env, es, i);
    var b: nat, r: nat :| LastBlock(es, b, i) && LastReply(es, r, b)
                          && s.blockHashPrev.value == StoredHash(es[r].reply.value);
    assert OldWork(env, es, i, k, b, r);
  }

  lemma DuplicateIsUsed(env: Setting, es: seq<Event>, i: nat)
    requires i < |es| && es[i].Submit? && |es[i].share.data| == 256
    requires Verdict(env, At(env, es, i), es[i].share) == DUPLICATED
    ensures exists k: nat :: UsedWork(es, i, k)
  {
    var s, root := At(env, es, i), es[i].share.data[72..136];
    CodeOfState(env, s, es[i].share);
    FoundIsKnown(env, es, i, root);
    var k :| 0 <= k < i && Known(es, k, i, root);
    KnownIsFound(env, es, k, i, root);
    assert UsedWork(es, i, k);
  }

  lemma UsedIsDuplicate(env: Setting, es: seq<Event>, i: nat, k: nat)
    requires i < |es| && es[i].Submit? && |es[i].share.data| == 256 && UsedWork(es, i, k)
    ensures Verdict(env, At(env, es, i), es[i].share) == DUPLICATED
  {
    KnownIsFound(env, es, k, i, es[i].share.data[72..136]);
    CodeOfState(env, At(env, es, i), es[i].share);
  }

  lemma WrongLength(env: Setting, s: State, share: Share)
    requires |share.data| != 256
    ensures Verdict(env, s, share) == INVALID
  {
  }

  lemma SuccessExactly(env: Setting, es: seq<Event>, i: nat)
    requires i < |es| && es[i].Submit? && |es[i].share.data| == 256
    ensures Verdict(env, At(env, es, i), es[i].share) == SUCCESS
            <==> exists k: nat, r: nat :: FreshWork(env, es, i, k, r)
  {
    if Verdict(env, At(env, es, i), es[i].share) == SUCCESS {
      SuccessIsFresh(env, es, i);
    }
    forall k: nat, r: nat | FreshWork(env, es, i, k, r)
      ensures Verdict(env, At(env, es, i), es[i].share) == SUCCESS
    {
      FreshIsSuccess(env, es, i, k, r);
    }
  }

  lemma StaleExactly(env: Setting, es: seq<Event>, i: nat)
    requires i < |es| && es[i].Submit? && |es[i].share.data| == 256
    ensures Verdict(env, At(env, es, i), es[i].share) == STALE
            <==> exists k: nat, b: nat, r: nat :: OldWork(env, es, i, k, b, r)
  {
    if Verdict(env, At(env, es, i), es[i].share) == STALE {
      StaleIsOld(env, es, i);
    }
    forall k: nat, b: nat, r: nat | OldWork(env, es, i, k, b, r)
      ensures Verdict(env, At(env, es, i), es[i].share) == STALE
    {
      OldIsStale(env, es, i, k, b, r);
    }
  }

  lemma DuplicatedExactly(env: Setting, es: seq<Event>, i: nat)
    requires i < |es| && es[i].Submit? && |es[i].share.data| == 256
    ensures Verdict(env, At(env, es, i), es[i].share) == DUPLICATED <==> exists k: nat :: UsedWork(es, i, k)
  {
    if Verdict(env, At(env, es, i), es[i].share) == DUPLICATED {
      DuplicateIsUsed(env, es, i);
    }
    forall k: nat | UsedWork(es, i, k)
      ensures Verdict(env, At(env, es, i), es[i].share) == DUPLICATED
    {
      UsedIsDuplicate(env, es, i, k);
    }
  }

  /** Share i has this code, told from the events before it. */
  ghost predicate CodeTold(env: Setting, es: seq<Event>, i: nat, code: Code)
    requires i < |es| && es[i].Submit?
  {
    if |es[i].share.data| != 256 then code == INVALID
    else
      && (code == SUCCESS <==> exists k: nat, r: nat :: FreshWork(env, es, i, k, r))
      && (code == STALE <==> exists k: nat, b: nat, r: nat :: OldWork(env, es, i, k, b, r))
      && (code == DUPLICATED <==> exists k: nat :: UsedWork(es, i, k))
  }

  /** Every share's code is the one told from the events before it, of any length and in any run; it is
      INVALID unless one of the three conditions holds. */
  lemma CodeFromEvents(env: Setting, es: seq<Event>, i: nat)
    requires i < |es| && es[i].Submit?
    ensures CodeTold(env, es, i, Verdict(env, At(env, es, i), es[i].share))
  {
    if |es[i].share.data| == 256 {
      SuccessExactly(env, es, i);
      StaleExactly(env, es, i);
      DuplicatedExactly(env, es, i);
    } else {
      WrongLength(env, At(env, es, i), es[i].share);
    }
  }

  /** And it is the code with which the share ends. */
  lemma FinalCodeFromEvents(env: Setting, es: seq<Event>, i: nat, n: nat, code: Code)
    requires i < n <= |es| && es[i].Submit? && HasVerdict(env, es, i, n, code)
    ensures CodeTold(env, es, i, code)
  {
    VerdictIs(env, es, i, n, code);
    CodeFromEvents(env, es, i);
  }

  /** A share that answers a known item uses its nonce up whatever becomes of it, even if it is rejected
      for its user or its previous hash: a later one with that nonce is a duplicate, until the root is
      handed out again or its item is two block changes old. */
  lemma RejectedShareUsesNonce(env: Setting, es: seq<Event>, i: nat, j: nat, k: nat)
    requires k < i < j < |es| && es[i].Submit? && es[j].Submit?
    requires es[k].Track? && Answers(es[k].data, es[i].share.data) && Answers(es[k].data, es[j].share.data)
    requires Known(es, k, j, es[k].data[72..136])
    requires Nonce(es[i].share.data) == Nonce(es[j].share.data)
    ensures Verdict(env, At(env, es, j), es[j].share) == DUPLICATED
    ensures es[i].share.user != es[k].user ==>
              var code := Verdict(env, At(env, es, i), es[i].share); code == INVALID || code == DUPLICATED
  {
    assert Uses(es[i], es[k].data, Nonce(es[j].share.data));
    assert UsedWork(es, j, k);
    UsedIsDuplicate(env, es, j, k);
    CodeFromEvents(env, es, i);
    assert LastSent(es, k, i, es[k].data[72..136]);
    forall l: nat | LastSent(es, l, i, es[k].data[72..136])
      ensures l == k
    {
      OneLastSent(es, k, l, i, es[k].data[72..136]);
    }
  }

  // ---------- the block the node is asked about ----------

  /** The block number held, for which the node is asked the hash, is that of the last block change. */
  lemma {:induction false} BlockNumberHeld(env: Setting, es: seq<Event>, n: nat)
    requires n <= |es|
    ensures if Epoch(es, n) == 0 then At(env, es, n).blockNum == 0
            else exists b: nat :: LastBlock(es, b, n) && At(env, es, n).blockNum == es[b].block
  {
    if n > 0 {
      BlockNumberHeld(env, es, n - 1);
      if es[n - 1].NewBlock? {
        assert LastBlock(es, n - 1, n);
      } else if Epoch(es, n) > 0 {
        var b: nat :| LastBlock(es, b, n - 1) && At(env, es, n - 1).blockNum == es[b].block;
        assert LastBlock(es, b, n);
      }
    }
  }
}
