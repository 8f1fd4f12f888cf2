/** The share validator with its tables and nonce arrays changed in place. Every operation is
    tied to the step of the machine in ShareRules that it performs. */
module WorkValidators {
  import opened Common
  import opened HexBytes
  import opened Headers
  import opened ShareRules

  const TRACK_NONCE_MAX: nat := 16

  /** What the validator remembers of an item it sent. The sixteen nonce slots are part of the
      object itself. */
  class TrackedWork {
    ghost const root: string
    const user: User
    const version: string
    const timestamp: string
    var nonceCount: nat
    var nonces: seq<nat>
    var possibleStale: bool

    ghost predicate Valid()
      reads this
    {
      |nonces| == TRACK_NONCE_MAX && nonceCount <= TRACK_NONCE_MAX
    }

    ghost function View(): Tracked
      reads this
    {
      Tracked(user, version, timestamp, if nonceCount <= |nonces| then nonces[..nonceCount] else [], possibleStale)
    }

    ghost predicate Stands(t: Tracked)
      reads this
    {
      Valid() && View() == t
    }

    constructor (data: WorkData, user: User)
      ensures Valid() && root == Root(data) && View() == NewlyTracked(data, user)
      ensures |nonces| == 16 && nonceCount == 0
    {
      root := Root(data);
      this.user := user;
      version := data[0..8];
      timestamp := data[136..144];
      nonceCount := 0;
      nonces := seq(TRACK_NONCE_MAX, _ => 0);
      possibleStale := false;
    }

    method Mark()
      requires Valid()
      modifies this`possibleStale
      ensures Valid() && View() == old(View()).(possibleStale := true)
    {
      possibleStale := true;
    }

    /** False for a nonce seen before; otherwise remembers it. */
    method CheckNonceIsUnique(nonce: nat) returns (unique: bool)
      requires Valid()
      requires nonce !in View().nonces ==> nonceCount < TRACK_NONCE_MAX
      modifies this`nonceCount, this`nonces
      ensures Valid() && unique == (nonce !in old(View()).nonces)
      ensures View() == if unique then WithNonce(old(View()), nonce) else old(View())
    {
      for i := 0 to nonceCount
        invariant nonce !in nonces[..i]
      {
        if nonce == nonces[i] {
          assert nonce in nonces[..nonceCount];
          return false;
        }
      }
      nonces := nonces[nonceCount := nonce];
      nonceCount := nonceCount + 1;
      return true;
    }
  }

  class WorkResult {
    const data: string
    const user: User
    var stale: bool

    constructor (data: string, user: User)
      ensures this.data == data && this.user == user && !stale
    {
      this.data, this.user, stale := data, user, false;
    }

    function AsShare(): Share {
      Share(data, user)
    }

    function AsJob(): Job
      reads this
    {
      Job(AsShare(), stale)
    }
  }

  type Table = map<string, TrackedWork>

  /** The objects in the table stand for these entries, each under its own root. */
  ghost predicate Shows(table: Table, entries: map<string, Tracked>, items: set<TrackedWork>)
    reads items
  {
    && table.Keys == entries.Keys
    && forall r :: r in table ==> table[r] in items && table[r].root == r && table[r].Stands(entries[r])
  }

  /** The two generations of tracked work: the validator's work_by_merkle_root and
      work_by_merkle_root_prev. */
  class TrackedTables {
    var workByMerkleRoot: Table
    var workByMerkleRootPrev: Table

    // what the tables stand for
    ghost var current: map<string, Tracked>
    ghost var prev: map<string, Tracked>
    ghost var items: set<TrackedWork>

    ghost predicate Valid()
      reads this, items
    {
      && Shows(workByMerkleRoot, current, items)
      && Shows(workByMerkleRootPrev, prev, items)
      && (forall r :: r in workByMerkleRoot && r in workByMerkleRootPrev ==>
            workByMerkleRoot[r] != workByMerkleRootPrev[r])
    }

    constructor ()
      ensures Valid() && current == map[] && prev == map[] && items == {}
    {
      workByMerkleRoot, workByMerkleRootPrev := map[], map[];
      current, prev, items := map[], map[], {};
    }

    method Insert(root: string, t: TrackedWork)
      requires Valid() && t !in items && t.Valid() && t.root == root
      modifies this
      ensures Valid() && items == old(items) + {t}
      ensures current == old(current)[root := t.View()] && prev == old(prev)
    {
      workByMerkleRoot := workByMerkleRoot[root := t];
      current, items := current[root := t.View()], items + {t};
    }

    method Rotate()
      requires Valid()
      modifies this
      ensures Valid() && items == old(items)
      ensures current == map[] && prev == old(current)
    {
      workByMerkleRootPrev := workByMerkleRoot;
      workByMerkleRoot := map[];
      current, prev := map[], current;
    }

    /** The object that stands for this root's entry. */
    ghost function Holder(root: string): TrackedWork
      requires root in workByMerkleRoot || root in workByMerkleRootPrev
      reads this
    {
      if root in workByMerkleRoot then workByMerkleRoot[root] else workByMerkleRootPrev[root]
    }

    method MarkPossiblyStale(root: string)
      requires Valid() && root !in workByMerkleRoot && root in workByMerkleRootPrev
      modifies items`possibleStale, this`prev
      ensures Valid() && prev == old(prev)[root := old(prev)[root].(possibleStale := true)]
    {
      var t := workByMerkleRootPrev[root];
      t.Mark();
      assert Shows(workByMerkleRoot, current, items);
      prev := prev[root := prev[root].(possibleStale := true)];
    }

    /** Finds the entry in the current table or, marking it, in the previous one. */
    method Get(root: string) returns (t: TrackedWork?)
      requires Valid()
      modifies items`possibleStale, this`prev
      ensures Valid()
      ensures t == null <==> root !in old(current) && root !in old(prev)
      ensures t != null ==>
                t in items && (root in workByMerkleRoot || root in workByMerkleRootPrev) && t == Holder(root)
      ensures prev == if root !in old(current) && root in old(prev)
                      then old(prev)[root := old(prev)[root].(possibleStale := true)] else old(prev)
    {
      if root in workByMerkleRoot {
        t := workByMerkleRoot[root];
      } else if root in workByMerkleRootPrev {
        MarkPossiblyStale(root);
        t := workByMerkleRootPrev[root];
      } else {
        t := null;
      }
    }

    method CheckNonceInCurrent(root: string, nonce: nat) returns (unique: bool)
      requires Valid() && root in workByMerkleRoot
      requires nonce !in current[root].nonces ==> |current[root].nonces| < TRACK_NONCE_MAX
      modifies items`nonceCount, items`nonces, this`current
      ensures Valid() && unique == (nonce !in old(current)[root].nonces)
      ensures current == if unique then old(current)[root := WithNonce(old(current)[root], nonce)] else old(current)
    {
      unique := workByMerkleRoot[root].CheckNonceIsUnique(nonce);
      assert Shows(workByMerkleRootPrev, prev, items);
      if unique {
        current := current[root := WithNonce(current[root], nonce)];
      }
    }

    method CheckNonceInPrevious(root: string, nonce: nat) returns (unique: bool)
      requires Valid() && root !in workByMerkleRoot && root in workByMerkleRootPrev
      requires nonce !in prev[root].nonces ==> |prev[root].nonces| < TRACK_NONCE_MAX
      modifies items`nonceCount, items`nonces, this`prev
      ensures Valid() && unique == (nonce !in old(prev)[root].nonces)
      ensures prev == if unique then old(prev)[root := WithNonce(old(prev)[root], nonce)] else old(prev)
    {
      unique := workByMerkleRootPrev[root].CheckNonceIsUnique(nonce);
      assert Shows(workByMerkleRoot, current, items);
      if unique {
        prev := prev[root := WithNonce(prev[root], nonce)];
      }
    }

    ghost function Entry(root: string): Tracked
      requires root in current || root in prev
      reads this
    {
      if root in current then current[root] else prev[root]
    }

    /** Has the nonce checked and, if new, remembered by the entry of this root. */
    method CheckNonceIsUnique(root: string, nonce: nat) returns (unique: bool)
      requires Valid() && (root in current || root in prev)
      requires nonce !in Entry(root).nonces ==> |Entry(root).nonces| < TRACK_NONCE_MAX
      modifies items`nonceCount, items`nonces, this`current, this`prev
      ensures Valid() && unique == (nonce !in old(Entry(root)).nonces)
      ensures !unique ==> current == old(current) && prev == old(prev)
      ensures unique && root in old(current) ==>
                current == old(current)[root := WithNonce(old(current)[root], nonce)] && prev == old(prev)
      ensures unique && root !in old(current) ==>
                current == old(current) && prev == old(prev)[root := WithNonce(old(prev)[root], nonce)]
    {
      if root in workByMerkleRoot {
        unique := CheckNonceInCurrent(root, nonce);
      } else {
        unique := CheckNonceInPrevious(root, nonce);
      }
    }
  }

  /** The queue of the worker threads: results by order of submission. */
  class ThreadPool {
    var jobs: map<nat, WorkResult>

    // what the queue stands for
    ghost var waiting: map<nat, Job>
    ghost var results: set<WorkResult>

    ghost predicate Valid()
      reads this, results
    {
      && jobs.Keys == waiting.Keys
      && (forall id :: id in jobs ==>
            jobs[id] in results && |jobs[id].data| == 256 && jobs[id].AsJob() == waiting[id])
    }

    constructor ()
      ensures Valid() && waiting == map[] && results == {}
    {
      jobs, waiting, results := map[], map[], {};
    }

    method Push(id: nat, result: WorkResult)
      requires Valid() && |result.data| == 256
      modifies this
      ensures Valid() && results == old(results) + {result}
      ensures waiting == old(waiting)[id := result.AsJob()]
    {
      jobs, waiting := jobs[id := result], waiting[id := result.AsJob()];
      results := results + {result};
    }

    method Remove(id: nat)
      requires Valid()
      modifies this
      ensures Valid() && results == old(results)
      ensures waiting == old(waiting) - {id}
    {
      jobs, waiting := jobs - {id}, waiting - {id};
    }
  }

  /** The share validator. */
  class WorkValidator {
    const tables: TrackedTables
    var blockNum: nat
    var blockHash: Option<string>
    var blockHashPrev: Option<string>
    const target: array<Byte>
    const sha: seq<Byte> -> Digest

    const threadPool: ThreadPool

    // the codes delivered to callbacks, by order of submission
    var submitted: nat
    var verdicts: map<nat, Code>

    ghost predicate Valid()
      reads this, tables, tables.items, threadPool, threadPool.results
    {
      target.Length == 32 && tables.Valid() && threadPool.Valid()
    }

    ghost function View(): State
      reads this, tables, threadPool
    {
      State(tables.current, tables.prev, blockNum, blockHash, blockHashPrev, submitted, threadPool.waiting, verdicts)
    }

    ghost function Env(): Setting
      reads target
      requires target.Length == 32
    {
      Setting(sha, target[..])
    }

    constructor (sha: seq<Byte> -> Digest)
      ensures Valid() && View() == INITIAL && fresh(target) && fresh(tables) && fresh(threadPool)
      ensures this.sha == sha
    {
      this.sha := sha;
      target := new Byte[32](_ => 0);
      tables := new TrackedTables();
      blockNum, blockHash, blockHashPrev := 0, None, None;
      threadPool := new ThreadPool();
      submitted, verdicts := 0, map[];
    }

    method SetTarget(hex: string)
      requires Valid() && |hex| >= 64
      modifies target
      ensures Valid()
      ensures Parses(Pairs(hex[..64])) ==> target[..] == Decoded(hex[..64])
      ensures forall k :: 0 <= k < 32 ==>
                target[k] == if k <= FirstBad(Pairs(hex[..64]), 0) then Decoded(hex[..64])[k] else old(target[k])
    {
      var _ := HexToBin(hex, 64, target);
      assert target[..32] == target[..];
    }

    method TrackWorkSent(data: WorkData, user: User)
      requires Valid()
      modifies tables
      ensures Valid() && View() == AfterTrack(old(View()), data, user)
      ensures fresh(tables.items - old(tables.items))
    {
      var t := new TrackedWork(data, user);
      tables.Insert(data[72..136], t);
    }

    method NotifyNewBlock(block: nat)
      requires Valid()
      modifies this`blockNum, this`blockHashPrev, tables
      ensures Valid() && View() == AfterBlock(old(View()), block) && tables.items == old(tables.items)
    {
      blockNum := block;
      blockHashPrev := blockHash;
      tables.Rotate();
    }

    method OnBlockHash(reply: Option<HashText>)
      requires Valid()
      modifies this`blockHash
      ensures Valid() && View() == AfterReply(old(View()), reply)
    {
      if reply.Some? {
        var h := ReverseWords(reply.value);
        blockHash := Some(h);
      }
    }

    /** The nonce of a claim whose version and timestamp match is checked and, if new, remembered. */
    method NoteNonce(c: Claim) returns (unique: bool)
      requires Valid() && (c.root in tables.current || c.root in tables.prev)
      requires tables.Entry(c.root).version == c.version && tables.Entry(c.root).timestamp == c.timestamp
      requires NonceIsNew(tables.Entry(c.root), c) ==> |tables.Entry(c.root).nonces| < TRACK_NONCE_MAX
      modifies tables.items`nonceCount, tables.items`nonces, tables`current, tables`prev
      ensures Valid() && tables.items == old(tables.items)
      ensures View() == Noted(old(View()), old(tables.Entry(c.root)), c)
      ensures unique == (c.nonce !in old(tables.Entry(c.root)).nonces)
      ensures (c.root in tables.current || c.root in tables.prev) && c.nonce in tables.Entry(c.root).nonces
    {
      unique := tables.CheckNonceIsUnique(c.root, c.nonce);
    }

    /** The checks against the entry found; a new nonce is remembered before the last two. */
    method CheckAgainstEntry(t: TrackedWork, c: Claim) returns (error: Option<Code>)
      requires Valid() && (c.root in tables.current || c.root in tables.prev)
      requires t.Stands(tables.Entry(c.root))
      requires NonceIsNew(tables.Entry(c.root), c) ==> |tables.Entry(c.root).nonces| < TRACK_NONCE_MAX
      modifies tables.items`nonceCount, tables.items`nonces, tables`current, tables`prev
      ensures Valid() && tables.items == old(tables.items)
      ensures View() == Noted(old(View()), old(tables.Entry(c.root)), c)
      ensures error == EntryError(old(tables.Entry(c.root)), c, blockHash, blockHashPrev)
    {
      if t.version != c.version || t.timestamp != c.timestamp {
        return Some(INVALID);
      }
      var unique := NoteNonce(c);
      if !unique {
        return Some(DUPLICATED);
      }
      if t.user != c.user {
        return Some(INVALID);
      }
      if Some(c.previousHash) != (if t.possibleStale then blockHashPrev else blockHash) {
        return Some(INVALID);
      }
      return None;
    }

    /** get_tracked_work_by_data */
    method Find(root: string) returns (t: TrackedWork?)
      requires Valid()
      modifies tables`prev, tables.items`possibleStale
      ensures Valid() && View() == Marked(old(View()), root)
      ensures t == null <==> Lookup(old(View()), root).None?
      ensures t != null ==>
                && (root in tables.current || root in tables.prev)
                && Lookup(old(View()), root) == Some(tables.Entry(root)) && t.Stands(tables.Entry(root))
    {
      t := tables.Get(root);
    }

    method CheckClaim(c: Claim) returns (error: Option<Code>, stale: bool)
      requires Valid()
      requires ClaimRecords(View(), c) ==> |Lookup(View(), c.root).value.nonces| < TRACK_NONCE_MAX
      modifies tables, tables.items
      ensures Valid() && tables.items == old(tables.items)
      ensures View() == AfterClaim(old(View()), c)
      ensures error == ClaimError(old(View()), c)
      ensures stale == (Lookup(old(View()), c.root).Some? && Lookup(old(View()), c.root).value.possibleStale)
    {
      var t := Find(c.root);
      if t == null {
        return Some(INVALID), false;
      }
      stale := t.possibleStale;
      error := CheckAgainstEntry(t, c);
    }

    /** work_result_mark_stale, for an entry found marked */
    method MarkStaleIf(result: WorkResult, stale: bool)
      requires Valid() && result !in threadPool.results
      modifies result`stale
      ensures Valid() && View() == old(View())
      ensures result.stale == (old(result.stale) || stale)
    {
      if stale {
        result.stale := true;
      }
    }

    method PrevalidateWorkResult(result: WorkResult) returns (error: Option<Code>)
      requires Valid() && !result.stale && result !in threadPool.results
      requires Records(View(), result.AsShare()) ==>
                 |Lookup(View(), Root(result.data)).value.nonces| < TRACK_NONCE_MAX
      modifies result`stale, tables, tables.items
      ensures Valid() && tables.items == old(tables.items)
      ensures View() == AfterQuickCheck(old(View()), result.AsShare())
      ensures error == QuickError(old(View()), result.AsShare())
      ensures result.stale == FoundInPrevious(old(View()), result.AsShare())
    {
      if |result.data| != 256 {
        return Some(INVALID);
      }
      var stale;
      error, stale := CheckClaim(ClaimOf(result.data, result.user));
      MarkStaleIf(result, stale);
    }

    /** work_validator_validate: a failed cheap check is answered at once, any other share goes
        to the thread pool. */
    method Validate(result: WorkResult)
      requires Valid() && !result.stale && result !in threadPool.results
      requires Records(View(), result.AsShare()) ==>
                 |Lookup(View(), Root(result.data)).value.nonces| < TRACK_NONCE_MAX
      modifies this`submitted, this`verdicts, result`stale, tables, tables.items, threadPool
      ensures Valid() && tables.items == old(tables.items)
      ensures threadPool.results <= old(threadPool.results) + {result}
      ensures View() == AfterSubmit(old(View()), result.AsShare())
    {
      var error := PrevalidateWorkResult(result);
      Deliver(result, error);
    }

    method Deliver(result: WorkResult, error: Option<Code>)
      requires Valid() && (error.None? ==> |result.data| == 256)
      modifies this`submitted, this`verdicts, threadPool
      ensures Valid() && threadPool.results <= old(threadPool.results) + {result}
      ensures View() == Delivered(old(View()), error, result.AsJob())
    {
      match error {
        case Some(code) => verdicts := verdicts[submitted := code];
        case None => threadPool.Push(submitted, result);
      }
      submitted := submitted + 1;
    }

    /** The blocking part, on a worker thread: rebuild the header, hash it twice, compare. */
    method ValidateWorkResultInThread(result: WorkResult) returns (code: Code)
      requires target.Length == 32 && |result.data| == 256
      ensures code == ThreadCode(Env(), result.data, result.stale)
      ensures code == SUCCESS || code == STALE <==>
                Header(result.data).Some? && Little(sha(sha(HeaderBytes(result.data)))) <= Little(target[..])
      ensures code == SUCCESS ==> !result.stale
      ensures code == STALE ==> result.stale
    {
      HeaderDecodes(result.data);
      ghost var text := result.data[..HEADER_CHARS];
      var data := new char[HEADER_CHARS](i requires 0 <= i < HEADER_CHARS => result.data[i]);
      assert data[..] == text;
      SwapWords(data, 20);
      var dataBin := new Byte[80];
      var ok := HexToBin(data[..], 160, dataBin);
      assert data[..][..160] == data[..] && dataBin[..80] == dataBin[..];
      if !ok {
        return INVALID;
      }
      var hash := sha(sha(dataBin[..]));
      var hash2 := new Byte[32](i requires 0 <= i < 32 => hash[i]);
      assert hash2[..] == hash;
      var sign := CompareInvertedHashes(hash2, target);
      if sign > 0 {
        return INVALID;
      }
      if result.stale {
        return STALE;
      }
      return SUCCESS;
    }

    method FinishJob(id: nat)
      requires Valid() && id in threadPool.jobs
      modifies this`verdicts, threadPool
      ensures Valid() && View() == AfterThread(Env(), old(View()), id)
    {
      var code := ValidateWorkResultInThread(threadPool.jobs[id]);
      assert code == JobCode(Env(), threadPool.waiting[id]);
      Report(id, code);
    }

    method Report(id: nat, code: Code)
      requires Valid()
      modifies this`verdicts, threadPool
      ensures Valid() && View() == Finished(old(View()), id, code)
    {
      verdicts := verdicts[id := code];
      threadPool.Remove(id);
    }
  }
}
