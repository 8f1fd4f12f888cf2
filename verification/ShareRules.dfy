/** The share validator as a machine over events: two generations of tracked work, a nonce
    list per item, a cheap check when a share comes in and a hash check on a worker thread. */
module ShareRules {
  import opened Common
  import opened HexBytes
  import opened Headers

  type WorkData = s: string | |s| == 256 witness seq(256, _ => '0')
  type HashText = s: string | |s| >= 64 witness seq(64, _ => '0')
  type Digest = d: seq<Byte> | |d| == 32 witness seq(32, _ => 0)

  /** The name a client sent, if it sent credentials. */
  type User = Option<string>

  /** The parts of the validator that nothing changes once the pool runs. */
  datatype Setting = Setting(sha: seq<Byte> -> Digest, target: Digest)

  datatype Code = SUCCESS | INVALID | STALE | DUPLICATED

  datatype Tracked = Tracked(user: User, version: string, timestamp: string, nonces: seq<nat>, possibleStale: bool)

  datatype Share = Share(data: string, user: User)

  /** A share that passed the cheap check and waits for a worker thread. */
  datatype Job = Job(share: Share, stale: bool)

  datatype State = State(
    current: map<string, Tracked>,
    prev: map<string, Tracked>,
    blockNum: nat,
    blockHash: Option<string>,
    blockHashPrev: Option<string>,
    submitted: nat,
    jobs: map<nat, Job>,
    verdicts: map<nat, Code>)

  datatype Event =
    | Track(data: WorkData, user: User)
    | Submit(share: Share)
    | ThreadDone(id: nat)
    | HashReply(reply: Option<HashText>)
    | NewBlock(block: nat)

  const INITIAL := State(map[], map[], 0, None, None, 0, map[], map[])

  // ---------- fields of the hex data ----------

  function Version(data: WorkData): string { data[0..8] }
  function PreviousHash(data: WorkData): string { data[8..72] }
  function Root(data: WorkData): string { data[72..136] }
  function Timestamp(data: WorkData): string { data[136..144] }

  /** What a share says of itself, as far as the cheap check looks. */
  datatype Claim = Claim(root: string, version: string, timestamp: string, previousHash: string, nonce: nat, user: User)

  function ClaimOf(data: WorkData, user: User): Claim {
    Claim(Root(data), Version(data), Timestamp(data), PreviousHash(data), Nonce(data), user)
  }

  function NewlyTracked(data: WorkData, user: User): Tracked {
    Tracked(user, Version(data), Timestamp(data), [], false)
  }

  // ---------- the cheap check ----------

  function Lookup(s: State, root: string): Option<Tracked> {
    if root in s.current then Some(s.current[root])
    else if root in s.prev then Some(s.prev[root].(possibleStale := true))
    else None
  }

  /** The checks of a share against the entry found for it, in their order. */
  function EntryError(t: Tracked, c: Claim, hash: Option<string>, hashPrev: Option<string>): Option<Code> {
    if t.version != c.version || t.timestamp != c.timestamp then Some(INVALID)
    else if c.nonce in t.nonces then Some(DUPLICATED)
    else if t.user != c.user then Some(INVALID)
    else if Some(c.previousHash) != (if t.possibleStale then hashPrev else hash) then Some(INVALID)
    else None
  }

  /** The nonce is remembered as soon as version and timestamp match and it is new, whatever
      later checks say. */
  predicate NonceIsNew(t: Tracked, c: Claim) {
    t.version == c.version && t.timestamp == c.timestamp && c.nonce !in t.nonces
  }

  function WithNonce(t: Tracked, nonce: nat): Tracked {
    t.(nonces := t.nonces + [nonce])
  }

  /** The entry of the claim's root, in whichever table it stands, takes note of its nonce. */
  function Noted(s: State, t: Tracked, c: Claim): State {
    if !NonceIsNew(t, c) then s
    else if c.root in s.current then s.(current := s.current[c.root := WithNonce(t, c.nonce)])
    else s.(prev := s.prev[c.root := WithNonce(t, c.nonce)])
  }

  /** An entry found only in the previous table is marked when it is looked up. */
  function Marked(s: State, root: string): State {
    if root !in s.current && root in s.prev
    then s.(prev := s.prev[root := s.prev[root].(possibleStale := true)])
    else s
  }

  function ClaimError(s: State, c: Claim): Option<Code> {
    match Lookup(s, c.root)
    case None => Some(INVALID)
    case Some(t) => EntryError(t, c, s.blockHash, s.blockHashPrev)
  }

  predicate ClaimRecords(s: State, c: Claim) {
    match Lookup(s, c.root) case None => false case Some(t) => NonceIsNew(t, c)
  }

  function AfterClaim(s: State, c: Claim): State {
    match Lookup(s, c.root)
    case None => s
    case Some(t) => Noted(Marked(s, c.root), t, c)
  }

  /** What the submitter of this share is told at once, or None when a worker must decide. */
  function QuickError(s: State, share: Share): Option<Code> {
    if |share.data| != 256 then Some(INVALID) else ClaimError(s, ClaimOf(share.data, share.user))
  }

  predicate Records(s: State, share: Share) {
    |share.data| == 256 && ClaimRecords(s, ClaimOf(share.data, share.user))
  }

  /** The cheap check changes nothing but entries of the two tables. */
  function AfterQuickCheck(s: State, share: Share): (t: State)
    ensures t.(current := s.current, prev := s.prev) == s
  {
    if |share.data| != 256 then s else AfterClaim(s, ClaimOf(share.data, share.user))
  }

  predicate FoundInPrevious(s: State, share: Share) {
    |share.data| == 256
    && match Lookup(s, Root(share.data)) case None => false case Some(t) => t.possibleStale
  }

  // ---------- the worker thread ----------

  function DoubleSha(env: Setting, header: seq<Byte>): Digest {
    env.sha(env.sha(header))
  }

  function ThreadCode(env: Setting, data: WorkData, stale: bool): Code {
    match Header(data)
    case None => INVALID
    case Some(h) =>
      if Little(DoubleSha(env, h)) > Little(env.target) then INVALID
      else if stale then STALE
      else SUCCESS
  }

  function JobCode(env: Setting, job: Job): Code {
    if |job.share.data| == 256 then ThreadCode(env, job.share.data, job.stale) else INVALID
  }

  // ---------- steps and runs ----------

  function AfterTrack(s: State, data: WorkData, user: User): State {
    s.(current := s.current[Root(data) := NewlyTracked(data, user)])
  }

  /** An error goes straight to the submitter; otherwise the share joins the thread pool. */
  function Delivered(s: State, error: Option<Code>, job: Job): State {
    match error
    case Some(code) => s.(submitted := s.submitted + 1, verdicts := s.verdicts[s.submitted := code])
    case None => s.(submitted := s.submitted + 1, jobs := s.jobs[s.submitted := job])
  }

  function AfterSubmit(s: State, share: Share): State {
    Delivered(AfterQuickCheck(s, share), QuickError(s, share), Job(share, FoundInPrevious(s, share)))
  }

  function Finished(s: State, id: nat, code: Code): State {
    s.(jobs := s.jobs - {id}, verdicts := s.verdicts[id := code])
  }

  function AfterThread(env: Setting, s: State, id: nat): State {
    if id in s.jobs then Finished(s, id, JobCode(env, s.jobs[id])) else s
  }

  /** The first 64 characters of the node's reply with their words in reverse order. */
  function StoredHash(reply: HashText): string {
    WordsInReverse(reply[..64])
  }

  function AfterReply(s: State, reply: Option<HashText>): State {
    if reply.Some? then s.(blockHash := Some(StoredHash(reply.value))) else s
  }

  function AfterBlock(s: State, block: nat): State {
    s.(current := map[], prev := s.current, blockNum := block, blockHashPrev := s.blockHash)
  }

  function Step(env: Setting, s: State, e: Event): State {
    match e
    case Track(data, user) => AfterTrack(s, data, user)
    case Submit(share) => AfterSubmit(s, share)
    case ThreadDone(id) => AfterThread(env, s, id)
    case HashReply(reply) => AfterReply(s, reply)
    case NewBlock(block) => AfterBlock(s, block)
  }

  /** The state after the first n events. */
  function At(env: Setting, es: seq<Event>, n: nat): State
    requires n <= |es|
  {
    if n == 0 then INITIAL else Step(env, At(env, es, n - 1), es[n - 1])
  }

  /** What the final code must be, read off the state in which the share came in. */
  function Verdict(env: Setting, s: State, share: Share): Code {
    match QuickError(s, share)
    case Some(code) => code
    case None => ThreadCode(env, share.data, FoundInPrevious(s, share))
  }
}
