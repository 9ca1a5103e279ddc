/**
 * What each handler of `P2poolV2Engine` does to the engine's maps, as functions from state to
 * state (crates/sv2-p2pool-engine/src/engine_impl.rs, crates/sv2-p2pool-engine/src/lib.rs).
 * Engine.dfy holds the handlers themselves; EngineRuns.dfy proves what every run keeps.
 */
module EngineModel {
  import opened Primitives
  import opened TxCodec
  import opened Coinbase
  import opened Merkle
  import opened Block
  import opened JobCache
  import opened ShareChain

  /** What the engine is built with: the hash, the name normaliser and the payout selector. */
  datatype Config = Config(
    sha: HashFn, normalize: string -> string, resolve: string -> Option<Script>)

  /** What was done, oldest first. Only proofs look at it. */
  datatype Deed =
    | Declared(token: u64, requestId: u32, job: DeclaredJob, replacedOne: bool)
    | Consumed(token: u64, requestId: u32, job: DeclaredJob)
    | CustomAccepted(token: u64)
    | Invalidated(count: nat)

  datatype EngineState = EngineState(
    jobs: Jobs,
    tokens: map<u64, u32>,
    payout: map<u64, Script>,
    users: map<string, u64>,
    declareAccepted: nat,
    customAccepted: nat,
    jobsInvalidated: nat,
    history: seq<Deed>)

  const INITIAL: EngineState := EngineState(map[], map[], map[], map[], 0, 0, 0, [])

  // ------------------------------------------------------------------
  // DeclareMiningJob
  // ------------------------------------------------------------------

  datatype DeclareMiningJob = DeclareMiningJob(
    requestId: u32, miningJobToken: Bytes, version: u32, prefix: Bytes, suffix: Bytes, wtxids: seq<Hash>)

  datatype TdpSnapshot = TdpSnapshot(tip: Option<TipMetadata>, templateId: Option<u64>)

  /** The template bridge and share-chain reads at declare time; `None` when not wired. */
  datatype DeclareEnv = DeclareEnv(
    tdp: Option<TdpSnapshot>, chainTip: Option<Result<Option<Hash>, ()>>)

  datatype DeclareError = InvalidMiningJobToken | InvalidCoinbaseTx | InvalidCoinbaseTxInput

  datatype DeclareResult =
    | DeclareSuccess
    | DeclareRejected(code: DeclareError)
    | MissingTransactions(wtxids: seq<Hash>)

  function DecodeToken(b: Bytes): (t: Option<u64>) {
    Pow256Values();
    if |b| == 8 then LittleEndianEncodes(b); Some(FromLittleEndian(b)) else None
  }

  /** The transactions among the provided byte strings; what does not decode is dropped. */
  function DecodedOf(bodies: seq<Bytes>): seq<Tx> {
    if bodies == [] then []
    else
      var front := DecodedOf(Init(bodies));
      match Decode(Last(bodies))
      case None => front
      case Some(tx) => front + [tx]
  }

  function DeclareVerdict(m: DeclareMiningJob, provided: Option<seq<Bytes>>): DeclareResult {
    if DecodeToken(m.miningJobToken).None? then DeclareRejected(InvalidMiningJobToken)
    else
      match Rebuild(m.prefix, m.suffix)
      case Err(_) => DeclareRejected(InvalidCoinbaseTx)
      case Ok(coinbase) =>
        if |coinbase.inputs| != 1 then DeclareRejected(InvalidCoinbaseTxInput)
        else if provided.Some? then DeclareSuccess
        else if m.wtxids == [] then DeclareRejected(InvalidCoinbaseTx)
        else MissingTransactions(m.wtxids)
  }

  function Snapshot(cfg: Config, m: DeclareMiningJob, token: u64, txs: seq<Tx>, env: DeclareEnv): DeclaredJob {
    DeclaredJob(
      m.version, m.prefix, m.suffix, m.wtxids,
      Some(Txids(cfg.sha, txs)),
      if env.tdp.Some? && env.tdp.value.tip.Some? then env.tdp.value.tip.value else DEFAULT_TIP,
      if env.tdp.Some? then env.tdp.value.templateId else None,
      if env.chainTip.Some? && env.chainTip.value.Ok? then env.chainTip.value.value else None,
      true,
      Some(token))
  }

  function CacheJob(s: EngineState, token: u64, requestId: u32, job: DeclaredJob): EngineState {
    s.(jobs := s.jobs[requestId := job],
       tokens := s.tokens[token := requestId],
       declareAccepted := s.declareAccepted + 1,
       history := s.history + [Declared(token, requestId, job, requestId in s.jobs)])
  }

  function DeclareStep(cfg: Config, s: EngineState, m: DeclareMiningJob, provided: Option<seq<Bytes>>, env: DeclareEnv)
    : (r: (EngineState, DeclareResult))
  {
    var verdict := DeclareVerdict(m, provided);
    if verdict.DeclareSuccess? then
      var token := DecodeToken(m.miningJobToken).value;
      (CacheJob(s, token, m.requestId, Snapshot(cfg, m, token, DecodedOf(provided.value), env)), verdict)
    else (s, verdict)
  }

  // ------------------------------------------------------------------
  // SetCustomMiningJob
  // ------------------------------------------------------------------

  datatype CustomError =
    | CustomInvalidToken
    | JobNotYetValidated
    | StaleChainTip
    | InvalidNbits
    | InvalidVersion
    | CustomInvalidCoinbaseTx
    | InvalidCoinbaseTxVersion
    | InvalidCoinbasePrefix
    | InvalidCoinbaseTxInputNSequence
    | InvalidCoinbaseTxOutputs
    | InvalidCoinbaseTxLocktime
    | InvalidMerklePath

  /** `CustomPanicked` stands for indexing the first input of a coinbase that has none. */
  datatype CustomResult = CustomSuccess | CustomRejected(code: CustomError) | CustomPanicked

  datatype ProposalOutcome = Accepted | Duplicate | Rejected | RpcError

  /** Fetching bodies for a template, and bitcoind's verdict on a block; `None` when not wired. */
  datatype CustomEnv = CustomEnv(
    fetch: Option<u64 -> Result<seq<Tx>, ()>>, validate: Option<BlockData -> ProposalOutcome>)

  predicate TipWasCaptured(job: DeclaredJob) {
    job.tip.prevHash != ZERO_HASH || job.tip.nbits != 0
  }

  predicate StartsWith(s: Bytes, prefix: Bytes) {
    |prefix| <= |s| && s[..|prefix|] == prefix
  }

  /** The rebuilt coinbase against the fields of the message, in the order they are checked. */
  function CoinbaseVerdict(coinbase: Tx, m: SetCustomMiningJob): CustomResult {
    if coinbase.version != AsI32(m.coinbaseTxVersion) then CustomRejected(InvalidCoinbaseTxVersion)
    else if coinbase.inputs == [] then CustomPanicked
    else if !StartsWith(coinbase.inputs[0].scriptSig, m.coinbasePrefix) then CustomRejected(InvalidCoinbasePrefix)
    else if coinbase.inputs[0].sequence != m.coinbaseTxInputNSequence then
      CustomRejected(InvalidCoinbaseTxInputNSequence)
    else if EncodeVec(EncodeOut, coinbase.outputs) != m.coinbaseTxOutputs then
      CustomRejected(InvalidCoinbaseTxOutputs)
    else if coinbase.lockTime != m.coinbaseTxLocktime then CustomRejected(InvalidCoinbaseTxLocktime)
    else CustomSuccess
  }

  /** The checks that need no backend. */
  function StructuralVerdict(cfg: Config, job: DeclaredJob, m: SetCustomMiningJob): CustomResult {
    if !job.validated then CustomRejected(JobNotYetValidated)
    else if TipWasCaptured(job) && m.prevHash != job.tip.prevHash then CustomRejected(StaleChainTip)
    else if TipWasCaptured(job) && m.nbits != job.tip.nbits then CustomRejected(InvalidNbits)
    else if m.version != job.version then CustomRejected(InvalidVersion)
    else
      match Rebuild(job.prefix, job.suffix)
      case Err(_) => CustomRejected(CustomInvalidCoinbaseTx)
      case Ok(coinbase) =>
        var v := CoinbaseVerdict(coinbase, m);
        if v != CustomSuccess then v
        else if job.txids.None? then CustomRejected(JobNotYetValidated)
        else if Path(cfg.sha, [Txid(cfg.sha, coinbase)] + job.txids.value) != m.merklePath then
          CustomRejected(InvalidMerklePath)
        else CustomSuccess
  }

  /** Everything the proposal check needs is there, and the bodies arrive. */
  predicate ProposalWired(job: DeclaredJob, env: CustomEnv) {
    && env.fetch.Some? && env.validate.Some? && job.templateId.Some?
    && env.fetch.value(job.templateId.value).Ok?
  }

  /** The proposal check; it is skipped unless everything it needs is there. */
  function ProposalVerdict(cfg: Config, job: DeclaredJob, m: SetCustomMiningJob, env: CustomEnv): CustomResult {
    if env.fetch.None? || env.validate.None? || job.templateId.None? then CustomSuccess
    else
      match env.fetch.value(job.templateId.value)
      case Err(_) => CustomSuccess
      case Ok(bodies) =>
        match CandidateFor(cfg.sha, job, m, bodies)
        case Err(_) => CustomRejected(CustomInvalidCoinbaseTx)
        case Ok(candidate) =>
          if env.validate.value(candidate) in {Accepted, Duplicate} then CustomSuccess
          else CustomRejected(CustomInvalidCoinbaseTx)
  }

  function CustomVerdict(cfg: Config, job: DeclaredJob, m: SetCustomMiningJob, env: CustomEnv): CustomResult {
    var v := StructuralVerdict(cfg, job, m);
    if v != CustomSuccess then v else ProposalVerdict(cfg, job, m, env)
  }

  function ForgetToken(s: EngineState, token: u64): EngineState {
    s.(tokens := s.tokens - {token})
  }

  function ConsumeJob(s: EngineState, token: u64, requestId: u32): EngineState
    requires requestId in s.jobs
  {
    s.(jobs := s.jobs - {requestId},
       history := s.history + [Consumed(token, requestId, s.jobs[requestId])])
  }

  function AcceptCustom(s: EngineState, token: u64): EngineState {
    s.(customAccepted := s.customAccepted + 1, history := s.history + [CustomAccepted(token)])
  }

  function CustomStep(cfg: Config, s: EngineState, m: SetCustomMiningJob, token: u64, env: CustomEnv)
    : (r: (EngineState, CustomResult))
  {
    if token !in s.tokens then (s, CustomRejected(CustomInvalidToken))
    else
      var requestId := s.tokens[token];
      var s1 := ForgetToken(s, token);
      if requestId !in s1.jobs then (s1, CustomRejected(CustomInvalidToken))
      else
        var s2 := ConsumeJob(s1, token, requestId);
        var verdict := CustomVerdict(cfg, s1.jobs[requestId], m, env);
        if verdict == CustomSuccess then (AcceptCustom(s2, token), verdict) else (s2, verdict)
  }

  // ------------------------------------------------------------------
  // Invalidation
  // ------------------------------------------------------------------

  ghost function WithJobs(s: EngineState, kept: Jobs): EngineState
    requires |kept| <= |s.jobs|
  {
    var dropped := |s.jobs| - |kept|;
    s.(jobs := kept, jobsInvalidated := s.jobsInvalidated + dropped, history := s.history + [Invalidated(dropped)])
  }

  /** The jobs whose captured share-chain tip the new tip descends from. */
  ghost function Survivors(jobs: Jobs, chain: HeaderMap, newTip: Hash): (kept: Jobs)
    ensures |kept| <= |jobs|
  {
    var kept := map r | r in jobs && jobs[r].shareChainTip.Some?
                        && OnAncestry(chain, newTip, jobs[r].shareChainTip.value) :: jobs[r];
    KeptIsSmaller(jobs, kept);
    kept
  }

  lemma KeptIsSmaller(jobs: Jobs, kept: Jobs)
    requires kept.Keys <= jobs.Keys
    ensures |kept| <= |jobs|
  {
    var rest := jobs.Keys - kept.Keys;
    assert jobs.Keys == kept.Keys + rest;
  }

  ghost function ReorgStep(s: EngineState, chain: Option<HeaderMap>, newTip: Hash): EngineState {
    if chain.None? || WalkBreaks(chain.value, newTip) then WithJobs(s, map[])
    else WithJobs(s, Survivors(s.jobs, chain.value, newTip))
  }

  // ------------------------------------------------------------------
  // Payout bindings
  // ------------------------------------------------------------------

  function AllocateStep(cfg: Config, s: EngineState, token: u64, user: string, budget: nat)
    : (r: (EngineState, Option<TxOut>))
  {
    var name := cfg.normalize(user);
    if name == "" then (s, None)
    else
      match cfg.resolve(name)
      case None => (s, None)
      case Some(script) =>
        if name in s.users && s.users[name] != token then (s, None)
        else if |EncodeOut(TxOut(0, script))| > budget then (s, None)
        else (s.(payout := s.payout[token := script], users := s.users[name := token]), Some(TxOut(0, script)))
  }

  function DropTokenPayout(s: EngineState, token: u64): EngineState {
    if token !in s.payout then s
    else s.(payout := s.payout - {token}, users := map u | u in s.users && s.users[u] != token :: s.users[u])
  }

  // ------------------------------------------------------------------
  // Events and runs. PushSolution is not among them: it changes none of this state.
  // ------------------------------------------------------------------

  datatype Event =
    | Declare(declare: DeclareMiningJob, provided: Option<seq<Bytes>>, declareEnv: DeclareEnv)
    | SetCustom(custom: SetCustomMiningJob, token: u64, customEnv: CustomEnv)
    | Reorg(chain: Option<HeaderMap>, newTip: Hash)
    | WatcherFlush
    | Allocate(token: u64, user: string, budget: nat)
    | EvictAllocated(token: u64)
    | EvictActive(activeToken: u64, token: u64)

  ghost function Step(cfg: Config, s: EngineState, e: Event): EngineState {
    match e
    case Declare(m, provided, env) => DeclareStep(cfg, s, m, provided, env).0
    case SetCustom(m, token, env) => CustomStep(cfg, s, m, token, env).0
    case Reorg(chain, newTip) => ReorgStep(s, chain, newTip)
    case WatcherFlush => WithJobs(s, map[])
    case Allocate(token, user, budget) => AllocateStep(cfg, s, token, user, budget).0
    case EvictAllocated(token) => DropTokenPayout(s, token)
    case EvictActive(_, token) => DropTokenPayout(s, token)
  }

  ghost function RunFrom(cfg: Config, s: EngineState, es: seq<Event>): EngineState {
    if es == [] then s else Step(cfg, RunFrom(cfg, s, Init(es)), Last(es))
  }

  ghost function Run(cfg: Config, es: seq<Event>): EngineState {
    RunFrom(cfg, INITIAL, es)
  }
}
