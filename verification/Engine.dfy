/**
 * `P2poolV2Engine`: the maps it owns and the handlers that edit them
 * (crates/sv2-p2pool-engine/src/engine_impl.rs, crates/sv2-p2pool-engine/src/lib.rs).
 */
module Engine {
  import opened Primitives
  import opened TxCodec
  import opened Coinbase
  import opened Merkle
  import opened Block
  import opened JobCache
  import opened ShareChain
  import opened EngineModel
  import opened EngineRuns
  import RecentSolutions

  /** What became of a rebuilt block: not submitted, or bitcoind's answer. */
  datatype Submission = NotSubmitted | SubmitAccepted | SubmitRefused | SubmitFailed

  /** How a PushSolution ended. */
  datatype PushOutcome =
    | NoTdp
    | NoMatchingJob
    | CacheRace
    | NoTemplateId
    | TdpFetchFailed
    | ReconstructFailed(cause: BlockError)
    | Credited(job: DeclaredJob, block: BlockData, submission: Submission)

  /**
   * What a solution meets besides the cache it searches: the cache as it is when the job found
   * there is fetched, the bodies, and bitcoind.
   */
  datatype PushEnv = PushEnv(
    refetched: Jobs, fetch: Option<u64 -> Result<seq<Tx>, ()>>, submit: Option<BlockData -> Result<string, ()>>)

  /** Bitcoind answers `null` to a block it takes, and a reason or an error otherwise. */
  function SubmissionOf(submit: Option<BlockData -> Result<string, ()>>, block: BlockData): Submission {
    if submit.None? then NotSubmitted
    else
      match submit.value(block)
      case Err(_) => SubmitFailed
      case Ok(reply) => if reply == "null" then SubmitAccepted else SubmitRefused
  }

  function SolutionBytes(p: PushSolution): (b: Bytes)
    ensures |b| == 44
  {
    p.prevHash + LittleEndian(p.nonce, 4) + LittleEndian(p.ntime, 4) + LittleEndian(p.version, 4)
  }

  /** SHA-256d of the solution's identifying fields: its key in the credit buffer. */
  function SyntheticShareHash(sha: HashFn, p: PushSolution): Hash {
    sha(SolutionBytes(p))
  }

  /** The 44 identifying bytes of a solution, field by field. */
  predicate SpellsSolution(b: Bytes, p: PushSolution) {
    && |b| == 44
    && b[..32] == p.prevHash
    && FromLittleEndian(b[32..36]) == p.nonce
    && FromLittleEndian(b[36..40]) == p.ntime
    && FromLittleEndian(b[40..44]) == p.version
  }

  lemma SolutionSlices(prev: Bytes, nonce: Bytes, ntime: Bytes, version: Bytes)
    requires |prev| == 32 && |nonce| == 4 && |ntime| == 4 && |version| == 4
    ensures var b := prev + nonce + ntime + version;
      |b| == 44 && b[..32] == prev && b[32..36] == nonce && b[36..40] == ntime && b[40..44] == version
  {
    assert prev + nonce + ntime + version == prev + (nonce + (ntime + version));
  }

  /** A solution's key is the hash of those bytes, and they are the only ones that spell it. */
  lemma ShareHashIsOfSolutionBytes(sha: HashFn, p: PushSolution, b: Bytes)
    ensures SpellsSolution(b, p) <==> b == SolutionBytes(p)
    ensures SpellsSolution(b, p) ==> SyntheticShareHash(sha, p) == sha(b)
  {
    Pow256Values();
    hide LittleEndian, FromLittleEndian;
    var sb := SolutionBytes(p);
    LittleEndianDecodes(p.nonce, 4);
    LittleEndianDecodes(p.ntime, 4);
    LittleEndianDecodes(p.version, 4);
    SolutionSlices(p.prevHash, LittleEndian(p.nonce, 4), LittleEndian(p.ntime, 4), LittleEndian(p.version, 4));
    if SpellsSolution(b, p) {
      LittleEndianEncodes(b[32..36]);
      LittleEndianEncodes(b[36..40]);
      LittleEndianEncodes(b[40..44]);
      assert b == b[..32] + b[32..36] + b[36..40] + b[40..44];
    }
  }

  predicate FoundUnder(jobs: Jobs, p: PushSolution, r: u32) {
    r in jobs && Solves(jobs[r], p.prevHash, p.nbits, p.version)
  }

  /** The job fetched under an id the search found; another handler may have changed it since. */
  ghost predicate Matched(jobs: Jobs, later: Jobs, p: PushSolution, job: DeclaredJob) {
    exists r :: FoundUnder(jobs, p, r) && r in later && later[r] == job
  }

  /** With no other handler in between, the job fetched is one the solution matches. */
  lemma UndisturbedJobMatches(jobs: Jobs, p: PushSolution, job: DeclaredJob)
    requires Matched(jobs, jobs, p, job)
    ensures job in jobs.Values
    ensures job.tip.prevHash == p.prevHash && job.tip.nbits == p.nbits && job.version == p.version
  {
  }

  /** With one in between it need not: whatever job now holds the id is the one that is used. */
  lemma ReplacedJobIsUsed(jobs: Jobs, p: PushSolution, r: u32, job: DeclaredJob)
    requires FoundUnder(jobs, p, r)
    ensures Matched(jobs, jobs[r := job], p, job)
  {
    assert r in jobs[r := job] && jobs[r := job][r] == job;
  }

  /** The same of the specification, as the outcome of a PushSolution reports it. */
  lemma SubmissionMeaning(submit: Option<BlockData -> Result<string, ()>>, block: BlockData)
    ensures var r := SubmissionOf(submit, block);
      && (r == NotSubmitted <==> submit.None?)
      && (r == SubmitAccepted <==> submit.Some? && submit.value(block) == Ok("null"))
      && (r == SubmitFailed <==> submit.Some? && submit.value(block).Err?)
  {
  }

  /**
   * What the outcome says of the job fetched, the bodies and the block. A credited block is the
   * one the job, the solution and the bodies make.
   */
  ghost predicate JobOutcomeExplained(sha: HashFn, p: PushSolution, env: PushEnv, job: DeclaredJob, outcome: PushOutcome)
    requires env.fetch.Some?
  {
    if job.templateId.None? then outcome == NoTemplateId
    else
      match env.fetch.value(job.templateId.value)
      case Err(_) => outcome == TdpFetchFailed
      case Ok(bodies) =>
        if outcome.Credited? then
          && outcome.job == job
          && IsSolved(sha, job, p, bodies, outcome.block)
          && outcome.submission == SubmissionOf(env.submit, outcome.block)
        else
          && outcome.ReconstructFailed?
          && IsRefusal(sha, job, RebuildWith(job.prefix, p.extranonce, job.suffix), bodies, outcome.cause)
  }

  /** What it says of the cache, as searched and as it is when the job is fetched. */
  ghost predicate PushExplained(sha: HashFn, jobs: Jobs, p: PushSolution, env: PushEnv, outcome: PushOutcome) {
    match outcome
    case NoTdp => env.fetch.None?
    case NoMatchingJob => env.fetch.Some? && forall r :: !FoundUnder(jobs, p, r)
    case CacheRace => env.fetch.Some? && exists r :: FoundUnder(jobs, p, r) && r !in env.refetched
    case _ =>
      && env.fetch.Some?
      && exists job :: Matched(jobs, env.refetched, p, job) && JobOutcomeExplained(sha, p, env, job, outcome)
  }

  /**
   * The credit left behind: the block's own hash for a credited block, the solution's key for
   * itself where no block could be looked for, and nothing otherwise.
   */
  predicate CreditRecorded(
      sha: HashFn, p: PushSolution, now: int, outcome: PushOutcome,
      before: RecentSolutions.Buffer, after: RecentSolutions.Buffer)
  {
    var share := SyntheticShareHash(sha, p);
    if outcome.Credited? then after == before[share := RecentSolutions.Entry(now, BlockHash(sha, outcome.block.header))]
    else if outcome.NoTdp? || outcome.NoTemplateId? then after == before[share := RecentSolutions.Entry(now, share)]
    else after == before
  }

  class P2poolV2Engine {
    const cfg: Config
    const declaredJobs: DeclaredJobCache
    const recentSolutions: RecentSolutions.SolutionBuffer
    var allocatedTokens: map<u64, u32>
    var tokenPayout: map<u64, Script>
    var userIdentifierIndex: map<string, u64>
    var declareAccepted: nat
    var customAccepted: nat
    var jobsInvalidatedTotal: nat
    var blocksSubmitted: nat
    var blocksSubmitFailed: nat
    ghost var history: seq<Deed>

    /** The engine's state, as the model sees it. */
    ghost function State(): EngineState
      reads this, declaredJobs
    {
      EngineState(declaredJobs.inner, allocatedTokens, tokenPayout, userIdentifierIndex,
                  declareAccepted, customAccepted, jobsInvalidatedTotal, history)
    }

    /** Every invariant that EngineRuns proves of runs holds of this engine. */
    ghost predicate Valid()
      reads this, declaredJobs
    {
      Inv(State())
    }

    constructor (cfg: Config, ttl: nat)
      ensures this.cfg == cfg && Valid() && State() == INITIAL
      ensures fresh(declaredJobs) && fresh(recentSolutions)
      ensures recentSolutions.ttl == ttl && recentSolutions.inner == map[]
    {
      this.cfg := cfg;
      declaredJobs := new DeclaredJobCache();
      recentSolutions := new RecentSolutions.SolutionBuffer(ttl);
      allocatedTokens, tokenPayout, userIdentifierIndex := map[], map[], map[];
      declareAccepted, customAccepted, jobsInvalidatedTotal := 0, 0, 0;
      blocksSubmitted, blocksSubmitFailed := 0, 0;
      history := [];
      new;
      InitialInv();
    }

    method DecodeBodies(bodies: seq<Bytes>) returns (txs: seq<Tx>)
      ensures txs == DecodedOf(bodies)
    {
      txs := [];
      for i := 0 to |bodies|
        invariant txs == DecodedOf(bodies[..i])
      {
        assert Init(bodies[..i + 1]) == bodies[..i];
        var decoded := Decode(bodies[i]);
        if decoded.Some? {
          txs := txs + [decoded.value];
        }
      }
      assert bodies[..|bodies|] == bodies;
    }

    /** The job as it is cached: its transactions' ids, and the tips in force at declare time. */
    method TakeSnapshot(m: DeclareMiningJob, token: u64, txs: seq<Tx>, env: DeclareEnv) returns (job: DeclaredJob)
      ensures job == Snapshot(cfg, m, token, txs, env)
      ensures job.allocatedToken == Some(token)
      ensures Rebuild(m.prefix, m.suffix).Ok? && OneInput(Rebuild(m.prefix, m.suffix).value) ==> WellFormedJob(job)
      ensures forall bodies :: BodyFault(cfg.sha, bodies, job.txids.value).None? <==> Txids(cfg.sha, bodies) == Txids(cfg.sha, txs)
      ensures TipWasCaptured(job) ==> env.tdp.Some? && env.tdp.value.tip == Some(job.tip)
      ensures job.templateId.Some? ==> env.tdp.Some? && env.tdp.value.templateId == job.templateId
      ensures job.shareChainTip.Some? ==> env.chainTip == Some(Ok(job.shareChainTip))
      ensures env.tdp.Some? && env.tdp.value.tip.Some? ==> job.tip == env.tdp.value.tip.value
    {
      hide Rebuild, BodyFault, Txids;
      var tip, templateId := DEFAULT_TIP, None;
      if env.tdp.Some? {
        tip := if env.tdp.value.tip.Some? then env.tdp.value.tip.value else DEFAULT_TIP;
        templateId := env.tdp.value.templateId;
      }
      var shareChainTip := None;
      if env.chainTip.Some? {
        shareChainTip := if env.chainTip.value.Ok? then env.chainTip.value.value else None;
      }
      job := DeclaredJob(m.version, m.prefix, m.suffix, m.wtxids, Some(Txids(cfg.sha, txs)),
                         tip, templateId, shareChainTip, true, Some(token));
      forall bodies { NoFaultIffTxidsMatch(cfg.sha, bodies, job.txids.value); }
    }

    method HandleDeclareMiningJob(m: DeclareMiningJob, provided: Option<seq<Bytes>>, env: DeclareEnv)
      returns (result: DeclareResult)
      requires Valid()
      modifies this, declaredJobs
      ensures Valid()
      ensures (State(), result) == DeclareStep(cfg, old(State()), m, provided, env)
    {
      hide Inv, Rebuild, DecodedOf, DecodeToken, Txids, Snapshot;
      StepKeepsInv(cfg, State(), Declare(m, provided, env));
      var decoded := DecodeToken(m.miningJobToken);
      if decoded.None? {
        return DeclareRejected(InvalidMiningJobToken);
      }
      var token := decoded.value;
      var rebuilt := ReconstructCoinbase(m.prefix, m.suffix);
      if rebuilt.Err? {
        return DeclareRejected(InvalidCoinbaseTx);
      }
      if |rebuilt.value.inputs| != 1 {
        return DeclareRejected(InvalidCoinbaseTxInput);
      }
      if m.wtxids == [] && provided.None? {
        return DeclareRejected(InvalidCoinbaseTx);
      }
      if m.wtxids != [] && provided.None? {
        return MissingTransactions(m.wtxids);
      }
      var txs := DecodeBodies(provided.value);
      var snapshot := TakeSnapshot(m, token, txs, env);
      var previous := declaredJobs.Insert(m.requestId, snapshot);
      allocatedTokens := allocatedTokens[token := m.requestId];
      declareAccepted := declareAccepted + 1;
      history := history + [Declared(token, m.requestId, snapshot, previous.Some?)];
      return DeclareSuccess;
    }

    /** The message against the job it consumed. */
    method CheckCustomMiningJob(job: DeclaredJob, m: SetCustomMiningJob) returns (verdict: CustomResult)
      requires WellFormedJob(job)
      ensures verdict == StructuralVerdict(cfg, job, m)
      ensures verdict.CustomRejected? ==> verdict.code !in {JobNotYetValidated, CustomInvalidCoinbaseTx}
      ensures !verdict.CustomPanicked?
    {
      WellFormedJobsHaveNoDeadArms(cfg, job, m);
      if !job.validated {
        return CustomRejected(JobNotYetValidated);
      }
      var tipWasCaptured := job.tip.prevHash != ZERO_HASH || job.tip.nbits != 0;
      if tipWasCaptured {
        if m.prevHash != job.tip.prevHash {
          return CustomRejected(StaleChainTip);
        }
        if m.nbits != job.tip.nbits {
          return CustomRejected(InvalidNbits);
        }
      }
      if m.version != job.version {
        return CustomRejected(InvalidVersion);
      }
      var rebuilt := ReconstructCoinbase(job.prefix, job.suffix);
      if rebuilt.Err? {
        return CustomRejected(CustomInvalidCoinbaseTx);
      }
      var coinbase := rebuilt.value;
      if coinbase.version != AsI32(m.coinbaseTxVersion) {
        return CustomRejected(InvalidCoinbaseTxVersion);
      }
      var scriptSig := coinbase.inputs[0].scriptSig;
      if !StartsWith(scriptSig, m.coinbasePrefix) {
        return CustomRejected(InvalidCoinbasePrefix);
      }
      if coinbase.inputs[0].sequence != m.coinbaseTxInputNSequence {
        return CustomRejected(InvalidCoinbaseTxInputNSequence);
      }
      if EncodeVec(EncodeOut, coinbase.outputs) != m.coinbaseTxOutputs {
        return CustomRejected(InvalidCoinbaseTxOutputs);
      }
      if coinbase.lockTime != m.coinbaseTxLocktime {
        return CustomRejected(InvalidCoinbaseTxLocktime);
      }
      if job.txids.None? {
        return CustomRejected(JobNotYetValidated);
      }
      var declaredPath := MerklePath(cfg.sha, Txid(cfg.sha, coinbase), job.txids.value);
      if declaredPath != m.merklePath {
        return CustomRejected(InvalidMerklePath);
      }
      return CustomSuccess;
    }

    /** Bitcoind's opinion of the candidate block, when it can be asked. */
    method ValidateProposal(job: DeclaredJob, m: SetCustomMiningJob, env: CustomEnv) returns (verdict: CustomResult)
      ensures verdict == ProposalVerdict(cfg, job, m, env)
      ensures verdict in {CustomSuccess, CustomRejected(CustomInvalidCoinbaseTx)}
      ensures verdict == CustomSuccess <==>
        (ProposalWired(job, env) ==>
           exists block :: IsCandidate(cfg.sha, job, m, env.fetch.value(job.templateId.value).value, block)
             && env.validate.value(block) in {Accepted, Duplicate})
    {
      hide Rebuild, IsCandidate, CandidateFor;
      if env.fetch.None? || env.validate.None? || job.templateId.None? {
        return CustomSuccess;
      }
      var fetched := env.fetch.value(job.templateId.value);
      if fetched.Err? {
        return CustomSuccess;
      }
      var candidate := BuildCandidateBlock(cfg.sha, job, m, fetched.value);
      if candidate.Err? {
        return CustomRejected(CustomInvalidCoinbaseTx);
      }
      match env.validate.value(candidate.value) {
        case Accepted => return CustomSuccess;
        case Duplicate => return CustomSuccess;
        case Rejected => return CustomRejected(CustomInvalidCoinbaseTx);
        case RpcError => return CustomRejected(CustomInvalidCoinbaseTx);
      }
    }

    method HandleSetCustomMiningJob(m: SetCustomMiningJob, token: u64, env: CustomEnv) returns (result: CustomResult)
      requires Valid()
      modifies this, declaredJobs
      ensures Valid()
      ensures (State(), result) == CustomStep(cfg, old(State()), m, token, env)
      ensures !result.CustomPanicked?
    {
      hide Conserved, TokensPaidFor, TracksLatest, HistoryExplained, BindingsAgree, WellFormedJob, StructuralVerdict, ProposalVerdict;
      StepKeepsInv(cfg, State(), SetCustom(m, token, env));
      if token !in allocatedTokens {
        return CustomRejected(CustomInvalidToken);
      }
      var requestId := allocatedTokens[token];
      allocatedTokens := allocatedTokens - {token};
      var removed := declaredJobs.Remove(requestId);
      if removed.None? {
        assert declaredJobs.inner == old(declaredJobs.inner);
        return CustomRejected(CustomInvalidToken);
      }
      var job := removed.value;
      history := history + [Consumed(token, requestId, job)];
      result := CheckCustomMiningJob(job, m);
      if result != CustomSuccess {
        return;
      }
      result := ValidateProposal(job, m, env);
      if result == CustomSuccess {
        customAccepted := customAccepted + 1;
        history := history + [CustomAccepted(token)];
      }
    }

    /**
     * A solution never changes the jobs, tokens or bindings; it is credited under its synthetic
     * share hash, with the hash of a block that commits to its own transactions, exactly when a
     * cached job matches, bodies arrive and the block can be rebuilt.
     */
    method HandlePushSolution(p: PushSolution, env: PushEnv, now: int) returns (outcome: PushOutcome)
      requires Valid()
      modifies recentSolutions, this`blocksSubmitted, this`blocksSubmitFailed
      ensures Valid() && State() == old(State())
      ensures PushExplained(cfg.sha, declaredJobs.inner, p, env, outcome)
      ensures blocksSubmitted == old(blocksSubmitted)
        + if outcome.Credited? && outcome.submission != NotSubmitted then 1 else 0
      ensures blocksSubmitFailed == old(blocksSubmitFailed)
        + if outcome.Credited? && outcome.submission in {SubmitRefused, SubmitFailed} then 1 else 0
      ensures outcome.Credited? ==> recentSolutions.inner == old(recentSolutions.inner)[
        SyntheticShareHash(cfg.sha, p) := RecentSolutions.Entry(now, BlockHash(cfg.sha, outcome.block.header))]
      ensures outcome.NoTdp? || outcome.NoTemplateId? ==> recentSolutions.inner == old(recentSolutions.inner)[
        SyntheticShareHash(cfg.sha, p) := RecentSolutions.Entry(now, SyntheticShareHash(cfg.sha, p))]
      ensures !outcome.Credited? && !outcome.NoTdp? && !outcome.NoTemplateId? ==>
        recentSolutions.inner == old(recentSolutions.inner)
    {
      hide Inv, SyntheticShareHash, BlockHash, SubmissionOf, Solves, JobOutcomeExplained;
      var share := SyntheticShareHash(cfg.sha, p);
      if env.fetch.None? {
        recentSolutions.Record(share, share, now);
        return NoTdp;
      }
      var found := declaredJobs.FindBySolution(p.prevHash, p.nbits, p.version);
      if found.None? {
        return NoMatchingJob;
      }
      assert FoundUnder(declaredJobs.inner, p, found.value);
      if found.value !in env.refetched {
        return CacheRace;
      }
      var job := env.refetched[found.value];
      assert Matched(declaredJobs.inner, env.refetched, p, job);
      outcome := SolveJob(job, p, env, now);
    }

    /** The rest of a PushSolution, once it has a job. */
    method SolveJob(job: DeclaredJob, p: PushSolution, env: PushEnv, now: int) returns (outcome: PushOutcome)
      requires env.fetch.Some?
      modifies recentSolutions, this`blocksSubmitted, this`blocksSubmitFailed
      ensures !outcome.NoTdp? && !outcome.NoMatchingJob? && !outcome.CacheRace?
      ensures JobOutcomeExplained(cfg.sha, p, env, job, outcome)
      ensures blocksSubmitted == old(blocksSubmitted)
        + if outcome.Credited? && outcome.submission != NotSubmitted then 1 else 0
      ensures blocksSubmitFailed == old(blocksSubmitFailed)
        + if outcome.Credited? && outcome.submission in {SubmitRefused, SubmitFailed} then 1 else 0
      ensures CreditRecorded(cfg.sha, p, now, outcome, old(recentSolutions.inner), recentSolutions.inner)
    {
      hide SyntheticShareHash, BlockHash, SubmissionOf, IsSolved, IsRefusal;
      var share := SyntheticShareHash(cfg.sha, p);
      if job.templateId.None? {
        recentSolutions.Record(share, share, now);
        return NoTemplateId;
      }
      var fetched := env.fetch.value(job.templateId.value);
      if fetched.Err? {
        return TdpFetchFailed;
      }
      var rebuilt := ReconstructBlock(cfg.sha, job, p, fetched.value);
      if rebuilt.Err? {
        return ReconstructFailed(rebuilt.error);
      }
      recentSolutions.Record(share, BlockHash(cfg.sha, rebuilt.value.header), now);
      var submission := SubmitBlock(rebuilt.value, env.submit);
      return Credited(job, rebuilt.value, submission);
    }

    /** Hands the block to bitcoind, if it is wired, and counts how that went. */
    method SubmitBlock(block: BlockData, submit: Option<BlockData -> Result<string, ()>>) returns (submission: Submission)
      modifies this`blocksSubmitted, this`blocksSubmitFailed
      ensures submission == SubmissionOf(submit, block)
      ensures submission == NotSubmitted <==> submit.None?
      ensures submission == SubmitAccepted <==> submit.Some? && submit.value(block) == Ok("null")
      ensures submission == SubmitRefused <==> submit.Some? && submit.value(block).Ok? && submit.value(block).value != "null"
      ensures submission == SubmitFailed <==> submit.Some? && submit.value(block).Err?
      ensures blocksSubmitted == old(blocksSubmitted) + if submission != NotSubmitted then 1 else 0
      ensures blocksSubmitFailed == old(blocksSubmitFailed) + if submission in {SubmitRefused, SubmitFailed} then 1 else 0
    {
      submission := SubmissionOf(submit, block);
      if submit.None? {
        return;
      }
      blocksSubmitted := blocksSubmitted + 1;
      if submission != SubmitAccepted {
        blocksSubmitFailed := blocksSubmitFailed + 1;
      }
    }

    /** Drops the jobs whose captured tip the walk from the new tip does not meet; all, if it breaks. */
    method DropStrandedJobs(chain: HeaderMap, newTip: Hash) returns (dropped: nat)
      modifies declaredJobs
      ensures declaredJobs.inner
        == if WalkBreaks(chain, newTip) then map[] else Survivors(old(declaredJobs.inner), chain, newTip)
      ensures dropped == |old(declaredJobs.inner)| - |declaredJobs.inner|
    {
      hide OnAncestry, WalkBreaks;
      var ancestors := WalkAncestors(chain, newTip);
      if ancestors.None? {
        dropped := declaredJobs.InvalidateAll();
      } else {
        var seen := ancestors.value;
        dropped := declaredJobs.Retain(
          (job: DeclaredJob) => job.shareChainTip.Some? && job.shareChainTip.value in seen);
        assert declaredJobs.inner == Survivors(old(declaredJobs.inner), chain, newTip);
      }
    }

    method NotifyShareChainReorg(chain: Option<HeaderMap>, newTip: Hash)
      requires Valid()
      modifies this, declaredJobs
      ensures Valid()
      ensures State() == ReorgStep(old(State()), chain, newTip)
    {
      hide Inv, WalkBreaks, Survivors;
      StepKeepsInv(cfg, State(), Reorg(chain, newTip));
      var dropped;
      if chain.None? {
        dropped := declaredJobs.InvalidateAll();
      } else {
        dropped := DropStrandedJobs(chain.value, newTip);
      }
      jobsInvalidatedTotal := jobsInvalidatedTotal + dropped;
      history := history + [Invalidated(dropped)];
    }

    /** What the reorg watcher does for each event it receives. */
    method FlushDeclaredJobs()
      requires Valid()
      modifies this, declaredJobs
      ensures Valid()
      ensures State() == WithJobs(old(State()), map[])
    {
      hide Inv;
      StepKeepsInv(cfg, State(), WatcherFlush);
      var dropped := declaredJobs.InvalidateAll();
      jobsInvalidatedTotal := jobsInvalidatedTotal + dropped;
      history := history + [Invalidated(dropped)];
    }

    method HandleAllocateMiningJobToken(token: u64, user: string, budget: nat) returns (output: Option<TxOut>)
      requires Valid()
      modifies this
      ensures Valid()
      ensures (State(), output) == AllocateStep(cfg, old(State()), token, user, budget)
    {
      hide Inv, EncodeOut;
      StepKeepsInv(cfg, State(), Allocate(token, user, budget));
      var normalized := cfg.normalize(user);
      if normalized == "" {
        return None;
      }
      var script := cfg.resolve(normalized);
      if script.None? {
        return None;
      }
      if normalized in userIdentifierIndex {
        if userIdentifierIndex[normalized] != token {
          return None;
        }
      }
      var candidate := TxOut(0, script.value);
      if |EncodeOut(candidate)| > budget {
        return None;
      }
      tokenPayout := tokenPayout[token := script.value];
      userIdentifierIndex := userIdentifierIndex[normalized := token];
      return Some(candidate);
    }

    method OnAllocatedEvicted(token: u64)
      requires Valid()
      modifies this
      ensures Valid()
      ensures State() == DropTokenPayout(old(State()), token)
    {
      hide Inv;
      StepKeepsInv(cfg, State(), EvictAllocated(token));
      if token in tokenPayout {
        tokenPayout := tokenPayout - {token};
        userIdentifierIndex := map u | u in userIdentifierIndex && userIdentifierIndex[u] != token :: userIdentifierIndex[u];
      }
    }

    method OnActiveEvicted(activeToken: u64, allocatedToken: u64)
      requires Valid()
      modifies this
      ensures Valid()
      ensures State() == DropTokenPayout(old(State()), allocatedToken)
    {
      OnAllocatedEvicted(allocatedToken);
    }
  }
}
