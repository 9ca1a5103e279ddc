/**
 * What the handlers' transitions mean, field by field and case by case, in terms of the messages
 * and maps alone (crates/sv2-p2pool-engine/src/engine_impl.rs).
 */
module EngineMeaning {
  import opened Primitives
  import opened TxCodec
  import opened Coinbase
  import opened Merkle
  import opened Block
  import opened JobCache
  import opened ShareChain
  import opened EngineModel
  import opened EngineRuns

  // ------------------------------------------------------------------
  // DeclareMiningJob
  // ------------------------------------------------------------------

  /** A token is eight bytes, the lowest first. */
  lemma DecodeTokenIff(b: Bytes, token: u64)
    ensures DecodeToken(b) == Some(token) <==> |b| == 8 && b == LittleEndian(token, 8)
    ensures DecodeToken(b).None? <==> |b| != 8
  {
    Pow256Values();
    LittleEndianDecodes(token, 8);
    if |b| == 8 { LittleEndianEncodes(b); }
  }

  /** The provided transactions are decoded one by one, in order ... */
  lemma {:induction false} DecodedOfAppend(a: seq<Bytes>, b: seq<Bytes>)
    ensures DecodedOf(a + b) == DecodedOf(a) + DecodedOf(b)
  {
    hide Decode;
    if b == [] {
      assert a + b == a;
    } else {
      assert Init(a + b) == a + Init(b);
      DecodedOfAppend(a, Init(b));
    }
  }

  /** ... and one that does not decode is dropped. */
  lemma DecodedOfOne(body: Bytes)
    ensures DecodedOf([body]) == match Decode(body) case Some(tx) => [tx] case None => []
  {
    hide Decode;
    assert Init([body]) == [] && Last([body]) == body;
  }

  /** When each answer is given: the checks in their order, and nothing else. */
  lemma DeclareVerdictMeaning(m: DeclareMiningJob, provided: Option<seq<Bytes>>)
    ensures var r, v := Rebuild(m.prefix, m.suffix), DeclareVerdict(m, provided);
      var sound := |m.miningJobToken| == 8 && r.Ok?;
      && (v == DeclareRejected(InvalidMiningJobToken) <==> |m.miningJobToken| != 8)
      && (v == DeclareRejected(InvalidCoinbaseTxInput) <==> sound && |r.value.inputs| != 1)
      && (v == DeclareRejected(InvalidCoinbaseTx) <==>
            || (|m.miningJobToken| == 8 && r.Err?)
            || (sound && |r.value.inputs| == 1 && provided.None? && m.wtxids == []))
      && (v == MissingTransactions(m.wtxids) <==>
            sound && |r.value.inputs| == 1 && provided.None? && m.wtxids != [])
      && (v.MissingTransactions? ==> v.wtxids == m.wtxids)
      && (v == DeclareSuccess <==> sound && |r.value.inputs| == 1 && provided.Some?)
  {
    hide Rebuild;
  }

  /** A job as cached: the message's own fields, the given transactions' ids, and the tips read. */
  predicate IsSnapshot(cfg: Config, m: DeclareMiningJob, txs: seq<Tx>, env: DeclareEnv, job: DeclaredJob) {
    && job.version == m.version && job.prefix == m.prefix && job.suffix == m.suffix && job.wtxids == m.wtxids
    && job.validated
    && job.txids.Some? && |job.txids.value| == |txs|
    && (forall i :: 0 <= i < |txs| ==> job.txids.value[i] == Txid(cfg.sha, txs[i]))
    && job.tip == (if env.tdp.Some? && env.tdp.value.tip.Some? then env.tdp.value.tip.value else TipMetadata(ZERO_HASH, 0, 0))
    && (job.templateId.Some? <==> env.tdp.Some? && env.tdp.value.templateId.Some?)
    && (job.templateId.Some? ==> job.templateId == env.tdp.value.templateId)
    && (job.shareChainTip.Some? <==> env.chainTip.Some? && env.chainTip.value.Ok? && env.chainTip.value.value.Some?)
    && (job.shareChainTip.Some? ==> env.chainTip == Some(Ok(job.shareChainTip)))
  }

  /**
   * A success caches such a job under the request id, points the token there and counts one
   * acceptance; any other answer changes nothing.
   */
  lemma DeclareStepMeaning(cfg: Config, s: EngineState, m: DeclareMiningJob, provided: Option<seq<Bytes>>, env: DeclareEnv)
    ensures var (s', r) := DeclareStep(cfg, s, m, provided, env);
      && r == DeclareVerdict(m, provided)
      && (r != DeclareSuccess ==> s' == s)
      && (r == DeclareSuccess ==>
            && provided.Some? && m.requestId in s'.jobs && DecodeToken(m.miningJobToken).Some?
            && var job, token := s'.jobs[m.requestId], DecodeToken(m.miningJobToken).value;
            && IsSnapshot(cfg, m, DecodedOf(provided.value), env, job)
            && job.allocatedToken == Some(token)
            && s'.jobs == s.jobs[m.requestId := job]
            && s'.tokens == s.tokens[token := m.requestId]
            && s'.declareAccepted == s.declareAccepted + 1
            && s' == s.(jobs := s'.jobs, tokens := s'.tokens, declareAccepted := s'.declareAccepted, history := s'.history))
  {
    hide Rebuild, DecodedOf, DecodeToken, Txid;
  }

  // ------------------------------------------------------------------
  // SetCustomMiningJob
  // ------------------------------------------------------------------

  /**
   * The verdict on a well-formed job names the first thing that differs: tip hash and bits (only
   * if a tip was captured), version, then the coinbase's version, scriptSig start, sequence,
   * outputs and lock time, then the merkle path.
   */
  lemma VerdictNamesFirstDifference(cfg: Config, job: DeclaredJob, m: SetCustomMiningJob)
    requires WellFormedJob(job)
    ensures var tx, v := Rebuild(job.prefix, job.suffix).value, StructuralVerdict(cfg, job, m);
      var captured := job.tip.prevHash != ZERO_HASH || job.tip.nbits != 0;
      var tip := captured ==> m.prevHash == job.tip.prevHash && m.nbits == job.tip.nbits;
      var version := tip && m.version == job.version;
      var txVersion := version && tx.version % TWO_32 == m.coinbaseTxVersion;
      var start := txVersion && m.coinbasePrefix <= tx.inputs[0].scriptSig;
      var sequence := start && m.coinbaseTxInputNSequence == tx.inputs[0].sequence;
      var outputs := sequence && m.coinbaseTxOutputs == EncodeVec(EncodeOut, tx.outputs);
      var lockTime := outputs && m.coinbaseTxLocktime == tx.lockTime;
      && (v == CustomRejected(StaleChainTip) <==> captured && m.prevHash != job.tip.prevHash)
      && (v == CustomRejected(InvalidNbits) <==> captured && m.prevHash == job.tip.prevHash && m.nbits != job.tip.nbits)
      && (v == CustomRejected(InvalidVersion) <==> tip && !version)
      && (v == CustomRejected(InvalidCoinbaseTxVersion) <==> version && !txVersion)
      && (v == CustomRejected(InvalidCoinbasePrefix) <==> txVersion && !start)
      && (v == CustomRejected(InvalidCoinbaseTxInputNSequence) <==> start && !sequence)
      && (v == CustomRejected(InvalidCoinbaseTxOutputs) <==> sequence && !outputs)
      && (v == CustomRejected(InvalidCoinbaseTxLocktime) <==> outputs && !lockTime)
      && (v == CustomRejected(InvalidMerklePath) <==>
            lockTime && m.merklePath != Path(cfg.sha, [Txid(cfg.sha, tx)] + job.txids.value))
      && (v == CustomSuccess <==>
            lockTime && m.merklePath == Path(cfg.sha, [Txid(cfg.sha, tx)] + job.txids.value))
  {
    hide Rebuild, EncodeVec, Path, Txid, CoinbaseVerdict;
    CoinbaseVerdictNames(Rebuild(job.prefix, job.suffix).value, m);
  }

  lemma CoinbaseVerdictNames(tx: Tx, m: SetCustomMiningJob)
    requires OneInput(tx)
    ensures var v := CoinbaseVerdict(tx, m);
      var txVersion := tx.version % TWO_32 == m.coinbaseTxVersion;
      var start := txVersion && m.coinbasePrefix <= tx.inputs[0].scriptSig;
      var sequence := start && m.coinbaseTxInputNSequence == tx.inputs[0].sequence;
      var outputs := sequence && m.coinbaseTxOutputs == EncodeVec(EncodeOut, tx.outputs);
      var lockTime := outputs && m.coinbaseTxLocktime == tx.lockTime;
      v == if !txVersion then CustomRejected(InvalidCoinbaseTxVersion)
           else if !start then CustomRejected(InvalidCoinbasePrefix)
           else if !sequence then CustomRejected(InvalidCoinbaseTxInputNSequence)
           else if !outputs then CustomRejected(InvalidCoinbaseTxOutputs)
           else if !lockTime then CustomRejected(InvalidCoinbaseTxLocktime)
           else CustomSuccess
  {
    hide EncodeVec;
    SameVersion(tx.version, m.coinbaseTxVersion);
  }

  lemma SameVersion(v: i32, x: u32)
    ensures v == AsI32(x) <==> v % TWO_32 == x
  {
  }

  /** A job declared with a tip in force is accepted only for that tip; without one, no tip is refused. */
  lemma AcceptedOnlyForCapturedTip(cfg: Config, job: DeclaredJob, m: SetCustomMiningJob)
    requires WellFormedJob(job)
    ensures StructuralVerdict(cfg, job, m) == CustomSuccess
      && (job.tip.prevHash != ZERO_HASH || job.tip.nbits != 0)
      ==> m.prevHash == job.tip.prevHash && m.nbits == job.tip.nbits
    ensures job.tip.prevHash == ZERO_HASH && job.tip.nbits == 0
      ==> StructuralVerdict(cfg, job, m) !in {CustomRejected(StaleChainTip), CustomRejected(InvalidNbits)}
  {
    hide StructuralVerdict, WellFormedJob;
    VerdictNamesFirstDifference(cfg, job, m);
  }

  /**
   * An unknown token changes nothing; a known one is gone afterwards, and so is the job it
   * resolved to, whatever the verdict; an acceptance is counted on success only.
   */
  lemma CustomStepMeaning(cfg: Config, s: EngineState, m: SetCustomMiningJob, token: u64, env: CustomEnv)
    ensures var (s', r) := CustomStep(cfg, s, m, token, env);
      && (token !in s.tokens ==> s' == s && r == CustomRejected(CustomInvalidToken))
      && (token in s.tokens ==>
            var id := s.tokens[token];
            && s'.tokens.Keys == s.tokens.Keys - {token} && (forall t :: t in s'.tokens ==> s'.tokens[t] == s.tokens[t])
            && s'.jobs.Keys == s.jobs.Keys - {id} && (forall r :: r in s'.jobs ==> s'.jobs[r] == s.jobs[r])
            && (id !in s.jobs ==> r == CustomRejected(CustomInvalidToken))
            && (id in s.jobs ==>
                  r == (if StructuralVerdict(cfg, s.jobs[id], m) == CustomSuccess then ProposalVerdict(cfg, s.jobs[id], m, env)
                        else StructuralVerdict(cfg, s.jobs[id], m)))
            && s'.customAccepted == s.customAccepted + (if id in s.jobs && r == CustomSuccess then 1 else 0)
            && s' == s.(jobs := s'.jobs, tokens := s'.tokens, customAccepted := s'.customAccepted, history := s'.history))
  {
    hide StructuralVerdict, ProposalVerdict;
  }

  // ------------------------------------------------------------------
  // Reorgs and payout bindings
  // ------------------------------------------------------------------

  /** Without a chain to walk nothing stays cached, and everything is counted. */
  lemma ReorgWithoutChainFlushes(s: EngineState, newTip: Hash)
    ensures var s' := ReorgStep(s, None, newTip);
      && s'.jobs == map[] && s'.jobsInvalidated == s.jobsInvalidated + |s.jobs|
      && s' == s.(jobs := map[], jobsInvalidated := s'.jobsInvalidated, history := s'.history)
  {
  }

  /**
   * An output is returned exactly when the normalised name is not empty, resolves to a script,
   * is not bound to another token, and the output fits the budget: then it is that script with
   * no value, and both maps bind it. Otherwise nothing changes.
   */
  lemma AllocateStepMeaning(cfg: Config, s: EngineState, token: u64, user: string, budget: nat)
    ensures var (s', r) := AllocateStep(cfg, s, token, user, budget);
      var name := cfg.normalize(user);
      && (r.Some? <==>
            && name != "" && cfg.resolve(name).Some?
            && (name in s.users ==> s.users[name] == token)
            && var script := cfg.resolve(name).value;
            8 + |EncodeSize(|script|)| + |script| <= budget)
      && (r.Some? ==>
            var script := cfg.resolve(name).value;
            && r.value.value == 0 && r.value.scriptPubkey == script
            && s' == s.(payout := s.payout[token := script], users := s.users[name := token]))
      && (r.None? ==> s' == s)
  {
    hide EncodeSize, LittleEndian;
    if cfg.resolve(cfg.normalize(user)).Some? {
      var script := cfg.resolve(cfg.normalize(user)).value;
      assert |EncodeOut(TxOut(0, script))| == 8 + |EncodeSize(|script|)| + |script|;
    }
  }
}
