/**
 * The two computations the pool relies on to agree: the merkle path and coinbase fields it
 * accepts in a SetCustomMiningJob, checked against a zero-filled coinbase, and the block it
 * later rebuilds from a real extranonce (crates/sv2-p2pool-engine/src/engine_impl.rs,
 * crates/sv2-p2pool-engine/src/block.rs, crates/sv2-p2pool-engine/src/coinbase.rs).
 */
module EndToEnd {
  import opened Primitives
  import opened TxCodec
  import opened Coinbase
  import opened Merkle
  import opened Block
  import opened EngineModel
  import opened EngineRuns

  /**
   * Once a job's SetCustomMiningJob has been accepted, every block rebuilt from that job has the
   * root a miner gets by folding the accepted merkle path from that block's own coinbase.
   */
  lemma AcceptedPathGivesBlockRoot(
      cfg: Config, job: DeclaredJob, m: SetCustomMiningJob, p: PushSolution, bodies: seq<Tx>, block: BlockData)
    requires StructuralVerdict(cfg, job, m) == CustomSuccess
    requires BlockFor(cfg.sha, job, p, bodies) == Ok(block)
    ensures block.txdata != [] && block.txdata[1..] == bodies
    ensures block.header.merkleRoot == Fold(cfg.sha, Txid(cfg.sha, block.txdata[0]), m.merklePath)
    ensures block.header.merkleRoot == Root(cfg.sha, Txids(cfg.sha, block.txdata))
  {
    BlockIsHeaderPlusCheckedBodies(cfg.sha, job, p, bodies);
    hide Root, Fold, Path, Txid, Txids, BodyFault, Rebuild, RebuildWith, CoinbaseVerdict;
    var declared := Rebuild(job.prefix, job.suffix).value;
    PathServesEveryCoinbase(cfg.sha, Txid(cfg.sha, declared), Txid(cfg.sha, block.txdata[0]), job.txids.value);
  }

  /**
   * What a miner must send for a job cut from the coinbase `tx`: the declared tip and version,
   * the coinbase's own fields, a scriptSig prefix of the zero-filled coinbase, and the branch
   * computed with any coinbase txid at all.
   */
  ghost predicate Honest(cfg: Config, job: DeclaredJob, m: SetCustomMiningJob, tx: Tx, k: nat, leaf: Hash)
    requires OneInput(tx) && k <= |ScriptSig(tx)| && job.txids.Some?
  {
    && (job.tip.prevHash != ZERO_HASH || job.tip.nbits != 0 ==> m.prevHash == job.tip.prevHash && m.nbits == job.tip.nbits)
    && m.version == job.version
    && Describes(m, tx)
    && m.coinbasePrefix <= ScriptSig(tx)[..|ScriptSig(tx)| - k] + Zeros(k)
    && m.merklePath == Path(cfg.sha, [leaf] + job.txids.value)
  }

  /** The checks in one formula, for a rebuilt coinbase with one input. */
  lemma SuccessMeans(cfg: Config, job: DeclaredJob, m: SetCustomMiningJob, declared: Tx)
    requires job.validated && job.txids.Some? && Rebuild(job.prefix, job.suffix) == Ok(declared) && OneInput(declared)
    ensures StructuralVerdict(cfg, job, m) == CustomSuccess <==>
      && (job.tip.prevHash != ZERO_HASH || job.tip.nbits != 0 ==> m.prevHash == job.tip.prevHash && m.nbits == job.tip.nbits)
      && m.version == job.version
      && Describes(m, declared)
      && m.coinbasePrefix <= ScriptSig(declared)
      && m.merklePath == Path(cfg.sha, [Txid(cfg.sha, declared)] + job.txids.value)
  {
    hide Rebuild, Path, Txid, EncodeVec;
  }

  lemma ZeroFilledDescription(m: SetCustomMiningJob, tx: Tx, k: nat)
    requires OneInput(tx) && k <= |ScriptSig(tx)|
    ensures ScriptSig(WithExtranonce(tx, Zeros(k))) == ScriptSig(tx)[..|ScriptSig(tx)| - k] + Zeros(k)
    ensures Describes(m, WithExtranonce(tx, Zeros(k))) <==> Describes(m, tx)
  {
    hide EncodeVec;
  }

  /** A job declared by cutting a one-input witness coinbase is accepted exactly for honest messages. */
  lemma AcceptedIffHonest(cfg: Config, job: DeclaredJob, m: SetCustomMiningJob, tx: Tx, k: nat, leaf: Hash)
    requires OneInput(tx) && UsesSegwit(tx) && k <= |ScriptSig(tx)|
    requires job.prefix == PrefixOf(tx, k) && job.suffix == Tail(tx) && job.validated && job.txids.Some?
    ensures StructuralVerdict(cfg, job, m) == CustomSuccess <==> Honest(cfg, job, m, tx, k, leaf)
  {
    hide StructuralVerdict, Rebuild, RebuildWith, HoleSize, PrefixOf, Tail, UsesSegwit, Path, Txid,
      Describes, WithExtranonce;
    SplitThenRebuild(tx, k, Zeros(k));
    RebuildIsAllZeros(job.prefix, job.suffix);
    var declared := WithExtranonce(tx, Zeros(k));
    SuccessMeans(cfg, job, m, declared);
    ZeroFilledDescription(m, tx, k);
    PathIgnoresFirstLeaf(cfg.sha, [Txid(cfg.sha, declared)] + job.txids.value, [leaf] + job.txids.value);
  }

  /** The fields of `m` that describe the coinbase, except the scriptSig prefix, are those of `tx`. */
  predicate Describes(m: SetCustomMiningJob, tx: Tx) {
    && OneInput(tx)
    && tx.version == AsI32(m.coinbaseTxVersion)
    && tx.inputs[0].sequence == m.coinbaseTxInputNSequence
    && EncodeVec(EncodeOut, tx.outputs) == m.coinbaseTxOutputs
    && tx.lockTime == m.coinbaseTxLocktime
  }

  lemma AcceptedCoinbaseIsDescribed(cfg: Config, job: DeclaredJob, m: SetCustomMiningJob)
    requires WellFormedJob(job) && StructuralVerdict(cfg, job, m) == CustomSuccess
    ensures Describes(m, Rebuild(job.prefix, job.suffix).value)
    ensures m.coinbasePrefix <= ScriptSig(Rebuild(job.prefix, job.suffix).value)
  {
    hide Rebuild, Path, Txid, EncodeVec;
  }

  lemma DescriptionIgnoresScript(m: SetCustomMiningJob, tx: Tx, s: Script)
    requires Describes(m, tx)
    ensures Describes(m, WithScript(tx, s))
  {
    hide EncodeVec;
  }

  /**
   * In segwit layout, for every extranonce that fills the hole and every list of bodies: a
   * block is rebuilt exactly when the bodies hash to the declared txids, and then its coinbase
   * is the one the accepted message describes, with the declared scriptSig start followed by
   * the extranonce.
   */
  lemma AcceptedJobDescribesRealCoinbase(
      cfg: Config, job: DeclaredJob, m: SetCustomMiningJob, p: PushSolution, bodies: seq<Tx>)
    requires WellFormedJob(job) && StructuralVerdict(cfg, job, m) == CustomSuccess
    requires SegwitLayout(job.prefix) && HoleSize(job.prefix) == Ok(|p.extranonce|)
    ensures BlockFor(cfg.sha, job, p, bodies).Ok? <==> Txids(cfg.sha, bodies) == job.txids.value
    ensures BlockFor(cfg.sha, job, p, bodies).Ok? ==>
      var txs := BlockFor(cfg.sha, job, p, bodies).value.txdata;
      && txs != [] && Describes(m, txs[0])
      && ScriptSig(txs[0]) == FixedScript(job.prefix) + p.extranonce
  {
    BlockIsHeaderPlusCheckedBodies(cfg.sha, job, p, bodies);
    AcceptedCoinbaseIsDescribed(cfg, job, m);
    var declared := Rebuild(job.prefix, job.suffix).value;
    SegwitHoleIsScriptTail(job.prefix, job.suffix, declared, p.extranonce);
    DescriptionIgnoresScript(m, declared, FixedScript(job.prefix) + p.extranonce);
    hide Root, Fold, Path, Txid, Txids, BodyFault, Rebuild, RebuildWith, StructuralVerdict, FixedScript, Describes, HoleSize,
      SegwitLayout;
  }

  /** The coinbase with this extranonce rebuilds, and its scriptSig starts as accepted. */
  predicate KeepsPrefix(job: DeclaredJob, m: SetCustomMiningJob, e: Bytes) {
    var r := RebuildWith(job.prefix, e, job.suffix);
    r.Ok? && OneInput(r.value) && m.coinbasePrefix <= ScriptSig(r.value)
  }

  /**
   * It does not always: any honest message that claims a prefix reaching into the hole, up to
   * the whole zero-filled scriptSig, is accepted, and the all-ones extranonce breaks the claim.
   */
  lemma PrefixIntoHoleBreaks(cfg: Config, job: DeclaredJob, m: SetCustomMiningJob, tx: Tx, k: nat, leaf: Hash)
    requires OneInput(tx) && UsesSegwit(tx) && k <= |ScriptSig(tx)|
    requires job.prefix == PrefixOf(tx, k) && job.suffix == Tail(tx) && job.validated && job.txids.Some?
    requires Honest(cfg, job, m, tx, k, leaf) && |m.coinbasePrefix| > |ScriptSig(tx)| - k
    ensures StructuralVerdict(cfg, job, m) == CustomSuccess
    ensures RebuildWith(job.prefix, seq(k, _ => 1), job.suffix).Ok? && !KeepsPrefix(job, m, seq(k, _ => 1))
  {
    AcceptedIffHonest(cfg, job, m, tx, k, leaf);
    hide StructuralVerdict, Rebuild, RebuildWith, HoleSize, PrefixOf, Tail, UsesSegwit, Path, Describes;
    var ones: Bytes := seq(k, _ => 1);
    SplitThenRebuild(tx, k, ones);
    var start, prefix := ScriptSig(tx)[..|ScriptSig(tx)| - k], m.coinbasePrefix;
    assert prefix[|start|] == (start + Zeros(k))[|start|] == 0;
    assert |prefix| <= |start + ones| && (start + ones)[..|prefix|][|start|] == 1;
  }

  /** And there is such a message for every job cut from a coinbase with a hole. */
  lemma PrefixIntoHoleExists(cfg: Config, job: DeclaredJob, tx: Tx, k: nat) returns (m: SetCustomMiningJob)
    requires OneInput(tx) && UsesSegwit(tx) && 0 < k <= |ScriptSig(tx)|
    requires job.prefix == PrefixOf(tx, k) && job.suffix == Tail(tx) && job.validated && job.txids.Some?
    ensures StructuralVerdict(cfg, job, m) == CustomSuccess
    ensures !KeepsPrefix(job, m, seq(k, _ => 1))
  {
    hide StructuralVerdict, KeepsPrefix, PrefixOf, Tail, UsesSegwit, Path, EncodeVec;
    m := SetCustomMiningJob(
      job.version, job.tip.prevHash, 0, job.tip.nbits, AsU32(tx.version),
      ScriptSig(tx)[..|ScriptSig(tx)| - k] + Zeros(k), tx.inputs[0].sequence, EncodeVec(EncodeOut, tx.outputs),
      tx.lockTime, Path(cfg.sha, [ZERO_HASH] + job.txids.value));
    assert Honest(cfg, job, m, tx, k, ZERO_HASH);
    PrefixIntoHoleBreaks(cfg, job, m, tx, k, ZERO_HASH);
  }

  /** No byte of the hole lies in the part of the scriptSig that the message claims. */
  ghost predicate ClaimAvoidsHole(tx: Tx, m: SetCustomMiningJob, prefix: Bytes, k: nat)
    requires OneInput(tx)
  {
    forall p :: |prefix| <= p < |prefix| + k ==> !InClaim(tx, m, p)
  }

  predicate InClaim(tx: Tx, m: SetCustomMiningJob, p: int)
    requires OneInput(tx)
  {
    ScriptStart(tx) <= p < ScriptStart(tx) + |m.coinbasePrefix|
  }

  /** A script slot of two byte strings that differ only where the hole is. */
  lemma SlotKeepsPrefix(b0: Bytes, b: Bytes, start: nat, size: nat, claim: Bytes)
    requires |b0| == |b| && start + size <= |b| && claim <= b0[start..start + size]
    ensures claim <= b[start..start + size]
      <==> forall p :: start <= p < start + |claim| ==> b[p] == b0[p]
  {
    forall q | 0 <= q < |claim| ensures claim[q] == b0[start + q] {
      assert b0[start..start + size][..|claim|][q] == b0[start + q];
    }
    if forall p :: start <= p < start + |claim| ==> b[p] == b0[p] {
      assert b[start..start + size][..|claim|] == claim;
    }
    if claim <= b[start..start + size] {
      forall p | start <= p < start + |claim| ensures b[p] == b0[p] {
        assert b[start..start + size][..|claim|][p - start] == claim[p - start];
      }
    }
  }

  /** The zero-filled bytes hold the decoded scriptSig where its slot is. */
  lemma ZeroFilledSlot(prefix: Bytes, suffix: Bytes, tx: Tx, k: nat)
    requires HoleSize(prefix) == Ok(k) && Rebuild(prefix, suffix) == Ok(tx) && OneInput(tx)
    ensures var b0 := prefix + Zeros(k) + suffix;
      ScriptStart(tx) + |ScriptSig(tx)| <= |b0| && ScriptIn(tx, b0) == ScriptSig(tx)
  {
    hide EncodeTx, Head, Tail, EncodeSize, ParseTx, HoleSize;
    DecodedMeansSpelled(prefix + Zeros(k) + suffix, tx);
    OneInputLayout(tx);
  }

  /** The bytes under the claim are the same with this extranonce as with zeros. */
  ghost predicate ClaimUntouched(job: DeclaredJob, m: SetCustomMiningJob, tx: Tx, e: Bytes)
    requires OneInput(tx) && ScriptStart(tx) + |m.coinbasePrefix| <= |job.prefix + e + job.suffix|
  {
    forall p :: InClaim(tx, m, p) ==> (job.prefix + e + job.suffix)[p] == (job.prefix + Zeros(|e|) + job.suffix)[p]
  }

  /** With one extranonce in a hole that avoids other fields: when the claimed prefix survives. */
  lemma ClaimSurvives(job: DeclaredJob, m: SetCustomMiningJob, tx: Tx, e: Bytes)
    requires HoleSize(job.prefix) == Ok(|e|) && Rebuild(job.prefix, job.suffix) == Ok(tx) && OneInput(tx)
    requires HoleAvoidsOtherFields(tx, job.prefix, |e|) && m.coinbasePrefix <= ScriptSig(tx)
    ensures ScriptStart(tx) + |m.coinbasePrefix| <= |job.prefix + e + job.suffix|
    ensures KeepsPrefix(job, m, e) <==> ClaimUntouched(job, m, tx, e)
  {
    HarmlessHole(job.prefix, job.suffix, tx, e);
    ZeroFilledSlot(job.prefix, job.suffix, tx, |e|);
    hide HoleSize, Rebuild, RebuildWith, HoleAvoidsOtherFields, ScriptStart;
    SlotKeepsPrefix(
      job.prefix + Zeros(|e|) + job.suffix, job.prefix + e + job.suffix, ScriptStart(tx), |ScriptSig(tx)|, m.coinbasePrefix);
  }

  lemma UntouchedIff(job: DeclaredJob, m: SetCustomMiningJob, tx: Tx, k: nat)
    requires OneInput(tx) && ScriptStart(tx) + |m.coinbasePrefix| <= |job.prefix| + k + |job.suffix|
    ensures ClaimAvoidsHole(tx, m, job.prefix, k) ==> forall e: Bytes :: |e| == k ==> ClaimUntouched(job, m, tx, e)
    ensures ClaimUntouched(job, m, tx, seq(k, _ => 1)) ==> ClaimAvoidsHole(tx, m, job.prefix, k)
  {
    hide ScriptStart;
    var b0, b := job.prefix + Zeros(k) + job.suffix, job.prefix + seq(k, _ => 1) + job.suffix;
    assert forall p :: |job.prefix| <= p < |job.prefix| + k ==> b0[p] == 0 && b[p] == 1;
  }

  /**
   * In any layout, for a hole that avoids other fields: the accepted scriptSig prefix, which was
   * checked against zeros, holds of every real coinbase if and only if the hole avoids it too.
   */
  lemma AcceptedPrefixCarriesOverIff(cfg: Config, job: DeclaredJob, m: SetCustomMiningJob, tx: Tx, k: nat)
    requires WellFormedJob(job) && StructuralVerdict(cfg, job, m) == CustomSuccess
    requires HoleSize(job.prefix) == Ok(k) && Rebuild(job.prefix, job.suffix) == Ok(tx)
    requires HoleAvoidsOtherFields(tx, job.prefix, k)
    ensures (forall e: Bytes :: |e| == k ==> KeepsPrefix(job, m, e)) <==> ClaimAvoidsHole(tx, m, job.prefix, k)
  {
    AcceptedCoinbaseIsDescribed(cfg, job, m);
    DescribedHasOneInput(m, tx);
    hide StructuralVerdict, Rebuild, HoleSize, WellFormedJob, Describes, KeepsPrefix, HoleAvoidsOtherFields,
      ClaimUntouched, ClaimAvoidsHole, ScriptStart;
    forall e: Bytes | |e| == k
      ensures ScriptStart(tx) + |m.coinbasePrefix| <= |job.prefix + e + job.suffix|
      ensures KeepsPrefix(job, m, e) <==> ClaimUntouched(job, m, tx, e)
    {
      ClaimSurvives(job, m, tx, e);
    }
    var ones: Bytes := seq(k, _ => 1);
    assert |ones| == k && |job.prefix + ones + job.suffix| == |job.prefix| + k + |job.suffix|;
    UntouchedIff(job, m, tx, k);
    assert KeepsPrefix(job, m, ones) <==> ClaimUntouched(job, m, tx, ones);
  }

  lemma DescribedHasOneInput(m: SetCustomMiningJob, tx: Tx)
    requires Describes(m, tx)
    ensures OneInput(tx)
  {
  }

  /** The coinbase with this extranonce is still the one the message describes, prefix included. */
  predicate StaysAsAccepted(job: DeclaredJob, m: SetCustomMiningJob, tx: Tx, e: Bytes)
    requires OneInput(tx)
  {
    OnlyScriptBytesDiffer(tx, RebuildWith(job.prefix, e, job.suffix)) && KeepsPrefix(job, m, e)
  }

  /**
   * With no condition on the layout at all: every extranonce leaves what was accepted in force,
   * if and only if no byte of the hole lies in another field or in the claimed prefix.
   */
  lemma AcceptedCoinbaseCarriesOverIff(cfg: Config, job: DeclaredJob, m: SetCustomMiningJob, tx: Tx, k: nat)
    requires WellFormedJob(job) && StructuralVerdict(cfg, job, m) == CustomSuccess
    requires HoleSize(job.prefix) == Ok(k) && Rebuild(job.prefix, job.suffix) == Ok(tx)
    ensures OneInput(tx)
    ensures (forall e: Bytes :: |e| == k ==> StaysAsAccepted(job, m, tx, e))
      <==> HoleAvoidsOtherFields(tx, job.prefix, k) && ClaimAvoidsHole(tx, m, job.prefix, k)
  {
    hide StructuralVerdict, Rebuild, RebuildWith, HoleSize, KeepsPrefix, HoleAvoidsOtherFields, OnlyScriptBytesDiffer,
      ClaimAvoidsHole;
    ExtranonceTouchesOnlyScriptSigIff(job.prefix, job.suffix, tx, k);
    if HoleAvoidsOtherFields(tx, job.prefix, k) {
      AcceptedPrefixCarriesOverIff(cfg, job, m, tx, k);
      assert forall e: Bytes :: |e| == k ==>
        (StaysAsAccepted(job, m, tx, e) <==> OnlyScriptBytesDiffer(tx, RebuildWith(job.prefix, e, job.suffix)) && KeepsPrefix(job, m, e));
    } else {
      var e: Bytes :| |e| == k && !OnlyScriptBytesDiffer(tx, RebuildWith(job.prefix, e, job.suffix));
      assert !StaysAsAccepted(job, m, tx, e);
    }
  }

  /** In segwit layout the hole is the scriptSig's end, so the claim must end before it. */
  lemma SegwitPrefixCarriesOverIff(cfg: Config, job: DeclaredJob, m: SetCustomMiningJob, k: nat)
    requires WellFormedJob(job) && StructuralVerdict(cfg, job, m) == CustomSuccess
    requires SegwitLayout(job.prefix) && HoleSize(job.prefix) == Ok(k)
    ensures (forall e: Bytes :: |e| == k ==> KeepsPrefix(job, m, e))
      <==> |m.coinbasePrefix| <= |FixedScript(job.prefix)|
  {
    AcceptedCoinbaseIsDescribed(cfg, job, m);
    var fixedPart, declared := FixedScript(job.prefix), Rebuild(job.prefix, job.suffix).value;
    hide StructuralVerdict, Rebuild, RebuildWith, FixedScript, SegwitLayout, HoleSize, WellFormedJob, Describes;
    assert OneInput(declared) by { DescribedHasOneInput(m, declared); }
    forall e: Bytes | |e| == k
      ensures KeepsPrefix(job, m, e) <==> m.coinbasePrefix <= fixedPart + e
    {
      SegwitHoleIsScriptTail(job.prefix, job.suffix, declared, e);
    }
    SegwitHoleIsScriptTail(job.prefix, job.suffix, declared, Zeros(k));
    PrefixOfEveryFillIff(fixedPart, k, m.coinbasePrefix);
  }

  lemma PrefixOfEveryFillIff(start: Bytes, k: nat, prefix: Bytes)
    requires prefix <= start + Zeros(k)
    ensures (forall e: Bytes :: |e| == k ==> prefix <= start + e) <==> |prefix| <= |start|
  {
    if |prefix| <= |start| {
      assert (start + Zeros(k))[..|prefix|] == start[..|prefix|];
      forall e: Bytes | |e| == k ensures prefix <= start + e {
        assert (start + e)[..|prefix|] == start[..|prefix|];
      }
    } else {
      var ones: Bytes := seq(k, _ => 1);
      assert (start + Zeros(k))[..|prefix|][|start|] == 0;
      assert (start + ones)[..|prefix|][|start|] == 1;
    }
  }

  /**
   * All of it for whole runs: whatever messages came before, if the engine accepts a custom job
   * for a token, then every solution for the job it consumed yields a block whose root is the
   * accepted path folded from that block's coinbase.
   */
  lemma EveryAcceptedJobIsMineable(
      cfg: Config, es: seq<Event>, m: SetCustomMiningJob, token: u64, env: CustomEnv, p: PushSolution, bodies: seq<Tx>)
    requires CustomStep(cfg, Run(cfg, es), m, token, env).1 == CustomSuccess
    ensures var s := Run(cfg, es);
      && token in s.tokens && s.tokens[token] in s.jobs
      && var job := s.jobs[s.tokens[token]];
      && WellFormedJob(job)
      && (BlockFor(cfg.sha, job, p, bodies).Ok? ==>
            var block := BlockFor(cfg.sha, job, p, bodies).value;
            && block.txdata != []
            && block.header.merkleRoot == Fold(cfg.sha, Txid(cfg.sha, block.txdata[0]), m.merklePath))
      && (SegwitLayout(job.prefix) && HoleSize(job.prefix) == Ok(|p.extranonce|) ==>
            (BlockFor(cfg.sha, job, p, bodies).Ok? <==> Txids(cfg.sha, bodies) == job.txids.value))
  {
    EveryRunKeepsInv(cfg, es);
    var s := Run(cfg, es);
    hide Run, StructuralVerdict, ProposalVerdict, BlockFor, Txids, Fold, HoleSize, SegwitLayout;
    assert JobsWellFormed(s);
    var job := s.jobs[s.tokens[token]];
    hide Inv, JobsWellFormed, CustomStep, CustomVerdict;
    assert WellFormedJob(job) && StructuralVerdict(cfg, job, m) == CustomSuccess;
    if BlockFor(cfg.sha, job, p, bodies).Ok? {
      AcceptedPathGivesBlockRoot(cfg, job, m, p, bodies, BlockFor(cfg.sha, job, p, bodies).value);
    }
    if SegwitLayout(job.prefix) && HoleSize(job.prefix) == Ok(|p.extranonce|) {
      AcceptedJobDescribesRealCoinbase(cfg, job, m, p, bodies);
    }
  }
}
