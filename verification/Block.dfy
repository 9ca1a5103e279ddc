/**
 * Declared jobs and the blocks rebuilt from them (crates/sv2-p2pool-engine/src/block.rs,
 * crates/sv2-p2pool-engine/src/lib.rs `DeclaredJob`).
 */
module Block {
  import opened Primitives
  import opened TxCodec
  import opened Coinbase
  import opened Merkle

  datatype TipMetadata = TipMetadata(prevHash: Hash, nbits: u32, minNtime: u32)

  const DEFAULT_TIP: TipMetadata := TipMetadata(ZERO_HASH, 0, 0)

  datatype DeclaredJob = DeclaredJob(
    version: u32,
    prefix: Bytes,
    suffix: Bytes,
    wtxids: seq<Hash>,
    txids: Option<seq<Hash>>,
    tip: TipMetadata,
    templateId: Option<u64>,
    shareChainTip: Option<Hash>,
    validated: bool,
    allocatedToken: Option<u64>)

  datatype PushSolution = PushSolution(
    extranonce: Bytes, prevHash: Hash, ntime: u32, nonce: u32, nbits: u32, version: u32)

  datatype SetCustomMiningJob = SetCustomMiningJob(
    version: u32,
    prevHash: Hash,
    minNtime: u32,
    nbits: u32,
    coinbaseTxVersion: u32,
    coinbasePrefix: Bytes,
    coinbaseTxInputNSequence: u32,
    coinbaseTxOutputs: Bytes,
    coinbaseTxLocktime: u32,
    merklePath: seq<Hash>)

  datatype Header = Header(
    version: i32, prevHash: Hash, merkleRoot: Hash, time: u32, bits: u32, nonce: u32)

  datatype BlockData = BlockData(header: Header, txdata: seq<Tx>)

  datatype BlockError =
    | DeclaredJobNotValidated
    | CoinbaseFailed(cause: CoinbaseError)
    | TxBodyCountMismatch(expected: nat, got: nat)
    | TxBodyTxidMismatch(index: nat, expectedTxid: Hash, gotTxid: Hash)

  function Txids(sha: HashFn, txs: seq<Tx>): (ids: seq<Hash>)
    ensures |ids| == |txs|
  {
    seq(|txs|, i requires 0 <= i < |txs| => Txid(sha, txs[i]))
  }

  function HeaderBytes(h: Header): (b: Bytes)
    ensures |b| == 80
  {
    LittleEndian(AsU32(h.version), 4) + h.prevHash + h.merkleRoot
    + LittleEndian(h.time, 4) + LittleEndian(h.bits, 4) + LittleEndian(h.nonce, 4)
  }

  /** SHA-256d of the header. */
  function BlockHash(sha: HashFn, h: Header): Hash {
    sha(HeaderBytes(h))
  }

  /** The 80 bytes of a header, field by field. */
  predicate SpellsHeader(b: Bytes, h: Header) {
    && |b| == 80
    && AsU32(h.version) == FromLittleEndian(b[..4])
    && b[4..36] == h.prevHash
    && b[36..68] == h.merkleRoot
    && FromLittleEndian(b[68..72]) == h.time
    && FromLittleEndian(b[72..76]) == h.bits
    && FromLittleEndian(b[76..80]) == h.nonce
  }

  lemma HeaderSlices(version: Bytes, prev: Bytes, root: Bytes, time: Bytes, bits: Bytes, nonce: Bytes)
    requires |version| == 4 && |prev| == 32 && |root| == 32 && |time| == 4 && |bits| == 4 && |nonce| == 4
    ensures var b := version + prev + root + time + bits + nonce;
      && |b| == 80 && b[..4] == version && b[4..36] == prev && b[36..68] == root
      && b[68..72] == time && b[72..76] == bits && b[76..80] == nonce
  {
    var b := version + prev + root + time + bits + nonce;
    assert b == version + (prev + root + time + bits + nonce);
    assert b[..72] == version + prev + root + time;
  }

  /** A block's hash is the hash of those bytes, and they are the only ones that spell its header. */
  lemma BlockHashIsOfHeaderBytes(sha: HashFn, h: Header, b: Bytes)
    ensures SpellsHeader(b, h) <==> b == HeaderBytes(h)
    ensures SpellsHeader(b, h) ==> BlockHash(sha, h) == sha(b)
  {
    Pow256Values();
    hide LittleEndian, FromLittleEndian;
    var hb := HeaderBytes(h);
    LittleEndianDecodes(AsU32(h.version), 4);
    LittleEndianDecodes(h.time, 4);
    LittleEndianDecodes(h.bits, 4);
    LittleEndianDecodes(h.nonce, 4);
    HeaderSlices(
      LittleEndian(AsU32(h.version), 4), h.prevHash, h.merkleRoot,
      LittleEndian(h.time, 4), LittleEndian(h.bits, 4), LittleEndian(h.nonce, 4));
    if SpellsHeader(b, h) {
      LittleEndianEncodes(b[..4]);
      LittleEndianEncodes(b[68..72]);
      LittleEndianEncodes(b[72..76]);
      LittleEndianEncodes(b[76..80]);
      assert b == b[..4] + b[4..36] + b[36..68] + b[68..72] + b[72..76] + b[76..80];
    }
  }

  // ------------------------------------------------------------------
  // Bodies against declared txids
  // ------------------------------------------------------------------

  /** What a caller learns from comparing bodies with txids: nothing wrong, or the first fault. */
  ghost predicate BodyVerdict(sha: HashFn, bodies: seq<Tx>, txids: seq<Hash>, fault: Option<BlockError>) {
    match fault
    case None => Txids(sha, bodies) == txids
    case Some(TxBodyCountMismatch(expected, got)) =>
      expected == |txids| && got == |bodies| && expected != got
    case Some(TxBodyTxidMismatch(i, expected, got)) =>
      && |bodies| == |txids| && i < |txids|
      && expected == txids[i] && got == Txid(sha, bodies[i]) && expected != got
      && forall k :: 0 <= k < i ==> Txid(sha, bodies[k]) == txids[k]
    case Some(_) => false
  }

  function FirstMismatch(sha: HashFn, bodies: seq<Tx>, txids: seq<Hash>, i: nat): (fault: Option<BlockError>)
    requires |bodies| == |txids| && i <= |bodies|
    decreases |bodies| - i
  {
    if i == |bodies| then None
    else if Txid(sha, bodies[i]) != txids[i] then Some(TxBodyTxidMismatch(i, txids[i], Txid(sha, bodies[i])))
    else FirstMismatch(sha, bodies, txids, i + 1)
  }

  function BodyFault(sha: HashFn, bodies: seq<Tx>, txids: seq<Hash>): (fault: Option<BlockError>)
  {
    if |bodies| != |txids| then Some(TxBodyCountMismatch(|txids|, |bodies|))
    else FirstMismatch(sha, bodies, txids, 0)
  }

  lemma {:induction false} FirstMismatchIsVerdict(sha: HashFn, bodies: seq<Tx>, txids: seq<Hash>, i: nat)
    requires |bodies| == |txids| && i <= |bodies|
    requires forall k :: 0 <= k < i ==> Txid(sha, bodies[k]) == txids[k]
    ensures BodyVerdict(sha, bodies, txids, FirstMismatch(sha, bodies, txids, i))
    decreases |bodies| - i
  {
    hide Txid;
    if i < |bodies| && Txid(sha, bodies[i]) == txids[i] {
      FirstMismatchIsVerdict(sha, bodies, txids, i + 1);
    }
  }

  lemma BodyFaultIsVerdict(sha: HashFn, bodies: seq<Tx>, txids: seq<Hash>)
    ensures BodyVerdict(sha, bodies, txids, BodyFault(sha, bodies, txids))
  {
    if |bodies| == |txids| { FirstMismatchIsVerdict(sha, bodies, txids, 0); }
  }

  lemma NoFaultIffTxidsMatch(sha: HashFn, bodies: seq<Tx>, txids: seq<Hash>)
    ensures BodyFault(sha, bodies, txids) == None <==> Txids(sha, bodies) == txids
  {
    hide Txid, BodyFault;
    BodyFaultIsVerdict(sha, bodies, txids);
    if Txids(sha, bodies) == txids {
      assert forall k :: 0 <= k < |bodies| ==> Txid(sha, bodies[k]) == txids[k];
    }
  }

  /** The count check and loop of `reconstruct_block` and `build_candidate_block`. */
  method CheckBodies(sha: HashFn, bodies: seq<Tx>, txids: seq<Hash>) returns (fault: Option<BlockError>)
    ensures BodyVerdict(sha, bodies, txids, fault)
    ensures fault == BodyFault(sha, bodies, txids)
  {
    BodyFaultIsVerdict(sha, bodies, txids);
    if |bodies| != |txids| {
      return Some(TxBodyCountMismatch(|txids|, |bodies|));
    }
    for idx := 0 to |bodies|
      invariant FirstMismatch(sha, bodies, txids, idx) == BodyFault(sha, bodies, txids)
    {
      var computed := Txid(sha, bodies[idx]);
      if computed != txids[idx] {
        return Some(TxBodyTxidMismatch(idx, txids[idx], computed));
      }
    }
    return None;
  }

  // ------------------------------------------------------------------
  // Headers and blocks
  // ------------------------------------------------------------------

  function PushHeader(p: PushSolution, root: Hash): Header {
    Header(AsI32(p.version), p.prevHash, root, p.ntime, p.nbits, p.nonce)
  }

  function CandidateHeader(m: SetCustomMiningJob, root: Hash): Header {
    Header(AsI32(m.version), m.prevHash, root, m.minNtime, m.nbits, 0)
  }

  function ReconstructHeader(sha: HashFn, job: DeclaredJob, p: PushSolution): (r: Result<Header, BlockError>) {
    match job.txids
    case None => Err(DeclaredJobNotValidated)
    case Some(txids) =>
      match RebuildWith(job.prefix, p.extranonce, job.suffix)
      case Err(e) => Err(CoinbaseFailed(e))
      case Ok(coinbase) => Ok(PushHeader(p, Root(sha, [Txid(sha, coinbase)] + txids)))
  }

  /** The specification of `reconstruct_block`. */
  function BlockFor(sha: HashFn, job: DeclaredJob, p: PushSolution, bodies: seq<Tx>): (r: Result<BlockData, BlockError>) {
    match job.txids
    case None => Err(DeclaredJobNotValidated)
    case Some(txids) =>
      match BodyFault(sha, bodies, txids)
      case Some(e) => Err(e)
      case None =>
        match RebuildWith(job.prefix, p.extranonce, job.suffix)
        case Err(e) => Err(CoinbaseFailed(e))
        case Ok(coinbase) =>
          Ok(BlockData(PushHeader(p, Root(sha, [Txid(sha, coinbase)] + txids)), [coinbase] + bodies))
  }

  /** The specification of `build_candidate_block`. */
  function CandidateFor(sha: HashFn, job: DeclaredJob, m: SetCustomMiningJob, bodies: seq<Tx>): (r: Result<BlockData, BlockError>) {
    match job.txids
    case None => Err(DeclaredJobNotValidated)
    case Some(txids) =>
      match BodyFault(sha, bodies, txids)
      case Some(e) => Err(e)
      case None =>
        match Rebuild(job.prefix, job.suffix)
        case Err(e) => Err(CoinbaseFailed(e))
        case Ok(coinbase) =>
          Ok(BlockData(CandidateHeader(m, Root(sha, [Txid(sha, coinbase)] + txids)), [coinbase] + bodies))
  }

  /** The header rebuilt from a job and a solution, every field named; or why there is none. */
  lemma HeaderIff(sha: HashFn, job: DeclaredJob, p: PushSolution, h: Header)
    ensures ReconstructHeader(sha, job, p) == Ok(h) <==>
      && job.txids.Some? && RebuildWith(job.prefix, p.extranonce, job.suffix).Ok?
      && var coinbase := RebuildWith(job.prefix, p.extranonce, job.suffix).value;
      h == Header(AsI32(p.version), p.prevHash, Root(sha, [Txid(sha, coinbase)] + job.txids.value), p.ntime, p.nbits, p.nonce)
    ensures job.txids.None? ==> ReconstructHeader(sha, job, p) == Err(DeclaredJobNotValidated)
    ensures job.txids.Some? && RebuildWith(job.prefix, p.extranonce, job.suffix).Err? ==>
      ReconstructHeader(sha, job, p) == Err(CoinbaseFailed(RebuildWith(job.prefix, p.extranonce, job.suffix).error))
  {
    hide RebuildWith, Root, Txid;
  }

  /**
   * The block a solution makes: the coinbase with the solution's extranonce and the given
   * bodies, which must be the declared transactions, under the solution's header with the root
   * they hash to.
   */
  predicate IsSolved(sha: HashFn, job: DeclaredJob, p: PushSolution, bodies: seq<Tx>, block: BlockData) {
    && block.txdata != [] && block.txdata[1..] == bodies
    && RebuildWith(job.prefix, p.extranonce, job.suffix) == Ok(block.txdata[0])
    && job.txids == Some(Txids(sha, bodies))
    && block.header
       == Header(AsI32(p.version), p.prevHash, Root(sha, Txids(sha, block.txdata)), p.ntime, p.nbits, p.nonce)
  }

  lemma BlockForIff(sha: HashFn, job: DeclaredJob, p: PushSolution, bodies: seq<Tx>, block: BlockData)
    ensures BlockFor(sha, job, p, bodies) == Ok(block) <==> IsSolved(sha, job, p, bodies, block)
  {
    hide RebuildWith, Root, Txid, Txids, BodyFault;
    if job.txids.Some? {
      NoFaultIffTxidsMatch(sha, bodies, job.txids.value);
      if RebuildWith(job.prefix, p.extranonce, job.suffix).Ok? {
        var coinbase := RebuildWith(job.prefix, p.extranonce, job.suffix).value;
        TxidsOfBlock(sha, coinbase, bodies);
        assert block.txdata != [] ==> block.txdata == [block.txdata[0]] + block.txdata[1..];
        assert ([coinbase] + bodies)[1..] == bodies;
      }
    }
  }

  /** Why a block is refused: no txids, else the first fault of the bodies, else the coinbase. */
  ghost predicate IsRefusal(sha: HashFn, job: DeclaredJob, coinbase: Result<Tx, CoinbaseError>, bodies: seq<Tx>, e: BlockError) {
    if job.txids.None? then e == DeclaredJobNotValidated
    else if Txids(sha, bodies) != job.txids.value then BodyVerdict(sha, bodies, job.txids.value, Some(e))
    else coinbase.Err? && e == CoinbaseFailed(coinbase.error)
  }

  lemma RefusalExplained(sha: HashFn, job: DeclaredJob, p: PushSolution, bodies: seq<Tx>)
    ensures var r := BlockFor(sha, job, p, bodies);
      r.Err? ==> IsRefusal(sha, job, RebuildWith(job.prefix, p.extranonce, job.suffix), bodies, r.error)
  {
    hide RebuildWith, Root, Txid, Txids, BodyVerdict, BodyFault;
    if job.txids.Some? {
      NoFaultIffTxidsMatch(sha, bodies, job.txids.value);
      BodyFaultIsVerdict(sha, bodies, job.txids.value);
    }
  }

  lemma CandidateRefusalExplained(sha: HashFn, job: DeclaredJob, m: SetCustomMiningJob, bodies: seq<Tx>)
    ensures var r := CandidateFor(sha, job, m, bodies);
      r.Err? ==> IsRefusal(sha, job, Rebuild(job.prefix, job.suffix), bodies, r.error)
  {
    hide Rebuild, Root, Txid, Txids, BodyVerdict, BodyFault;
    if job.txids.Some? {
      NoFaultIffTxidsMatch(sha, bodies, job.txids.value);
      BodyFaultIsVerdict(sha, bodies, job.txids.value);
    }
  }

  method ReconstructBlock(sha: HashFn, job: DeclaredJob, p: PushSolution, bodies: seq<Tx>)
    returns (r: Result<BlockData, BlockError>)
    ensures r == BlockFor(sha, job, p, bodies)
    ensures forall block :: r == Ok(block) <==> IsSolved(sha, job, p, bodies, block)
    ensures r.Err? ==> IsRefusal(sha, job, RebuildWith(job.prefix, p.extranonce, job.suffix), bodies, r.error)
  {
    forall block { BlockForIff(sha, job, p, bodies, block); }
    RefusalExplained(sha, job, p, bodies);
    hide IsSolved, IsRefusal;
    if job.txids.None? {
      return Err(DeclaredJobNotValidated);
    }
    var txids := job.txids.value;
    var fault := CheckBodies(sha, bodies, txids);
    if fault.Some? {
      return Err(fault.value);
    }
    var rebuilt := ReconstructCoinbaseWithExtranonce(job.prefix, p.extranonce, job.suffix);
    if rebuilt.Err? {
      return Err(CoinbaseFailed(rebuilt.error));
    }
    var root := ComputeMerkleRoot(sha, Txid(sha, rebuilt.value), txids);
    TxidsOfBlock(sha, rebuilt.value, bodies);
    var txdata := [rebuilt.value];
    txdata := txdata + bodies;
    r := Ok(BlockData(PushHeader(p, root), txdata));
  }

  /**
   * The block proposed for a custom job: the zero-filled coinbase and the given bodies, which
   * must be the declared transactions, under the message's header with the root they hash to.
   */
  predicate IsCandidate(sha: HashFn, job: DeclaredJob, m: SetCustomMiningJob, bodies: seq<Tx>, block: BlockData) {
    && block.txdata != [] && block.txdata[1..] == bodies
    && Rebuild(job.prefix, job.suffix) == Ok(block.txdata[0])
    && job.txids == Some(Txids(sha, bodies))
    && block.header == Header(AsI32(m.version), m.prevHash, Root(sha, Txids(sha, block.txdata)), m.minNtime, m.nbits, 0)
  }

  lemma CandidateForIff(sha: HashFn, job: DeclaredJob, m: SetCustomMiningJob, bodies: seq<Tx>, block: BlockData)
    ensures CandidateFor(sha, job, m, bodies) == Ok(block) <==> IsCandidate(sha, job, m, bodies, block)
  {
    hide Rebuild, Root, Txid, Txids, BodyFault;
    if job.txids.Some? {
      NoFaultIffTxidsMatch(sha, bodies, job.txids.value);
      if Rebuild(job.prefix, job.suffix).Ok? {
        var coinbase := Rebuild(job.prefix, job.suffix).value;
        TxidsOfBlock(sha, coinbase, bodies);
        assert block.txdata != [] ==> block.txdata == [block.txdata[0]] + block.txdata[1..];
        assert ([coinbase] + bodies)[1..] == bodies;
      }
    }
  }

  method BuildCandidateBlock(sha: HashFn, job: DeclaredJob, m: SetCustomMiningJob, bodies: seq<Tx>)
    returns (r: Result<BlockData, BlockError>)
    ensures r == CandidateFor(sha, job, m, bodies)
    ensures forall block :: r == Ok(block) <==> IsCandidate(sha, job, m, bodies, block)
    ensures r.Err? ==> IsRefusal(sha, job, Rebuild(job.prefix, job.suffix), bodies, r.error)
  {
    forall block { CandidateForIff(sha, job, m, bodies, block); }
    CandidateRefusalExplained(sha, job, m, bodies);
    hide IsCandidate, IsRefusal;
    if job.txids.None? {
      return Err(DeclaredJobNotValidated);
    }
    var txids := job.txids.value;
    var fault := CheckBodies(sha, bodies, txids);
    if fault.Some? {
      return Err(fault.value);
    }
    var rebuilt := ReconstructCoinbase(job.prefix, job.suffix);
    if rebuilt.Err? {
      return Err(CoinbaseFailed(rebuilt.error));
    }
    var root := ComputeMerkleRoot(sha, Txid(sha, rebuilt.value), txids);
    var txdata := [rebuilt.value];
    txdata := txdata + bodies;
    r := Ok(BlockData(CandidateHeader(m, root), txdata));
  }

  lemma TxidsOfBlock(sha: HashFn, coinbase: Tx, bodies: seq<Tx>)
    ensures Txids(sha, [coinbase] + bodies) == [Txid(sha, coinbase)] + Txids(sha, bodies)
  {
  }

  /**
   * A block is rebuilt exactly when its header is and the bodies hash to the declared txids;
   * then it carries that header, its header commits to its own transactions, and those are
   * one coinbase followed by the given bodies.
   */
  lemma BlockIsHeaderPlusCheckedBodies(sha: HashFn, job: DeclaredJob, p: PushSolution, bodies: seq<Tx>)
    ensures BlockFor(sha, job, p, bodies).Ok?
      <==> ReconstructHeader(sha, job, p).Ok? && Txids(sha, bodies) == job.txids.value
    ensures BlockFor(sha, job, p, bodies).Ok? ==>
      var b := BlockFor(sha, job, p, bodies).value;
      && Ok(b.header) == ReconstructHeader(sha, job, p)
      && b.txdata != [] && b.txdata[1..] == bodies
      && b.header.merkleRoot == Root(sha, Txids(sha, b.txdata))
  {
    hide RebuildWith, Root, Txid, Txids, BodyFault;
    if job.txids.Some? {
      NoFaultIffTxidsMatch(sha, bodies, job.txids.value);
      if RebuildWith(job.prefix, p.extranonce, job.suffix).Ok? {
        TxidsOfBlock(sha, RebuildWith(job.prefix, p.extranonce, job.suffix).value, bodies);
      }
    }
  }
}
