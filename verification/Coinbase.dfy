/**
 * Rebuilding a declared coinbase from its prefix, an extranonce and its suffix
 * (crates/sv2-p2pool-engine/src/coinbase.rs), and what the extranonce can change.
 */
module Coinbase {
  import opened Primitives
  import opened TxCodec

  /** version, marker and flag, input count, outpoint: where the scriptSig length is read. */
  const COINBASE_PREFIX_LEN: nat := 43

  datatype CoinbaseError =
    | PrefixTooShort
    | BadScriptSigVarInt
    | ScriptSigOverflow
    | ExtranonceSizeMismatch(expected: nat, got: nat)
    | DecodeFailed

  /** How many scriptSig bytes the prefix promises but does not contain. */
  function HoleSize(prefix: Bytes): (r: Result<nat, CoinbaseError>) {
    if |prefix| < COINBASE_PREFIX_LEN then Err(PrefixTooShort)
    else
      match ParseSize(prefix[COINBASE_PREFIX_LEN..])
      case None => Err(BadScriptSigVarInt)
      case Some((size, _)) =>
        var offset := COINBASE_PREFIX_LEN + |EncodeSize(size)|;
        if |prefix| < offset then Err(PrefixTooShort)
        else if |prefix| - offset > size then Err(ScriptSigOverflow)
        else Ok(size - (|prefix| - offset))
  }

  function DecodeCoinbase(b: Bytes): (r: Result<Tx, CoinbaseError>) {
    match Decode(b)
    case None => Err(DecodeFailed)
    case Some(tx) => Ok(tx)
  }

  /** The specification of `reconstruct_coinbase`. */
  function Rebuild(prefix: Bytes, suffix: Bytes): (r: Result<Tx, CoinbaseError>) {
    match HoleSize(prefix)
    case Err(e) => Err(e)
    case Ok(k) => DecodeCoinbase(prefix + Zeros(k) + suffix)
  }

  /** The specification of `reconstruct_coinbase_with_extranonce`. */
  function RebuildWith(prefix: Bytes, extranonce: Bytes, suffix: Bytes): (r: Result<Tx, CoinbaseError>) {
    match HoleSize(prefix)
    case Err(e) => Err(e)
    case Ok(k) =>
      if |extranonce| != k then Err(ExtranonceSizeMismatch(k, |extranonce|))
      else DecodeCoinbase(prefix + extranonce + suffix)
  }

  method ReconstructCoinbase(prefix: Bytes, suffix: Bytes) returns (r: Result<Tx, CoinbaseError>)
    ensures r == Rebuild(prefix, suffix)
  {
    if |prefix| < COINBASE_PREFIX_LEN {
      return Err(PrefixTooShort);
    }
    var parsed := ParseSize(prefix[COINBASE_PREFIX_LEN..]);
    if parsed.None? {
      return Err(BadScriptSigVarInt);
    }
    var scriptSigSize := parsed.value.0;
    var scriptSigOffset := COINBASE_PREFIX_LEN + |EncodeSize(scriptSigSize)|;
    if |prefix| < scriptSigOffset {
      return Err(PrefixTooShort);
    }
    var scriptSigBytesInPrefix := |prefix| - scriptSigOffset;
    if scriptSigBytesInPrefix > scriptSigSize {
      return Err(ScriptSigOverflow);
    }
    var fullExtranonceSize := scriptSigSize - scriptSigBytesInPrefix;

    var declared := prefix;
    declared := declared + Zeros(fullExtranonceSize);
    declared := declared + suffix;
    r := DecodeCoinbase(declared);
  }

  method ReconstructCoinbaseWithExtranonce(prefix: Bytes, extranonce: Bytes, suffix: Bytes)
    returns (r: Result<Tx, CoinbaseError>)
    ensures r == RebuildWith(prefix, extranonce, suffix)
  {
    if |prefix| < COINBASE_PREFIX_LEN {
      return Err(PrefixTooShort);
    }
    var parsed := ParseSize(prefix[COINBASE_PREFIX_LEN..]);
    if parsed.None? {
      return Err(BadScriptSigVarInt);
    }
    var scriptSigSize := parsed.value.0;
    var scriptSigOffset := COINBASE_PREFIX_LEN + |EncodeSize(scriptSigSize)|;
    if |prefix| < scriptSigOffset {
      return Err(PrefixTooShort);
    }
    var scriptSigBytesInPrefix := |prefix| - scriptSigOffset;
    if scriptSigBytesInPrefix > scriptSigSize {
      return Err(ScriptSigOverflow);
    }
    var expectedSize := scriptSigSize - scriptSigBytesInPrefix;
    if |extranonce| != expectedSize {
      return Err(ExtranonceSizeMismatch(expectedSize, |extranonce|));
    }

    var declared := prefix;
    declared := declared + extranonce;
    declared := declared + suffix;
    r := DecodeCoinbase(declared);
  }

  /** Because only shortest CompactSizes parse, the second length check can never fire. */
  lemma OnlyShortPrefixIsTooShort(prefix: Bytes)
    ensures HoleSize(prefix) == Err(PrefixTooShort) <==> |prefix| < COINBASE_PREFIX_LEN
  {
    if |prefix| >= COINBASE_PREFIX_LEN && ParseSize(prefix[COINBASE_PREFIX_LEN..]).Some? {
      var (size, rest) := ParseSize(prefix[COINBASE_PREFIX_LEN..]).value;
      SizeEncodes(prefix[COINBASE_PREFIX_LEN..], size, rest);
    }
  }

  /**
   * What the prefix says: after 43 bytes a length, then as many scriptSig bytes as there are;
   * the hole is what the length promises beyond them. Each error is one way this fails.
   */
  lemma HoleSizeMeaning(prefix: Bytes, k: nat, size: u64, start: Bytes)
    ensures HoleSize(prefix) == Err(BadScriptSigVarInt)
      <==> |prefix| >= 43 && forall n: u64, rest :: prefix[43..] != EncodeSize(n) + rest
    ensures |prefix| >= 43 && prefix[43..] == EncodeSize(size) + start ==>
      HoleSize(prefix) == if |start| > size then Err(ScriptSigOverflow) else Ok(size - |start|)
  {
    hide EncodeSize, ParseSize;
    if |prefix| >= 43 {
      var b := prefix[COINBASE_PREFIX_LEN..];
      forall n: u64, rest | b == EncodeSize(n) + rest ensures ParseSize(b) == Some((n, rest)) {
        SizeDecodes(n, rest);
      }
      if ParseSize(b).Some? {
        var (n, rest) := ParseSize(b).value;
        SizeEncodes(b, n, rest);
      }
    }
  }

  /** With the hole filled, the coinbase is whatever transaction the whole byte string starts with. */
  lemma RebuildWithMeaning(prefix: Bytes, e: Bytes, suffix: Bytes, tx: Tx)
    requires HoleSize(prefix) == Ok(|e|)
    ensures RebuildWith(prefix, e, suffix) == Ok(tx) <==> exists rest :: prefix + e + suffix == EncodeTx(tx) + rest
    ensures RebuildWith(prefix, e, suffix).Err? ==> RebuildWith(prefix, e, suffix) == Err(DecodeFailed)
  {
    hide HoleSize, EncodeTx, ParseTx;
    var b := prefix + e + suffix;
    forall rest | b == EncodeTx(tx) + rest ensures ParseTx(b) == Some((tx, rest)) {
      TxDecodes(tx, rest);
    }
    if RebuildWith(prefix, e, suffix) == Ok(tx) {
      TxEncodes(b, tx, ParseTx(b).value.1);
    }
  }

  lemma RebuildIsAllZeros(prefix: Bytes, suffix: Bytes)
    ensures HoleSize(prefix).Ok? ==>
      Rebuild(prefix, suffix) == RebuildWith(prefix, Zeros(HoleSize(prefix).value), suffix)
  {
  }

  // ------------------------------------------------------------------
  // Where the scriptSig sits in a one-input transaction
  // ------------------------------------------------------------------

  predicate OneInput(tx: Tx) {
    |tx.inputs| == 1
  }

  function ScriptSig(tx: Tx): Script
    requires OneInput(tx)
  {
    tx.inputs[0].scriptSig
  }

  /** Everything before the scriptSig's length. */
  function Head(tx: Tx): (b: Bytes)
    requires OneInput(tx)
    ensures |b| == if UsesSegwit(tx) then 43 else 41
  {
    var start := [1] + EncodeOutPoint(tx.inputs[0].prevout);
    if UsesSegwit(tx) then EncodeVersion(tx.version) + [0, 1] + start else EncodeVersion(tx.version) + start
  }

  /** Everything after the scriptSig. */
  function Tail(tx: Tx): Bytes
    requires OneInput(tx)
  {
    var tail := LittleEndian(tx.inputs[0].sequence, 4) + EncodeVec(EncodeOut, tx.outputs);
    var lock := LittleEndian(tx.lockTime, 4);
    if UsesSegwit(tx) then tail + (EncodeMany(EncodeWitness, tx.witnesses) + lock) else tail + lock
  }

  function ScriptStart(tx: Tx): nat
    requires OneInput(tx)
  {
    |Head(tx)| + |EncodeSize(|ScriptSig(tx)|)|
  }

  predicate InScript(tx: Tx, p: int)
    requires OneInput(tx)
  {
    ScriptStart(tx) <= p < ScriptStart(tx) + |ScriptSig(tx)|
  }

  function WithScript(tx: Tx, s: Script): (r: Tx)
    requires OneInput(tx)
    ensures OneInput(r) && ScriptSig(r) == s
  {
    tx.(inputs := [tx.inputs[0].(scriptSig := s)])
  }

  lemma OneInputBody(tx: Tx)
    requires OneInput(tx)
    ensures var i := tx.inputs[0];
      EncodeBody(tx) == ([1] + EncodeOutPoint(i.prevout)) + EncodeScript(i.scriptSig)
      + (LittleEndian(i.sequence, 4) + EncodeVec(EncodeOut, tx.outputs))
  {
    var i := tx.inputs[0];
    assert EncodeVec(EncodeIn, tx.inputs) == [1] + EncodeIn(i) by {
      assert tx.inputs[1..] == [];
      assert EncodeMany(EncodeIn, tx.inputs) == EncodeIn(i) + [];
    }
    hide EncodeVec, EncodeMany, EncodeScript, EncodeOutPoint, LittleEndian;
  }

  lemma Regroup(a: Bytes, start: Bytes, script: Bytes, tail: Bytes, rest: Bytes)
    ensures a + (start + script + tail + rest) == (a + start) + script + (tail + rest)
  {
  }

  lemma RegroupSegwit(a: Bytes, m: Bytes, start: Bytes, script: Bytes, tail: Bytes, stacks: Bytes, lock: Bytes)
    ensures a + (m + (start + script + tail + stacks + lock)) == (a + m + start) + script + (tail + (stacks + lock))
  {
    Regroup(a + m, start, script, tail, stacks + lock);
    assert start + script + tail + stacks + lock == start + script + tail + (stacks + lock);
  }

  lemma OneInputLayout(tx: Tx)
    requires OneInput(tx)
    ensures EncodeTx(tx) == Head(tx) + EncodeScript(ScriptSig(tx)) + Tail(tx)
  {
    hide EncodeBody, EncodeVec, EncodeMany, EncodeScript, EncodeOutPoint, LittleEndian, UsesSegwit, EncodeVersion;
    OneInputBody(tx);
    var i := tx.inputs[0];
    var lock := LittleEndian(tx.lockTime, 4);
    var tail := LittleEndian(i.sequence, 4) + EncodeVec(EncodeOut, tx.outputs);
    var start := [1] + EncodeOutPoint(i.prevout);
    var script := EncodeScript(i.scriptSig);
    if UsesSegwit(tx) {
      RegroupSegwit(EncodeVersion(tx.version), [0, 1], start, script, tail, EncodeMany(EncodeWitness, tx.witnesses), lock);
    } else {
      Regroup(EncodeVersion(tx.version), start, script, tail, lock);
    }
  }

  lemma HeadMarker(tx: Tx)
    requires OneInput(tx)
    ensures Head(tx)[4] == if UsesSegwit(tx) then 0 else 1
  {
  }

  lemma WithScriptLayout(tx: Tx, s: Script)
    requires OneInput(tx)
    ensures Head(WithScript(tx, s)) == Head(tx) && Tail(WithScript(tx, s)) == Tail(tx)
    ensures EncodeTx(WithScript(tx, s)) == Head(tx) + EncodeScript(s) + Tail(tx)
  {
    hide EncodeTx, EncodeSize, EncodeVec, EncodeMany;
    assert UsesSegwit(WithScript(tx, s)) == UsesSegwit(tx);
    OneInputLayout(WithScript(tx, s));
  }

  // ------------------------------------------------------------------
  // Round trip: split a coinbase, rebuild it
  // ------------------------------------------------------------------

  /** A coinbase cut before the last `k` bytes of its scriptSig. */
  function PrefixOf(tx: Tx, k: nat): Bytes
    requires OneInput(tx) && k <= |ScriptSig(tx)|
  {
    Head(tx) + EncodeSize(|ScriptSig(tx)|) + ScriptSig(tx)[..|ScriptSig(tx)| - k]
  }

  /** The coinbase with the last bytes of its scriptSig replaced by `e`. */
  function WithExtranonce(tx: Tx, e: Bytes): (r: Tx)
    requires OneInput(tx) && |e| <= |ScriptSig(tx)|
    ensures OneInput(r)
  {
    WithScript(tx, ScriptSig(tx)[..|ScriptSig(tx)| - |e|] + e)
  }

  lemma RebuildSpelled(tx: Tx, e: Bytes)
    requires OneInput(tx) && |e| <= |ScriptSig(tx)|
    ensures DecodeCoinbase(PrefixOf(tx, |e|) + e + Tail(tx)) == Ok(WithExtranonce(tx, e))
  {
    hide EncodeTx, Tail, Head, EncodeSize, ParseTx, ParseSize, UsesSegwit;
    var s := ScriptSig(tx)[..|ScriptSig(tx)| - |e|] + e;
    WithScriptLayout(tx, s);
    assert PrefixOf(tx, |e|) + e + Tail(tx) == EncodeTx(WithScript(tx, s)) + [];
    TxDecodes(WithScript(tx, s), []);
  }

  lemma PrefixKeepsHoleSize(tx: Tx, k: nat)
    requires OneInput(tx) && UsesSegwit(tx) && k <= |ScriptSig(tx)|
    ensures HoleSize(PrefixOf(tx, k)) == Ok(k)
  {
    hide Head, EncodeSize, ParseSize, UsesSegwit;
    var s := ScriptSig(tx);
    var kept := s[..|s| - k];
    assert PrefixOf(tx, k)[COINBASE_PREFIX_LEN..] == EncodeSize(|s|) + kept;
    SizeDecodes(|s|, kept);
  }

  /**
   * Cutting any tail off the scriptSig of a one-input witness coinbase loses nothing: the
   * prefix alone tells the size of the hole, the cut bytes bring the coinbase back, any other
   * bytes of that length give the coinbase with just those scriptSig bytes, and any other
   * length is refused.
   */
  lemma SplitThenRebuild(tx: Tx, k: nat, e: Bytes)
    requires OneInput(tx) && UsesSegwit(tx) && k <= |ScriptSig(tx)|
    ensures HoleSize(PrefixOf(tx, k)) == Ok(k)
    ensures RebuildWith(PrefixOf(tx, k), ScriptSig(tx)[|ScriptSig(tx)| - k..], Tail(tx)) == Ok(tx)
    ensures |e| == k ==> RebuildWith(PrefixOf(tx, k), e, Tail(tx)) == Ok(WithExtranonce(tx, e))
    ensures |e| != k ==> RebuildWith(PrefixOf(tx, k), e, Tail(tx)) == Err(ExtranonceSizeMismatch(k, |e|))
  {
    hide EncodeTx, Tail, Head, PrefixOf, HoleSize, DecodeCoinbase, UsesSegwit;
    PrefixKeepsHoleSize(tx, k);
    var s := ScriptSig(tx);
    var cut := s[|s| - k..];
    RebuildSpelled(tx, cut);
    assert s[..|s| - k] + cut == s && WithScript(tx, s) == tx;
    if |e| == k { RebuildSpelled(tx, e); }
  }

  // ------------------------------------------------------------------
  // Exactly when the extranonce touches nothing but the scriptSig
  // ------------------------------------------------------------------

  /** `r` is `tx` with other scriptSig bytes of the same length. */
  predicate OnlyScriptBytesDiffer(tx: Tx, r: Result<Tx, CoinbaseError>)
    requires OneInput(tx)
  {
    && r.Ok? && OneInput(r.value)
    && |ScriptSig(r.value)| == |ScriptSig(tx)|
    && r.value == WithScript(tx, ScriptSig(r.value))
  }

  /** No byte of the hole lies in the transaction outside its scriptSig. */
  ghost predicate HoleAvoidsOtherFields(tx: Tx, prefix: Bytes, k: nat)
    requires OneInput(tx)
  {
    forall p :: |prefix| <= p < |prefix| + k ==> InScript(tx, p) || |EncodeTx(tx)| <= p
  }

  lemma DecodedMeansSpelled(b: Bytes, tx: Tx)
    requires DecodeCoinbase(b) == Ok(tx)
    ensures |EncodeTx(tx)| <= |b| && b == EncodeTx(tx) + b[|EncodeTx(tx)|..]
  {
    var rest := ParseTx(b).value.1;
    TxEncodes(b, tx, rest);
  }

  /** What `b` holds where `tx` keeps its scriptSig. */
  function ScriptIn(tx: Tx, b: Bytes): (s: Script)
    requires OneInput(tx) && ScriptStart(tx) + |ScriptSig(tx)| <= |b|
    ensures |s| == |ScriptSig(tx)|
  {
    b[ScriptStart(tx)..ScriptStart(tx) + |ScriptSig(tx)|]
  }

  /** Overwriting the hole overwrites the scriptSig bytes it covers. */
  lemma HarmlessHole(prefix: Bytes, suffix: Bytes, tx: Tx, e: Bytes)
    requires HoleSize(prefix) == Ok(|e|) && Rebuild(prefix, suffix) == Ok(tx) && OneInput(tx)
    requires HoleAvoidsOtherFields(tx, prefix, |e|)
    ensures OnlyScriptBytesDiffer(tx, RebuildWith(prefix, e, suffix))
    ensures ScriptStart(tx) + |ScriptSig(tx)| <= |prefix + e + suffix|
    ensures RebuildWith(prefix, e, suffix) == Ok(WithScript(tx, ScriptIn(tx, prefix + e + suffix)))
  {
    hide EncodeTx, Head, Tail, EncodeSize, ParseTx, UsesSegwit, HoleSize;
    var b0, b := prefix + Zeros(|e|) + suffix, prefix + e + suffix;
    DecodedMeansSpelled(b0, tx);
    OneInputLayout(tx);
    var size, start := |EncodeTx(tx)|, ScriptStart(tx);
    var end := start + |ScriptSig(tx)|;
    var s := ScriptIn(tx, b);
    forall p | 0 <= p < size && !InScript(tx, p) ensures b[p] == EncodeTx(tx)[p] {
      assert !(|prefix| <= p < |prefix| + |e|);
      assert b[p] == b0[p];
    }
    assert b[..start] == Head(tx) + EncodeSize(|s|);
    assert b[end..size] == Tail(tx);
    WithScriptLayout(tx, s);
    assert b[..size] == b[..start] + s + b[end..size];
    assert b[..start] + s == Head(tx) + EncodeScript(s);
    assert b == b[..size] + b[size..];
    TxDecodes(WithScript(tx, s), b[size..]);
  }

  /** A hole byte in another field shows: the all-ones extranonce changes that field. */
  lemma HarmfulHole(prefix: Bytes, suffix: Bytes, tx: Tx, k: nat)
    requires HoleSize(prefix) == Ok(k) && Rebuild(prefix, suffix) == Ok(tx) && OneInput(tx)
    requires OnlyScriptBytesDiffer(tx, RebuildWith(prefix, seq(k, _ => 1), suffix))
    ensures HoleAvoidsOtherFields(tx, prefix, k)
  {
    hide EncodeTx, Head, Tail, EncodeSize, ParseTx, UsesSegwit, HoleSize;
    var b0, b := prefix + Zeros(k) + suffix, prefix + seq(k, _ => 1) + suffix;
    var tx' := RebuildWith(prefix, seq(k, _ => 1), suffix).value;
    DecodedMeansSpelled(b0, tx);
    DecodedMeansSpelled(b, tx');
    OneInputLayout(tx);
    WithScriptLayout(tx, ScriptSig(tx'));
    assert forall p :: 0 <= p < |EncodeTx(tx)| && !InScript(tx, p) ==> EncodeTx(tx)[p] == EncodeTx(tx')[p];
    assert forall p :: |prefix| <= p < |prefix| + k ==> b0[p] == 0 && b[p] == 1;
    assert forall p :: 0 <= p < |EncodeTx(tx)| ==> b0[p] == EncodeTx(tx)[p] && b[p] == EncodeTx(tx')[p];
  }

  /**
   * For any declared prefix and suffix whose zero-filled coinbase decodes with one input:
   * every extranonce of the right size changes scriptSig bytes only, if and only if no byte
   * of the hole belongs to another field of that zero-filled coinbase.
   */
  lemma ExtranonceTouchesOnlyScriptSigIff(prefix: Bytes, suffix: Bytes, tx: Tx, k: nat)
    requires HoleSize(prefix) == Ok(k) && Rebuild(prefix, suffix) == Ok(tx) && OneInput(tx)
    ensures (forall e: Bytes :: |e| == k ==> OnlyScriptBytesDiffer(tx, RebuildWith(prefix, e, suffix)))
      <==> HoleAvoidsOtherFields(tx, prefix, k)
  {
    hide EncodeTx, Head, Tail, EncodeSize, ParseTx, UsesSegwit, HoleSize, RebuildWith, Rebuild, OnlyScriptBytesDiffer, HoleAvoidsOtherFields;
    if HoleAvoidsOtherFields(tx, prefix, k) {
      forall e: Bytes | |e| == k ensures OnlyScriptBytesDiffer(tx, RebuildWith(prefix, e, suffix)) {
        HarmlessHole(prefix, suffix, tx, e);
      }
    } else if forall e: Bytes :: |e| == k ==> OnlyScriptBytesDiffer(tx, RebuildWith(prefix, e, suffix)) {
      var ones: Bytes := seq(k, _ => 1);
      assert OnlyScriptBytesDiffer(tx, RebuildWith(prefix, ones, suffix));
      HarmfulHole(prefix, suffix, tx, k);
    }
  }

  /** The layout the fixed offset assumes: byte 4 is the BIP 144 marker, not an input count. */
  predicate SegwitLayout(prefix: Bytes) {
    |prefix| > 4 && prefix[4] == 0
  }

  /** The scriptSig bytes the prefix already fixes. */
  function FixedScript(prefix: Bytes): (b: Bytes)
    requires HoleSize(prefix).Ok?
  {
    prefix[COINBASE_PREFIX_LEN + |EncodeSize(ParseSize(prefix[COINBASE_PREFIX_LEN..]).value.0)|..]
  }

  lemma MarkerMeansSegwit(b: Bytes, tx: Tx)
    requires DecodeCoinbase(b) == Ok(tx) && OneInput(tx) && |b| > 4 && b[4] == 0
    ensures UsesSegwit(tx)
  {
    DecodedMeansSpelled(b, tx);
    OneInputLayout(tx);
    HeadMarker(tx);
    hide Head, Tail, EncodeTx;
    assert b[4] == Head(tx)[4];
  }

  /** The length the engine reads from the prefix is the length of the decoded scriptSig. */
  lemma PrefixKnowsScriptSize(prefix: Bytes, fill: Bytes, tx: Tx)
    requires HoleSize(prefix).Ok? && DecodeCoinbase(prefix + fill) == Ok(tx)
    requires OneInput(tx) && UsesSegwit(tx)
    ensures ParseSize(prefix[COINBASE_PREFIX_LEN..]).value.0 == |ScriptSig(tx)|
  {
    hide EncodeTx, Tail, Head, EncodeSize, ParseTx, ParseSize, UsesSegwit, DecodeCoinbase;
    var b, s := prefix + fill, ScriptSig(tx);
    var (size, rest) := ParseSize(prefix[COINBASE_PREFIX_LEN..]).value;
    DecodedMeansSpelled(b, tx);
    OneInputLayout(tx);
    var after := s + Tail(tx) + b[|EncodeTx(tx)|..];
    assert b == Head(tx) + (EncodeSize(|s|) + after);
    assert b[COINBASE_PREFIX_LEN..] == EncodeSize(|s|) + after;
    SizeDecodes(|s|, after);
    SizeEncodes(prefix[COINBASE_PREFIX_LEN..], size, rest);
    assert b[COINBASE_PREFIX_LEN..] == prefix[COINBASE_PREFIX_LEN..] + fill;
    assert b[COINBASE_PREFIX_LEN..] == EncodeSize(size) + (rest + fill);
    SizeDecodes(size, rest + fill);
  }

  /**
   * In segwit layout the hole is exactly the end of the scriptSig, so for any declared prefix
   * and suffix that decode, an extranonce of the right size gives the zero-filled coinbase
   * with the scriptSig `FixedScript(prefix) + e` and every other field unchanged.
   */
  lemma SegwitHoleIsScriptTail(prefix: Bytes, suffix: Bytes, tx: Tx, e: Bytes)
    requires SegwitLayout(prefix) && Rebuild(prefix, suffix) == Ok(tx) && OneInput(tx)
    requires HoleSize(prefix) == Ok(|e|)
    ensures UsesSegwit(tx) && HoleAvoidsOtherFields(tx, prefix, |e|)
    ensures ScriptSig(tx) == FixedScript(prefix) + Zeros(|e|)
    ensures RebuildWith(prefix, e, suffix) == Ok(WithScript(tx, FixedScript(prefix) + e))
  {
    hide EncodeTx, Tail, EncodeSize, ParseTx, ParseSize;
    var b0, b := prefix + Zeros(|e|) + suffix, prefix + e + suffix;
    MarkerMeansSegwit(b0, tx);
    assert b0 == prefix + (Zeros(|e|) + suffix);
    PrefixKnowsScriptSize(prefix, Zeros(|e|) + suffix, tx);
    var start := ScriptStart(tx);
    assert start + |ScriptSig(tx)| == |prefix| + |e|;
    HarmlessHole(prefix, suffix, tx, e);
    assert b[start..|prefix| + |e|] == FixedScript(prefix) + e;
    DecodedMeansSpelled(b0, tx);
    OneInputLayout(tx);
    assert b0[start..|prefix| + |e|] == FixedScript(prefix) + Zeros(|e|);
    assert b0[start..start + |ScriptSig(tx)|] == ScriptSig(tx);
  }

  /** A one-input transaction without witness, whose sequence is `n`. */
  function LegacyExample(n: u32): (tx: Tx)
    ensures OneInput(tx) && !UsesSegwit(tx)
  {
    RawTx(0, [TxIn(OutPoint(ZERO_HASH, 0), [], n)], [], [[]], 0)
  }

  lemma LegacyExampleSpelled(n: u32)
    ensures EncodeTx(LegacyExample(n)) == Zeros(4) + [1] + Zeros(36) + [0] + LittleEndian(n, 4) + [0] + Zeros(4)
  {
    var tx := LegacyExample(n);
    OneInputLayout(tx);
    assert LittleEndian(0, 4) == Zeros(4);
    assert Head(tx) == Zeros(4) + [1] + Zeros(36) by {
      assert ZERO_HASH + Zeros(4) == Zeros(36);
    }
    assert EncodeScript(ScriptSig(tx)) == [0];
    assert EncodeVec(EncodeOut, tx.outputs) == [0];
    hide EncodeTx, Head, EncodeScript, EncodeVec, LittleEndian, Zeros, UsesSegwit;
    assert Tail(tx) == LittleEndian(n, 4) + [0] + Zeros(4);
  }

  lemma LegacyExampleDecodes(n: u32, b: Bytes)
    requires b == Zeros(4) + [1] + Zeros(36) + [0] + LittleEndian(n, 4) + [0] + Zeros(4)
    ensures DecodeCoinbase(b) == Ok(LegacyExample(n))
  {
    LegacyExampleSpelled(n);
    hide EncodeTx, ParseTx, LittleEndian, Zeros;
    assert b == EncodeTx(LegacyExample(n)) + [];
    TxDecodes(LegacyExample(n), []);
  }

  const LEGACY_PREFIX: Bytes := Zeros(4) + [1] + Zeros(36) + [0] + [0, 2]

  lemma LegacyPrefixHole()
    ensures HoleSize(LEGACY_PREFIX) == Ok(2) && !SegwitLayout(LEGACY_PREFIX)
  {
    assert LEGACY_PREFIX[COINBASE_PREFIX_LEN..] == [2];
  }

  lemma LegacyRebuild(n: u32, e: Bytes)
    requires LittleEndian(n, 4) == [0, 2] + e
    ensures DecodeCoinbase(LEGACY_PREFIX + e + ([0] + Zeros(4))) == Ok(LegacyExample(n))
  {
    var front := Zeros(4) + [1] + Zeros(36) + [0];
    assert front + [0, 2] + e + ([0] + Zeros(4)) == front + ([0, 2] + e) + [0] + Zeros(4);
    hide LegacyExample;
    LegacyExampleDecodes(n, LEGACY_PREFIX + e + ([0] + Zeros(4)));
  }

  /**
   * Outside segwit layout the claim is false: here the length is read from the middle of the
   * input's sequence, both rebuilds succeed, and the extranonce lands in the sequence.
   */
  lemma LegacyLayoutMovesOtherFields() returns (prefix: Bytes, suffix: Bytes, e: Bytes)
    ensures !SegwitLayout(prefix) && HoleSize(prefix) == Ok(|e|)
    ensures Rebuild(prefix, suffix) == Ok(LegacyExample(0x200))
    ensures RebuildWith(prefix, e, suffix) == Ok(LegacyExample(0x1_0200))
  {
    prefix, suffix, e := LEGACY_PREFIX, [0] + Zeros(4), [1, 0];
    LegacyPrefixHole();
    assert LittleEndian(0x200, 4) == [0, 2] + Zeros(2);
    assert LittleEndian(0x1_0200, 4) == [0, 2] + e;
    hide DecodeCoinbase, HoleSize, LittleEndian, LegacyExample, SegwitLayout;
    LegacyRebuild(0x200, Zeros(2));
    LegacyRebuild(0x1_0200, e);
  }
}
