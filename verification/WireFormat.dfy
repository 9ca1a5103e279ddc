/**
 * The codec in bytes: what BIP 144 ("Serialization") and BIP 141 ("Transaction ID") lay down for
 * a transaction, written out, so that encoder and decoder cannot agree on another format.
 */
module WireFormat {
  import opened Primitives
  import opened TxCodec

  /** Byte `i` of a little-endian number is its `i`th digit in base 256, the lowest first. */
  lemma {:induction false} LittleEndianDigit(n: nat, width: nat, i: nat)
    requires i < width
    ensures LittleEndian(n, width)[i] as nat == n / Pow256(i) % 256
  {
    if i == 0 {
      assert n / 1 == n;
    } else {
      LittleEndianDigit(n / 256, width - 1, i - 1);
      DivTwice(n, Pow256(i - 1));
    }
  }

  lemma DivTwice(n: nat, p: nat)
    requires p > 0
    ensures n / 256 / p == n / (256 * p)
  {
    var q := n / (256 * p);
    var r := n - q * (256 * p);
    assert n == 256 * (q * p) + r;
    assert n / 256 == q * p + r / 256;
    assert r / 256 < p;
    DivUnique(q * p + r / 256, p, q, r / 256);
  }

  lemma DivUnique(n: nat, p: nat, q: nat, r: nat)
    requires r < p && n == q * p + r
    ensures n / p == q
  {
    var k := n / p;
    assert k * p <= n < (k + 1) * p && q * p <= n < (q + 1) * p;
    assert k + 1 <= q ==> (k + 1) * p <= q * p;
    assert q + 1 <= k ==> (q + 1) * p <= k * p;
  }

  /** The four spellings of a length: one byte, or a marker byte and two, four or eight more. */
  lemma SizeSpelled(n: u64)
    ensures n < 253 ==> EncodeSize(n) == [n as byte]
    ensures 253 <= n < 0x1_0000 ==> EncodeSize(n) == [253, (n % 256) as byte, (n / 256) as byte]
    ensures 0x1_0000 <= n < TWO_32 ==> EncodeSize(n) == [254] + LittleEndian(n, 4)
    ensures TWO_32 <= n ==> EncodeSize(n) == [255] + LittleEndian(n, 8)
  {
    if 253 <= n < 0x1_0000 {
      assert LittleEndian(n, 2) == [(n % 256) as byte, (n / 256) as byte];
    }
  }

  /** Items follow one another in order. */
  lemma {:induction false} ManyAppend<T>(enc: T -> Bytes, xs: seq<T>, ys: seq<T>)
    ensures EncodeMany(enc, xs + ys) == EncodeMany(enc, xs) + EncodeMany(enc, ys)
  {
    if xs == [] {
      assert xs + ys == ys;
    } else {
      assert (xs + ys)[1..] == xs[1..] + ys;
      ManyAppend(enc, xs[1..], ys);
    }
  }

  lemma OneItem<T>(enc: T -> Bytes, x: T)
    ensures EncodeMany(enc, [x]) == enc(x) && EncodeVec(enc, [x]) == [1] + enc(x)
  {
    assert [x][1..] == [];
    assert EncodeMany(enc, [x]) == enc(x) + [];
  }

  lemma ShortScript(s: Script)
    requires |s| < 253
    ensures EncodeScript(s) == [|s| as byte] + s
  {
  }

  /**
   * Every field in its place, for a transaction with one input, one output and one witness
   * item, and scripts short enough for one-byte lengths.
   */
  lemma OneOfEachSpelled(
      version: i32, txid: Hash, vout: u32, script: Script, sequence: u32, value: u64, out: Script, item: Script, lock: u32)
    requires |script| < 253 && |out| < 253 && |item| < 253
    ensures EncodeTx(RawTx(version, [TxIn(OutPoint(txid, vout), script, sequence)], [TxOut(value, out)], [[item]], lock))
      == LittleEndian(AsU32(version), 4) + [0, 1]
       + [1] + txid + LittleEndian(vout, 4) + [|script| as byte] + script + LittleEndian(sequence, 4)
       + [1] + LittleEndian(value, 8) + [|out| as byte] + out
       + [1] + [|item| as byte] + item
       + LittleEndian(lock, 4)
  {
    hide UsesSegwit, EncodeIn, EncodeOut, EncodeWitness, EncodeMany, EncodeVec, LittleEndian, EncodeTx;
    var i, o := TxIn(OutPoint(txid, vout), script, sequence), TxOut(value, out);
    var tx := RawTx(version, [i], [o], [[item]], lock);
    WitnessMeansSegwit(tx);
    OneItem(EncodeIn, i);
    OneItem(EncodeOut, o);
    var stack: Witness := [item];
    OneItem<Witness>(EncodeWitness, stack);
    EncodedParts(tx);
    InSpelled(i);
    OutSpelled(o);
    WitnessSpelled(item);
    RegroupSpelled(
      LittleEndian(AsU32(version), 4), txid, LittleEndian(vout, 4), [|script| as byte], script, LittleEndian(sequence, 4),
      LittleEndian(value, 8), [|out| as byte], out, [|item| as byte], item, LittleEndian(lock, 4));
  }

  lemma WitnessMeansSegwit(tx: Tx)
    requires |tx.witnesses| == 1 && tx.witnesses[0] != []
    ensures UsesSegwit(tx)
  {
  }

  lemma InSpelled(i: TxIn)
    requires |i.scriptSig| < 253
    ensures EncodeIn(i)
      == i.prevout.txid + LittleEndian(i.prevout.vout, 4) + ([|i.scriptSig| as byte] + i.scriptSig) + LittleEndian(i.sequence, 4)
  {
    ShortScript(i.scriptSig);
  }

  lemma OutSpelled(o: TxOut)
    requires |o.scriptPubkey| < 253
    ensures EncodeOut(o) == LittleEndian(o.value, 8) + ([|o.scriptPubkey| as byte] + o.scriptPubkey)
  {
    ShortScript(o.scriptPubkey);
  }

  lemma WitnessSpelled(item: Script)
    requires |item| < 253
    ensures EncodeWitness([item]) == [1] + ([|item| as byte] + item)
  {
    ShortScript(item);
    OneItem(EncodeScript, item);
  }

  lemma RegroupSpelled(
      v: Bytes, txid: Bytes, vout: Bytes, ls: Bytes, s: Bytes, q: Bytes, value: Bytes, lo: Bytes, o: Bytes, li: Bytes, it: Bytes, lock: Bytes)
    ensures v + ([0, 1] + (([1] + (txid + vout + (ls + s) + q)) + ([1] + (value + (lo + o))) + ([1] + (li + it)) + lock))
      == v + [0, 1] + [1] + txid + vout + ls + s + q + [1] + value + lo + o + [1] + li + it + lock
  {
    assert [1] + (txid + vout + (ls + s) + q) == [1] + txid + vout + ls + s + q;
    assert [1] + (value + (lo + o)) == [1] + value + lo + o;
    assert [1] + (li + it) == [1] + li + it;
    RegroupThree(v, [0, 1], [1] + txid + vout + ls + s + q, [1] + value + lo + o, [1] + li + it, lock);
    RegroupTail(v + [0, 1], [1], txid, vout, ls, s, q);
    RegroupFour(v + [0, 1] + [1] + txid + vout + ls + s + q, [1], value, lo, o);
    RegroupPair(v + [0, 1] + [1] + txid + vout + ls + s + q + [1] + value + lo + o, [1], li, it);
  }

  lemma RegroupThree(v: Bytes, m: Bytes, a: Bytes, b: Bytes, c: Bytes, lock: Bytes)
    ensures v + (m + (a + b + c + lock)) == v + m + a + b + c + lock
  {
  }

  lemma RegroupTail(v: Bytes, a: Bytes, b: Bytes, c: Bytes, d: Bytes, e: Bytes, f: Bytes)
    ensures v + (a + b + c + d + e + f) == v + a + b + c + d + e + f
  {
  }

  lemma RegroupFour(v: Bytes, a: Bytes, b: Bytes, c: Bytes, d: Bytes)
    ensures v + (a + b + c + d) == v + a + b + c + d
  {
  }

  lemma RegroupPair(v: Bytes, a: Bytes, b: Bytes, c: Bytes)
    ensures v + (a + b + c) == v + a + b + c
  {
  }

  // ------------------------------------------------------------------
  // What a txid commits to
  // ------------------------------------------------------------------

  function WithoutWitnesses(tx: Tx): (r: Tx)
  {
    tx.(witnesses := seq(|tx.inputs|, _ => []))
  }

  /** With an input, the id is the hash of the transaction as encoded without any witness. */
  lemma TxidIsHashWithoutWitnesses(sha: HashFn, tx: Tx)
    requires tx.inputs != []
    ensures Txid(sha, tx) == sha(EncodeTx(WithoutWitnesses(tx)))
  {
    hide EncodeVec, LittleEndian;
    var bare := WithoutWitnesses(tx);
    assert !UsesSegwit(bare) && EncodeBody(bare) == EncodeBody(tx);
    assert EncodeVersion(tx.version) + (EncodeBody(tx) + LittleEndian(tx.lockTime, 4))
      == EncodeVersion(tx.version) + EncodeBody(tx) + LittleEndian(tx.lockTime, 4);
  }

  /** In general it is the encoding less marker and flag after the version, and less the witnesses before the lock time. */
  lemma TxidHashesTheRest(sha: HashFn, tx: Tx, b: Bytes)
    requires |b| >= 8
    requires EncodeTx(tx) == if UsesSegwit(tx)
      then b[..4] + [0, 1] + b[4..|b| - 4] + EncodeMany(EncodeWitness, tx.witnesses) + b[|b| - 4..] else b
    ensures Txid(sha, tx) == sha(b)
  {
    hide EncodeTx, EncodeBody, EncodeMany, LittleEndian, UsesSegwit;
    EncodedParts(tx);
    var v, lock := EncodeVersion(tx.version), LittleEndian(tx.lockTime, 4);
    var body, w := EncodeBody(tx), EncodeMany(EncodeWitness, tx.witnesses);
    if UsesSegwit(tx) {
      SegwitParts(v, body, w, lock, b);
    } else {
      assert v + (body + lock) == v + body + lock;
    }
  }

  lemma EncodedParts(tx: Tx)
    ensures var v, lock := EncodeVersion(tx.version), LittleEndian(tx.lockTime, 4);
      EncodeTx(tx) == if UsesSegwit(tx)
        then v + ([0, 1] + (EncodeBody(tx) + EncodeMany(EncodeWitness, tx.witnesses) + lock))
        else v + (EncodeBody(tx) + lock)
  {
    hide EncodeBody, EncodeMany, LittleEndian, UsesSegwit, EncodeVersion;
  }

  lemma SegwitParts(v: Bytes, body: Bytes, w: Bytes, lock: Bytes, b: Bytes)
    requires |v| == 4 && |lock| == 4 && |b| >= 8
    requires v + ([0, 1] + (body + w + lock)) == b[..4] + [0, 1] + b[4..|b| - 4] + w + b[|b| - 4..]
    ensures b == v + body + lock
  {
    var l, r := v + ([0, 1] + (body + w + lock)), b[..4] + [0, 1] + b[4..|b| - 4] + w + b[|b| - 4..];
    assert |body| == |b| - 8;
    assert v == l[..4] == r[..4] == b[..4];
    assert body == l[6..6 + |body|] == r[6..6 + |body|] == b[4..|b| - 4];
    assert lock == l[|l| - 4..] == r[|r| - 4..] == b[|b| - 4..];
    assert b == b[..4] + b[4..|b| - 4] + b[|b| - 4..];
  }

  /** So two transactions that differ in their witnesses only have the same id. */
  lemma TxidIgnoresWitnesses(sha: HashFn, tx: Tx, other: Tx)
    requires other == tx.(witnesses := other.witnesses)
    ensures Txid(sha, tx) == Txid(sha, other)
  {
    hide EncodeVec, LittleEndian;
  }
}
