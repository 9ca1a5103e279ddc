/**
 * The BIP 144 transaction codec ("Serialization") and the BIP 141 transaction id
 * ("Transaction ID") that the engine uses through its bitcoin library, with the two
 * directions of its correctness: decoding undoes encoding, and what decodes was encoded
 * that way (so every accepted byte string has one meaning and one spelling).
 */
module TxCodec {
  import opened Primitives

  datatype OutPoint = OutPoint(txid: Hash, vout: u32)

  datatype TxIn = TxIn(prevout: OutPoint, scriptSig: Script, sequence: u32)

  datatype TxOut = TxOut(value: u64, scriptPubkey: Script)

  type Witness = Vec<Script>

  datatype RawTx = RawTx(
    version: i32, inputs: Vec<TxIn>, outputs: Vec<TxOut>, witnesses: seq<Witness>, lockTime: u32)

  /** A transaction carries one (possibly empty) witness stack for each input. */
  type Tx = t: RawTx | |t.witnesses| == |t.inputs| witness RawTx(0, [], [], [], 0)

  type Parser<!T> = Bytes -> Option<(T, Bytes)>

  // ------------------------------------------------------------------
  // What it means for an encoder and a parser to fit together
  // ------------------------------------------------------------------

  ghost predicate Lossless<T(!new)>(enc: T -> Bytes, parse: Parser<T>) {
    forall x, rest :: parse(enc(x) + rest) == Some((x, rest))
  }

  ghost predicate Canonical<T(!new)>(enc: T -> Bytes, parse: Parser<T>) {
    forall b, x, rest :: parse(b) == Some((x, rest)) ==> b == enc(x) + rest
  }

  ghost predicate Codec<T(!new)>(enc: T -> Bytes, parse: Parser<T>) {
    Lossless(enc, parse) && Canonical(enc, parse)
  }

  // ------------------------------------------------------------------
  // Integers and CompactSize
  // ------------------------------------------------------------------

  function ParseInt(b: Bytes, width: nat): (r: Option<(nat, Bytes)>)
    ensures r.Some? ==> |b| >= width && r.value.1 == b[width..]
  {
    if |b| < width then None else Some((FromLittleEndian(b[..width]), b[width..]))
  }

  lemma ParseIntDecodes(n: nat, width: nat, rest: Bytes)
    requires n < Pow256(width)
    ensures ParseInt(LittleEndian(n, width) + rest, width) == Some((n, rest))
  {
    LittleEndianDecodes(n, width);
    var b := LittleEndian(n, width) + rest;
    assert b[..width] == LittleEndian(n, width) && b[width..] == rest;
  }

  lemma ParseIntEncodes(b: Bytes, width: nat, n: nat, rest: Bytes)
    requires ParseInt(b, width) == Some((n, rest))
    ensures n < Pow256(width) && b == LittleEndian(n, width) + rest
  {
    LittleEndianEncodes(b[..width]);
    assert b == b[..width] + b[width..];
  }

  /** The shortest of the four CompactSize spellings of `n`. */
  function EncodeSize(n: u64): (b: Bytes)
    ensures 1 <= |b| <= 9
  {
    if n < 0xfd then [n as byte]
    else if n < 0x1_0000 then [0xfd] + LittleEndian(n, 2)
    else if n < TWO_32 then [0xfe] + LittleEndian(n, 4)
    else [0xff] + LittleEndian(n, 8)
  }

  /** Rejects truncated input and every spelling that is not the shortest. */
  function ParseSize(b: Bytes): (r: Option<(u64, Bytes)>) {
    if b == [] then None
    else if b[0] < 0xfd then Some((b[0] as int, b[1..]))
    else
      var width := if b[0] == 0xfd then 2 else if b[0] == 0xfe then 4 else 8;
      var least := if b[0] == 0xfd then 0xfd else if b[0] == 0xfe then 0x1_0000 else TWO_32;
      match ParseInt(b[1..], width)
      case None => None
      case Some((n, rest)) =>
        if least <= n && n < TWO_64 then Some((n, rest)) else None
  }

  lemma SizeDecodes(n: u64, rest: Bytes)
    ensures ParseSize(EncodeSize(n) + rest) == Some((n, rest))
  {
    hide LittleEndian, ParseInt;
    Pow256Values();
    var b := EncodeSize(n) + rest;
    if n >= 0xfd {
      var width := |EncodeSize(n)| - 1;
      assert b[1..] == LittleEndian(n, width) + rest;
      ParseIntDecodes(n, width, rest);
    }
  }

  lemma SizeEncodes(b: Bytes, n: u64, rest: Bytes)
    requires ParseSize(b) == Some((n, rest))
    ensures b == EncodeSize(n) + rest
  {
    Pow256Values();
    assert b == [b[0]] + b[1..];
    if b[0] >= 0xfd {
      ParseIntEncodes(b[1..], if b[0] == 0xfd then 2 else if b[0] == 0xfe then 4 else 8, n, rest);
    }
  }

  // ------------------------------------------------------------------
  // Sequences of encoded items
  // ------------------------------------------------------------------

  function EncodeMany<T>(enc: T -> Bytes, xs: seq<T>): Bytes {
    if xs == [] then [] else enc(xs[0]) + EncodeMany(enc, xs[1..])
  }

  function ParseMany<T>(parse: Parser<T>, n: nat, b: Bytes): (r: Option<(seq<T>, Bytes)>)
    ensures r.Some? ==> |r.value.0| == n
  {
    if n == 0 then Some(([], b))
    else
      match parse(b)
      case None => None
      case Some((x, rest)) =>
        match ParseMany(parse, n - 1, rest)
        case None => None
        case Some((xs, rest')) => Some(([x] + xs, rest'))
  }

  lemma {:induction false} ManyDecodes<T(!new)>(enc: T -> Bytes, parse: Parser<T>, xs: seq<T>, rest: Bytes)
    requires Lossless(enc, parse)
    ensures ParseMany(parse, |xs|, EncodeMany(enc, xs) + rest) == Some((xs, rest))
  {
    if xs == [] {
      assert EncodeMany(enc, xs) + rest == rest;
    } else {
      var tail := EncodeMany(enc, xs[1..]) + rest;
      assert EncodeMany(enc, xs) + rest == enc(xs[0]) + tail;
      assert parse(enc(xs[0]) + tail) == Some((xs[0], tail));
      ManyDecodes(enc, parse, xs[1..], rest);
      assert xs == [xs[0]] + xs[1..];
    }
  }

  lemma {:induction false} ManyEncodes<T(!new)>(
    enc: T -> Bytes, parse: Parser<T>, n: nat, b: Bytes, xs: seq<T>, rest: Bytes)
    requires Canonical(enc, parse)
    requires ParseMany(parse, n, b) == Some((xs, rest))
    ensures b == EncodeMany(enc, xs) + rest
  {
    if n > 0 {
      var (x, rest') := parse(b).value;
      assert xs[0] == x;
      ManyEncodes(enc, parse, n - 1, rest', xs[1..], rest);
      assert b == enc(x) + rest';
      assert b == enc(x) + (EncodeMany(enc, xs[1..]) + rest);
    }
  }

  /** A length-prefixed vector. */
  function EncodeVec<T>(enc: T -> Bytes, xs: Vec<T>): Bytes {
    EncodeSize(|xs|) + EncodeMany(enc, xs)
  }

  function ParseVec<T>(parse: Parser<T>, b: Bytes): (r: Option<(Vec<T>, Bytes)>) {
    match ParseSize(b)
    case None => None
    case Some((n, rest)) => ParseMany(parse, n, rest)
  }

  lemma VecDecodes<T(!new)>(enc: T -> Bytes, parse: Parser<T>, xs: Vec<T>, rest: Bytes)
    requires Lossless(enc, parse)
    ensures ParseVec(parse, EncodeVec(enc, xs) + rest) == Some((xs, rest))
  {
    var tail := EncodeMany(enc, xs) + rest;
    assert EncodeVec(enc, xs) + rest == EncodeSize(|xs|) + tail;
    SizeDecodes(|xs|, tail);
    ManyDecodes(enc, parse, xs, rest);
  }

  lemma VecEncodes<T(!new)>(enc: T -> Bytes, parse: Parser<T>, b: Bytes, xs: Vec<T>, rest: Bytes)
    requires Canonical(enc, parse)
    requires ParseVec(parse, b) == Some((xs, rest))
    ensures b == EncodeVec(enc, xs) + rest
  {
    var rest' := ParseSize(b).value.1;
    SizeEncodes(b, |xs|, rest');
    ManyEncodes(enc, parse, |xs|, rest', xs, rest);
    assert b == EncodeSize(|xs|) + (EncodeMany(enc, xs) + rest);
  }

  // ------------------------------------------------------------------
  // Scripts, inputs, outputs, witness stacks
  // ------------------------------------------------------------------

  function EncodeScript(s: Script): Bytes {
    EncodeSize(|s|) + s
  }

  function ParseScript(b: Bytes): (r: Option<(Script, Bytes)>) {
    match ParseSize(b)
    case None => None
    case Some((n, rest)) => if |rest| < n then None else Some((rest[..n], rest[n..]))
  }

  lemma ScriptDecodes(s: Script, rest: Bytes)
    ensures ParseScript(EncodeScript(s) + rest) == Some((s, rest))
  {
    assert EncodeScript(s) + rest == EncodeSize(|s|) + (s + rest);
    SizeDecodes(|s|, s + rest);
    assert (s + rest)[..|s|] == s && (s + rest)[|s|..] == rest;
  }

  lemma ScriptEncodes(b: Bytes, s: Script, rest: Bytes)
    requires ParseScript(b) == Some((s, rest))
    ensures b == EncodeScript(s) + rest
  {
    var rest' := ParseSize(b).value.1;
    SizeEncodes(b, |s|, rest');
    assert rest' == s + rest;
    assert b == EncodeSize(|s|) + (s + rest);
  }

  lemma ScriptIsCodec()
    ensures Codec(EncodeScript, ParseScript)
  {
    forall x: Script, rest ensures ParseScript(EncodeScript(x) + rest) == Some((x, rest)) {
      ScriptDecodes(x, rest);
    }
    forall b, x: Script, rest | ParseScript(b) == Some((x, rest)) ensures b == EncodeScript(x) + rest {
      ScriptEncodes(b, x, rest);
    }
  }

  function EncodeOutPoint(o: OutPoint): (b: Bytes)
    ensures |b| == 36
  {
    o.txid + LittleEndian(o.vout, 4)
  }

  function EncodeIn(i: TxIn): Bytes {
    EncodeOutPoint(i.prevout) + EncodeScript(i.scriptSig) + LittleEndian(i.sequence, 4)
  }

  function ParseIn(b: Bytes): (r: Option<(TxIn, Bytes)>) {
    if |b| < 36 then None
    else
      Pow256Values();
      LittleEndianEncodes(b[32..36]);
      var prevout := OutPoint(b[..32], FromLittleEndian(b[32..36]));
      match ParseScript(b[36..])
      case None => None
      case Some((s, rest)) =>
        match ParseInt(rest, 4)
        case None => None
        case Some((n, rest')) =>
          LittleEndianEncodes(rest[..4]);
          Some((TxIn(prevout, s, n), rest'))
  }

  lemma InDecodes(i: TxIn, rest: Bytes)
    ensures ParseIn(EncodeIn(i) + rest) == Some((i, rest))
  {
    Pow256Values();
    var tail := LittleEndian(i.sequence, 4) + rest;
    var b := EncodeIn(i) + rest;
    assert b == EncodeOutPoint(i.prevout) + (EncodeScript(i.scriptSig) + tail);
    assert b[36..] == EncodeScript(i.scriptSig) + tail;
    assert b[..32] == i.prevout.txid && b[32..36] == LittleEndian(i.prevout.vout, 4);
    LittleEndianDecodes(i.prevout.vout, 4);
    ScriptDecodes(i.scriptSig, tail);
    ParseIntDecodes(i.sequence, 4, rest);
  }

  lemma InEncodes(b: Bytes, i: TxIn, rest: Bytes)
    requires ParseIn(b) == Some((i, rest))
    ensures b == EncodeIn(i) + rest
  {
    hide LittleEndian, FromLittleEndian, ParseScript, EncodeScript, ParseInt;
    Pow256Values();
    LittleEndianEncodes(b[32..36]);
    assert b[..36] == EncodeOutPoint(i.prevout);
    var rest' := ParseScript(b[36..]).value.1;
    ScriptEncodes(b[36..], i.scriptSig, rest');
    ParseIntEncodes(rest', 4, i.sequence, rest);
    assert b == b[..36] + (EncodeScript(i.scriptSig) + (LittleEndian(i.sequence, 4) + rest));
  }

  function EncodeOut(o: TxOut): Bytes {
    LittleEndian(o.value, 8) + EncodeScript(o.scriptPubkey)
  }

  function ParseOut(b: Bytes): (r: Option<(TxOut, Bytes)>) {
    match ParseInt(b, 8)
    case None => None
    case Some((value, rest)) =>
      Pow256Values();
      LittleEndianEncodes(b[..8]);
      match ParseScript(rest)
      case None => None
      case Some((s, rest')) => Some((TxOut(value, s), rest'))
  }

  lemma OutDecodes(o: TxOut, rest: Bytes)
    ensures ParseOut(EncodeOut(o) + rest) == Some((o, rest))
  {
    Pow256Values();
    var tail := EncodeScript(o.scriptPubkey) + rest;
    assert EncodeOut(o) + rest == LittleEndian(o.value, 8) + tail;
    ParseIntDecodes(o.value, 8, tail);
    ScriptDecodes(o.scriptPubkey, rest);
  }

  lemma OutEncodes(b: Bytes, o: TxOut, rest: Bytes)
    requires ParseOut(b) == Some((o, rest))
    ensures b == EncodeOut(o) + rest
  {
    var rest' := ParseInt(b, 8).value.1;
    ParseIntEncodes(b, 8, o.value, rest');
    ScriptEncodes(rest', o.scriptPubkey, rest);
    assert b == LittleEndian(o.value, 8) + (EncodeScript(o.scriptPubkey) + rest);
  }

  function EncodeWitness(w: Witness): Bytes {
    EncodeVec(EncodeScript, w)
  }

  function ParseWitness(b: Bytes): (r: Option<(Witness, Bytes)>) {
    ParseVec(ParseScript, b)
  }

  lemma InIsCodec()
    ensures Codec(EncodeIn, ParseIn)
  {
    forall x: TxIn, rest ensures ParseIn(EncodeIn(x) + rest) == Some((x, rest)) {
      InDecodes(x, rest);
    }
    forall b, x: TxIn, rest | ParseIn(b) == Some((x, rest)) ensures b == EncodeIn(x) + rest {
      InEncodes(b, x, rest);
    }
  }

  lemma OutIsCodec()
    ensures Codec(EncodeOut, ParseOut)
  {
    forall x: TxOut, rest ensures ParseOut(EncodeOut(x) + rest) == Some((x, rest)) {
      OutDecodes(x, rest);
    }
    forall b, x: TxOut, rest | ParseOut(b) == Some((x, rest)) ensures b == EncodeOut(x) + rest {
      OutEncodes(b, x, rest);
    }
  }

  lemma WitnessIsCodec()
    ensures Codec(EncodeWitness, ParseWitness)
  {
    ScriptIsCodec();
    forall x: Witness, rest ensures ParseWitness(EncodeWitness(x) + rest) == Some((x, rest)) {
      VecDecodes(EncodeScript, ParseScript, x, rest);
    }
    forall b, x: Witness, rest | ParseWitness(b) == Some((x, rest)) ensures b == EncodeWitness(x) + rest {
      VecEncodes(EncodeScript, ParseScript, b, x, rest);
    }
  }

  // ------------------------------------------------------------------
  // Transactions
  // ------------------------------------------------------------------

  /** Marker, flag and witnesses appear iff some witness does, or there is no input at all. */
  predicate UsesSegwit(tx: Tx) {
    tx.inputs == [] || exists i :: 0 <= i < |tx.witnesses| && tx.witnesses[i] != []
  }

  function EncodeVersion(v: i32): (b: Bytes)
    ensures |b| == 4
  {
    LittleEndian(AsU32(v), 4)
  }

  function EncodeBody(tx: Tx): Bytes {
    EncodeVec(EncodeIn, tx.inputs) + EncodeVec(EncodeOut, tx.outputs)
  }

  /** What follows marker and flag in the BIP 144 form. */
  function EncodeSegwitTail(tx: Tx): Bytes {
    EncodeBody(tx) + EncodeMany(EncodeWitness, tx.witnesses) + LittleEndian(tx.lockTime, 4)
  }

  function EncodeAfterVersion(tx: Tx): Bytes {
    if UsesSegwit(tx) then [0, 1] + EncodeSegwitTail(tx)
    else EncodeBody(tx) + LittleEndian(tx.lockTime, 4)
  }

  function EncodeTx(tx: Tx): Bytes {
    EncodeVersion(tx.version) + EncodeAfterVersion(tx)
  }

  /** The serialisation a transaction id commits to: no marker, flag or witness. */
  function EncodeStripped(tx: Tx): Bytes {
    EncodeVersion(tx.version) + EncodeBody(tx) + LittleEndian(tx.lockTime, 4)
  }

  function Txid(sha: HashFn, tx: Tx): Hash {
    sha(EncodeStripped(tx))
  }

  function ParseLockTime(b: Bytes): (r: Option<(u32, Bytes)>) {
    Pow256Values();
    match ParseInt(b, 4)
    case None => None
    case Some((n, rest)) => LittleEndianEncodes(b[..4]); Some((n, rest))
  }

  /** Inputs and outputs, one after the other. */
  function ParseBody(b: Bytes): (r: Option<((Vec<TxIn>, Vec<TxOut>), Bytes)>) {
    match ParseVec(ParseIn, b)
    case None => None
    case Some((inputs, rest)) =>
      match ParseVec(ParseOut, rest)
      case None => None
      case Some((outputs, rest')) => Some(((inputs, outputs), rest'))
  }

  function ParseSegwitTail(version: i32, b: Bytes): (r: Option<(Tx, Bytes)>)
    ensures r.Some? ==> r.value.0.version == version
  {
    match ParseBody(b)
    case None => None
    case Some(((inputs, outputs), rest)) =>
      match ParseMany(ParseWitness, |inputs|, rest)
      case None => None
      case Some((witnesses, rest')) =>
        if inputs != [] && forall i :: 0 <= i < |witnesses| ==> witnesses[i] == [] then None
        else
          match ParseLockTime(rest')
          case None => None
          case Some((lockTime, rest'')) =>
            Some((RawTx(version, inputs, outputs, witnesses, lockTime), rest''))
  }

  function ParseLegacyTail(version: i32, b: Bytes): (r: Option<(Tx, Bytes)>)
    ensures r.Some? ==> r.value.0.version == version
  {
    match ParseBody(b)
    case None => None
    case Some(((inputs, outputs), rest)) =>
      match ParseLockTime(rest)
      case None => None
      case Some((lockTime, rest')) =>
        Some((RawTx(version, inputs, outputs, seq(|inputs|, _ => []), lockTime), rest'))
  }

  /** An empty input vector announces the BIP 144 form; its flag byte must be 1. */
  function ParseAfterVersion(version: i32, b: Bytes): (r: Option<(Tx, Bytes)>)
    ensures r.Some? ==> r.value.0.version == version
  {
    match ParseVec(ParseIn, b)
    case None => None
    case Some((inputs, rest)) =>
      if inputs != [] then ParseLegacyTail(version, b)
      else if rest == [] || rest[0] != 1 then None
      else ParseSegwitTail(version, rest[1..])
  }

  /** Reads one transaction off the front of `b`. */
  function ParseTx(b: Bytes): (r: Option<(Tx, Bytes)>) {
    match ParseLockTime(b)
    case None => None
    case Some((v, rest)) => ParseAfterVersion(AsI32(v), rest)
  }

  /** `Transaction::consensus_decode` over a slice: bytes after the transaction are ignored. */
  function Decode(b: Bytes): (r: Option<Tx>) {
    match ParseTx(b)
    case None => None
    case Some((tx, _)) => Some(tx)
  }

  lemma LockTimeDecodes(n: u32, rest: Bytes)
    ensures ParseLockTime(LittleEndian(n, 4) + rest) == Some((n, rest))
  {
    Pow256Values();
    ParseIntDecodes(n, 4, rest);
  }

  lemma LockTimeEncodes(b: Bytes, n: u32, rest: Bytes)
    requires ParseLockTime(b) == Some((n, rest))
    ensures b == LittleEndian(n, 4) + rest
  {
    ParseIntEncodes(b, 4, n, rest);
  }

  lemma InputsDecode(inputs: Vec<TxIn>, rest: Bytes)
    ensures ParseVec(ParseIn, EncodeVec(EncodeIn, inputs) + rest) == Some((inputs, rest))
  {
    InIsCodec();
    VecDecodes(EncodeIn, ParseIn, inputs, rest);
  }

  lemma InputsEncode(b: Bytes, inputs: Vec<TxIn>, rest: Bytes)
    requires ParseVec(ParseIn, b) == Some((inputs, rest))
    ensures b == EncodeVec(EncodeIn, inputs) + rest
  {
    InIsCodec();
    VecEncodes(EncodeIn, ParseIn, b, inputs, rest);
  }

  lemma OutputsDecode(outputs: Vec<TxOut>, rest: Bytes)
    ensures ParseVec(ParseOut, EncodeVec(EncodeOut, outputs) + rest) == Some((outputs, rest))
  {
    OutIsCodec();
    VecDecodes(EncodeOut, ParseOut, outputs, rest);
  }

  lemma OutputsEncode(b: Bytes, outputs: Vec<TxOut>, rest: Bytes)
    requires ParseVec(ParseOut, b) == Some((outputs, rest))
    ensures b == EncodeVec(EncodeOut, outputs) + rest
  {
    OutIsCodec();
    VecEncodes(EncodeOut, ParseOut, b, outputs, rest);
  }

  lemma BodyDecodes(tx: Tx, rest: Bytes)
    ensures ParseBody(EncodeBody(tx) + rest) == Some(((tx.inputs, tx.outputs), rest))
    ensures ParseVec(ParseIn, EncodeBody(tx) + rest).Some?
    ensures ParseVec(ParseIn, EncodeBody(tx) + rest).value.0 == tx.inputs
  {
    hide ParseVec, EncodeVec;
    var tail := EncodeVec(EncodeOut, tx.outputs) + rest;
    assert EncodeBody(tx) + rest == EncodeVec(EncodeIn, tx.inputs) + tail;
    InputsDecode(tx.inputs, tail);
    OutputsDecode(tx.outputs, rest);
  }

  lemma BodyEncodes(b: Bytes, tx: Tx, rest: Bytes)
    requires ParseBody(b) == Some(((tx.inputs, tx.outputs), rest))
    ensures b == EncodeBody(tx) + rest
  {
    hide ParseVec, EncodeVec;
    var rest' := ParseVec(ParseIn, b).value.1;
    InputsEncode(b, tx.inputs, rest');
    OutputsEncode(rest', tx.outputs, rest);
    assert b == EncodeVec(EncodeIn, tx.inputs) + (EncodeVec(EncodeOut, tx.outputs) + rest);
  }

  lemma StacksDecode(stacks: seq<Witness>, rest: Bytes)
    ensures ParseMany(ParseWitness, |stacks|, EncodeMany(EncodeWitness, stacks) + rest) == Some((stacks, rest))
  {
    WitnessIsCodec();
    ManyDecodes(EncodeWitness, ParseWitness, stacks, rest);
  }

  lemma SegwitTailDecodes(tx: Tx, rest: Bytes)
    requires UsesSegwit(tx)
    ensures ParseSegwitTail(tx.version, EncodeSegwitTail(tx) + rest) == Some((tx, rest))
  {
    hide ParseVec, EncodeVec, ParseMany, EncodeMany, ParseBody, EncodeBody, ParseLockTime;
    var lock := LittleEndian(tx.lockTime, 4) + rest;
    var stacks := EncodeMany(EncodeWitness, tx.witnesses) + lock;
    assert EncodeSegwitTail(tx) + rest == EncodeBody(tx) + stacks;
    BodyDecodes(tx, stacks);
    StacksDecode(tx.witnesses, lock);
    LockTimeDecodes(tx.lockTime, rest);
  }

  lemma MarkerDecodes(tail: Bytes)
    ensures ParseVec(ParseIn, [0, 1] + tail) == Some(([], [1] + tail))
  {
    assert ([0, 1] + tail)[1..] == [1] + tail;
  }

  lemma AfterVersionDecodes(tx: Tx, rest: Bytes)
    ensures ParseAfterVersion(tx.version, EncodeAfterVersion(tx) + rest) == Some((tx, rest))
  {
    hide EncodeVec, ParseMany, EncodeMany, EncodeBody, ParseLockTime, ParseSegwitTail, EncodeSegwitTail;
    if UsesSegwit(tx) {
      var tail := EncodeSegwitTail(tx) + rest;
      assert EncodeAfterVersion(tx) + rest == [0, 1] + tail;
      MarkerDecodes(tail);
      assert ([1] + tail)[1..] == tail;
      SegwitTailDecodes(tx, rest);
    } else {
      var lock := LittleEndian(tx.lockTime, 4) + rest;
      assert EncodeAfterVersion(tx) + rest == EncodeBody(tx) + lock;
      BodyDecodes(tx, lock);
      LockTimeDecodes(tx.lockTime, rest);
      assert tx.witnesses == seq(|tx.inputs|, _ => []);
    }
  }

  /** Decoding undoes encoding, whatever follows the transaction. */
  lemma TxDecodes(tx: Tx, rest: Bytes)
    ensures ParseTx(EncodeTx(tx) + rest) == Some((tx, rest))
  {
    hide ParseAfterVersion, EncodeAfterVersion;
    var tail := EncodeAfterVersion(tx) + rest;
    assert EncodeTx(tx) + rest == EncodeVersion(tx.version) + tail;
    LockTimeDecodes(AsU32(tx.version), tail);
    AfterVersionDecodes(tx, rest);
  }

  lemma StacksEncode(b: Bytes, stacks: seq<Witness>, rest: Bytes)
    requires ParseMany(ParseWitness, |stacks|, b) == Some((stacks, rest))
    ensures b == EncodeMany(EncodeWitness, stacks) + rest
  {
    WitnessIsCodec();
    ManyEncodes(EncodeWitness, ParseWitness, |stacks|, b, stacks, rest);
  }

  lemma SegwitTailEncodes(b: Bytes, tx: Tx, rest: Bytes)
    requires ParseSegwitTail(tx.version, b) == Some((tx, rest))
    ensures UsesSegwit(tx) && b == EncodeSegwitTail(tx) + rest
  {
    hide ParseVec, EncodeVec, ParseMany, EncodeMany, ParseBody, EncodeBody, ParseLockTime;
    var stacks := ParseBody(b).value.1;
    var lock := ParseMany(ParseWitness, |tx.inputs|, stacks).value.1;
    BodyEncodes(b, tx, stacks);
    StacksEncode(stacks, tx.witnesses, lock);
    LockTimeEncodes(lock, tx.lockTime, rest);
    assert b == EncodeBody(tx) + (EncodeMany(EncodeWitness, tx.witnesses) + (LittleEndian(tx.lockTime, 4) + rest));
  }

  lemma LegacyTailEncodes(b: Bytes, tx: Tx, rest: Bytes)
    requires ParseLegacyTail(tx.version, b) == Some((tx, rest))
    ensures b == EncodeBody(tx) + LittleEndian(tx.lockTime, 4) + rest
    ensures ParseVec(ParseIn, b).Some? && tx.inputs == ParseVec(ParseIn, b).value.0
    ensures tx.inputs != [] ==> !UsesSegwit(tx)
  {
    hide ParseVec, EncodeVec, EncodeBody, ParseLockTime;
    var lock := ParseBody(b).value.1;
    BodyEncodes(b, tx, lock);
    LockTimeEncodes(lock, tx.lockTime, rest);
    assert b == EncodeBody(tx) + (LittleEndian(tx.lockTime, 4) + rest);
  }

  lemma AfterVersionEncodes(b: Bytes, tx: Tx, rest: Bytes)
    requires ParseAfterVersion(tx.version, b) == Some((tx, rest))
    ensures b == EncodeAfterVersion(tx) + rest
  {
    hide ParseVec, ParseSegwitTail, ParseLegacyTail, EncodeBody, EncodeSegwitTail, LittleEndian;
    var (inputs, rest') := ParseVec(ParseIn, b).value;
    if inputs == [] {
      InputsEncode(b, [], rest');
      assert EncodeVec(EncodeIn, []) == [0];
      SegwitTailEncodes(rest'[1..], tx, rest);
      assert b == [0, 1] + (EncodeSegwitTail(tx) + rest);
    } else {
      LegacyTailEncodes(b, tx, rest);
    }
  }

  /** Only the encoding of a transaction decodes to it: there is no second spelling. */
  lemma TxEncodes(b: Bytes, tx: Tx, rest: Bytes)
    requires ParseTx(b) == Some((tx, rest))
    ensures b == EncodeTx(tx) + rest
  {
    hide ParseAfterVersion, EncodeAfterVersion;
    var (v, rest') := ParseLockTime(b).value;
    LockTimeEncodes(b, v, rest');
    AfterVersionEncodes(rest', tx, rest);
    assert AsU32(AsI32(v)) == v;
    assert b == EncodeVersion(tx.version) + (EncodeAfterVersion(tx) + rest);
  }

  /** Both directions at once: the parser accepts `b` as `tx` then `rest` iff `b` spells that. */
  lemma ParsesIffSpelled(b: Bytes, tx: Tx, rest: Bytes)
    ensures ParseTx(b) == Some((tx, rest)) <==> b == EncodeTx(tx) + rest
  {
    TxDecodes(tx, rest);
    if ParseTx(b) == Some((tx, rest)) { TxEncodes(b, tx, rest); }
  }
}
