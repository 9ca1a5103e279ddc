/**
 * Share-chain ancestry: the header reads behind `ShareChainReader`, and the bounded walk of
 * `notify_share_chain_reorg` (crates/sv2-p2pool-engine/src/engine_impl.rs,
 * crates/sv2-p2pool-pool/src/share_chain.rs).
 */
module ShareChain {
  import opened Primitives

  /** One header read: the header found, the genesis sentinel, no header, or a failed read. */
  datatype Lookup = Found(prev: Option<Hash>) | Genesis | NotFound | ReadFailed

  type HeaderMap = Hash -> Lookup

  const REORG_ANCESTRY_DEPTH: nat := 100

  /** The share reached from `tip` by exactly `k` parent hops, if the chain goes that far. */
  function Hop(chain: HeaderMap, tip: Hash, k: nat): Option<Hash> {
    if k == 0 then Some(tip)
    else
      match Hop(chain, tip, k - 1)
      case None => None
      case Some(h) => if chain(h).Found? then chain(h).prev else None
  }

  predicate AtHop(chain: HeaderMap, tip: Hash, k: nat, h: Hash) {
    Hop(chain, tip, k) == Some(h)
  }

  /** `h` is the tip or one of its ancestors within the depth the engine looks at. */
  ghost predicate OnAncestry(chain: HeaderMap, tip: Hash, h: Hash) {
    exists k: nat :: k <= REORG_ANCESTRY_DEPTH && AtHop(chain, tip, k, h)
  }

  /** Within that depth some header is missing or cannot be read. */
  ghost predicate WalkBreaks(chain: HeaderMap, tip: Hash) {
    exists k: nat :: k < REORG_ANCESTRY_DEPTH && BreaksAt(chain, tip, k)
  }

  predicate BreaksAt(chain: HeaderMap, tip: Hash, k: nat) {
    Hop(chain, tip, k).Some? && chain(Hop(chain, tip, k).value) in {NotFound, ReadFailed}
  }

  // ------------------------------------------------------------------
  // The same in terms of explicit chains of headers
  // ------------------------------------------------------------------

  /** Each share's header is found and names the next share as its parent. */
  predicate ParentChain(chain: HeaderMap, path: seq<Hash>) {
    path != [] && forall i :: 0 < i < |path| ==> chain(path[i - 1]) == Found(Some(path[i]))
  }

  /** `path` leads from `tip` through parents to `h`. */
  predicate Descends(chain: HeaderMap, tip: Hash, h: Hash, path: seq<Hash>) {
    ParentChain(chain, path) && path[0] == tip && Last(path) == h
  }

  lemma {:induction false} ChainIsHops(chain: HeaderMap, tip: Hash, h: Hash, path: seq<Hash>)
    requires Descends(chain, tip, h, path)
    ensures AtHop(chain, tip, |path| - 1, h)
    decreases |path|
  {
    if |path| > 1 {
      assert forall i :: 0 < i < |Init(path)| ==> chain(Init(path)[i - 1]) == Found(Some(Init(path)[i]));
      ChainIsHops(chain, tip, path[|path| - 2], Init(path));
    }
  }

  lemma {:induction false} HopsAreChain(chain: HeaderMap, tip: Hash, k: nat, h: Hash) returns (path: seq<Hash>)
    requires AtHop(chain, tip, k, h)
    ensures |path| == k + 1 && Descends(chain, tip, h, path)
  {
    if k == 0 {
      path := [h];
    } else {
      path := HopsAreChain(chain, tip, k - 1, Hop(chain, tip, k - 1).value);
      path := path + [h];
    }
  }

  /** Ancestry within the depth: a chain of parents with at most 101 shares, both ends included. */
  lemma AncestryIsAChain(chain: HeaderMap, tip: Hash, h: Hash)
    ensures OnAncestry(chain, tip, h)
      <==> exists path :: |path| <= REORG_ANCESTRY_DEPTH + 1 && Descends(chain, tip, h, path)
  {
    if OnAncestry(chain, tip, h) {
      var k: nat :| k <= REORG_ANCESTRY_DEPTH && AtHop(chain, tip, k, h);
      var path := HopsAreChain(chain, tip, k, h);
    }
    forall path | |path| <= REORG_ANCESTRY_DEPTH + 1 && Descends(chain, tip, h, path)
      ensures OnAncestry(chain, tip, h)
    {
      ChainIsHops(chain, tip, h, path);
    }
  }

  /** The shares met in the first `n` hops. */
  function Met(chain: HeaderMap, tip: Hash, n: nat): set<Hash> {
    if n == 0 then {tip}
    else
      match Hop(chain, tip, n)
      case None => Met(chain, tip, n - 1)
      case Some(h) => Met(chain, tip, n - 1) + {h}
  }

  lemma {:induction false} MetMeaning(chain: HeaderMap, tip: Hash, n: nat, h: Hash)
    ensures h in Met(chain, tip, n) <==> exists k: nat :: k <= n && AtHop(chain, tip, k, h)
  {
    if n == 0 {
      assert AtHop(chain, tip, 0, tip);
    } else {
      MetMeaning(chain, tip, n - 1, h);
      assert h in Met(chain, tip, n) <==> h in Met(chain, tip, n - 1) || AtHop(chain, tip, n, h);
    }
  }

  lemma MetIsAncestry(chain: HeaderMap, tip: Hash)
    ensures forall h :: h in Met(chain, tip, REORG_ANCESTRY_DEPTH) <==> OnAncestry(chain, tip, h)
  {
    hide Hop, Met;
    forall h { MetMeaning(chain, tip, REORG_ANCESTRY_DEPTH, h); }
  }

  lemma {:induction false} ChainEnds(chain: HeaderMap, tip: Hash, k: nat, n: nat)
    requires Hop(chain, tip, k + 1) == None && k <= n
    ensures k < n ==> Hop(chain, tip, n) == None
    ensures Met(chain, tip, n) == Met(chain, tip, k)
    decreases n
  {
    if k < n { ChainEnds(chain, tip, k, n - 1); }
  }

  /** The walk: all ancestors within the depth, or `None` when a header read gets in the way. */
  method WalkAncestors(chain: HeaderMap, newTip: Hash) returns (ancestors: Option<set<Hash>>)
    ensures ancestors.None? <==> WalkBreaks(chain, newTip)
    ensures ancestors.Some? ==> forall h :: h in ancestors.value <==> OnAncestry(chain, newTip, h)
  {
    hide OnAncestry;
    MetIsAncestry(chain, newTip);
    var seen := {newTip};
    var cursor := newTip;
    for hop := 0 to REORG_ANCESTRY_DEPTH
      invariant Hop(chain, newTip, hop) == Some(cursor)
      invariant seen == Met(chain, newTip, hop)
      invariant forall k: nat :: k < hop ==> !BreaksAt(chain, newTip, k)
    {
      match chain(cursor) {
        case Found(Some(prev)) =>
          seen := seen + {prev};
          cursor := prev;
        case NotFound =>
          assert BreaksAt(chain, newTip, hop);
          return None;
        case ReadFailed =>
          assert BreaksAt(chain, newTip, hop);
          return None;
        case _ =>
          EndedWalk(chain, newTip, hop);
          return Some(seen);
      }
    }
    return Some(seen);
  }

  /** Stopping early, at the chain's end, misses neither an ancestor nor a broken read. */
  lemma EndedWalk(chain: HeaderMap, tip: Hash, hop: nat)
    requires hop < REORG_ANCESTRY_DEPTH && Hop(chain, tip, hop + 1) == None
    requires forall k: nat :: k <= hop ==> !BreaksAt(chain, tip, k)
    ensures !WalkBreaks(chain, tip)
    ensures Met(chain, tip, hop) == Met(chain, tip, REORG_ANCESTRY_DEPTH)
  {
    ChainEnds(chain, tip, hop, REORG_ANCESTRY_DEPTH);
    forall k: nat | hop < k ensures !BreaksAt(chain, tip, k) {
      ChainEnds(chain, tip, hop, k);
    }
  }

  // ------------------------------------------------------------------
  // The in-process reader and its genesis sentinel
  // ------------------------------------------------------------------

  datatype StoreRead = Stored(prev: Hash) | Missing | StoreFailed

  /** `InProcessChain::get_share_header` over the share store. */
  function InProcessLookup(store: Hash -> StoreRead): HeaderMap {
    (h: Hash) =>
      if h == ZERO_HASH then Genesis
      else
        match store(h)
        case Stored(prev) => Found(if prev == ZERO_HASH then None else Some(prev))
        case Missing => NotFound
        case StoreFailed => ReadFailed
  }

  /** What the reader tells of the store: parents are stored parents, sentinels aside. */
  lemma InProcessMeaning(store: Hash -> StoreRead, h: Hash, parent: Hash)
    ensures var read := InProcessLookup(store)(h);
      && (read == Found(Some(parent)) <==> h != ZERO_HASH && parent != ZERO_HASH && store(h) == Stored(parent))
      && (read == Found(None) <==> h != ZERO_HASH && store(h) == Stored(ZERO_HASH))
      && (read == Genesis <==> h == ZERO_HASH)
      && (read == NotFound <==> h != ZERO_HASH && store(h) == Missing)
      && (read == ReadFailed <==> h != ZERO_HASH && store(h) == StoreFailed)
  {
  }

  predicate StoredParent(store: Hash -> StoreRead, h: Hash, parent: Hash) {
    h != ZERO_HASH && parent != ZERO_HASH && store(h) == Stored(parent)
  }

  /** So an ancestry over it is a chain of stored parents. */
  lemma InProcessChainIsStored(store: Hash -> StoreRead, path: seq<Hash>)
    requires path != []
    ensures ParentChain(InProcessLookup(store), path) <==>
      forall i :: 0 < i < |path| ==> StoredParent(store, path[i - 1], path[i])
  {
    forall i | 0 < i < |path|
      ensures InProcessLookup(store)(path[i - 1]) == Found(Some(path[i])) <==> StoredParent(store, path[i - 1], path[i])
    {
      InProcessMeaning(store, path[i - 1], path[i]);
    }
    hide InProcessLookup, StoredParent;
  }

  /** The all-zeros sentinel is never taken for an ancestor share, at any depth. */
  lemma SentinelIsNoAncestor(store: Hash -> StoreRead, tip: Hash, k: nat)
    requires tip != ZERO_HASH
    ensures Hop(InProcessLookup(store), tip, k) != Some(ZERO_HASH)
  {
  }
}
