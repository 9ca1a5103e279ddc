/** The cache of declared jobs (crates/sv2-p2pool-engine/src/lib.rs `DeclaredJobCache`). */
module JobCache {
  import opened Primitives
  import opened Block

  type Jobs = map<u32, DeclaredJob>

  predicate Solves(job: DeclaredJob, prevHash: Hash, nbits: u32, version: u32) {
    job.tip.prevHash == prevHash && job.tip.nbits == nbits && job.version == version
  }

  function Kept(jobs: Jobs, keep: DeclaredJob -> bool): Jobs {
    map r | r in jobs && keep(jobs[r]) :: jobs[r]
  }

  lemma SizeAfterInsert<K, V>(m: map<K, V>, k: K, v: V)
    ensures |m[k := v]| == |m| + if k in m then 0 else 1
  {
    assert m[k := v].Keys == m.Keys + {k};
  }

  lemma SizeAfterRemove<K, V>(m: map<K, V>, k: K)
    requires k in m
    ensures |m - {k}| == |m| - 1
  {
    assert (m - {k}).Keys == m.Keys - {k};
  }

  class DeclaredJobCache {
    var inner: map<u32, DeclaredJob>

    constructor ()
      ensures inner == map[]
    {
      inner := map[];
    }

    method Insert(requestId: u32, job: DeclaredJob) returns (previous: Option<DeclaredJob>)
      modifies this
      ensures inner == old(inner)[requestId := job]
      ensures previous == if requestId in old(inner) then Some(old(inner)[requestId]) else None
    {
      previous := if requestId in inner then Some(inner[requestId]) else None;
      inner := inner[requestId := job];
    }

    method Remove(requestId: u32) returns (removed: Option<DeclaredJob>)
      modifies this
      ensures inner == old(inner) - {requestId}
      ensures removed == if requestId in old(inner) then Some(old(inner)[requestId]) else None
    {
      removed := if requestId in inner then Some(inner[requestId]) else None;
      inner := inner - {requestId};
    }

    /** Some cached job with that tip and version, in no particular order; `None` iff there is none. */
    method FindBySolution(prevHash: Hash, nbits: u32, version: u32) returns (found: Option<u32>)
      ensures found.Some? ==> found.value in inner && Solves(inner[found.value], prevHash, nbits, version)
      ensures found.None? ==> forall r :: r in inner ==> !Solves(inner[r], prevHash, nbits, version)
      ensures found.Some? ==>
        var job := inner[found.value]; job.tip.prevHash == prevHash && job.tip.nbits == nbits && job.version == version
      ensures found.None? ==> forall r :: r in inner ==>
        inner[r].tip.prevHash != prevHash || inner[r].tip.nbits != nbits || inner[r].version != version
    {
      var rest := inner.Keys;
      while rest != {}
        invariant rest <= inner.Keys
        invariant forall r :: r in inner && r !in rest ==> !Solves(inner[r], prevHash, nbits, version)
        decreases rest
      {
        var r :| r in rest;
        if Solves(inner[r], prevHash, nbits, version) {
          return Some(r);
        }
        rest := rest - {r};
      }
      return None;
    }

    method InvalidateAll() returns (dropped: nat)
      modifies this
      ensures inner == map[] && dropped == |old(inner)|
    {
      dropped := |inner|;
      inner := map[];
    }

    /** Drops exactly the jobs the predicate refuses, and counts them. */
    method Retain(keep: DeclaredJob -> bool) returns (dropped: nat)
      modifies this
      ensures inner == Kept(old(inner), keep)
      ensures dropped == |old(inner)| - |inner|
    {
      dropped := 0;
      ghost var before := inner;
      var rest := inner.Keys;
      while rest != {}
        invariant rest <= inner.Keys <= before.Keys
        invariant forall r :: r in inner ==> inner[r] == before[r]
        invariant forall r :: r in before ==> (r in inner <==> r in rest || keep(before[r]))
        invariant dropped == |before| - |inner|
        decreases rest
      {
        var r :| r in rest;
        if !keep(inner[r]) {
          SizeAfterRemove(inner, r);
          inner := inner - {r};
          dropped := dropped + 1;
        }
        rest := rest - {r};
      }
      assert inner == Kept(before, keep);
    }
  }
}
