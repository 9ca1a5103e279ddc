/**
 * Tokens, jobs and counters when handlers interleave: every operation on the job and token maps
 * is a step of its own (crates/sv2-p2pool-engine/src/engine_impl.rs,
 * crates/sv2-p2pool-engine/src/lib.rs).
 */
module TokenRaces {
  import opened Primitives
  import JobCache

  /** An accepted declaration; `bound` once its token has been recorded. */
  datatype Declaration = Declaration(token: u64, requestId: u32, bound: bool)

  /** A SetCustomMiningJob past its token lookup: it still has to drop the token, then take the job. */
  datatype Progress = FoundId | DroppedToken | TookJob(declaration: nat) | FoundNoJob

  datatype Custom = Custom(token: u64, requestId: u32, progress: Progress)

  /** An `invalidate_all` that has read the cache's size and may have cleared it since. */
  datatype Flush = Flush(counted: nat, done: bool)

  /**
   * `jobs` holds, per request id, the number of the declaration cached there. `dropped` is how
   * many jobs invalidation really removed, `reported` what the counter says, `overwritten` how
   * many a later declaration replaced.
   */
  datatype Maps = Maps(
    declarations: seq<Declaration>, jobs: map<u32, nat>, tokens: map<u64, u32>, customs: seq<Custom>,
    flushes: seq<Flush>, dropped: nat, reported: nat, overwritten: nat)

  const EMPTY: Maps := Maps([], map[], map[], [], [], 0, 0, 0)

  datatype MapStep =
    | InsertJob(token: u64, requestId: u32)
    | InsertToken(declaration: nat)
    | GetToken(token: u64)
    | RemoveToken(custom: nat)
    | RemoveJob(custom: nat)
    | DropJobs(requestIds: set<u32>)
    | CountJobs
    | ClearJobs(flush: nat)

  function WithProgress(s: Maps, c: nat, p: Progress): Maps
    requires c < |s.customs|
  {
    s.(customs := s.customs[c := s.customs[c].(progress := p)])
  }

  function InsertJobStep(s: Maps, t: u64, r: u32): Maps {
    s.(declarations := s.declarations + [Declaration(t, r, false)],
       jobs := s.jobs[r := |s.declarations|],
       overwritten := s.overwritten + if r in s.jobs then 1 else 0)
  }

  function InsertTokenStep(s: Maps, d: nat): Maps {
    if d >= |s.declarations| || s.declarations[d].bound then s
    else
      s.(declarations := s.declarations[d := s.declarations[d].(bound := true)],
         tokens := s.tokens[s.declarations[d].token := s.declarations[d].requestId])
  }

  function RemoveTokenStep(s: Maps, c: nat): Maps {
    if c >= |s.customs| || s.customs[c].progress != FoundId then s
    else WithProgress(s, c, DroppedToken).(tokens := s.tokens - {s.customs[c].token})
  }

  function RemoveJobStep(s: Maps, c: nat): Maps {
    if c >= |s.customs| || s.customs[c].progress != DroppedToken then s
    else
      var r := s.customs[c].requestId;
      if r in s.jobs then WithProgress(s, c, TookJob(s.jobs[r])).(jobs := s.jobs - {r})
      else WithProgress(s, c, FoundNoJob)
  }

  /** Selective invalidation counts what it removes as it goes. */
  function DropJobsStep(s: Maps, rs: set<u32>): Maps {
    var n := |s.jobs.Keys * rs|;
    s.(jobs := s.jobs - rs, dropped := s.dropped + n, reported := s.reported + n)
  }

  function ClearJobsStep(s: Maps, f: nat): Maps {
    if f >= |s.flushes| || s.flushes[f].done then s
    else
      s.(jobs := map[], flushes := s.flushes[f := s.flushes[f].(done := true)],
         dropped := s.dropped + |s.jobs|, reported := s.reported + s.flushes[f].counted)
  }

  function Take(s: Maps, step: MapStep): Maps {
    match step
    case InsertJob(t, r) => InsertJobStep(s, t, r)
    case InsertToken(d) => InsertTokenStep(s, d)
    case GetToken(t) => if t in s.tokens then s.(customs := s.customs + [Custom(t, s.tokens[t], FoundId)]) else s
    case RemoveToken(c) => RemoveTokenStep(s, c)
    case RemoveJob(c) => RemoveJobStep(s, c)
    case DropJobs(rs) => DropJobsStep(s, rs)
    case CountJobs => s.(flushes := s.flushes + [Flush(|s.jobs|, false)])
    case ClearJobs(f) => ClearJobsStep(s, f)
  }

  /** What is declared stays declared, and only an insert declares. */
  lemma DeclarationsGrow(s: Maps, step: MapStep)
    ensures var s' := Take(s, step);
      && |s.declarations| <= |s'.declarations| <= |s.declarations| + 1
      && (forall d :: 0 <= d < |s.declarations| ==>
            s'.declarations[d].token == s.declarations[d].token
            && s'.declarations[d].requestId == s.declarations[d].requestId)
      && (|s'.declarations| > |s.declarations| ==>
            step.InsertJob? && s'.declarations[|s.declarations|] == Declaration(step.token, step.requestId, false))
  {
    match step
    case InsertJob(_, _) =>
    case InsertToken(_) =>
    case GetToken(_) =>
    case RemoveToken(_) =>
    case RemoveJob(_) =>
    case DropJobs(_) =>
    case CountJobs =>
    case ClearJobs(_) =>
  }

  /** A call keeps its token and the id it looked up. */
  lemma CustomsGrow(s: Maps, step: MapStep)
    ensures var s' := Take(s, step);
      && |s.customs| <= |s'.customs| <= |s.customs| + 1
      && (forall c :: 0 <= c < |s.customs| ==>
            s'.customs[c].token == s.customs[c].token && s'.customs[c].requestId == s.customs[c].requestId)
      && (|s'.customs| > |s.customs| ==>
            var t := s'.customs[|s.customs|].token; t in s.tokens && s'.customs[|s.customs|].requestId == s.tokens[t])
  {
    match step
    case InsertJob(_, _) =>
    case InsertToken(_) =>
    case GetToken(_) =>
    case RemoveToken(_) =>
    case RemoveJob(_) =>
    case DropJobs(_) =>
    case CountJobs =>
    case ClearJobs(_) =>
  }

  /** A flush keeps the size it read. */
  lemma FlushesGrow(s: Maps, step: MapStep)
    ensures var s' := Take(s, step);
      && |s.flushes| <= |s'.flushes|
      && forall f :: 0 <= f < |s.flushes| ==> s'.flushes[f].counted == s.flushes[f].counted
  {
    match step
    case InsertJob(_, _) =>
    case InsertToken(_) =>
    case GetToken(_) =>
    case RemoveToken(_) =>
    case RemoveJob(_) =>
    case DropJobs(_) =>
    case CountJobs =>
    case ClearJobs(_) =>
  }

  function Taken(steps: seq<MapStep>): Maps {
    if steps == [] then EMPTY else Take(Taken(Init(steps)), Last(steps))
  }

  // ------------------------------------------------------------------
  // Invariant
  // ------------------------------------------------------------------

  predicate Took(s: Maps, c: int, d: nat) {
    0 <= c < |s.customs| && s.customs[c].progress == TookJob(d)
  }

  predicate DeclaredAs(s: Maps, d: int, token: u64, requestId: u32) {
    0 <= d < |s.declarations| && s.declarations[d].token == token && s.declarations[d].requestId == requestId
  }

  /** A cached declaration is under its own id and has been taken by nobody. */
  ghost predicate JobsUntaken(s: Maps) {
    forall r :: r in s.jobs ==>
      && s.jobs[r] < |s.declarations| && s.declarations[s.jobs[r]].requestId == r
      && forall c :: !Took(s, c, s.jobs[r])
  }

  /** What a call took was declared under the id it looked up, and nobody else took it. */
  ghost predicate TakenOnce(s: Maps) {
    && (forall c: int, d: nat :: Took(s, c, d) ==> d < |s.declarations| && s.declarations[d].requestId == s.customs[c].requestId)
    && (forall c, c', d :: Took(s, c, d) && Took(s, c', d) ==> c == c')
  }

  ghost predicate LookedUp(s: Maps, token: u64, requestId: u32) {
    exists d :: DeclaredAs(s, d, token, requestId)
  }

  /** A token resolves, and resolved, only to ids it was declared with. */
  ghost predicate IdsDeclared(s: Maps) {
    && (forall t :: t in s.tokens ==> LookedUp(s, t, s.tokens[t]))
    && (forall c :: 0 <= c < |s.customs| ==> LookedUp(s, s.customs[c].token, s.customs[c].requestId))
  }

  lemma DeclaredStays(s: Maps, step: MapStep, token: u64, requestId: u32)
    requires LookedUp(s, token, requestId)
    ensures LookedUp(Take(s, step), token, requestId)
  {
    DeclarationsGrow(s, step);
    hide Take;
    var d :| DeclaredAs(s, d, token, requestId);
    assert DeclaredAs(Take(s, step), d, token, requestId);
  }

  predicate TakesNow(s: Maps, c: int, d: nat) {
    && 0 <= c < |s.customs| && s.customs[c].progress == DroppedToken
    && s.customs[c].requestId in s.jobs && s.jobs[s.customs[c].requestId] == d
  }

  lemma TookAfter(s: Maps, step: MapStep, c: int, d: nat)
    ensures Took(Take(s, step), c, d) <==> Took(s, c, d) || (step.RemoveJob? && step.custom == c && TakesNow(s, c, d))
  {
  }

  /** A cached job was cached before, or is the one just declared. */
  lemma JobsAfter(s: Maps, step: MapStep, r: u32)
    requires r in Take(s, step).jobs
    ensures var d := Take(s, step).jobs[r];
      || (r in s.jobs && s.jobs[r] == d
          && !(step.RemoveJob? && TakesNow(s, step.custom, d) && s.customs[step.custom].requestId == r))
      || (step == InsertJob(Take(s, step).declarations[d].token, r) && d == |s.declarations|)
  {
  }

  lemma JobsStayUntaken(s: Maps, step: MapStep)
    requires JobsUntaken(s) && TakenOnce(s)
    ensures JobsUntaken(Take(s, step))
  {
    var s' := Take(s, step);
    DeclarationsGrow(s, step);
    forall r | r in s'.jobs
      ensures s'.jobs[r] < |s'.declarations| && s'.declarations[s'.jobs[r]].requestId == r
      ensures forall c :: !Took(s', c, s'.jobs[r])
    {
      var d := s'.jobs[r];
      JobsAfter(s, step, r);
      forall c ensures !Took(s', c, d) {
        TookAfter(s, step, c, d);
        hide Take;
        assert r in s.jobs && s.jobs[r] == d ==> !Took(s, c, d);
      }
      hide Take;
    }
  }

  lemma TakenStaysOnce(s: Maps, step: MapStep)
    requires JobsUntaken(s) && TakenOnce(s)
    ensures TakenOnce(Take(s, step))
  {
    DeclarationsGrow(s, step);
    CustomsGrow(s, step);
    forall c: int, d: nat { TookAfter(s, step, c, d); }
    TookNamesACall(s);
    hide Take, Took;
  }

  lemma TookNamesACall(s: Maps)
    ensures forall c: int, d: nat :: Took(s, c, d) ==> 0 <= c < |s.customs|
  {
  }

  /** A token resolves as before, or as the declaration just recorded for it. */
  lemma TokensAfter(s: Maps, step: MapStep, t: u64)
    requires t in Take(s, step).tokens
    ensures var r := Take(s, step).tokens[t];
      || (t in s.tokens && s.tokens[t] == r)
      || (step.InsertToken? && DeclaredAs(Take(s, step), step.declaration, t, r))
  {
  }

  lemma IdsStayDeclared(s: Maps, step: MapStep)
    requires IdsDeclared(s)
    ensures IdsDeclared(Take(s, step))
  {
    var s' := Take(s, step);
    CustomsGrow(s, step);
    hide LookedUp;
    forall t | t in s'.tokens ensures LookedUp(s', t, s'.tokens[t]) {
      TokensAfter(s, step, t);
      hide Take;
      if t in s.tokens && s.tokens[t] == s'.tokens[t] {
        DeclaredStays(s, step, t, s.tokens[t]);
      } else {
        NowLookedUp(s', step.declaration, t, s'.tokens[t]);
      }
    }
    hide Take;
    forall c | 0 <= c < |s'.customs| ensures LookedUp(s', s'.customs[c].token, s'.customs[c].requestId) {
      DeclaredStays(s, step, s'.customs[c].token, s'.customs[c].requestId);
    }
  }

  lemma NowLookedUp(s: Maps, d: int, token: u64, requestId: u32)
    requires DeclaredAs(s, d, token, requestId)
    ensures LookedUp(s, token, requestId)
  {
  }

  lemma {:induction false} EveryInterleavingKeepsInv(steps: seq<MapStep>)
    ensures JobsUntaken(Taken(steps)) && TakenOnce(Taken(steps)) && IdsDeclared(Taken(steps))
  {
    hide Take;
    if steps != [] {
      EveryInterleavingKeepsInv(Init(steps));
      JobsStayUntaken(Taken(Init(steps)), Last(steps));
      TakenStaysOnce(Taken(Init(steps)), Last(steps));
      IdsStayDeclared(Taken(Init(steps)), Last(steps));
      hide JobsUntaken, TakenOnce, IdsDeclared;
    }
  }

  // ------------------------------------------------------------------
  // Results
  // ------------------------------------------------------------------

  /** However the operations interleave, no accepted declaration is taken by two custom jobs. */
  lemma NoDeclarationTakenTwice(steps: seq<MapStep>, c: nat, c': nat, d: nat)
    requires Took(Taken(steps), c, d) && Took(Taken(steps), c', d)
    ensures c == c' && d < |Taken(steps).declarations|
  {
    EveryInterleavingKeepsInv(steps);
  }

  /** Every id this token was declared with was declared with no other. */
  ghost predicate IdsAreTokens(s: Maps, token: u64) {
    forall d, d' ::
      0 <= d < |s.declarations| && 0 <= d' < |s.declarations| && s.declarations[d].token == token
      && s.declarations[d'].requestId == s.declarations[d].requestId
      ==> s.declarations[d'].token == token
  }

  /** And a token that shares no request id takes only declarations made with it. */
  lemma TakesItsOwn(steps: seq<MapStep>, c: nat, d: nat)
    requires Took(Taken(steps), c, d) && IdsAreTokens(Taken(steps), Taken(steps).customs[c].token)
    ensures d < |Taken(steps).declarations|
    ensures Taken(steps).declarations[d].token == Taken(steps).customs[c].token
  {
    EveryInterleavingKeepsInv(steps);
    var s := Taken(steps);
    hide Taken;
    assert LookedUp(s, s.customs[c].token, s.customs[c].requestId);
    var own :| DeclaredAs(s, own, s.customs[c].token, s.customs[c].requestId);
  }

  function TakersOf(s: Maps, token: u64): set<nat> {
    set c: nat | c < |s.customs| && s.customs[c].token == token && s.customs[c].progress.TookJob?
  }

  function MadeWith(s: Maps, token: u64): set<nat> {
    set d: nat | d < |s.declarations| && s.declarations[d].token == token
  }

  lemma {:induction false} InjectionCounts(from: set<nat>, to: set<nat>, f: nat -> nat)
    requires forall x :: x in from ==> f(x) in to
    requires forall x, y :: x in from && y in from && f(x) == f(y) ==> x == y
    ensures |from| <= |to|
  {
    if x :| x in from {
      InjectionCounts(from - {x}, to - {f(x)}, f);
    }
  }

  /** So, under every interleaving, such a token takes at most as many jobs as were declared with it. */
  lemma TokensAreOneShotUnderRaces(steps: seq<MapStep>, token: u64)
    requires IdsAreTokens(Taken(steps), token)
    ensures |TakersOf(Taken(steps), token)| <= |MadeWith(Taken(steps), token)|
  {
    var s := Taken(steps);
    var f := (c: nat) => if c < |s.customs| && s.customs[c].progress.TookJob? then s.customs[c].progress.declaration else 0;
    forall c | c in TakersOf(s, token) ensures f(c) in MadeWith(s, token) {
      TakesItsOwn(steps, c, f(c));
    }
    forall c, c' | c in TakersOf(s, token) && c' in TakersOf(s, token) && f(c) == f(c') ensures c == c' {
      NoDeclarationTakenTwice(steps, c, c', f(c));
    }
    InjectionCounts(TakersOf(s, token), MadeWith(s, token), f);
  }

  lemma OneMoreTake(steps: seq<MapStep>, step: MapStep)
    ensures Taken(steps + [step]) == Take(Taken(steps), step)
  {
    assert Init(steps + [step]) == steps;
  }

  /** Two calls look the same token up before either drops it. */
  function BothLookUp(t: u64, r: u32): seq<MapStep> {
    [InsertJob(t, r)] + [InsertToken(0)] + [GetToken(t)] + [GetToken(t)]
  }

  lemma BothFound(t: u64, r: u32)
    ensures Taken(BothLookUp(t, r)) ==
      EMPTY.(declarations := [Declaration(t, r, true)], jobs := map[r := 0], tokens := map[t := r],
             customs := [Custom(t, r, FoundId), Custom(t, r, FoundId)])
  {
    var s1 := Take(EMPTY, InsertJob(t, r));
    var s2 := Take(s1, InsertToken(0));
    assert s2 == EMPTY.(declarations := [Declaration(t, r, true)], jobs := map[r := 0], tokens := map[t := r]);
    assert Take(s2, GetToken(t)).customs == [Custom(t, r, FoundId)];
    assert Taken([]) == EMPTY && [] + [InsertJob(t, r)] == [InsertJob(t, r)];
    hide Taken, Take;
    OneMoreTake([], InsertJob(t, r));
    OneMoreTake([InsertJob(t, r)], InsertToken(0));
    OneMoreTake([InsertJob(t, r)] + [InsertToken(0)], GetToken(t));
    OneMoreTake([InsertJob(t, r)] + [InsertToken(0)] + [GetToken(t)], GetToken(t));
  }

  lemma BothTake(s: Maps, t: u64, u: u64, r: u32)
    requires s == EMPTY.(declarations := [Declaration(t, r, true)], jobs := map[r := 0], tokens := map[t := r],
                         customs := [Custom(t, r, FoundId), Custom(t, r, FoundId)])
    ensures var s' := Take(Take(Take(Take(Take(s,
        RemoveToken(0)), RemoveToken(1)), RemoveJob(0)), InsertJob(u, r)), RemoveJob(1));
      && s'.customs == [Custom(t, r, TookJob(0)), Custom(t, r, TookJob(1))]
      && s'.declarations == [Declaration(t, r, true), Declaration(u, r, false)]
  {
    var s2 := Take(Take(s, RemoveToken(0)), RemoveToken(1));
    assert s2.customs == [Custom(t, r, DroppedToken), Custom(t, r, DroppedToken)] && s2.jobs == map[r := 0];
    var s3 := Take(s2, RemoveJob(0));
    assert s3.customs == [Custom(t, r, TookJob(0)), Custom(t, r, DroppedToken)];
    var s4 := Take(s3, InsertJob(u, r));
    assert s4.jobs[r] == 1;
  }

  /**
   * With a shared request id the bound fails, which it never does when handlers run one at a
   * time: one declaration of `t`, two jobs taken with `t`.
   */
  lemma RacingCallsTakeTwice(t: u64, u: u64, r: u32)
    requires t != u
    ensures var s := Taken(BothLookUp(t, r)
        + [RemoveToken(0)] + [RemoveToken(1)] + [RemoveJob(0)] + [InsertJob(u, r)] + [RemoveJob(1)]);
      |TakersOf(s, t)| == 2 && |MadeWith(s, t)| == 1
  {
    BothFound(t, r);
    var before := BothLookUp(t, r);
    BothTake(Taken(before), t, u, r);
    var all := before + [RemoveToken(0)] + [RemoveToken(1)] + [RemoveJob(0)] + [InsertJob(u, r)] + [RemoveJob(1)];
    hide Taken, Take, BothLookUp, TakersOf, MadeWith;
    OneMoreTake(before, RemoveToken(0));
    OneMoreTake(before + [RemoveToken(0)], RemoveToken(1));
    OneMoreTake(before + [RemoveToken(0)] + [RemoveToken(1)], RemoveJob(0));
    OneMoreTake(before + [RemoveToken(0)] + [RemoveToken(1)] + [RemoveJob(0)], InsertJob(u, r));
    OneMoreTake(before + [RemoveToken(0)] + [RemoveToken(1)] + [RemoveJob(0)] + [InsertJob(u, r)], RemoveJob(1));
    TwoTakersOneDeclaration(Taken(all), t, u, r);
  }

  lemma TwoTakersOneDeclaration(s: Maps, t: u64, u: u64, r: u32)
    requires t != u && s.customs == [Custom(t, r, TookJob(0)), Custom(t, r, TookJob(1))]
    requires s.declarations == [Declaration(t, r, true), Declaration(u, r, false)]
    ensures |TakersOf(s, t)| == 2 && |MadeWith(s, t)| == 1
  {
    assert TakersOf(s, t) == {0, 1};
    assert MadeWith(s, t) == {0};
  }

  // ------------------------------------------------------------------
  // Exactly when the bound holds
  // ------------------------------------------------------------------

  /** Every accepted declaration in these steps is one of the given (token, request id) pairs. */
  predicate Uses(steps: seq<MapStep>, pairs: set<(u64, u32)>) {
    forall i :: 0 <= i < |steps| && steps[i].InsertJob? ==> (steps[i].token, steps[i].requestId) in pairs
  }

  /** None of this token's ids is paired with another token. */
  predicate SharesNone(pairs: set<(u64, u32)>, token: u64) {
    forall p, q :: p in pairs && q in pairs && p.1 == q.1 && p.0 == token ==> q.0 == token
  }

  predicate OneShot(s: Maps, token: u64) {
    |TakersOf(s, token)| <= |MadeWith(s, token)|
  }

  lemma {:induction false} DeclarationsAreUsed(steps: seq<MapStep>, pairs: set<(u64, u32)>, d: nat)
    requires Uses(steps, pairs) && d < |Taken(steps).declarations|
    ensures (Taken(steps).declarations[d].token, Taken(steps).declarations[d].requestId) in pairs
  {
    if steps != [] {
      var s := Taken(Init(steps));
      assert Last(steps) == steps[|steps| - 1];
      DeclarationsGrow(s, Last(steps));
      hide Take;
      if d < |s.declarations| { DeclarationsAreUsed(Init(steps), pairs, d); }
    }
  }

  lemma OneShotIfSharesNone(steps: seq<MapStep>, pairs: set<(u64, u32)>, token: u64)
    requires Uses(steps, pairs) && SharesNone(pairs, token)
    ensures OneShot(Taken(steps), token)
  {
    var s := Taken(steps);
    forall d, d' | 0 <= d < |s.declarations| && 0 <= d' < |s.declarations| && s.declarations[d].token == token
                   && s.declarations[d'].requestId == s.declarations[d].requestId
      ensures s.declarations[d'].token == token
    {
      DeclarationsAreUsed(steps, pairs, d);
      DeclarationsAreUsed(steps, pairs, d');
    }
    hide Taken;
    TokensAreOneShotUnderRaces(steps, token);
  }

  /**
   * Whatever the declarations may be, a token is one-shot in every interleaving if and only if
   * no request id it is declared with is declared with another token.
   */
  lemma OneShotIffSharesNone(pairs: set<(u64, u32)>, token: u64)
    ensures (forall steps :: Uses(steps, pairs) ==> OneShot(Taken(steps), token)) <==> SharesNone(pairs, token)
  {
    hide Taken, OneShot;
    if SharesNone(pairs, token) {
      forall steps | Uses(steps, pairs) ensures OneShot(Taken(steps), token) {
        OneShotIfSharesNone(steps, pairs, token);
      }
    } else {
      var p, q :| p in pairs && q in pairs && p.1 == q.1 && p.0 == token && q.0 != token;
      assert p == (token, p.1) && q == (q.0, p.1);
      RaceBreaksOneShot(pairs, token, q.0, p.1);
    }
  }

  /** All tokens are one-shot if and only if no request id is declared with two tokens. */
  lemma OneShotIffNoneShared(pairs: set<(u64, u32)>)
    ensures (forall steps, token :: Uses(steps, pairs) ==> OneShot(Taken(steps), token))
      <==> forall p, q :: p in pairs && q in pairs && p.1 == q.1 ==> p == q
  {
    hide Taken, OneShot, Uses;
    if forall p, q :: p in pairs && q in pairs && p.1 == q.1 ==> p == q {
      forall steps, token | Uses(steps, pairs) ensures OneShot(Taken(steps), token) {
        OneShotIffSharesNone(pairs, token);
      }
    } else {
      var p, q :| p in pairs && q in pairs && p.1 == q.1 && p != q;
      assert p == (p.0, p.1) && q == (q.0, p.1);
      OneShotIffSharesNone(pairs, p.0);
    }
  }

  lemma RaceBreaksOneShot(pairs: set<(u64, u32)>, t: u64, u: u64, r: u32)
    requires (t, r) in pairs && (u, r) in pairs && t != u
    ensures exists steps :: Uses(steps, pairs) && !OneShot(Taken(steps), t)
  {
    RacingCallsTakeTwice(t, u, r);
    var steps := BothLookUp(t, r)
      + [RemoveToken(0)] + [RemoveToken(1)] + [RemoveJob(0)] + [InsertJob(u, r)] + [RemoveJob(1)];
    assert Uses(steps, pairs);
    hide Taken, TakersOf, MadeWith;
    assert !OneShot(Taken(steps), t);
  }

  // ------------------------------------------------------------------
  // Conservation, and when the invalidation counter is exact
  // ------------------------------------------------------------------

  function AllTakers(s: Maps): set<nat> {
    set c: nat | c < |s.customs| && s.customs[c].progress.TookJob?
  }

  predicate Conserved(s: Maps) {
    |s.declarations| == |s.jobs| + |AllTakers(s)| + s.dropped + s.overwritten
  }

  lemma InsertConserves(s: Maps, t: u64, r: u32)
    requires Conserved(s)
    ensures Conserved(InsertJobStep(s, t, r))
  {
    JobCache.SizeAfterInsert(s.jobs, r, |s.declarations|);
    assert AllTakers(InsertJobStep(s, t, r)) == AllTakers(s);
  }

  lemma TakersAfterRemoval(s: Maps, c: nat)
    ensures c < |s.customs| && s.customs[c].progress == DroppedToken && s.customs[c].requestId in s.jobs ==>
      AllTakers(RemoveJobStep(s, c)) == AllTakers(s) + {c} && c !in AllTakers(s)
    ensures !(c < |s.customs| && s.customs[c].progress == DroppedToken && s.customs[c].requestId in s.jobs) ==>
      AllTakers(RemoveJobStep(s, c)) == AllTakers(s)
  {
  }

  lemma RemovalConserves(s: Maps, c: nat)
    requires Conserved(s)
    ensures Conserved(RemoveJobStep(s, c))
  {
    TakersAfterRemoval(s, c);
    hide AllTakers;
    if c < |s.customs| && s.customs[c].progress == DroppedToken && s.customs[c].requestId in s.jobs {
      JobCache.SizeAfterRemove(s.jobs, s.customs[c].requestId);
    }
  }

  lemma DropConserves(s: Maps, rs: set<u32>)
    requires Conserved(s)
    ensures Conserved(DropJobsStep(s, rs))
  {
    assert s.jobs.Keys == (s.jobs - rs).Keys + (s.jobs.Keys * rs);
    assert AllTakers(DropJobsStep(s, rs)) == AllTakers(s);
  }

  lemma ClearConserves(s: Maps, f: nat)
    requires Conserved(s)
    ensures Conserved(ClearJobsStep(s, f))
  {
    assert AllTakers(ClearJobsStep(s, f)) == AllTakers(s);
  }

  lemma SameTakers(s: Maps, s': Maps)
    requires forall c: nat ::
      c < |s.customs| && s.customs[c].progress.TookJob? <==> c < |s'.customs| && s'.customs[c].progress.TookJob?
    ensures AllTakers(s') == AllTakers(s)
  {
  }

  lemma OtherStepsConserve(s: Maps, step: MapStep)
    requires Conserved(s) && (step.InsertToken? || step.GetToken? || step.RemoveToken? || step.CountJobs?)
    ensures Conserved(Take(s, step))
  {
    hide AllTakers, InsertJobStep, RemoveJobStep, DropJobsStep, ClearJobsStep;
    SameTakers(s, Take(s, step));
  }

  lemma ConservedAfter(s: Maps, step: MapStep)
    requires Conserved(s)
    ensures Conserved(Take(s, step))
  {
    hide Conserved, InsertJobStep, InsertTokenStep, RemoveTokenStep, RemoveJobStep, DropJobsStep, ClearJobsStep;
    match step
    case InsertJob(t, r) => InsertConserves(s, t, r);
    case RemoveJob(c) => RemovalConserves(s, c);
    case DropJobs(rs) => DropConserves(s, rs);
    case ClearJobs(f) => ClearConserves(s, f);
    case _ => OtherStepsConserve(s, step);
  }

  /**
   * However the operations interleave: accepted declarations are the jobs still cached, those
   * taken, those invalidation removed and those overwritten.
   */
  lemma {:induction false} ConservedUnderRaces(steps: seq<MapStep>)
    ensures Conserved(Taken(steps))
  {
    hide Conserved, Take;
    if steps == [] {
      NothingYet();
    } else {
      ConservedUnderRaces(Init(steps));
      ConservedAfter(Taken(Init(steps)), Last(steps));
    }
  }

  lemma NothingYet()
    ensures Conserved(EMPTY)
  {
    assert AllTakers(EMPTY) == {};
  }

  /** A flush keeps the size it read. */
  lemma {:induction false} CountIsKept(steps: seq<MapStep>, i: nat)
    requires i < |steps| && steps[i] == CountJobs
    ensures var f := |Taken(steps[..i]).flushes|;
      && f < |Taken(steps).flushes| && Taken(steps).flushes[f].counted == |Taken(steps[..i]).jobs|
  {
    if i == |steps| - 1 {
      assert steps[..i] == Init(steps);
    } else {
      assert Init(steps)[..i] == steps[..i];
      CountIsKept(Init(steps), i);
      FlushesGrow(Taken(Init(steps)), Last(steps));
      assert Taken(steps) == Take(Taken(Init(steps)), Last(steps));
      hide Take, Taken;
    }
  }

  /**
   * `invalidate_all` reads the size at `i` and clears at `j`. It reports what it removed if and
   * only if as many jobs were declared in between as were taken, dropped or overwritten.
   */
  lemma FlushIsExactIff(steps: seq<MapStep>, i: nat, j: nat)
    requires i < j < |steps| && steps[i] == CountJobs
    requires steps[j] == ClearJobs(|Taken(steps[..i]).flushes|)
    requires |Taken(steps[..i]).flushes| < |Taken(steps[..j]).flushes|
    requires !Taken(steps[..j]).flushes[|Taken(steps[..i]).flushes|].done
    ensures var at, s, s' := Taken(steps[..i]), Taken(steps[..j]), Taken(steps[..j + 1]);
      s'.reported - s.reported == s'.dropped - s.dropped
      <==> |s.declarations| - |at.declarations|
           == |AllTakers(s)| - |AllTakers(at)| + (s.dropped - at.dropped) + (s.overwritten - at.overwritten)
  {
    var at, s := Taken(steps[..i]), Taken(steps[..j]);
    assert Init(steps[..j + 1]) == steps[..j] && Last(steps[..j + 1]) == steps[j];
    assert Taken(steps[..j + 1]) == Take(s, steps[j]);
    assert steps[..j][..i] == steps[..i] && steps[..j][i] == steps[i];
    CountIsKept(steps[..j], i);
    ConservedUnderRaces(steps[..i]);
    ConservedUnderRaces(steps[..j]);
    hide Taken;
  }

  /** It can miss one: a job declared between the two is removed but not reported. */
  lemma RacingInsertIsNotReported(t: u64, r: u32)
    ensures var s := Taken([CountJobs] + [InsertJob(t, r)] + [ClearJobs(0)]);
      s.jobs == map[] && s.dropped == 1 && s.reported == 0
  {
    assert Taken([]) == EMPTY && [] + [CountJobs] == [CountJobs];
    var s1 := Take(EMPTY, CountJobs);
    var s2 := Take(s1, InsertJob(t, r));
    assert s1.flushes == [Flush(0, false)] && s2.jobs == map[r := 0];
    assert |s2.jobs| == 1;
    hide Taken, Take;
    OneMoreTake([], CountJobs);
    OneMoreTake([CountJobs], InsertJob(t, r));
    OneMoreTake([CountJobs] + [InsertJob(t, r)], ClearJobs(0));
    assert Take(s2, ClearJobs(0)).dropped == 1 by { ClearsOne(s2); }
    ClearsOne(s2);
  }

  lemma ClearsOne(s: Maps)
    requires s.flushes == [Flush(0, false)] && |s.jobs| == 1 && s.dropped == 0 && s.reported == 0
    ensures var s' := Take(s, ClearJobs(0)); s'.jobs == map[] && s'.dropped == 1 && s'.reported == 0
  {
  }
}
