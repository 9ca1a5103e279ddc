/** What every run of the engine keeps, and what follows about whole histories. */
module EngineRuns {
  import opened Primitives
  import opened TxCodec
  import opened Coinbase
  import opened Merkle
  import opened Block
  import opened JobCache
  import opened ShareChain
  import opened EngineModel

  // ------------------------------------------------------------------
  // Counting and looking back in a history
  // ------------------------------------------------------------------

  function CountDeclared(h: seq<Deed>): nat {
    if h == [] then 0 else CountDeclared(Init(h)) + if Last(h).Declared? then 1 else 0
  }

  function CountReplaced(h: seq<Deed>): nat {
    if h == [] then 0 else CountReplaced(Init(h)) + if Last(h).Declared? && Last(h).replacedOne then 1 else 0
  }

  function CountConsumed(h: seq<Deed>): nat {
    if h == [] then 0 else CountConsumed(Init(h)) + if Last(h).Consumed? then 1 else 0
  }

  function CountDeclaredWith(h: seq<Deed>, token: u64): nat {
    if h == [] then 0
    else CountDeclaredWith(Init(h), token) + if Last(h).Declared? && Last(h).token == token then 1 else 0
  }

  function CountConsumedWith(h: seq<Deed>, token: u64): nat {
    if h == [] then 0
    else CountConsumedWith(Init(h), token) + if Last(h).Consumed? && Last(h).token == token then 1 else 0
  }

  function CountAcceptedWith(h: seq<Deed>, token: u64): nat {
    if h == [] then 0
    else CountAcceptedWith(Init(h), token) + if Last(h) == CustomAccepted(token) then 1 else 0
  }

  /** The latest accepted declaration with this token. */
  function LatestWithToken(h: seq<Deed>, token: u64): (r: Option<Deed>)
    ensures r.Some? ==> r.value.Declared? && r.value in h && r.value.token == token
  {
    if h == [] then None
    else if Last(h).Declared? && Last(h).token == token then Some(Last(h))
    else LatestWithToken(Init(h), token)
  }

  /** The latest accepted declaration under this request id. */
  function LatestUnder(h: seq<Deed>, requestId: u32): (r: Option<Deed>)
    ensures r.Some? ==> r.value.Declared? && r.value in h && r.value.requestId == requestId
  {
    if h == [] then None
    else if Last(h).Declared? && Last(h).requestId == requestId then Some(Last(h))
    else LatestUnder(Init(h), requestId)
  }

  // ------------------------------------------------------------------
  // The invariant
  // ------------------------------------------------------------------

  /** What a job must be so that no check against it can hit an impossible arm. */
  predicate WellFormedJob(job: DeclaredJob) {
    && job.validated && job.txids.Some? && job.allocatedToken.Some?
    && Rebuild(job.prefix, job.suffix).Ok?
    && OneInput(Rebuild(job.prefix, job.suffix).value)
  }

  ghost predicate JobsWellFormed(s: EngineState) {
    forall r :: r in s.jobs ==> WellFormedJob(s.jobs[r])
  }

  /** Every accepted declaration is cached, invalidated, consumed or replaced: exactly one of them. */
  ghost predicate Conserved(s: EngineState) {
    && s.declareAccepted == CountDeclared(s.history)
    && s.declareAccepted
       == |s.jobs| + s.jobsInvalidated + CountConsumed(s.history) + CountReplaced(s.history)
    && s.customAccepted <= CountConsumed(s.history)
  }

  /** A live token has one declaration that it has not consumed. */
  ghost predicate TokensPaidFor(s: EngineState) {
    forall t: u64 ::
      && CountAcceptedWith(s.history, t) <= CountConsumedWith(s.history, t)
      && CountConsumedWith(s.history, t) + (if t in s.tokens then 1 else 0) <= CountDeclaredWith(s.history, t)
  }

  ghost predicate TracksLatest(jobs: Jobs, tokens: map<u64, u32>, h: seq<Deed>) {
    && (forall t :: t in tokens ==>
          LatestWithToken(h, t).Some? && LatestWithToken(h, t).value.requestId == tokens[t])
    && (forall r :: r in jobs ==> LatestUnder(h, r).Some? && LatestUnder(h, r).value.job == jobs[r])
  }

  /** Declared jobs carry their token; consumed jobs were the latest under the token's latest id. */
  ghost predicate HistoryExplained(h: seq<Deed>) {
    forall i :: 0 <= i < |h| ==> DeedExplained(h[..i], h[i])
  }

  ghost predicate DeedExplained(before: seq<Deed>, d: Deed) {
    match d
    case Declared(token, _, job, _) => job.allocatedToken == Some(token)
    case Consumed(token, r, job) =>
      && LatestWithToken(before, token).Some? && LatestWithToken(before, token).value.requestId == r
      && LatestUnder(before, r).Some? && LatestUnder(before, r).value.job == job
    case _ => true
  }

  ghost predicate BindingsAgree(s: EngineState) {
    s.payout.Keys == s.users.Values
  }

  ghost predicate Inv(s: EngineState) {
    && JobsWellFormed(s)
    && Conserved(s)
    && TokensPaidFor(s)
    && TracksLatest(s.jobs, s.tokens, s.history)
    && HistoryExplained(s.history)
    && BindingsAgree(s)
  }

  lemma InitialInv()
    ensures Inv(INITIAL)
  {
  }

  // ------------------------------------------------------------------
  // Each kind of change keeps it
  // ------------------------------------------------------------------

  /** One more deed: what it adds to each count, and whom it makes the latest. */
  lemma Appended(h: seq<Deed>, d: Deed)
    ensures CountDeclared(h + [d]) == CountDeclared(h) + if d.Declared? then 1 else 0
    ensures CountReplaced(h + [d]) == CountReplaced(h) + if d.Declared? && d.replacedOne then 1 else 0
    ensures CountConsumed(h + [d]) == CountConsumed(h) + if d.Consumed? then 1 else 0
  {
    assert Init(h + [d]) == h;
  }

  lemma AppendedWith(h: seq<Deed>, d: Deed, t: u64)
    ensures CountDeclaredWith(h + [d], t) == CountDeclaredWith(h, t) + if d.Declared? && d.token == t then 1 else 0
    ensures CountConsumedWith(h + [d], t) == CountConsumedWith(h, t) + if d.Consumed? && d.token == t then 1 else 0
    ensures CountAcceptedWith(h + [d], t) == CountAcceptedWith(h, t) + if d == CustomAccepted(t) then 1 else 0
  {
    assert Init(h + [d]) == h;
  }

  lemma AppendedLatest(h: seq<Deed>, d: Deed)
    ensures forall t ::
      LatestWithToken(h + [d], t) == (if d.Declared? && d.token == t then Some(d) else LatestWithToken(h, t))
    ensures forall r ::
      LatestUnder(h + [d], r) == (if d.Declared? && d.requestId == r then Some(d) else LatestUnder(h, r))
  {
    assert Init(h + [d]) == h;
  }

  lemma HistoryExtends(h: seq<Deed>, d: Deed)
    requires HistoryExplained(h) && DeedExplained(h, d)
    ensures HistoryExplained(h + [d])
  {
    var h' := h + [d];
    forall i | 0 <= i < |h'| ensures DeedExplained(h'[..i], h'[i]) {
      if i < |h| {
        assert h'[..i] == h[..i] && h'[i] == h[i];
      } else {
        assert h'[..i] == h;
      }
    }
  }

  // The three parts that follow the history, one change at a time.

  lemma CacheJobConserves(s: EngineState, token: u64, requestId: u32, job: DeclaredJob)
    requires Conserved(s)
    ensures Conserved(CacheJob(s, token, requestId, job))
  {
    Appended(s.history, Declared(token, requestId, job, requestId in s.jobs));
    SizeAfterInsert(s.jobs, requestId, job);
  }

  lemma ConsumeJobConserves(s: EngineState, token: u64, requestId: u32)
    requires Conserved(s) && requestId in s.jobs
    ensures var s' := ConsumeJob(s, token, requestId);
      Conserved(s') && s'.customAccepted < CountConsumed(s'.history)
  {
    Appended(s.history, Consumed(token, requestId, s.jobs[requestId]));
    SizeAfterRemove(s.jobs, requestId);
  }

  lemma CacheJobPays(s: EngineState, token: u64, requestId: u32, job: DeclaredJob)
    requires TokensPaidFor(s)
    ensures TokensPaidFor(CacheJob(s, token, requestId, job))
  {
    forall t: u64 { AppendedWith(s.history, Declared(token, requestId, job, requestId in s.jobs), t); }
  }

  lemma ConsumeJobPays(s: EngineState, token: u64)
    requires TokensPaidFor(s) && token in s.tokens && s.tokens[token] in s.jobs
    ensures var s' := ConsumeJob(ForgetToken(s, token), token, s.tokens[token]);
      && TokensPaidFor(s')
      && CountAcceptedWith(s'.history, token) < CountConsumedWith(s'.history, token)
  {
    forall t: u64 { AppendedWith(s.history, Consumed(token, s.tokens[token], s.jobs[s.tokens[token]]), t); }
  }

  /** A deed that declares nothing leaves every "latest" as it was. */
  lemma StillTracksLatest(jobs: Jobs, tokens: map<u64, u32>, jobs': Jobs, tokens': map<u64, u32>, h: seq<Deed>, d: Deed)
    requires TracksLatest(jobs, tokens, h) && !d.Declared?
    requires forall r :: r in jobs' ==> r in jobs && jobs'[r] == jobs[r]
    requires forall t :: t in tokens' ==> t in tokens && tokens'[t] == tokens[t]
    ensures TracksLatest(jobs', tokens', h + [d])
  {
    hide LatestWithToken, LatestUnder;
    AppendedLatest(h, d);
  }

  lemma AcceptCustomConserves(s: EngineState, token: u64)
    requires Conserved(s) && s.customAccepted < CountConsumed(s.history)
    ensures Conserved(AcceptCustom(s, token))
  {
    Appended(s.history, CustomAccepted(token));
  }

  lemma AcceptCustomPays(s: EngineState, token: u64)
    requires TokensPaidFor(s)
    requires CountAcceptedWith(s.history, token) < CountConsumedWith(s.history, token)
    ensures TokensPaidFor(AcceptCustom(s, token))
  {
    forall t: u64 { AppendedWith(s.history, CustomAccepted(token), t); }
  }

  lemma WithJobsConserves(s: EngineState, kept: Jobs)
    requires Conserved(s) && |kept| <= |s.jobs|
    ensures Conserved(WithJobs(s, kept))
  {
    Appended(s.history, Invalidated(|s.jobs| - |kept|));
  }

  lemma WithJobsPays(s: EngineState, kept: Jobs)
    requires TokensPaidFor(s) && |kept| <= |s.jobs|
    ensures TokensPaidFor(WithJobs(s, kept))
  {
    forall t: u64 { AppendedWith(s.history, Invalidated(|s.jobs| - |kept|), t); }
  }

  lemma CacheJobTracksLatest(s: EngineState, token: u64, requestId: u32, job: DeclaredJob)
    requires TracksLatest(s.jobs, s.tokens, s.history)
    ensures var s' := CacheJob(s, token, requestId, job); TracksLatest(s'.jobs, s'.tokens, s'.history)
  {
    hide LatestWithToken, LatestUnder;
    AppendedLatest(s.history, Declared(token, requestId, job, requestId in s.jobs));
  }

  lemma CacheJobKeepsInv(s: EngineState, token: u64, requestId: u32, job: DeclaredJob)
    requires Inv(s) && WellFormedJob(job) && job.allocatedToken == Some(token)
    ensures Inv(CacheJob(s, token, requestId, job))
  {
    hide WellFormedJob, HistoryExplained, Conserved, TokensPaidFor, TracksLatest;
    CacheJobConserves(s, token, requestId, job);
    CacheJobPays(s, token, requestId, job);
    CacheJobTracksLatest(s, token, requestId, job);
    HistoryExtends(s.history, Declared(token, requestId, job, requestId in s.jobs));
  }

  lemma ForgetTokenKeepsInv(s: EngineState, token: u64)
    requires Inv(s)
    ensures Inv(ForgetToken(s, token))
  {
    hide WellFormedJob, HistoryExplained;
  }

  lemma ConsumptionExplained(s: EngineState, token: u64)
    requires TracksLatest(s.jobs, s.tokens, s.history) && HistoryExplained(s.history)
    requires token in s.tokens && s.tokens[token] in s.jobs
    ensures HistoryExplained(s.history + [Consumed(token, s.tokens[token], s.jobs[s.tokens[token]])])
  {
    hide HistoryExplained, LatestWithToken, LatestUnder;
    HistoryExtends(s.history, Consumed(token, s.tokens[token], s.jobs[s.tokens[token]]));
  }

  lemma ConsumeJobKeepsInv(s: EngineState, token: u64)
    requires Inv(s) && token in s.tokens && s.tokens[token] in s.jobs
    ensures var s' := ConsumeJob(ForgetToken(s, token), token, s.tokens[token]);
      && Inv(s')
      && CountAcceptedWith(s'.history, token) < CountConsumedWith(s'.history, token)
      && s'.customAccepted < CountConsumed(s'.history)
  {
    hide WellFormedJob, HistoryExplained, Conserved, TokensPaidFor, TracksLatest, CountConsumed, CountAcceptedWith, CountConsumedWith;
    var requestId := s.tokens[token];
    var s' := ConsumeJob(ForgetToken(s, token), token, requestId);
    ConsumptionExplained(s, token);
    ConsumeJobPays(s, token);
    assert Conserved(ForgetToken(s, token)) by { ForgetTokenKeepsInv(s, token); }
    ConsumeJobConserves(ForgetToken(s, token), token, requestId);
    StillTracksLatest(s.jobs, s.tokens, s'.jobs, s'.tokens, s.history, Consumed(token, requestId, s.jobs[requestId]));
  }

  lemma AcceptCustomKeepsInv(s: EngineState, token: u64)
    requires Inv(s)
    requires CountAcceptedWith(s.history, token) < CountConsumedWith(s.history, token)
    requires s.customAccepted < CountConsumed(s.history)
    ensures Inv(AcceptCustom(s, token))
  {
    hide WellFormedJob, HistoryExplained, Conserved, TokensPaidFor, TracksLatest, CountConsumed, CountAcceptedWith, CountConsumedWith;
    AcceptCustomConserves(s, token);
    AcceptCustomPays(s, token);
    StillTracksLatest(s.jobs, s.tokens, s.jobs, s.tokens, s.history, CustomAccepted(token));
    HistoryExtends(s.history, CustomAccepted(token));
  }

  lemma WithJobsKeepsInv(s: EngineState, kept: Jobs)
    requires Inv(s) && |kept| <= |s.jobs|
    requires forall r :: r in kept ==> r in s.jobs && kept[r] == s.jobs[r]
    ensures Inv(WithJobs(s, kept))
  {
    hide WellFormedJob, HistoryExplained, Conserved, TokensPaidFor, TracksLatest;
    var d := Invalidated(|s.jobs| - |kept|);
    WithJobsConserves(s, kept);
    WithJobsPays(s, kept);
    StillTracksLatest(s.jobs, s.tokens, kept, s.tokens, s.history, d);
    HistoryExtends(s.history, d);
  }

  lemma AllocateKeepsInv(cfg: Config, s: EngineState, token: u64, user: string, budget: nat)
    requires Inv(s)
    ensures Inv(AllocateStep(cfg, s, token, user, budget).0)
  {
    hide WellFormedJob, HistoryExplained, JobsWellFormed, Conserved, TokensPaidFor, TracksLatest;
    var s' := AllocateStep(cfg, s, token, user, budget).0;
    if s' != s {
      var name := cfg.normalize(user);
      assert s'.users == s.users[name := token];
      forall t ensures t in s'.users.Values <==> t in s'.payout.Keys {
        if t in s.users.Values {
          var u :| u in s.users && s.users[u] == t;
          assert u == name ==> t == token;
          assert s'.users[u] == t;
        }
        assert s'.users[name] == token;
      }
    }
    OtherPartsUnchanged(s, s');
  }

  lemma OtherPartsUnchanged(s: EngineState, s': EngineState)
    requires s' == s.(payout := s'.payout, users := s'.users)
    ensures JobsWellFormed(s) ==> JobsWellFormed(s')
    ensures Conserved(s) ==> Conserved(s')
    ensures TokensPaidFor(s) ==> TokensPaidFor(s')
  {
  }

  lemma DropTokenPayoutKeepsInv(s: EngineState, token: u64)
    requires Inv(s)
    ensures Inv(DropTokenPayout(s, token))
  {
    hide WellFormedJob, HistoryExplained, JobsWellFormed, Conserved, TokensPaidFor, TracksLatest;
    var s' := DropTokenPayout(s, token);
    forall t ensures t in s'.users.Values <==> t in s'.payout.Keys {
      if t in s.users.Values && t != token {
        var u :| u in s.users && s.users[u] == t;
        assert s'.users[u] == t;
      }
    }
    OtherPartsUnchanged(s, s');
  }

  lemma DeclareKeepsInv(cfg: Config, s: EngineState, m: DeclareMiningJob, provided: Option<seq<Bytes>>, env: DeclareEnv)
    requires Inv(s)
    ensures Inv(DeclareStep(cfg, s, m, provided, env).0)
  {
    hide Inv, Rebuild, DecodeToken;
    if DeclareVerdict(m, provided).DeclareSuccess? {
      var token := DecodeToken(m.miningJobToken).value;
      CacheJobKeepsInv(s, token, m.requestId, Snapshot(cfg, m, token, DecodedOf(provided.value), env));
    }
  }

  lemma CustomKeepsInv(cfg: Config, s: EngineState, m: SetCustomMiningJob, token: u64, env: CustomEnv)
    requires Inv(s)
    ensures Inv(CustomStep(cfg, s, m, token, env).0)
  {
    hide Inv, CustomVerdict;
    if token in s.tokens {
      ForgetTokenKeepsInv(s, token);
      var s1, requestId := ForgetToken(s, token), s.tokens[token];
      if requestId in s.jobs {
        ConsumeJobKeepsInv(s, token);
        var s2 := ConsumeJob(s1, token, requestId);
        if CustomVerdict(cfg, s.jobs[requestId], m, env) == CustomSuccess {
          AcceptCustomKeepsInv(s2, token);
        }
      }
    }
  }

  lemma StepKeepsInv(cfg: Config, s: EngineState, e: Event)
    requires Inv(s)
    ensures Inv(Step(cfg, s, e))
  {
    hide Inv, DeclareStep, CustomStep, AllocateStep, DropTokenPayout, OnAncestry, WalkBreaks;
    match e
    case Declare(m, provided, env) => DeclareKeepsInv(cfg, s, m, provided, env);
    case SetCustom(m, token, env) => CustomKeepsInv(cfg, s, m, token, env);
    case Reorg(chain, newTip) =>
      WithJobsKeepsInv(s, map[]);
      if chain.Some? { WithJobsKeepsInv(s, Survivors(s.jobs, chain.value, newTip)); }
    case WatcherFlush => WithJobsKeepsInv(s, map[]);
    case Allocate(token, user, budget) => AllocateKeepsInv(cfg, s, token, user, budget);
    case EvictAllocated(token) => DropTokenPayoutKeepsInv(s, token);
    case EvictActive(_, token) => DropTokenPayoutKeepsInv(s, token);
  }

  lemma {:induction false} RunKeepsInv(cfg: Config, s: EngineState, es: seq<Event>)
    requires Inv(s)
    ensures Inv(RunFrom(cfg, s, es))
  {
    if es != [] {
      RunKeepsInv(cfg, s, Init(es));
      StepKeepsInv(cfg, RunFrom(cfg, s, Init(es)), Last(es));
    }
  }

  // ------------------------------------------------------------------
  // Results about whole runs
  // ------------------------------------------------------------------

  lemma EveryRunKeepsInv(cfg: Config, es: seq<Event>)
    ensures Inv(Run(cfg, es))
  {
    InitialInv();
    RunKeepsInv(cfg, INITIAL, es);
  }

  /**
   * Conservation: after any run, accepted declarations are the jobs still cached, those
   * invalidated, those consumed and those replaced; so accepted custom jobs never exceed them.
   */
  lemma AcceptedDeclarationsAreConserved(cfg: Config, es: seq<Event>)
    ensures var s := Run(cfg, es);
      && CountDeclared(s.history) == s.declareAccepted
      && s.declareAccepted == |s.jobs| + s.jobsInvalidated + CountConsumed(s.history) + CountReplaced(s.history)
      && s.customAccepted <= s.declareAccepted
  {
    EveryRunKeepsInv(cfg, es);
  }

  /** One-shot tokens: a token's accepted custom jobs never outnumber its accepted declarations. */
  lemma TokensAreOneShot(cfg: Config, es: seq<Event>, token: u64)
    ensures var h := Run(cfg, es).history;
      CountAcceptedWith(h, token) <= CountConsumedWith(h, token) <= CountDeclaredWith(h, token)
  {
    EveryRunKeepsInv(cfg, es);
  }

  /** With a well-formed job the "not validated", "cannot rebuild" and panic arms are dead. */
  lemma WellFormedJobsHaveNoDeadArms(cfg: Config, job: DeclaredJob, m: SetCustomMiningJob)
    requires WellFormedJob(job)
    ensures StructuralVerdict(cfg, job, m)
      !in {CustomRejected(JobNotYetValidated), CustomRejected(CustomInvalidCoinbaseTx), CustomPanicked}
  {
    hide Rebuild, CoinbaseVerdict;
    NoPanicWithOneInput(Rebuild(job.prefix, job.suffix).value, m);
  }

  lemma NoPanicWithOneInput(coinbase: Tx, m: SetCustomMiningJob)
    requires OneInput(coinbase)
    ensures CoinbaseVerdict(coinbase, m)
      !in {CustomRejected(JobNotYetValidated), CustomRejected(CustomInvalidCoinbaseTx), CustomPanicked}
  {
  }

  lemma NoPanicFrom(cfg: Config, s: EngineState, m: SetCustomMiningJob, token: u64, env: CustomEnv)
    requires JobsWellFormed(s)
    ensures CustomStep(cfg, s, m, token, env).1 !in {CustomPanicked, CustomRejected(JobNotYetValidated)}
  {
    hide WellFormedJob, StructuralVerdict, CandidateFor;
    if token in s.tokens && s.tokens[token] in s.jobs {
      WellFormedJobsHaveNoDeadArms(cfg, s.jobs[s.tokens[token]], m);
    }
  }

  /** No run reaches a state where a custom job panics or meets a job that is not validated. */
  lemma NoRunPanics(cfg: Config, es: seq<Event>, m: SetCustomMiningJob, token: u64, env: CustomEnv)
    ensures CustomStep(cfg, Run(cfg, es), m, token, env).1 !in {CustomPanicked, CustomRejected(JobNotYetValidated)}
  {
    EveryRunKeepsInv(cfg, es);
    hide Run, CustomStep;
    NoPanicFrom(cfg, Run(cfg, es), m, token, env);
  }

  /** Accepted declarations never give one request id to two tokens. */
  ghost predicate RequestIdsNotShared(h: seq<Deed>) {
    forall d, d' :: d in h && d' in h && d.Declared? && d'.Declared? && d.requestId == d'.requestId ==> d.token == d'.token
  }

  /**
   * Whatever a token consumes, in any run, is the latest job declared under the request id of
   * the token's own latest declaration.
   */
  lemma ConsumedJobIsLatest(cfg: Config, es: seq<Event>, i: nat)
    requires i < |Run(cfg, es).history| && Run(cfg, es).history[i].Consumed?
    ensures var h, d := Run(cfg, es).history, Run(cfg, es).history[i];
      && LatestWithToken(h[..i], d.token).Some? && LatestWithToken(h[..i], d.token).value.requestId == d.requestId
      && LatestUnder(h[..i], d.requestId).Some? && LatestUnder(h[..i], d.requestId).value.job == d.job
  {
    EveryRunKeepsInv(cfg, es);
    assert DeedExplained(Run(cfg, es).history[..i], Run(cfg, es).history[i]);
  }

  lemma DeclaredJobNamesItsToken(h: seq<Deed>, d: Deed)
    requires HistoryExplained(h) && d in h && d.Declared?
    ensures d.job.allocatedToken == Some(d.token)
  {
    var k :| 0 <= k < |h| && h[k] == d;
    assert DeedExplained(h[..k], h[k]);
  }

  /**
   * The job a token consumes is its own exactly when the latest accepted declaration under the
   * request id it resolves to was made with that token, which can be read off before the call.
   */
  lemma ConsumedJobIsOwnIff(cfg: Config, es: seq<Event>, i: nat)
    requires i < |Run(cfg, es).history| && Run(cfg, es).history[i].Consumed?
    ensures var h, d := Run(cfg, es).history, Run(cfg, es).history[i];
      && LatestUnder(h[..i], d.requestId).Some?
      && (d.job.allocatedToken == Some(d.token) <==> LatestUnder(h[..i], d.requestId).value.token == d.token)
  {
    ConsumedJobIsLatest(cfg, es, i);
    EveryRunKeepsInv(cfg, es);
    var h := Run(cfg, es).history;
    hide Run, Inv;
    assert HistoryExplained(h);
    DeclaredJobNamesItsToken(h, LatestUnder(h[..i], h[i].requestId).value);
  }

  /** Without shared request ids, a token's latest declaration is the latest under its request id. */
  lemma {:induction false} LatestAgree(h: seq<Deed>, token: u64, requestId: u32)
    requires RequestIdsNotShared(h)
    requires LatestWithToken(h, token).Some? && LatestWithToken(h, token).value.requestId == requestId
    ensures LatestUnder(h, requestId) == LatestWithToken(h, token)
  {
    var last, mine := Last(h), LatestWithToken(h, token).value;
    assert last in h && mine in h;
    if !(last.Declared? && last.token == token) {
      assert forall d :: d in Init(h) ==> d in h;
      LatestAgree(Init(h), token, requestId);
    }
  }

  /** So in a run that shares no request id a token consumes the job of its own latest declaration. */
  lemma ConsumedJobIsTheTokensOwn(cfg: Config, es: seq<Event>, i: nat)
    requires i < |Run(cfg, es).history| && Run(cfg, es).history[i].Consumed?
    requires RequestIdsNotShared(Run(cfg, es).history)
    ensures var h, d := Run(cfg, es).history, Run(cfg, es).history[i];
      && LatestWithToken(h[..i], d.token).Some?
      && d.job == LatestWithToken(h[..i], d.token).value.job
      && d.job.allocatedToken == Some(d.token)
  {
    ConsumedJobIsLatest(cfg, es, i);
    ConsumedJobIsOwnIff(cfg, es, i);
    var h := Run(cfg, es).history;
    hide Run;
    assert forall d :: d in h[..i] ==> d in h;
    LatestAgree(h[..i], h[i].token, h[i].requestId);
  }

  /**
   * Sharing does break it: two declarations under one request id, and the first token gets the
   * second token's job, for any two messages the engine accepts.
   */
  lemma SharedRequestIdsSwapJobs(
      cfg: Config, first: DeclareMiningJob, second: DeclareMiningJob, bodies: seq<Bytes>, env: DeclareEnv,
      custom: SetCustomMiningJob, customEnv: CustomEnv)
    requires DeclareVerdict(first, Some(bodies)) == DeclareSuccess
    requires DeclareVerdict(second, Some(bodies)) == DeclareSuccess
    requires first.requestId == second.requestId
    requires DecodeToken(first.miningJobToken) != DecodeToken(second.miningJobToken)
    ensures var token := DecodeToken(first.miningJobToken).value;
      var s := Run(cfg, [Declare(first, Some(bodies), env), Declare(second, Some(bodies), env), SetCustom(custom, token, customEnv)]);
      && |s.history| >= 3 && s.history[2].Consumed? && s.history[2].token == token
      && s.history[2].job.allocatedToken == DecodeToken(second.miningJobToken) != Some(token)
  {
    hide DecodeToken, CustomVerdict, Rebuild, DecodedOf;
    var token := DecodeToken(first.miningJobToken).value;
    var e1, e2, e3 := Declare(first, Some(bodies), env), Declare(second, Some(bodies), env), SetCustom(custom, token, customEnv);
    assert Init([e1]) == [] && Init([e1, e2]) == [e1] && Init([e1, e2, e3]) == [e1, e2];
    var s1 := Step(cfg, INITIAL, e1);
    var s2 := Step(cfg, s1, e2);
    assert Last([e1]) == e1 && Last([e1, e2]) == e2 && Last([e1, e2, e3]) == e3;
    assert RunFrom(cfg, INITIAL, []) == INITIAL;
    assert RunFrom(cfg, INITIAL, [e1]) == s1;
    assert RunFrom(cfg, INITIAL, [e1, e2]) == s2;
    assert RunFrom(cfg, INITIAL, [e1, e2, e3]) == Step(cfg, s2, e3);
  }

  // ------------------------------------------------------------------
  // Reorgs and payout bindings
  // ------------------------------------------------------------------

  /**
   * After a reorg whose walk meets no missing or unreadable header, a cached job survives
   * unchanged iff parents lead from the new tip to its captured tip in at most 100 hops;
   * otherwise nothing survives. Either way no survivor is off the new tip's ancestry.
   */
  lemma ReorgKeepsExactlyDescendants(s: EngineState, chain: HeaderMap, newTip: Hash, r: u32)
    ensures var s' := ReorgStep(s, Some(chain), newTip);
      && (r in s'.jobs <==>
            && r in s.jobs && !WalkBreaks(chain, newTip)
            && s.jobs[r].shareChainTip.Some?
            && exists path :: |path| <= 101 && Descends(chain, newTip, s.jobs[r].shareChainTip.value, path))
      && (r in s'.jobs ==> s'.jobs[r] == s.jobs[r])
      && s'.jobsInvalidated - s.jobsInvalidated == |s.jobs| - |s'.jobs|
  {
    hide OnAncestry, WalkBreaks, Descends;
    if r in s.jobs && s.jobs[r].shareChainTip.Some? {
      AncestryIsAChain(chain, newTip, s.jobs[r].shareChainTip.value);
    }
  }

  /** After any run the two binding maps speak of the same tokens. */
  lemma BindingMapsAgree(cfg: Config, es: seq<Event>)
    ensures Run(cfg, es).payout.Keys == Run(cfg, es).users.Values
  {
    EveryRunKeepsInv(cfg, es);
  }

  predicate Evicts(e: Event, token: u64) {
    match e
    case EvictAllocated(t) => t == token
    case EvictActive(_, t) => t == token
    case _ => false
  }

  lemma DeclareKeepsUsers(cfg: Config, s: EngineState, m: DeclareMiningJob, provided: Option<seq<Bytes>>, env: DeclareEnv)
    ensures DeclareStep(cfg, s, m, provided, env).0.users == s.users
  {
    hide DeclareVerdict, Snapshot, DecodeToken, DecodedOf;
  }

  lemma CustomKeepsUsers(cfg: Config, s: EngineState, m: SetCustomMiningJob, token: u64, env: CustomEnv)
    ensures CustomStep(cfg, s, m, token, env).0.users == s.users
  {
    hide CustomVerdict;
  }

  lemma ReorgKeepsUsers(s: EngineState, chain: Option<HeaderMap>, newTip: Hash)
    ensures ReorgStep(s, chain, newTip).users == s.users
  {
    hide WalkBreaks, Survivors;
  }

  lemma AllocationKeepsBinding(cfg: Config, s: EngineState, token: u64, user: string, budget: nat, bound: string)
    requires bound in s.users
    ensures var s' := AllocateStep(cfg, s, token, user, budget).0; bound in s'.users && s'.users[bound] == s.users[bound]
  {
    hide EncodeOut;
  }

  lemma BindingSurvivesStep(cfg: Config, s: EngineState, e: Event, user: string)
    requires user in s.users && !Evicts(e, s.users[user])
    ensures user in Step(cfg, s, e).users && Step(cfg, s, e).users[user] == s.users[user]
  {
    hide DeclareStep, CustomStep, ReorgStep, AllocateStep;
    match e
    case Declare(m, provided, env) => DeclareKeepsUsers(cfg, s, m, provided, env);
    case SetCustom(m, token, env) => CustomKeepsUsers(cfg, s, m, token, env);
    case Reorg(chain, newTip) => ReorgKeepsUsers(s, chain, newTip);
    case WatcherFlush =>
    case Allocate(token, name, budget) => AllocationKeepsBinding(cfg, s, token, name, budget, user);
    case EvictAllocated(token) =>
    case EvictActive(_, token) =>
  }

  /** A user's binding stays with its token through any events that do not evict that token. */
  lemma {:induction false} BindingStaysUntilEvicted(cfg: Config, s: EngineState, es: seq<Event>, user: string)
    requires user in s.users
    requires forall i :: 0 <= i < |es| ==> !Evicts(es[i], s.users[user])
    ensures user in RunFrom(cfg, s, es).users && RunFrom(cfg, s, es).users[user] == s.users[user]
  {
    hide Step;
    if es != [] {
      BindingStaysUntilEvicted(cfg, s, Init(es), user);
      BindingSurvivesStep(cfg, RunFrom(cfg, s, Init(es)), Last(es), user);
    }
  }

  /** Eviction takes exactly its token out of both maps, in every reachable state. */
  lemma EvictionRemovesExactlyItsToken(cfg: Config, es: seq<Event>, e: Event, token: u64)
    requires Evicts(e, token)
    ensures var s, s' := Run(cfg, es), Step(cfg, Run(cfg, es), e);
      && s' == s.(payout := s.payout - {token}, users := s'.users)
      && (forall u :: u in s'.users <==> u in s.users && s.users[u] != token)
      && (forall u :: u in s'.users ==> s'.users[u] == s.users[u])
  {
    BindingMapsAgree(cfg, es);
    var s := Run(cfg, es);
    if token !in s.payout {
      assert s.payout - {token} == s.payout;
      assert forall u :: u in s.users ==> s.users[u] in s.users.Values;
    }
  }
}
