/** What the authenticator promises over whole runs (docs/authentication.md, lines 119 to 141). */
module AuthGuarantees {
  import opened Text
  import opened AuthConfig
  import opened GroupsHeader
  import opened TokenReview
  import opened ReviewCache
  import opened AuthSystem

  ghost predicate Injective(digest: string -> Digest) {
    forall t, u :: digest(t) == digest(u) ==> t == u
  }

  /** No other token presented so far has the digest of this one. */
  ghost predicate DigestTells(c: Setup, s: State, token: string) {
    forall i :: i in s.calls && c.digest(s.calls[i].token) == c.digest(token) ==> s.calls[i].token == token
  }

  /** Calls keep their tokens, and every logged review reviewed the token of its caller. */
  ghost predicate TokensKept(s: State) {
    forall r :: r in s.log ==> r.caller in s.calls && s.calls[r.caller].token == r.token
  }

  /** A step neither drops a call nor changes its token. */
  lemma StepKeepsCalls(c: Setup, s: State, l: Label, i: CallId)
    requires i in s.calls && Step(c, s, l).Some?
    ensures var t := Step(c, s, l).value; i in t.calls && t.calls[i].token == s.calls[i].token
  {
    hide Decide, Publish, Admits, Read;
  }

  lemma StepLogsCaller(c: Setup, s: State, l: Label)
    requires Step(c, s, l).Some?
    ensures var t := Step(c, s, l).value;
            t.log == s.log
            || exists r :: t.log == s.log + [r] && r.caller in s.calls && s.calls[r.caller].token == r.token
  {
    hide Decide, Publish, Admits, Read;
    if l.Answer? {
      var r := Review(l.id, s.calls[l.id].token, s.calls[l.id].started, s.clock, l.reply, Decide(c.config, l.reply));
      assert Step(c, s, l).value.log == s.log + [r];
    }
  }

  lemma StepKeepsTokens(c: Setup, s: State, l: Label)
    requires TokensKept(s) && Step(c, s, l).Some?
    ensures TokensKept(Step(c, s, l).value)
  {
    hide Step;
    StepLogsCaller(c, s, l);
    var t := Step(c, s, l).value;
    forall r | r in t.log ensures r.caller in t.calls && t.calls[r.caller].token == r.token {
      assert r.caller in s.calls && s.calls[r.caller].token == r.token;
      StepKeepsCalls(c, s, l, r.caller);
    }
  }

  lemma {:induction false} RunKeepsTokens(c: Setup, labels: seq<Label>)
    requires Run(c, labels).Some?
    ensures TokensKept(Run(c, labels).value)
  {
    hide Step;
    if labels != [] {
      RunKeepsTokens(c, labels[..|labels| - 1]);
      StepKeepsTokens(c, Run(c, labels[..|labels| - 1]).value, labels[|labels| - 1]);
    }
  }

  lemma {:induction false} LogIsFaithful(c: Setup, labels: seq<Label>)
    requires Run(c, labels).Some?
    ensures forall r :: r in Run(c, labels).value.log ==> r.outcome == Decide(c.config, r.reply)
  {
    if labels != [] {
      var earlier := labels[..|labels| - 1];
      LogIsFaithful(c, earlier);
      var s, l := Run(c, earlier).value, labels[|labels| - 1];
      StepLogs(c, s, l);
    }
  }

  /** A step adds at most one review to the log, with the verdict that its reply deserves. */
  lemma StepLogs(c: Setup, s: State, l: Label)
    requires Step(c, s, l).Some?
    ensures var t := Step(c, s, l).value;
            t.log == s.log || (|t.log| == |s.log| + 1 && t.log[..|s.log|] == s.log
                               && t.log[|s.log|].outcome == Decide(c.config, t.log[|s.log|].reply))
  {
    if l.Answer? {
      var outcome := Decide(c.config, l.reply);
      assert Step(c, s, l).value.log ==
             s.log + [Review(l.id, s.calls[l.id].token, s.calls[l.id].started, s.clock, l.reply, outcome)];
    }
  }

  /** The principal was granted by the call's own review, or by a review of the same token that had
      been answered when the hit was decided at `at`, less than the TTL after that review's call began. */
  ghost predicate BackedByReview(c: Setup, s: State, id: CallId, token: string, p: Principal, at: int) {
    exists r :: r in s.log && r.token == token && Decide(c.config, r.reply) == Success(p)
                && r.answered <= at && (r.caller == id || at < r.started + c.config.cacheTTL)
  }

  /** Cache refinement: whatever the interleaving, a success is what some recent enough review of the
      very same token granted, if no other token presented in the run has the same digest; an error
      comes from the call's own review or its own context in any case. */
  lemma AuthenticateRefinesReviews(c: Setup, labels: seq<Label>, id: CallId)
    requires Run(c, labels).Some? && id in Run(c, labels).value.calls
    requires Run(c, labels).value.calls[id].Returned?
    ensures var s := Run(c, labels).value;
            var call := s.calls[id];
            match call.result
            case Success(p) => DigestTells(c, s, call.token) ==> BackedByReview(c, s, id, call.token, p, call.at)
            case Failure(e) =>
              || (exists r :: r in s.log && r.caller == id && r.token == call.token && Decide(c.config, r.reply) == Failure(e))
              || (e == Unavailable && id in s.done)
  {
    hide RunFrom, Decide;
    RunKeepsInv(c, labels);
    LogIsFaithful(c, labels);
    RunKeepsTokens(c, labels);
    var s := Run(c, labels).value;
    assert CallOk(c, s, id, s.calls[id]);
  }

  /** With the cache off every success is the call's own review. */
  lemma WithoutCacheEverySuccessIsReviewed(c: Setup, labels: seq<Label>, id: CallId)
    requires c.config.cacheTTL == 0
    requires Run(c, labels).Some? && id in Run(c, labels).value.calls
    requires var call := Run(c, labels).value.calls[id]; call.Returned? && call.result.Success?
    ensures var s := Run(c, labels).value;
            exists r :: r in s.log && r.caller == id && r.token == s.calls[id].token
                        && Decide(c.config, r.reply) == s.calls[id].result
  {
    hide RunFrom, Decide;
    RunKeepsInv(c, labels);
    LogIsFaithful(c, labels);
    var s := Run(c, labels).value;
    assert CallOk(c, s, id, s.calls[id]);
  }

  /** Revocation: once no review of a token answered at or after `revoked` grants it, no success for
      the token is decided at or after `revoked` plus the TTL. */
  lemma RevocationTakesEffectWithinTTL(c: Setup, labels: seq<Label>, id: CallId, revoked: int)
    requires Accepted(c.config)
    requires Run(c, labels).Some? && id in Run(c, labels).value.calls
    requires DigestTells(c, Run(c, labels).value, Run(c, labels).value.calls[id].token)
    requires var call := Run(c, labels).value.calls[id]; call.Returned? && call.result.Success?
    requires var s := Run(c, labels).value;
             forall r :: r in s.log && r.token == s.calls[id].token && Decide(c.config, r.reply).Success? ==> r.answered < revoked
    ensures Run(c, labels).value.calls[id].at < revoked + c.config.cacheTTL
  {
    hide RunFrom, Decide;
    RunKeepsInv(c, labels);
    LogIsFaithful(c, labels);
    RunKeepsTokens(c, labels);
    var s := Run(c, labels).value;
    assert CallOk(c, s, id, s.calls[id]);
  }

  /** Some review in the log granted the principal that a call returned. */
  lemma SuccessHasReview(c: Setup, labels: seq<Label>, id: CallId) returns (r: Review)
    requires Run(c, labels).Some? && id in Run(c, labels).value.calls
    requires var call := Run(c, labels).value.calls[id]; call.Returned? && call.result.Success?
    ensures r in Run(c, labels).value.log && r.outcome == Run(c, labels).value.calls[id].result
  {
    RunKeepsInv(c, labels);
    var s := Run(c, labels).value;
    assert CallOk(c, s, id, s.calls[id]);
    var call := s.calls[id];
    assert Justified(c, s, id, call.token, call.result.value, call.at);
    var granted :| granted in s.log && Grants(granted, call.result.value);
    assert Grants(granted, call.result.value);
    assert granted.outcome == Success(call.result.value);
    r := granted;
    assert call.result == Success(call.result.value);
  }

  /** A review whose reply grants the principal, field by field: it is authenticated, carries no error, is
      meant for a configured audience, and names the principal. */
  ghost predicate ReplyGrantsPrincipal(c: Setup, r: Review, p: Principal) {
    ReplyGrants(c.config, r.reply) && Bears(c.config, r.reply, p)
  }

  /** Every answer in terms of the replies: a principal handed out, cached or not, was granted by a reply
      in the log, and by a recent enough one to the same token if digests tell; an error is deserved by
      what the call's own reply lacks, or by a reply without a status, or the call's context ended. */
  lemma AnswersAreDeserved(c: Setup, labels: seq<Label>, id: CallId)
    requires Run(c, labels).Some? && id in Run(c, labels).value.calls
    requires Run(c, labels).value.calls[id].Returned?
    ensures var s := Run(c, labels).value;
            var call := s.calls[id];
            match call.result
            case Success(p) =>
              && (exists r :: r in s.log && ReplyGrantsPrincipal(c, r, p))
              && (DigestTells(c, s, call.token) ==>
                    exists r :: r in s.log && ReplyGrantsPrincipal(c, r, p) && r.token == call.token
                      && r.answered <= call.at && (r.caller == id || call.at < r.started + c.config.cacheTTL))
            case Failure(Unauthenticated) =>
              exists r :: r in s.log && r.caller == id && r.token == call.token && r.reply.Status? && !ReplyGrants(c.config, r.reply)
            case Failure(Unavailable) =>
              id in s.done || exists r :: r in s.log && r.caller == id && r.token == call.token && r.reply.NoStatus?
  {
    hide RunFrom, Decide, ReplyGrants, Bears, DigestTells;
    var s := Run(c, labels).value;
    var call := s.calls[id];
    AuthenticateRefinesReviews(c, labels, id);
    forall r | r in s.log
      ensures forall p :: Decide(c.config, r.reply) == Success(p) <==> ReplyGrantsPrincipal(c, r, p)
      ensures Decide(c.config, r.reply) == Failure(Unauthenticated) <==> r.reply.Status? && !ReplyGrants(c.config, r.reply)
      ensures Decide(c.config, r.reply) == Failure(Unavailable) <==> r.reply.NoStatus?
    {
      DecidesExactly(c.config, r.reply);
    }
    if call.result.Success? {
      LogIsFaithful(c, labels);
      var r := SuccessHasReview(c, labels, id);
      assert ReplyGrantsPrincipal(c, r, call.result.value);
    }
  }

  /** Every principal handed out, cached or not, has groups that survive the CSV form. */
  lemma HandedGroupsSurviveCsv(c: Setup, labels: seq<Label>, id: CallId)
    requires Accepted(c.config)
    requires Run(c, labels).Some? && id in Run(c, labels).value.calls
    requires var call := Run(c, labels).value.calls[id]; call.Returned? && call.result.Success?
    ensures var p := Run(c, labels).value.calls[id].result.value; SplitGroups(Join(p.groups, ',')) == p.groups
  {
    var r := SuccessHasReview(c, labels, id);
    LogIsFaithful(c, labels);
    GrantedGroupsSurviveCsv(c.config, r.reply);
  }

  /** Slots: occupied slots are exactly the calls inside a review, at most 32, and none is left
      behind when every call has returned by whatever path. */
  lemma SlotsAreConserved(c: Setup, labels: seq<Label>)
    requires Run(c, labels).Some?
    ensures var s := Run(c, labels).value;
            && s.slots == |set id | id in s.calls && s.calls[id].Reviewing?| <= MAX_CONCURRENT_REVIEWS
            && ((forall id :: id in s.calls ==> s.calls[id].Returned?) ==> s.slots == 0)
  {
    RunKeepsInv(c, labels);
    var s := Run(c, labels).value;
    var inside := set id | id in s.calls && s.calls[id].Reviewing?;
    assert inside == Holders(s.calls);
    if forall id :: id in s.calls ==> s.calls[id].Returned? {
      assert inside == {};
    }
  }

  /** The cache is bounded in size and in time: no deadline is further away than the TTL. */
  lemma CacheIsBounded(c: Setup, labels: seq<Label>)
    requires Run(c, labels).Some?
    ensures var s := Run(c, labels).value;
            && |s.cache| <= MAX_CACHED_REVIEWS
            && forall k :: k in s.cache ==> s.cache[k].expires <= s.clock + c.config.cacheTTL
  {
    RunKeepsInv(c, labels);
    var s := Run(c, labels).value;
    forall k | k in s.cache ensures s.cache[k].expires <= s.clock + c.config.cacheTTL {
      assert CachedOk(c, s, k, s.cache[k], s.clock);
      var r :| r in s.log && Grants(r, Read(s.heap, s.cache[k].principal))
               && s.cache[k].expires == r.started + c.config.cacheTTL;
    }
  }

  /** Right after a review is published no entry is expired. */
  lemma NothingExpiredAfterStore(c: Setup, labels: seq<Label>, id: CallId)
    requires Run(c, labels).Some? && Step(c, Run(c, labels).value, Store(id)).Some?
    ensures var t := Step(c, Run(c, labels).value, Store(id)).value;
            forall k :: k in t.cache ==> t.clock < t.cache[k].expires
  {
    var s := Run(c, labels).value;
    CacheIsBounded(c, labels);
    var Publishing(token, started, held, _) := s.calls[id];
    PublishKeepsLiveEntries(s.cache, c.digest(token), Held(held.identity, |s.heap|), started, c.config.cacheTTL, s.clock);
  }

  /** Publishing, in terms of the entries: those before their deadline stay as they are, and the review's
      principal joins them if and only if its key is not among them, there are fewer than 256 of them, and
      its own deadline, the start of the call plus the TTL, is still ahead. */
  lemma StoreCachesExactly(c: Setup, labels: seq<Label>, id: CallId)
    requires Run(c, labels).Some? && Step(c, Run(c, labels).value, Store(id)).Some?
    ensures var s := Run(c, labels).value;
            var t := Step(c, s, Store(id)).value;
            var (key, deadline) := (c.digest(s.calls[id].token), s.calls[id].started + c.config.cacheTTL);
            var live := set k | k in s.cache && s.clock < s.cache[k].expires;
            var joins := key !in live && |live| < 256 && s.clock < deadline;
            && t.cache.Keys == (if joins then live + {key} else live)
            && (forall k :: k in live ==> t.cache[k] == s.cache[k])
            && (joins ==>
                  && t.cache[key].expires == deadline
                  && t.cache[key].principal.groups < |t.heap| && s.calls[id].held.groups < |s.heap|
                  && Read(t.heap, t.cache[key].principal) == Read(s.heap, s.calls[id].held))
  {
    var s := Run(c, labels).value;
    var live := set k | k in s.cache && s.clock < s.cache[k].expires;
    var swept := Sweep(s.cache, s.clock);
    assert swept.Keys == live && |swept| == |swept.Keys|;
  }

  /** No call is ever stuck: one that has not returned can move, unless it waits for a slot while all 32
      are taken; then another call is inside a review, and its answer, whatever it is, makes room. */
  lemma NobodyIsStuck(c: Setup, labels: seq<Label>, id: CallId)
    requires Run(c, labels).Some? && id in Run(c, labels).value.calls && !Run(c, labels).value.calls[id].Returned?
    ensures var s := Run(c, labels).value;
            || (exists l :: l in [Enter(id), Lookup(id), Check(id), Clone(id), Acquire(id), Store(id)] && Step(c, s, l).Some?)
            || (s.calls[id].Reviewing? && forall reply :: Step(c, s, Answer(id, reply)).Some?)
            || (s.calls[id].Waiting? && s.slots == 32
                && exists other :: other in s.calls && s.calls[other].Reviewing?
                     && forall reply :: var t := Step(c, s, Answer(other, reply)); t.Some? && Step(c, t.value, Acquire(id)).Some?)
  {
    hide RunFrom, Decide, Publish, Admits, CallOk, CachedOk, StoreStep, CloneStep, AnswerStep, EnterStep, LookupStep, CheckStep, OverwriteStep;
    RunKeepsInv(c, labels);
    var s := Run(c, labels).value;
    if s.calls[id].Waiting? && s.slots == 32 {
      var other :| other in Holders(s.calls);
      forall reply ensures var t := Step(c, s, Answer(other, reply)); t.Some? && Step(c, t.value, Acquire(id)).Some? {
        var t := Step(c, s, Answer(other, reply)).value;
        AnswerMakesRoom(c, s, other, id, reply);
      }
    } else if s.calls[id].Waiting? {
      assert Step(c, s, Acquire(id)).Some?;
    } else {
      OwnStepApplies(c, s, id);
    }
  }

  /** A call whose context ended before it began is refused, and asks nobody. */
  ghost predicate RefusedUnasked(s: State, id: CallId) {
    && id in s.done
    && (id in s.calls ==> s.calls[id].Entered? || (s.calls[id].Returned? && s.calls[id].result == Failure(Unavailable) && s.calls[id].handed.None?))
    && forall r :: r in s.log ==> r.caller != id
  }

  lemma StepKeepsRefused(c: Setup, s: State, l: Label, id: CallId)
    requires RefusedUnasked(s, id) && Step(c, s, l).Some?
    ensures RefusedUnasked(Step(c, s, l).value, id)
  {
    hide Decide, Publish, Admits, Read;
    if l.Answer? {
      var r := Review(l.id, s.calls[l.id].token, s.calls[l.id].started, s.clock, l.reply, Decide(c.config, l.reply));
      assert l.id != id && Step(c, s, l).value.log == s.log + [r];
    } else {
      assert Step(c, s, l).value.log == s.log;
    }
    var t := Step(c, s, l).value;
    assert id in t.calls ==> t.calls[id].Entered? || (t.calls[id].Returned? && t.calls[id].result == Failure(Unavailable) && t.calls[id].handed.None?);
  }

  lemma {:induction false} EndedCallIsRefused(c: Setup, before: seq<Label>, labels: seq<Label>, id: CallId)
    requires Run(c, before).Some? && RunFrom(c, Run(c, before).value, labels).Some?
    requires id in Run(c, before).value.done && id !in Run(c, before).value.calls
    ensures RefusedUnasked(RunFrom(c, Run(c, before).value, labels).value, id)
  {
    hide Step, RefusedUnasked;
    var s := Run(c, before).value;
    if labels == [] {
      RunKeepsTokens(c, before);
      NotYetCalled(s, id);
    } else {
      EndedCallIsRefused(c, before, labels[..|labels| - 1], id);
      StepKeepsRefused(c, RunFrom(c, s, labels[..|labels| - 1]).value, labels[|labels| - 1], id);
    }
  }

  lemma NotYetCalled(s: State, id: CallId)
    requires TokensKept(s) && id in s.done && id !in s.calls
    ensures RefusedUnasked(s, id)
  {
  }

  lemma CachedIsThere(c: Setup, s: State, key: Digest, e: Entry<Held>, known: int)
    requires CachedOk(c, s, key, e, known)
    ensures e.principal.groups < |s.heap|
  {
  }

  lemma OwnStepApplies(c: Setup, s: State, id: CallId)
    requires Inv(c, s) && id in s.calls && !s.calls[id].Returned? && !s.calls[id].Waiting?
    ensures (exists l :: l in [Enter(id), Lookup(id), Check(id), Clone(id), Acquire(id), Store(id)] && Step(c, s, l).Some?)
            || (s.calls[id].Reviewing? && forall reply :: Step(c, s, Answer(id, reply)).Some?)
  {
    hide Decide, Publish, Admits, EnterStep, LookupStep, CheckStep, AnswerStep, OverwriteStep, CachedOk, Justified, Refused;
    assert CallOk(c, s, id, s.calls[id]);
    if s.calls[id].Cloning? {
      assert CachedOk(c, s, c.digest(s.calls[id].token), s.calls[id].entry, s.calls[id].checked);
      CachedIsThere(c, s, c.digest(s.calls[id].token), s.calls[id].entry, s.calls[id].checked);
    }
    match s.calls[id]
    case Entered(_) => assert Step(c, s, Enter(id)).Some?;
    case Looking(_, _) => assert Step(c, s, Lookup(id)).Some?;
    case Checking(_, _, _) => assert Step(c, s, Check(id)).Some?;
    case Cloning(_, _, _) => assert Step(c, s, Clone(id)).Some?;
    case Publishing(_, _, _, _) => assert Step(c, s, Store(id)).Some?;
    case _ =>
  }

  lemma AnswerMakesRoom(c: Setup, s: State, other: CallId, id: CallId, reply: Reply)
    requires other in s.calls && s.calls[other].Reviewing? && id in s.calls && s.calls[id].Waiting? && s.slots == 32
    ensures var t := Step(c, s, Answer(other, reply)); t.Some? && Step(c, t.value, Acquire(id)).Some?
  {
    hide Decide;
  }

  lemma AnswerFrame(c: Setup, s: State, id: CallId, token: string, started: int, reply: Reply, outcome: Outcome)
    ensures var t := AnswerStep(c, s, id, token, started, reply, outcome);
            t.clock == s.clock && t.cache == s.cache && s.heap <= t.heap
  {
  }

  /** Only publishing touches the cache, and only callers write to existing lists. */
  lemma StepFrame(c: Setup, s: State, l: Label)
    requires Step(c, s, l).Some?
    ensures var t := Step(c, s, l).value;
            && s.clock <= t.clock
            && (!l.Store? ==> t.cache == s.cache)
            && (!l.Overwrite? ==> s.heap <= t.heap)
  {
    if l.Answer? {
      var Reviewing(token, started) := s.calls[l.id];
      AnswerFrame(c, s, l.id, token, started, l.reply, Decide(c.config, l.reply));
    }
  }

  /** One step neither drops nor alters an entry before its deadline, the group list included. */
  lemma StepKeepsLiveEntry(c: Setup, s: State, l: Label, k: Digest)
    requires Inv(c, s) && k in s.cache && Step(c, s, l).Some?
    ensures var t := Step(c, s, l).value;
            && (t.clock < s.cache[k].expires ==> k in t.cache && t.cache[k] == s.cache[k])
            && s.cache[k].principal.groups < |s.heap| <= |t.heap|
            && Read(t.heap, s.cache[k].principal) == Read(s.heap, s.cache[k].principal)
  {
    StepFrame(c, s, l);
    assert CachedOk(c, s, k, s.cache[k], s.clock);
    if l.Overwrite? {
      assert CallOk(c, s, l.id, s.calls[l.id]);
    } else if l.Store? {
      var Publishing(token, started, held, _) := s.calls[l.id];
      PublishKeepsLiveEntries(s.cache, c.digest(token), Held(held.identity, |s.heap|), started, c.config.cacheTTL, s.clock);
    }
  }

  /** Fixed deadlines over any stretch of a run: until its deadline an entry stays, with the same
      deadline and the same principal, whatever callers do to the lists they were handed. */
  lemma {:induction false} LiveEntriesNeverChange(c: Setup, before: seq<Label>, labels: seq<Label>, k: Digest)
    requires Run(c, before).Some? && RunFrom(c, Run(c, before).value, labels).Some?
    requires k in Run(c, before).value.cache
    ensures var s := Run(c, before).value;
            var t := RunFrom(c, s, labels).value;
            && Inv(c, s) && Inv(c, t) && s.clock <= t.clock
            && (t.clock < s.cache[k].expires ==>
                  && k in t.cache && t.cache[k] == s.cache[k]
                  && s.cache[k].principal.groups < |s.heap| <= |t.heap|
                  && Read(t.heap, t.cache[k].principal) == Read(s.heap, s.cache[k].principal))
  {
    RunKeepsInv(c, before);
    var s := Run(c, before).value;
    if labels == [] {
      assert CachedOk(c, s, k, s.cache[k], s.clock);
    } else {
      var earlier, l := labels[..|labels| - 1], labels[|labels| - 1];
      LiveEntriesNeverChange(c, before, earlier, k);
      var m := RunFrom(c, s, earlier).value;
      StepKeepsInv(c, m, l);
      StepFrame(c, m, l);
      if k in m.cache {
        StepKeepsLiveEntry(c, m, l, k);
      }
    }
  }

  /** Past its deadline an entry may linger, but nothing changes it: as long as no call publishes, the
      whole cache stays as it is, the group lists included, however late it gets. */
  lemma {:induction false} OnlyStoresChangeTheCache(c: Setup, before: seq<Label>, labels: seq<Label>)
    requires Run(c, before).Some? && RunFrom(c, Run(c, before).value, labels).Some?
    requires forall l :: l in labels ==> !l.Store?
    ensures var s := Run(c, before).value;
            var t := RunFrom(c, s, labels).value;
            && Inv(c, s) && Inv(c, t) && t.cache == s.cache
            && forall k :: k in s.cache ==>
                 && s.cache[k].principal.groups < |s.heap| <= |t.heap|
                 && Read(t.heap, s.cache[k].principal) == Read(s.heap, s.cache[k].principal)
  {
    RunKeepsInv(c, before);
    var s := Run(c, before).value;
    if labels == [] {
      assert forall k :: k in s.cache ==> CachedOk(c, s, k, s.cache[k], s.clock);
    } else {
      var earlier, l := labels[..|labels| - 1], labels[|labels| - 1];
      OnlyStoresChangeTheCache(c, before, earlier);
      var m := RunFrom(c, s, earlier).value;
      hide Step, Read, Inv, CachedOk;
      StepKeepsInv(c, m, l);
      StepFrame(c, m, l);
      forall k | k in s.cache
        ensures var t := RunFrom(c, s, labels).value;
                |s.heap| <= |t.heap| && s.cache[k].principal.groups < |s.heap|
                && Read(t.heap, s.cache[k].principal) == Read(s.heap, s.cache[k].principal)
      {
        StepKeepsLiveEntry(c, m, l, k);
      }
    }
  }

  /** A publish removes or replaces every entry that is past its deadline. */
  lemma StoreEndsExpiredEntry(c: Setup, labels: seq<Label>, id: CallId, k: Digest)
    requires Run(c, labels).Some? && Step(c, Run(c, labels).value, Store(id)).Some?
    requires k in Run(c, labels).value.cache && Run(c, labels).value.cache[k].expires <= Run(c, labels).value.clock
    ensures var t := Step(c, Run(c, labels).value, Store(id)).value;
            k in t.cache ==> t.clock < t.cache[k].expires && k == c.digest(Run(c, labels).value.calls[id].token)
  {
    NothingExpiredAfterStore(c, labels, id);
    var s := Run(c, labels).value;
    var Publishing(token, started, held, _) := s.calls[id];
    CacheIsBounded(c, labels);
    PublishKeepsLiveEntries(s.cache, c.digest(token), Held(held.identity, |s.heap|), started, c.config.cacheTTL, s.clock);
  }

  /** Isolation: no list handed to a caller is reachable from the cache, from a call that is about
      to copy a cached principal, or from another caller. */
  lemma HandedListsArePrivate(c: Setup, labels: seq<Label>, id: CallId)
    requires Run(c, labels).Some? && id in Run(c, labels).value.calls
    requires var call := Run(c, labels).value.calls[id]; call.Returned? && call.handed.Some?
    ensures var s := Run(c, labels).value;
            var mine := s.calls[id].handed.value.groups;
            && (forall k :: k in s.cache ==> s.cache[k].principal.groups != mine)
            && (forall other :: other in s.calls && other != id ==>
                  match s.calls[other]
                  case Cloning(_, entry, _) => entry.principal.groups != mine
                  case Publishing(_, _, held, _) => held.groups != mine
                  case Returned(_, _, Some(held), _) => held.groups != mine
                  case _ => true)
  {
    RunKeepsInv(c, labels);
    var s := Run(c, labels).value;
    assert CallOk(c, s, id, s.calls[id]);
    forall k | k in s.cache ensures s.cache[k].principal.groups != s.calls[id].handed.value.groups {
      assert CachedOk(c, s, k, s.cache[k], s.clock);
    }
    forall other | other in s.calls && other != id
      ensures match s.calls[other]
              case Cloning(_, entry, _) => entry.principal.groups != s.calls[id].handed.value.groups
              case Publishing(_, _, held, _) => held.groups != s.calls[id].handed.value.groups
              case Returned(_, _, Some(held), _) => held.groups != s.calls[id].handed.value.groups
              case _ => true
    {
      assert CallOk(c, s, other, s.calls[other]);
    }
  }

  lemma RunOn(c: Setup, from: State, labels: seq<Label>, i: nat, s: State, t: State)
    requires i < |labels| && RunFrom(c, from, labels[..i]) == Some(s) && Step(c, s, labels[i]) == Some(t)
    ensures RunFrom(c, from, labels[..i + 1]) == Some(t)
  {
    assert labels[..i + 1][..i] == labels[..i];
  }

  lemma RunNowhere(c: Setup, from: State, labels: seq<Label>)
    ensures RunFrom(c, from, labels[..0]) == Some(from)
  {
  }

  function LookAgain(id: CallId, token: string, wait: nat): seq<Label> {
    [Begin(id, token), Enter(id), Lookup(id), Tick(wait), Check(id), Clone(id)]
  }

  lemma NewCallFindsEntry(c: Setup, s: State, id: CallId, token: string, wait: nat) returns (t: State)
    requires c.config.cacheTTL != 0 && id !in s.calls && id !in s.done && c.digest(token) in s.cache
    ensures RunFrom(c, s, LookAgain(id, token, wait)[..4]) == Some(t)
    ensures t.log == s.log && t.heap == s.heap && t.clock == s.clock + wait
    ensures id in t.calls && t.calls[id] == Checking(token, s.clock, Some(s.cache[c.digest(token)]))
  {
    hide RunFrom, Decide;
    RunNowhere(c, s, LookAgain(id, token, wait));
    var path := LookAgain(id, token, wait);
    var s1 := Moved(s, id, Entered(token));
    var s2 := EnterStep(c, s1, id, token);
    var s3 := LookupStep(c, s2, id, token, s.clock);
    t := s3.(clock := s.clock + wait);
    RunOn(c, s, path, 0, s, s1);
    RunOn(c, s, path, 1, s1, s2);
    RunOn(c, s, path, 2, s2, s3);
    RunOn(c, s, path, 3, s3, t);
  }

  /** A live entry spares the endpoint: a new call with the token is answered from the cache, with
      the principal stored there, if its check comes before the deadline. No review is logged. */
  lemma LiveEntrySparesReview(c: Setup, labels: seq<Label>, id: CallId, token: string, wait: nat)
    requires c.config.cacheTTL != 0 && Run(c, labels).Some?
    requires var s := Run(c, labels).value;
             && id !in s.calls && id !in s.done
             && c.digest(token) in s.cache && s.clock + wait < s.cache[c.digest(token)].expires
    ensures var s := Run(c, labels).value;
            var t := RunFrom(c, s, LookAgain(id, token, wait));
            && t.Some? && t.value.log == s.log && id in t.value.calls
            && s.cache[c.digest(token)].principal.groups < |s.heap|
            && t.value.calls[id].Returned? && t.value.calls[id].token == token
            && t.value.calls[id].result == Success(Read(s.heap, s.cache[c.digest(token)].principal))
  {
    hide RunFrom, Decide;
    var s := Run(c, labels).value;
    var entry := s.cache[c.digest(token)];
    assert entry.principal.groups < |s.heap| by {
      RunKeepsInv(c, labels);
      assert CachedOk(c, s, c.digest(token), entry, s.clock);
    }
    var path := LookAgain(id, token, wait);
    var s4 := NewCallFindsEntry(c, s, id, token, wait);
    var s5 := CheckStep(s4, id, token, s.clock, Some(entry));
    RunOn(c, s, path, 4, s4, s5);
    RunOn(c, s, path, 5, s5, CloneStep(s5, id, token, entry, s4.clock).value);
    assert path[..6] == path;
  }

  // ---- The assumption on SHA-256 is exactly what is needed ----

  /** A call that reviews `t` and publishes the answer. */
  function Miss(t: string, reply: Reply): seq<Label> {
    [Begin(0, t), Enter(0), Lookup(0), Check(0), Acquire(0), Answer(0, reply), Store(0)]
  }

  lemma MissReachesReview(c: Setup, t: string, reply: Reply)
    requires 0 < c.config.cacheTTL
    ensures Run(c, Miss(t, reply)[..5]) == Some(INIT.(calls := map[0 := Reviewing(t, 0)], slots := 1))
  {
    hide RunFrom, Decide;
    RunNowhere(c, INIT, Miss(t, reply));
    var labels := Miss(t, reply);
    var s1 := Moved(INIT, 0, Entered(t));
    var s2 := EnterStep(c, s1, 0, t);
    var s3 := LookupStep(c, s2, 0, t, 0);
    var s4 := CheckStep(s3, 0, t, 0, None);
    var s5 := Moved(s4, 0, Reviewing(t, 0)).(slots := 1);
    RunOn(c, INIT, labels, 0, INIT, s1);
    RunOn(c, INIT, labels, 1, s1, s2);
    RunOn(c, INIT, labels, 2, s2, s3);
    RunOn(c, INIT, labels, 3, s3, s4);
    RunOn(c, INIT, labels, 4, s4, s5);
    assert s5.calls == map[0 := Reviewing(t, 0)];
  }

  lemma MissReachesCache(c: Setup, t: string, reply: Reply, p: Principal) returns (stored: State)
    requires 0 < c.config.cacheTTL && Decide(c.config, reply) == Success(p)
    ensures Run(c, Miss(t, reply)) == Some(stored)
    ensures stored.calls.Keys == {0} && stored.done == {} && stored.clock == 0
    ensures stored.log == [Review(0, t, 0, 0, reply, Success(p))]
    ensures stored.heap == [Cell(p.groups, Caller(0)), Cell(p.groups, Cached)]
    ensures stored.cache == map[c.digest(t) := Entry(Held(p.identity, 1), c.config.cacheTTL)]
  {
    hide RunFrom, Decide;
    var labels := Miss(t, reply);
    MissReachesReview(c, t, reply);
    var reviewing := INIT.(calls := map[0 := Reviewing(t, 0)], slots := 1);
    var answered := AnswerStep(c, reviewing, 0, t, 0, reply, Success(p));
    RunOn(c, INIT, labels, 5, reviewing, answered);
    stored := StoreStep(c, answered, 0, t, 0, Held(p.identity, 0), 0).value;
    assert Sweep(answered.cache, 0) == map[];
    RunOn(c, INIT, labels, 6, answered, stored);
    assert labels[..7] == labels;
  }

  /** A call that waits for its slot before it reviews `t` and publishes the answer. */
  function SlowMiss(t: string, reply: Reply, wait: nat): seq<Label> {
    [Begin(0, t), Enter(0), Lookup(0), Check(0), Tick(wait), Acquire(0), Answer(0, reply), Store(0)]
  }

  /** The deadline counts from the start of the call: if the call waits for its slot, the review starts
      `wait` later, and the entry expires that much sooner than the TTL after the review's start. */
  lemma DeadlineCountsFromCall(c: Setup, t: string, reply: Reply, wait: nat)
    requires Decide(c.config, reply).Success? && wait < c.config.cacheTTL
    ensures var waiting, reviewing := Run(c, SlowMiss(t, reply, wait)[..5]), Run(c, SlowMiss(t, reply, wait)[..6]);
            && waiting.Some? && waiting.value.calls == map[0 := Waiting(t, 0)]
            && reviewing.Some? && reviewing.value.calls == map[0 := Reviewing(t, 0)] && reviewing.value.clock == wait
    ensures var end := Run(c, SlowMiss(t, reply, wait));
            var reviewStart := Run(c, SlowMiss(t, reply, wait)[..6]).value.clock;
            && end.Some? && c.digest(t) in end.value.cache
            && end.value.cache[c.digest(t)].expires == reviewStart + c.config.cacheTTL - wait
  {
    hide RunFrom, Decide;
    var labels := SlowMiss(t, reply, wait);
    RunNowhere(c, INIT, labels);
    var s1 := Moved(INIT, 0, Entered(t));
    var s2 := EnterStep(c, s1, 0, t);
    var s3 := LookupStep(c, s2, 0, t, 0);
    var s4 := CheckStep(s3, 0, t, 0, None);
    var s5 := s4.(clock := wait);
    var s6 := Moved(s5, 0, Reviewing(t, 0)).(slots := 1);
    RunOn(c, INIT, labels, 0, INIT, s1);
    RunOn(c, INIT, labels, 1, s1, s2);
    RunOn(c, INIT, labels, 2, s2, s3);
    RunOn(c, INIT, labels, 3, s3, s4);
    RunOn(c, INIT, labels, 4, s4, s5);
    RunOn(c, INIT, labels, 5, s5, s6);
    assert s5.calls == map[0 := Waiting(t, 0)] && s6.calls == map[0 := Reviewing(t, 0)];
    SlowMissEnds(c, t, reply, wait, s6);
  }

  lemma SlowMissEnds(c: Setup, t: string, reply: Reply, wait: nat, s: State)
    requires Decide(c.config, reply).Success? && wait < c.config.cacheTTL
    requires Run(c, SlowMiss(t, reply, wait)[..6]) == Some(s)
    requires s == INIT.(clock := wait, calls := map[0 := Reviewing(t, 0)], slots := 1)
    ensures var end := Run(c, SlowMiss(t, reply, wait));
            end.Some? && c.digest(t) in end.value.cache && end.value.cache[c.digest(t)].expires == c.config.cacheTTL
  {
    hide RunFrom, Decide;
    var labels, p := SlowMiss(t, reply, wait), Decide(c.config, reply).value;
    var answered := AnswerStep(c, s, 0, t, 0, reply, Success(p));
    var stored := StoreStep(c, answered, 0, t, 0, Held(p.identity, 0), wait).value;
    RunOn(c, INIT, labels, 6, s, answered);
    assert Sweep(answered.cache, wait) == map[];
    RunOn(c, INIT, labels, 7, answered, stored);
    assert labels[..8] == labels;
  }

  lemma {:induction false} RunsCompose(c: Setup, s: State, first: seq<Label>, second: seq<Label>)
    requires RunFrom(c, s, first).Some?
    ensures RunFrom(c, s, first + second) == RunFrom(c, RunFrom(c, s, first).value, second)
  {
    if second == [] {
      assert first + second == first;
    } else {
      RunsCompose(c, s, first, second[..|second| - 1]);
      assert (first + second)[..|first + second| - 1] == first + second[..|second| - 1];
    }
  }

  /** If two tokens share a digest, a caller with the second is served the principal of the first. */
  lemma CollisionIsServed(c: Setup, t: string, u: string, reply: Reply, p: Principal)
    requires 0 < c.config.cacheTTL && c.digest(t) == c.digest(u) && Decide(c.config, reply) == Success(p)
    ensures var end := Run(c, Miss(t, reply) + LookAgain(1, u, 0));
            && end.Some? && end.value.log == [Review(0, t, 0, 0, reply, Success(p))]
            && 1 in end.value.calls && end.value.calls[1].Returned? && end.value.calls[1].token == u
            && end.value.calls[1].result == Success(p)
  {
    var s := MissReachesCache(c, t, reply, p);
    LiveEntrySparesReview(c, Miss(t, reply), 1, u, 0);
    RunsCompose(c, INIT, Miss(t, reply), LookAgain(1, u, 0));
  }

  /** Every success, in every run, is backed by a review of the same token. */
  ghost predicate EverySuccessIsBacked(c: Setup) {
    forall labels: seq<Label>, id: CallId ::
      var end := Run(c, labels);
      end.Some? && id in end.value.calls && end.value.calls[id].Returned? && end.value.calls[id].result.Success? ==>
        BackedByReview(c, end.value, id, end.value.calls[id].token, end.value.calls[id].result.value, end.value.calls[id].at)
  }

  /** With the cache on, distinct digests are exactly the condition for the cache to be safe. */
  lemma SafeExactlyWhenDigestsDiffer(c: Setup, reply: Reply)
    requires 0 < c.config.cacheTTL && Decide(c.config, reply).Success?
    ensures EverySuccessIsBacked(c) <==> Injective(c.digest)
  {
    if Injective(c.digest) {
      forall labels: seq<Label>, id: CallId
        ensures var end := Run(c, labels);
                end.Some? && id in end.value.calls && end.value.calls[id].Returned? && end.value.calls[id].result.Success? ==>
                  BackedByReview(c, end.value, id, end.value.calls[id].token, end.value.calls[id].result.value, end.value.calls[id].at)
      {
        var end := Run(c, labels);
        if end.Some? && id in end.value.calls && end.value.calls[id].Returned? {
          AuthenticateRefinesReviews(c, labels, id);
        }
      }
    } else {
      var t, u :| c.digest(t) == c.digest(u) && t != u;
      CollisionIsServed(c, t, u, reply, Decide(c.config, reply).value);
      var end := Run(c, Miss(t, reply) + LookAgain(1, u, 0)).value;
      assert !BackedByReview(c, end, 1, u, end.calls[1].result.value, end.calls[1].at);
    }
  }
}
