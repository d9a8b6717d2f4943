/** The authenticator as an object and the authenticator under concurrency are one: whatever an
    uninterrupted call answers and leaves in the cache is what a run of AuthSystem answers and leaves in
    which no other call moves meanwhile. */
module AuthRefinement {
  import opened Text
  import opened TokenReview
  import opened ReviewCache
  import opened AuthSystem
  import AuthGuarantees
  import opened KubernetesAuth

  ghost predicate Readable(s: State) {
    forall k :: k in s.cache ==> s.cache[k].principal.groups < |s.heap|
  }

  /** The cache of a state with its lists read out. */
  ghost function CacheView(s: State): map<Digest, Entry<Principal>>
    requires Readable(s)
  {
    map k | k in s.cache :: Entry(Read(s.heap, s.cache[k].principal), s.cache[k].expires)
  }

  /** Nothing but the clock and the one call moves. */
  predicate Alone(labels: seq<Label>, id: CallId) {
    forall l :: l in labels ==> l.Tick? || l.id == id
  }

  /** labels lead from s to t and move the one call only. */
  ghost predicate Leads(c: Setup, s: State, labels: seq<Label>, t: State, id: CallId) {
    RunFrom(c, s, labels) == Some(t) && Alone(labels, id)
  }

  lemma StartsHere(c: Setup, s: State, id: CallId)
    ensures Leads(c, s, [], s, id)
  {
  }

  lemma Then(c: Setup, s: State, labels: seq<Label>, t: State, l: Label, u: State, id: CallId)
    requires Leads(c, s, labels, t, id) && (l.Tick? || l.id == id) && Step(c, t, l) == Some(u)
    ensures Leads(c, s, labels + [l], u, id)
  {
    hide Step;
    assert (labels + [l])[..|labels|] == labels;
  }

  lemma ViewStays(s: State, t: State)
    requires Readable(s) && t.cache == s.cache && s.heap <= t.heap
    ensures Readable(t) && CacheView(t) == CacheView(s)
  {
  }

  lemma ViewOfSweep(s: State, now: int)
    requires Readable(s)
    ensures Sweep(CacheView(s), now).Keys == Sweep(s.cache, now).Keys
    ensures |Sweep(CacheView(s), now)| == |Sweep(s.cache, now)|
  {
    var a, b := Sweep(CacheView(s), now), Sweep(s.cache, now);
    assert a.Keys == b.Keys;
    assert |a| == |a.Keys| && |b| == |b.Keys|;
  }

  lemma ViewOfSwept(s: State, u: State, now: int)
    requires Readable(s) && s.heap <= u.heap && u.cache == Sweep(s.cache, now)
    ensures Readable(u) && CacheView(u) == Sweep(CacheView(s), now)
  {
  }

  lemma ViewOfInsert(s: State, u: State, key: Digest, e: Entry<Held>)
    requires Readable(s) && u.heap == s.heap && e.principal.groups < |u.heap| && u.cache == s.cache[key := e]
    ensures Readable(u) && CacheView(u) == CacheView(s)[key := Entry(Read(u.heap, e.principal), e.expires)]
  {
  }

  lemma ViewOfAdmitted(s: State, u: State, now: int, key: Digest, e: Entry<Held>)
    requires Readable(s) && s.heap <= u.heap && e.principal.groups < |u.heap| && u.cache == Sweep(s.cache, now)[key := e]
    ensures Readable(u)
    ensures CacheView(u) == Sweep(CacheView(s), now)[key := Entry(Read(u.heap, e.principal), e.expires)]
  {
    hide Sweep, CacheView;
    var swept := u.(cache := Sweep(s.cache, now));
    ViewOfSwept(s, swept, now);
    ViewOfInsert(swept, u, key, e);
  }

  /** A store publishes in the view what it publishes in the cache. */
  lemma ViewOfStore(c: Setup, s: State, id: CallId, t: State)
    requires Readable(s) && id in s.calls && s.calls[id].Publishing? && s.calls[id].held.groups < |s.heap|
    requires Step(c, s, Store(id)) == Some(t)
    ensures var (token, started, p) := (s.calls[id].token, s.calls[id].started, Read(s.heap, s.calls[id].held));
            && Readable(t) && t.slots == s.slots
            && CacheView(t) == Publish(CacheView(s), c.digest(token), p, started, c.config.cacheTTL, s.clock)
            && id in t.calls && t.calls[id].Returned? && t.calls[id].token == token && t.calls[id].result == Success(p)
  {
    hide Sweep, CacheView;
    ViewOfSweep(s, s.clock);
    var (key, started, held) := (c.digest(s.calls[id].token), s.calls[id].started, s.calls[id].held);
    var ttl := c.config.cacheTTL;
    if Admits(s.cache, key, started, ttl, s.clock) {
      ViewOfAdmitted(s, t, s.clock, key, Entry(Held(held.identity, |s.heap|), started + ttl));
    } else {
      ViewOfSwept(s, t, s.clock);
    }
  }

  /** What a call that asks for a slot comes to. */
  ghost predicate Ends(c: Setup, id: CallId, token: string, t: State, slots: nat, outcome: Outcome, view: map<Digest, Entry<Principal>>) {
    && Readable(t) && t.slots == slots && CacheView(t) == view
    && id in t.calls && t.calls[id].Returned? && t.calls[id].token == token && t.calls[id].result == outcome
  }

  lemma GivesUp(c: Setup, s: State, id: CallId, token: string, started: int) returns (labels: seq<Label>, t: State)
    requires Readable(s) && id in s.calls && s.calls[id] == Waiting(token, started)
    ensures Leads(c, s, labels, t, id) && Ends(c, id, token, t, s.slots, Failure(Unavailable), CacheView(s))
  {
    hide RunFrom, Leads;
    var s1 := s.(done := s.done + {id});
    t := Moved(s1, id, Returned(token, Failure(Unavailable), None, s.clock));
    StartsHere(c, s, id);
    Then(c, s, [], s, EndContext(id), s1, id);
    Then(c, s, [] + [EndContext(id)], s1, GiveUp(id), t, id);
    labels := [] + [EndContext(id)] + [GiveUp(id)];
    ViewStays(s, t);
  }

  lemma Reviews(c: Setup, s: State, id: CallId, token: string, started: int, reply: Reply) returns (labels: seq<Label>, t: State)
    requires Readable(s) && id in s.calls && s.calls[id] == Waiting(token, started) && s.slots < MAX_CONCURRENT_REVIEWS
    ensures Leads(c, s, labels, t, id)
    ensures Readable(t) && t.slots == s.slots && t.clock == s.clock && CacheView(t) == CacheView(s) && id in t.calls
    ensures var outcome := Decide(c.config, reply);
            if outcome.Failure? || c.config.cacheTTL == 0 then
              t.calls[id].Returned? && t.calls[id].token == token && t.calls[id].result == outcome
            else
              && t.calls[id].Publishing? && t.calls[id].token == token && t.calls[id].started == started
              && t.calls[id].held.groups < |t.heap| && Read(t.heap, t.calls[id].held) == outcome.value
  {
    hide RunFrom, Leads, Decide;
    var s1 := Moved(s, id, Reviewing(token, started)).(slots := s.slots + 1);
    t := AnswerStep(c, s1, id, token, started, reply, Decide(c.config, reply));
    StartsHere(c, s, id);
    Then(c, s, [], s, Acquire(id), s1, id);
    Then(c, s, [] + [Acquire(id)], s1, Answer(id, reply), t, id);
    labels := [] + [Acquire(id)] + [Answer(id, reply)];
    ViewStays(s, t);
  }

  /** From the request for a slot to the return. */
  lemma FromWaiting(c: Setup, s: State, id: CallId, token: string, env: Surroundings) returns (labels: seq<Label>, t: State)
    requires Readable(s) && s.slots <= MAX_CONCURRENT_REVIEWS && s.clock <= env.stored
    requires id in s.calls && s.calls[id] == Waiting(token, env.started)
    ensures Leads(c, s, labels, t, id)
    ensures var outcome := Reviewed(c.config, s.slots, env);
            Ends(c, id, token, t, s.slots, outcome,
                 if outcome.Failure? || c.config.cacheTTL == 0 then CacheView(s)
                 else Publish(CacheView(s), c.digest(token), outcome.value, env.started, c.config.cacheTTL, env.stored))
  {
    hide RunFrom, Leads, Decide, CacheView, Publish, StoreStep;
    if env.gaveUp || s.slots == MAX_CONCURRENT_REVIEWS {
      labels, t := GivesUp(c, s, id, token, env.started);
    } else {
      labels, t := Reviews(c, s, id, token, env.started, env.reply);
      if Decide(c.config, env.reply).Success? && c.config.cacheTTL != 0 {
        labels, t := FromPublishing(c, s, labels, t, id, env.stored);
      }
    }
  }

  lemma FromPublishing(c: Setup, s: State, before: seq<Label>, u: State, id: CallId, stored: int) returns (labels: seq<Label>, t: State)
    requires Leads(c, s, before, u, id) && Readable(u) && u.clock <= stored
    requires id in u.calls && u.calls[id].Publishing? && u.calls[id].held.groups < |u.heap|
    ensures Leads(c, s, labels, t, id)
    ensures var (call, p) := (u.calls[id], Read(u.heap, u.calls[id].held));
            Ends(c, id, call.token, t, u.slots, Success(p),
                 Publish(CacheView(u), c.digest(call.token), p, call.started, c.config.cacheTTL, stored))
  {
    hide RunFrom, Leads, Publish, Sweep, Admits;
    var later := u.(clock := stored);
    Then(c, s, before, u, Tick(stored - u.clock), later, id);
    labels := before + [Tick(stored - u.clock)];
    ViewStays(u, later);
    t := Step(c, later, Store(id)).value;
    Then(c, s, labels, later, Store(id), t, id);
    labels := labels + [Store(id)];
    ViewOfStore(c, later, id, t);
  }

  lemma Looks(c: Setup, s: State, id: CallId, token: string, checked: int) returns (labels: seq<Label>, t: State)
    requires Readable(s) && id !in s.calls && id !in s.done && c.config.cacheTTL != 0 && s.clock <= checked
    ensures Leads(c, s, labels, t, id)
    ensures t.slots == s.slots && t.clock == checked && t.cache == s.cache && t.heap == s.heap && id in t.calls
    ensures var key := c.digest(token);
            t.calls[id] == Checking(token, s.clock, if key in s.cache then Some(s.cache[key]) else None)
  {
    hide RunFrom, Leads;
    var s1 := Moved(s, id, Entered(token));
    var s2 := EnterStep(c, s1, id, token);
    var s3 := LookupStep(c, s2, id, token, s.clock);
    t := s3.(clock := checked);
    StartsHere(c, s, id);
    Then(c, s, [], s, Begin(id, token), s1, id);
    Then(c, s, [] + [Begin(id, token)], s1, Enter(id), s2, id);
    Then(c, s, [] + [Begin(id, token)] + [Enter(id)], s2, Lookup(id), s3, id);
    labels := [] + [Begin(id, token)] + [Enter(id)] + [Lookup(id)];
    Then(c, s, labels, s3, Tick(checked - s.clock), t, id);
    labels := labels + [Tick(checked - s.clock)];
  }

  lemma WithoutCache(c: Setup, s: State, id: CallId, token: string) returns (labels: seq<Label>, t: State)
    requires Readable(s) && id !in s.calls && id !in s.done && c.config.cacheTTL == 0
    ensures Leads(c, s, labels, t, id)
    ensures t.slots == s.slots && t.clock == s.clock && t.cache == s.cache && t.heap == s.heap
    ensures id in t.calls && t.calls[id] == Waiting(token, s.clock)
  {
    hide RunFrom, Leads;
    var s1 := Moved(s, id, Entered(token));
    t := EnterStep(c, s1, id, token);
    StartsHere(c, s, id);
    Then(c, s, [], s, Begin(id, token), s1, id);
    Then(c, s, [] + [Begin(id, token)], s1, Enter(id), t, id);
    labels := [] + [Begin(id, token)] + [Enter(id)];
  }

  lemma Ended(c: Setup, s: State, id: CallId, token: string) returns (labels: seq<Label>, t: State)
    requires Readable(s) && id !in s.calls
    ensures Leads(c, s, labels, t, id) && Ends(c, id, token, t, s.slots, Failure(Unavailable), CacheView(s))
  {
    hide RunFrom, Leads;
    var s1 := s.(done := s.done + {id});
    var s2 := Moved(s1, id, Entered(token));
    t := EnterStep(c, s2, id, token);
    StartsHere(c, s, id);
    Then(c, s, [], s, EndContext(id), s1, id);
    Then(c, s, [] + [EndContext(id)], s1, Begin(id, token), s2, id);
    Then(c, s, [] + [EndContext(id)] + [Begin(id, token)], s2, Enter(id), t, id);
    labels := [] + [EndContext(id)] + [Begin(id, token)] + [Enter(id)];
    ViewStays(s, t);
  }

  /** A hit: the entry's principal, with nothing changed in the cache. */
  lemma FromHit(c: Setup, s: State, before: seq<Label>, u: State, id: CallId, token: string, entry: Entry<Held>)
    returns (labels: seq<Label>, t: State)
    requires Leads(c, s, before, u, id) && Readable(u) && id in u.calls && u.clock < entry.expires
    requires u.calls[id].Checking? && u.calls[id].token == token && u.calls[id].found == Some(entry)
    requires entry.principal.groups < |u.heap|
    ensures Leads(c, s, labels, t, id) && Ends(c, id, token, t, u.slots, Success(Read(u.heap, entry.principal)), CacheView(u))
  {
    hide RunFrom, Leads;
    var u1 := CheckStep(u, id, token, u.calls[id].started, Some(entry));
    t := CloneStep(u1, id, token, entry, u.clock).value;
    Then(c, s, before, u, Check(id), u1, id);
    Then(c, s, before + [Check(id)], u1, Clone(id), t, id);
    labels := before + [Check(id)] + [Clone(id)];
    ViewStays(u, t);
  }

  lemma Joined(c: Setup, s: State, first: seq<Label>, t: State, second: seq<Label>, u: State, id: CallId)
    requires Leads(c, s, first, t, id) && Leads(c, t, second, u, id)
    ensures Leads(c, s, first + second, u, id)
  {
    AuthGuarantees.RunsCompose(c, s, first, second);
  }

  /** An uninterrupted call of the object is a run of the one call: the same answer, the same cache. The
      deadline of what it caches counts from the clock at its start. */
  lemma CallIsARun(c: Setup, s: State, id: CallId, token: string, env: Surroundings) returns (labels: seq<Label>, t: State)
    requires Readable(s) && s.slots <= MAX_CONCURRENT_REVIEWS && id !in s.calls && id !in s.done
    requires env.started == s.clock <= env.checked <= env.stored
    ensures Leads(c, s, labels, t, id)
    ensures Ends(c, id, token, t, s.slots,
                 Answered(c.config, c.digest(token), CacheView(s), s.slots, env),
                 CacheAfter(c.config, c.digest(token), CacheView(s), s.slots, env))
  {
    hide RunFrom, Leads, Decide, Publish, Reviewed;
    var key := c.digest(token);
    if env.ended {
      labels, t := Ended(c, s, id, token);
    } else if c.config.cacheTTL == 0 {
      var first, u := WithoutCache(c, s, id, token);
      ViewStays(s, u);
      var second;
      second, t := FromWaiting(c, u, id, token, env);
      Joined(c, s, first, u, second, t, id);
      labels := first + second;
    } else {
      var first, u := Looks(c, s, id, token, env.checked);
      ViewStays(s, u);
      if key in s.cache && env.checked < s.cache[key].expires {
        labels, t := FromHit(c, s, first, u, id, token, s.cache[key]);
      } else {
        labels, t := FromMiss(c, s, first, u, id, token, env);
      }
    }
  }

  lemma FromMiss(c: Setup, s: State, before: seq<Label>, u: State, id: CallId, token: string, env: Surroundings)
    returns (labels: seq<Label>, t: State)
    requires Leads(c, s, before, u, id) && Readable(u) && u.slots <= MAX_CONCURRENT_REVIEWS && u.clock <= env.stored
    requires id in u.calls && u.calls[id].Checking? && u.calls[id].token == token && u.calls[id].started == env.started
    requires u.calls[id].found.Some? ==> u.calls[id].found.value.expires <= u.clock
    ensures Leads(c, s, labels, t, id)
    ensures var outcome := Reviewed(c.config, u.slots, env);
            Ends(c, id, token, t, u.slots, outcome,
                 if outcome.Failure? || c.config.cacheTTL == 0 then CacheView(u)
                 else Publish(CacheView(u), c.digest(token), outcome.value, env.started, c.config.cacheTTL, env.stored))
  {
    hide RunFrom, Leads, Decide, Publish, Reviewed;
    var waiting := CheckStep(u, id, token, env.started, u.calls[id].found);
    Then(c, s, before, u, Check(id), waiting, id);
    ViewStays(u, waiting);
    var second;
    second, t := FromWaiting(c, waiting, id, token, env);
    Joined(c, s, before + [Check(id)], waiting, second, t, id);
    labels := before + [Check(id)] + second;
  }
}
