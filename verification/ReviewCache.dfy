/** What one locked section of Authenticate does to the cache (internal/auth/kubernetes.go, lines
    133 to 146), for principals of any representation V. */
module ReviewCache {
  const MAX_CONCURRENT_REVIEWS := 32
  const MAX_CACHED_REVIEWS := 256

  datatype Entry<+V> = Entry(principal: V, expires: int)

  /** The entries left after the expired ones are deleted; a deadline is exclusive. */
  function Sweep<K, V>(cache: map<K, Entry<V>>, now: int): map<K, Entry<V>> {
    map k | k in cache && now < cache[k].expires :: cache[k]
  }

  /** Whether a review that was asked for at `started` enters the cache at `now`. */
  predicate Admits<K, V>(cache: map<K, Entry<V>>, key: K, started: int, ttl: int, now: int) {
    var swept := Sweep(cache, now);
    key !in swept && |swept| < MAX_CACHED_REVIEWS && now < started + ttl
  }

  function Publish<K, V>(cache: map<K, Entry<V>>, key: K, v: V, started: int, ttl: int, now: int): map<K, Entry<V>> {
    if Admits(cache, key, started, ttl, now)
    then Sweep(cache, now)[key := Entry(v, started + ttl)]
    else Sweep(cache, now)
  }

  lemma {:induction false} SubsetSize<T>(a: set<T>, b: set<T>)
    requires a <= b
    ensures |a| <= |b|
  {
    if a != {} {
      var x :| x in a;
      SubsetSize(a - {x}, b - {x});
    }
  }

  lemma SweepShrinks<K, V>(cache: map<K, Entry<V>>, now: int)
    ensures |Sweep(cache, now)| <= |cache|
  {
    SubsetSize(Sweep(cache, now).Keys, cache.Keys);
  }

  /** Publishing keeps the bound, leaves only live entries, and neither drops nor
      changes an entry before its deadline. */
  lemma PublishKeepsLiveEntries<K, V>(cache: map<K, Entry<V>>, key: K, v: V, started: int, ttl: int, now: int)
    requires |cache| <= MAX_CACHED_REVIEWS
    ensures var after := Publish(cache, key, v, started, ttl, now);
            && |after| <= MAX_CACHED_REVIEWS
            && (forall k :: k in after ==> now < after[k].expires)
            && (forall k :: k in cache && now < cache[k].expires ==> k in after && after[k] == cache[k])
            && (forall k :: k in after && !(k in cache && after[k] == cache[k]) ==> k == key && after[k] == Entry(v, started + ttl))
  {
    SweepShrinks(cache, now);
  }
}

/** The authenticator under concurrency: every interleaving of any number of calls, their
    contexts, the clock, the remote answers and callers that overwrite what they were given.

    One label is one atomic step of Authenticate or of its environment. Group lists live in a heap
    of cells, as Go slices do, so that sharing a list and copying it are different things. The
    fields `log`, `Cell.owner`, `Returned.at` and `Returned.result` are history: no step reads them. */
module AuthSystem {
  import opened Text
  import opened AuthConfig
  import opened TokenReview
  import opened ReviewCache

  type Digest = seq<nat>
  type CallId = nat
  type Address = nat

  /** `digest` stands for SHA-256. */
  datatype Setup = Setup(config: Config, digest: string -> Digest)

  /** A principal in memory: its groups are a reference. */
  datatype Held = Held(identity: string, groups: Address)

  datatype Owner = Cached | Caller(id: CallId)

  datatype Cell = Cell(groups: seq<string>, owner: Owner)

  datatype Review = Review(caller: CallId, token: string, started: int, answered: int, reply: Reply, outcome: Outcome)

  /** The program counter of a call with its live variables. */
  datatype Call =
    | Entered(token: string)
    | Looking(token: string, started: int)                               // clock read, before the lookup
    | Checking(token: string, started: int, found: Option<Entry<Held>>)  // after the lookup, lock released
    | Cloning(token: string, entry: Entry<Held>, checked: int)           // a hit
    | Waiting(token: string, started: int)                               // asking for a slot
    | Reviewing(token: string, started: int)                             // holding a slot
    | Publishing(token: string, started: int, held: Held, answered: int) // reviewed, before the second lock
    | Returned(token: string, result: Outcome, handed: Option<Held>, at: int)

  datatype State = State(
    clock: int,
    done: set<CallId>,  // calls whose context has ended
    calls: map<CallId, Call>,
    slots: nat,
    cache: map<Digest, Entry<Held>>,
    heap: seq<Cell>,
    log: seq<Review>)

  datatype Label =
    | Tick(elapsed: nat)
    | EndContext(id: CallId)
    | Begin(id: CallId, token: string)
    | Enter(id: CallId)
    | Lookup(id: CallId)
    | Check(id: CallId)
    | Clone(id: CallId)
    | Acquire(id: CallId)
    | GiveUp(id: CallId)
    | Answer(id: CallId, reply: Reply)
    | Store(id: CallId)
    | Overwrite(id: CallId, groups: seq<string>)

  const INIT := State(0, {}, map[], 0, map[], [], [])

  function Read(heap: seq<Cell>, held: Held): Principal
    requires held.groups < |heap|
  {
    Principal(held.identity, heap[held.groups].groups)
  }

  function Moved(s: State, id: CallId, call: Call): State {
    s.(calls := s.calls[id := call])
  }

  /** Enter: lines 115 to 121. */
  function EnterStep(c: Setup, s: State, id: CallId, token: string): State {
    if id in s.done then Moved(s, id, Returned(token, Failure(Unavailable), None, s.clock))
    else if c.config.cacheTTL == 0 then Moved(s, id, Waiting(token, s.clock))
    else Moved(s, id, Looking(token, s.clock))
  }

  /** Lookup: lines 122 to 124. */
  function LookupStep(c: Setup, s: State, id: CallId, token: string, started: int): State {
    var key := c.digest(token);
    Moved(s, id, Checking(token, started, if key in s.cache then Some(s.cache[key]) else None))
  }

  /** Check: line 125, a second look at the clock with no lock held. */
  function CheckStep(s: State, id: CallId, token: string, started: int, found: Option<Entry<Held>>): State {
    if found.Some? && s.clock < found.value.expires
    then Moved(s, id, Cloning(token, found.value, s.clock))
    else Moved(s, id, Waiting(token, started))
  }

  /** Clone: lines 126 and 127. */
  function CloneStep(s: State, id: CallId, token: string, entry: Entry<Held>, checked: int): Option<State> {
    if entry.principal.groups < |s.heap| then
      var p := Read(s.heap, entry.principal);
      var copy := Held(p.identity, |s.heap|);
      Some(Moved(s, id, Returned(token, Success(p), Some(copy), checked)).(heap := s.heap + [Cell(p.groups, Caller(id))]))
    else None
  }

  /** Answer: lines 160 to 218, with the deferred release of the slot. */
  function AnswerStep(c: Setup, s: State, id: CallId, token: string, started: int, reply: Reply, outcome: Outcome): State {
    var t := s.(slots := if s.slots == 0 then 0 else s.slots - 1,
                log := s.log + [Review(id, token, started, s.clock, reply, outcome)]);
    match outcome
    case Failure(e) => Moved(t, id, Returned(token, Failure(e), None, s.clock))
    case Success(p) =>
      var held := Held(p.identity, |s.heap|);
      var u := t.(heap := s.heap + [Cell(p.groups, Caller(id))]);
      if c.config.cacheTTL == 0
      then Moved(u, id, Returned(token, Success(p), Some(held), s.clock))
      else Moved(u, id, Publishing(token, started, held, s.clock))
  }

  /** Store: lines 133 to 147 under the lock; the cached principal gets a copy of the groups. */
  function StoreStep(c: Setup, s: State, id: CallId, token: string, started: int, held: Held, answered: int): Option<State> {
    if held.groups < |s.heap| then
      var p := Read(s.heap, held);
      var key, ttl := c.digest(token), c.config.cacheTTL;
      var heap := if Admits(s.cache, key, started, ttl, s.clock) then s.heap + [Cell(p.groups, Cached)] else s.heap;
      Some(Moved(s, id, Returned(token, Success(p), Some(held), answered)).(
        heap := heap,
        cache := Publish(s.cache, key, Held(p.identity, |s.heap|), started, ttl, s.clock)))
    else None
  }

  /** A caller writes into the slice it was given. */
  function OverwriteStep(s: State, held: Held, groups: seq<string>): Option<State> {
    if held.groups < |s.heap|
    then Some(s.(heap := s.heap[held.groups := Cell(groups, s.heap[held.groups].owner)]))
    else None
  }

  /** The step of a running call that the label names. */
  function CallStep(c: Setup, s: State, l: Label, id: CallId, call: Call): Option<State> {
    match call
    case Entered(token) => if l.Enter? then Some(EnterStep(c, s, id, token)) else None
    case Looking(token, started) => if l.Lookup? then Some(LookupStep(c, s, id, token, started)) else None
    case Checking(token, started, found) => if l.Check? then Some(CheckStep(s, id, token, started, found)) else None
    case Cloning(token, entry, checked) => if l.Clone? then CloneStep(s, id, token, entry, checked) else None
    case Waiting(token, started) =>
      if l.Acquire? && s.slots < MAX_CONCURRENT_REVIEWS then
        Some(Moved(s, id, Reviewing(token, started)).(slots := s.slots + 1))
      else if l.GiveUp? && id in s.done then
        Some(Moved(s, id, Returned(token, Failure(Unavailable), None, s.clock)))
      else None
    case Reviewing(token, started) =>
      if l.Answer? then Some(AnswerStep(c, s, id, token, started, l.reply, Decide(c.config, l.reply))) else None
    case Publishing(token, started, held, answered) =>
      if l.Store? then StoreStep(c, s, id, token, started, held, answered) else None
    case Returned(_, _, handed, _) =>
      if l.Overwrite? && handed.Some? then OverwriteStep(s, handed.value, l.groups) else None
  }

  /** One step, or None where the label does not apply. */
  function Step(c: Setup, s: State, l: Label): Option<State> {
    match l
    case Tick(elapsed) => Some(s.(clock := s.clock + elapsed))
    case EndContext(id) => Some(s.(done := s.done + {id}))
    case Begin(id, token) => if id in s.calls then None else Some(Moved(s, id, Entered(token)))
    case _ => if l.id in s.calls then CallStep(c, s, l, l.id, s.calls[l.id]) else None
  }

  function RunFrom(c: Setup, s: State, labels: seq<Label>): Option<State> {
    if labels == [] then Some(s)
    else match RunFrom(c, s, labels[..|labels| - 1])
      case None => None
      case Some(t) => Step(c, t, labels[|labels| - 1])
  }

  function Run(c: Setup, labels: seq<Label>): Option<State> {
    RunFrom(c, INIT, labels)
  }

  // ---- Invariant ----

  predicate Grants(r: Review, p: Principal) {
    r.outcome == Success(p)
  }

  /** The entry owns its groups, and some review answered no later than `known` granted them. */
  ghost predicate CachedOk(c: Setup, s: State, key: Digest, e: Entry<Held>, known: int) {
    && e.principal.groups < |s.heap|
    && s.heap[e.principal.groups].owner == Cached
    && exists r :: r in s.log && c.digest(r.token) == key && r.answered <= known
                   && Grants(r, Read(s.heap, e.principal)) && e.expires == r.started + c.config.cacheTTL
  }

  predicate HeldOk(s: State, id: CallId, held: Held) {
    held.groups < |s.heap| && s.heap[held.groups].owner == Caller(id)
  }

  /** A returned principal comes from the call's own review, or from a review of a token with the
      same digest that was asked for less than the TTL before the hit was decided. */
  ghost predicate Justified(c: Setup, s: State, id: CallId, token: string, p: Principal, at: int) {
    || (exists r :: r in s.log && r.caller == id && r.token == token && r.answered == at && Grants(r, p))
    || (exists r :: r in s.log && c.digest(r.token) == c.digest(token) && Grants(r, p)
                    && r.answered <= at < r.started + c.config.cacheTTL)
  }

  ghost predicate Refused(c: Setup, s: State, id: CallId, token: string, e: AuthError) {
    || (exists r :: r in s.log && r.caller == id && r.token == token && r.outcome == Failure(e))
    || (e == Unavailable && id in s.done)
  }

  ghost predicate CallOk(c: Setup, s: State, id: CallId, call: Call) {
    match call
    case Entered(_) => true
    case Looking(_, started) => started <= s.clock
    case Checking(token, started, found) =>
      started <= s.clock && (found.Some? ==> CachedOk(c, s, c.digest(token), found.value, s.clock))
    case Cloning(token, entry, checked) => CachedOk(c, s, c.digest(token), entry, checked) && checked < entry.expires
    case Waiting(_, started) => started <= s.clock
    case Reviewing(_, started) => started <= s.clock
    case Publishing(token, started, held, answered) =>
      && HeldOk(s, id, held) && answered <= s.clock
      && exists r :: r in s.log && r.caller == id && r.token == token && r.started == started
                     && r.answered == answered && Grants(r, Read(s.heap, held))
    case Returned(token, result, handed, at) =>
      && result.Success? == handed.Some?
      && (handed.Some? ==> HeldOk(s, id, handed.value) && Justified(c, s, id, token, result.value, at))
      && (handed.None? ==> Refused(c, s, id, token, result.error))
  }

  function Holders(calls: map<CallId, Call>): set<CallId> {
    set id | id in calls && calls[id].Reviewing?
  }

  ghost predicate Inv(c: Setup, s: State) {
    && s.slots == |Holders(s.calls)| <= MAX_CONCURRENT_REVIEWS
    && |s.cache| <= MAX_CACHED_REVIEWS
    && (forall r :: r in s.log ==> r.started <= r.answered <= s.clock)
    && (forall k :: k in s.cache ==> CachedOk(c, s, k, s.cache[k], s.clock))
    && (forall id :: id in s.calls ==> CallOk(c, s, id, s.calls[id]))
  }

  /** What every step leaves alone: the past, and every cell that is not in a caller's hands. */
  ghost predicate Extends(s: State, t: State) {
    && s.clock <= t.clock && s.done <= t.done && s.log <= t.log && |s.heap| <= |t.heap|
    && forall a :: 0 <= a < |s.heap| ==>
         && t.heap[a].owner == s.heap[a].owner
         && (t.heap[a] == s.heap[a]
             || (s.heap[a].owner.Caller? && s.heap[a].owner.id in s.calls && s.calls[s.heap[a].owner.id].Returned?))
  }

  lemma CachedFrame(c: Setup, s: State, t: State, key: Digest, e: Entry<Held>, known: int, later: int)
    requires Extends(s, t) && CachedOk(c, s, key, e, known) && known <= later
    ensures CachedOk(c, t, key, e, later)
  {
    var r :| r in s.log && c.digest(r.token) == key && r.answered <= known
             && Grants(r, Read(s.heap, e.principal)) && e.expires == r.started + c.config.cacheTTL;
    assert r in t.log;
  }

  lemma CallFrame(c: Setup, s: State, t: State, id: CallId)
    requires Extends(s, t)
    requires id in s.calls && CallOk(c, s, id, s.calls[id])
    ensures CallOk(c, t, id, s.calls[id])
  {
    assert forall r :: r in s.log ==> r in t.log;
    match s.calls[id]
    case Checking(token, _, Some(e)) => CachedFrame(c, s, t, c.digest(token), e, s.clock, t.clock);
    case Cloning(token, e, checked) => CachedFrame(c, s, t, c.digest(token), e, checked, checked);
    case _ =>
  }

  /** Only the moved call and new cache entries need a look after a step. */
  lemma FrameInv(c: Setup, s: State, t: State, id: CallId)
    requires Inv(c, s) && Extends(s, t)
    requires forall i :: i in t.calls && i != id ==> i in s.calls && t.calls[i] == s.calls[i]
    requires id in t.calls ==> CallOk(c, t, id, t.calls[id])
    requires t.slots == |Holders(t.calls)| <= MAX_CONCURRENT_REVIEWS
    requires |t.cache| <= MAX_CACHED_REVIEWS
    requires forall r :: r in t.log ==> r.started <= r.answered <= t.clock
    requires forall k :: k in t.cache ==> (k in s.cache && t.cache[k] == s.cache[k]) || CachedOk(c, t, k, t.cache[k], t.clock)
    ensures Inv(c, t)
  {
    forall k | k in t.cache ensures CachedOk(c, t, k, t.cache[k], t.clock) {
      if k in s.cache && t.cache[k] == s.cache[k] {
        CachedFrame(c, s, t, k, s.cache[k], s.clock, t.clock);
      }
    }
    forall i | i in t.calls ensures CallOk(c, t, i, t.calls[i]) {
      if i != id {
        CallFrame(c, s, t, i);
      }
    }
  }

  lemma HoldersMoved(calls: map<CallId, Call>, id: CallId, call: Call)
    ensures Holders(calls[id := call]) == if call.Reviewing? then Holders(calls) + {id} else Holders(calls) - {id}
  {
  }

  lemma AnsweredCallOk(c: Setup, s: State, id: CallId, token: string, started: int, reply: Reply, outcome: Outcome)
    ensures var t := AnswerStep(c, s, id, token, started, reply, outcome); CallOk(c, t, id, t.calls[id])
  {
    var t := AnswerStep(c, s, id, token, started, reply, outcome);
    var r := Review(id, token, started, s.clock, reply, outcome);
    assert r in t.log;
    if outcome.Success? {
      assert Grants(r, outcome.value);
      assert Read(t.heap, Held(outcome.value.identity, |s.heap|)) == outcome.value;
    }
  }

  lemma AnswerReleasesSlot(c: Setup, s: State, id: CallId, token: string, started: int, reply: Reply, outcome: Outcome)
    requires id in s.calls && s.calls[id].Reviewing? && s.slots == |Holders(s.calls)|
    ensures var t := AnswerStep(c, s, id, token, started, reply, outcome);
            && t.slots == |Holders(t.calls)| == s.slots - 1
            && t.log == s.log + [Review(id, token, started, s.clock, reply, outcome)]
            && t.cache == s.cache && t.clock == s.clock
            && id in t.calls && t.calls == s.calls[id := t.calls[id]]
            && Extends(s, t)
  {
    var t := AnswerStep(c, s, id, token, started, reply, outcome);
    HoldersMoved(s.calls, id, t.calls[id]);
    assert id in Holders(s.calls);
  }

  lemma AnswerKeepsInv(c: Setup, s: State, id: CallId, reply: Reply, outcome: Outcome)
    requires Inv(c, s) && id in s.calls && s.calls[id].Reviewing?
    ensures Inv(c, AnswerStep(c, s, id, s.calls[id].token, s.calls[id].started, reply, outcome))
  {
    var Reviewing(token, started) := s.calls[id];
    assert started <= s.clock by { assert CallOk(c, s, id, s.calls[id]); }
    AnswerReleasesSlot(c, s, id, token, started, reply, outcome);
    AnsweredCallOk(c, s, id, token, started, reply, outcome);
    FrameInv(c, s, AnswerStep(c, s, id, token, started, reply, outcome), id);
  }

  lemma CloneKeepsInv(c: Setup, s: State, id: CallId)
    requires Inv(c, s) && id in s.calls && s.calls[id].Cloning?
    ensures var call := s.calls[id];
            var t := CloneStep(s, id, call.token, call.entry, call.checked);
            t.Some? && Inv(c, t.value)
  {
    var Cloning(token, entry, checked) := s.calls[id];
    assert CallOk(c, s, id, s.calls[id]);
    var t := CloneStep(s, id, token, entry, checked).value;
    HoldersMoved(s.calls, id, t.calls[id]);
    assert Justified(c, t, id, token, Read(s.heap, entry.principal), checked);
    FrameInv(c, s, t, id);
  }

  /** The entry that a store adds owns its copy of what the review granted. */
  lemma StoredEntryOk(c: Setup, s: State, id: CallId)
    requires id in s.calls && s.calls[id].Publishing? && CallOk(c, s, id, s.calls[id])
    ensures var Publishing(token, started, held, answered) := s.calls[id];
            var key := c.digest(token);
            && Justified(c, s, id, token, Read(s.heap, held), answered)
            && forall t: State ::
                 t.heap == s.heap + [Cell(Read(s.heap, held).groups, Cached)] && t.log == s.log ==>
                   CachedOk(c, t, key, Entry(Held(held.identity, |s.heap|), started + c.config.cacheTTL), answered)
  {
    var Publishing(token, started, held, answered) := s.calls[id];
    var p := Read(s.heap, held);
    var r :| r in s.log && r.caller == id && r.token == token && r.started == started
             && r.answered == answered && Grants(r, p);
    forall t: State | t.heap == s.heap + [Cell(p.groups, Cached)] && t.log == s.log
      ensures CachedOk(c, t, c.digest(token), Entry(Held(held.identity, |s.heap|), started + c.config.cacheTTL), answered)
    {
      assert r in t.log && Grants(r, Read(t.heap, Held(held.identity, |s.heap|)));
    }
  }

  lemma StoreCacheOk(c: Setup, s: State, id: CallId, t: State)
    requires |s.cache| <= MAX_CACHED_REVIEWS
    requires id in s.calls && s.calls[id].Publishing? && CallOk(c, s, id, s.calls[id])
    requires var call := s.calls[id];
             StoreStep(c, s, id, call.token, call.started, call.held, call.answered) == Some(t)
    ensures |t.cache| <= MAX_CACHED_REVIEWS
    ensures forall k :: k in t.cache ==> (k in s.cache && t.cache[k] == s.cache[k]) || CachedOk(c, t, k, t.cache[k], t.clock)
  {
    var Publishing(token, started, held, answered) := s.calls[id];
    StoredEntryOk(c, s, id);
    var key, entry := c.digest(token), Entry(Held(held.identity, |s.heap|), started + c.config.cacheTTL);
    PublishKeepsLiveEntries(s.cache, key, entry.principal, started, c.config.cacheTTL, s.clock);
    if Admits(s.cache, key, started, c.config.cacheTTL, s.clock) {
      assert CachedOk(c, t, key, entry, answered);
      CachedFrame(c, t, t, key, entry, answered, t.clock);
    }
  }

  lemma StoreCallOk(c: Setup, s: State, id: CallId, t: State)
    requires id in s.calls && s.calls[id].Publishing? && CallOk(c, s, id, s.calls[id])
    requires var call := s.calls[id];
             StoreStep(c, s, id, call.token, call.started, call.held, call.answered) == Some(t)
    ensures Extends(s, t) && t.slots == s.slots && t.log == s.log && t.clock == s.clock
    ensures id in t.calls && t.calls == s.calls[id := t.calls[id]] && t.calls[id].Returned?
    ensures CallOk(c, t, id, t.calls[id])
  {
    StoredEntryOk(c, s, id);
  }

  lemma StoreKeepsInv(c: Setup, s: State, id: CallId)
    requires Inv(c, s) && id in s.calls && s.calls[id].Publishing?
    ensures var call := s.calls[id];
            var t := StoreStep(c, s, id, call.token, call.started, call.held, call.answered);
            t.Some? && Inv(c, t.value)
  {
    var Publishing(token, started, held, answered) := s.calls[id];
    assert CallOk(c, s, id, s.calls[id]);
    var t := StoreStep(c, s, id, token, started, held, answered).value;
    StoreCacheOk(c, s, id, t);
    StoreCallOk(c, s, id, t);
    HoldersMoved(s.calls, id, t.calls[id]);
    assert id !in Holders(s.calls);
    FrameInv(c, s, t, id);
  }

  /** Steps that move a program counter and touch nothing shared. */
  lemma MovedKeepsInv(c: Setup, s: State, id: CallId, call: Call)
    requires Inv(c, s) && CallOk(c, s, id, call)
    requires !call.Reviewing? && (id in s.calls ==> !s.calls[id].Reviewing?)
    ensures Inv(c, Moved(s, id, call))
  {
    var t := Moved(s, id, call);
    HoldersMoved(s.calls, id, call);
    assert id !in Holders(s.calls);
    assert Extends(s, t);
    assert CallOk(c, t, id, call) by {
      match call
      case Checking(token, _, Some(e)) => CachedFrame(c, s, t, c.digest(token), e, s.clock, t.clock);
      case Cloning(token, e, checked) => CachedFrame(c, s, t, c.digest(token), e, checked, checked);
      case _ =>
    }
    FrameInv(c, s, t, id);
  }

  lemma EnterKeepsInv(c: Setup, s: State, id: CallId)
    requires Inv(c, s) && id in s.calls && s.calls[id].Entered?
    ensures Inv(c, EnterStep(c, s, id, s.calls[id].token))
  {
    MovedKeepsInv(c, s, id, EnterStep(c, s, id, s.calls[id].token).calls[id]);
  }

  lemma LookupKeepsInv(c: Setup, s: State, id: CallId)
    requires Inv(c, s) && id in s.calls && s.calls[id].Looking?
    ensures Inv(c, LookupStep(c, s, id, s.calls[id].token, s.calls[id].started))
  {
    assert CallOk(c, s, id, s.calls[id]);
    MovedKeepsInv(c, s, id, LookupStep(c, s, id, s.calls[id].token, s.calls[id].started).calls[id]);
  }

  lemma CheckKeepsInv(c: Setup, s: State, id: CallId)
    requires Inv(c, s) && id in s.calls && s.calls[id].Checking?
    ensures Inv(c, CheckStep(s, id, s.calls[id].token, s.calls[id].started, s.calls[id].found))
  {
    assert CallOk(c, s, id, s.calls[id]);
    MovedKeepsInv(c, s, id, CheckStep(s, id, s.calls[id].token, s.calls[id].started, s.calls[id].found).calls[id]);
  }

  lemma AcquireKeepsInv(c: Setup, s: State, id: CallId, call: Call)
    requires Inv(c, s) && id in s.calls && s.calls[id].Waiting? && s.slots < MAX_CONCURRENT_REVIEWS
    requires call == Reviewing(s.calls[id].token, s.calls[id].started)
    ensures Inv(c, Moved(s, id, call).(slots := s.slots + 1))
  {
    assert CallOk(c, s, id, s.calls[id]);
    HoldersMoved(s.calls, id, call);
    assert id !in Holders(s.calls);
    FrameInv(c, s, Moved(s, id, call).(slots := s.slots + 1), id);
  }

  lemma WaitingKeepsInv(c: Setup, s: State, l: Label, id: CallId)
    requires Inv(c, s) && id in s.calls && s.calls[id].Waiting?
    requires CallStep(c, s, l, id, s.calls[id]).Some?
    ensures Inv(c, CallStep(c, s, l, id, s.calls[id]).value)
  {
    var t := CallStep(c, s, l, id, s.calls[id]).value;
    assert CallOk(c, s, id, s.calls[id]);
    if t.calls[id].Reviewing? {
      AcquireKeepsInv(c, s, id, t.calls[id]);
    } else {
      MovedKeepsInv(c, s, id, t.calls[id]);
    }
  }

  lemma OverwriteKeepsInv(c: Setup, s: State, id: CallId, groups: seq<string>)
    requires Inv(c, s) && id in s.calls && s.calls[id].Returned? && s.calls[id].handed.Some?
    ensures var t := OverwriteStep(s, s.calls[id].handed.value, groups);
            t.Some? && Inv(c, t.value)
  {
    assert CallOk(c, s, id, s.calls[id]);
    var t := OverwriteStep(s, s.calls[id].handed.value, groups).value;
    CallFrame(c, s, t, id);
    FrameInv(c, s, t, id);
  }

  lemma CallStepKeepsInv(c: Setup, s: State, l: Label, id: CallId)
    requires Inv(c, s) && id in s.calls
    requires CallStep(c, s, l, id, s.calls[id]).Some?
    ensures Inv(c, CallStep(c, s, l, id, s.calls[id]).value)
  {
    match s.calls[id]
    case Entered(_) => EnterKeepsInv(c, s, id);
    case Looking(_, _) => LookupKeepsInv(c, s, id);
    case Checking(_, _, _) => CheckKeepsInv(c, s, id);
    case Cloning(_, _, _) => CloneKeepsInv(c, s, id);
    case Waiting(_, _) => WaitingKeepsInv(c, s, l, id);
    case Reviewing(_, _) => AnswerKeepsInv(c, s, id, l.reply, Decide(c.config, l.reply));
    case Publishing(_, _, _, _) => StoreKeepsInv(c, s, id);
    case Returned(_, _, _, _) => OverwriteKeepsInv(c, s, id, l.groups);
  }

  lemma StepKeepsInv(c: Setup, s: State, l: Label)
    requires Inv(c, s) && Step(c, s, l).Some?
    ensures Inv(c, Step(c, s, l).value)
  {
    var t := Step(c, s, l).value;
    match l
    case Tick(_) => if 0 in s.calls { CallFrame(c, s, t, 0); } FrameInv(c, s, t, 0);
    case EndContext(id) => if id in s.calls { CallFrame(c, s, t, id); } FrameInv(c, s, t, id);
    case Begin(id, token) => MovedKeepsInv(c, s, id, Entered(token));
    case _ => CallStepKeepsInv(c, s, l, l.id);
  }

  lemma {:induction false} RunKeepsInv(c: Setup, labels: seq<Label>)
    requires Run(c, labels).Some?
    ensures Inv(c, Run(c, labels).value)
  {
    if labels != [] {
      RunKeepsInv(c, labels[..|labels| - 1]);
      StepKeepsInv(c, Run(c, labels[..|labels| - 1]).value, labels[|labels| - 1]);
    }
  }
}
