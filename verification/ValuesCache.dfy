/** The cache of allowed values (internal/api/values.go) and its one client, fetchOrCachedValues. */
module ValuesCache {
  import opened Text

  datatype AllowedValue = AllowedValue(name: string, value: string)

  type Values = seq<AllowedValue>

  datatype Entry = Entry(values: Values, expiresAt: int)

  type Entries = map<string, Entry>

  /** A deadline is inclusive here. */
  function Look(entries: Entries, key: string, now: int): Option<Values> {
    if key in entries && now <= entries[key].expiresAt then Some(entries[key].values) else None
  }

  /** A lookup deletes the entry that it finds expired, and no other. */
  function Forget(entries: Entries, key: string, now: int): Entries {
    if Look(entries, key, now).None? then entries - {key} else entries
  }

  function Put(entries: Entries, key: string, values: Values, ttl: int, now: int): Entries {
    entries[key := Entry(values, now + ttl)]
  }

  class Cache {
    var entries: Entries

    constructor ()
      ensures entries == map[]
    {
      entries := map[];
    }

    method Get(key: string, now: int) returns (values: Values, ok: bool)
      modifies this
      ensures ok == Look(old(entries), key, now).Some?
      ensures ok ==> Look(old(entries), key, now) == Some(values)
      ensures entries == Forget(old(entries), key, now)
    {
      if key !in entries {
        assert entries - {key} == entries;
        return [], false;
      }
      var entry := entries[key];
      if now > entry.expiresAt {
        entries := entries - {key};
        return [], false;
      }
      return entry.values, true;
    }

    method Set(key: string, values: Values, ttl: int, now: int)
      modifies this
      ensures entries == Put(old(entries), key, values, ttl, now)
    {
      entries := entries[key := Entry(values, now + ttl)];
    }

    /** One call with nobody else at work: the lookup is at `looked`, the store at `stored`, and
        `answer` is what the remote would say. */
    method FetchOrCached(url: string, ttl: int, looked: int, answer: Result<Values, string>, stored: int)
      returns (result: Result<Values, string>)
      modifies this
      ensures ttl <= 0 ==> result == answer && entries == old(entries)
      ensures ttl > 0 && Look(old(entries), url, looked).Some? ==>
                result == Success(Look(old(entries), url, looked).value) && entries == old(entries)
      ensures ttl > 0 && Look(old(entries), url, looked).None? ==>
                result == answer
                && Look(entries, url, stored)
                   == (if answer.Success? then Some(answer.value) else None)
                && (answer.Success? ==> Look(entries, url, stored + ttl) == Some(answer.value))
                && (answer.Success? ==> Look(entries, url, stored + ttl + 1) == None)
                && entries - {url} == old(entries) - {url}
    {
      if ttl > 0 {
        var cached, ok := Get(url, looked);
        if ok {
          return Success(cached);
        }
      }
      if answer.Failure? {
        return answer;
      }
      if ttl > 0 {
        Set(url, answer.value, ttl, stored);
      }
      return answer;
    }
  }
}

/** Every interleaving of any number of calls of fetchOrCachedValues with an advancing clock and a
    remote that may answer each fetch as it likes. The fields `fetches`, `stores`, `Storing.answered`
    and `Returned.at` are history: no step reads them. */
module ValuesSystem {
  import opened Text
  import opened ValuesCache

  type CallId = nat

  type Answer = Result<Values, string>

  datatype Fetch = Fetch(caller: CallId, url: string, answered: int, answer: Answer)

  datatype Store = Store(caller: CallId, url: string, values: Values, answered: int, at: int, ttl: int)

  /** The program counter of a call with its live variables. */
  datatype Call =
    | Asking(url: string, ttl: int)                     // before the lookup
    | Fetching(url: string, ttl: int)                   // waiting for the remote
    | Storing(url: string, ttl: int, values: Values, answered: int)  // answered, before the store
    | Returned(url: string, ttl: int, result: Answer, at: int)

  datatype State = State(clock: int, calls: map<CallId, Call>, entries: Entries, fetches: seq<Fetch>, stores: seq<Store>)

  datatype Label =
    | Tick(elapsed: nat)
    | Begin(id: CallId, url: string, ttl: int)
    | Get(id: CallId)
    | Respond(id: CallId, answer: Answer)
    | Set(id: CallId)

  const INIT := State(0, map[], map[], [], [])

  function Moved(s: State, id: CallId, call: Call): State {
    s.(calls := s.calls[id := call])
  }

  function GetStep(s: State, id: CallId, url: string, ttl: int): State {
    if ttl <= 0 then Moved(s, id, Fetching(url, ttl))
    else
      var found := Look(s.entries, url, s.clock);
      var t := s.(entries := Forget(s.entries, url, s.clock));
      if found.Some? then Moved(t, id, Returned(url, ttl, Success(found.value), s.clock))
      else Moved(t, id, Fetching(url, ttl))
  }

  function RespondStep(s: State, id: CallId, url: string, ttl: int, answer: Answer): State {
    var t := s.(fetches := s.fetches + [Fetch(id, url, s.clock, answer)]);
    if answer.Success? && ttl > 0 then Moved(t, id, Storing(url, ttl, answer.value, s.clock))
    else Moved(t, id, Returned(url, ttl, answer, s.clock))
  }

  function SetStep(s: State, id: CallId, url: string, ttl: int, values: Values, answered: int): State {
    Moved(s, id, Returned(url, ttl, Success(values), s.clock)).(
      entries := Put(s.entries, url, values, ttl, s.clock),
      stores := s.stores + [Store(id, url, values, answered, s.clock, ttl)])
  }

  function CallStep(s: State, l: Label, id: CallId, call: Call): Option<State> {
    match call
    case Asking(url, ttl) => if l.Get? then Some(GetStep(s, id, url, ttl)) else None
    case Fetching(url, ttl) => if l.Respond? then Some(RespondStep(s, id, url, ttl, l.answer)) else None
    case Storing(url, ttl, values, answered) => if l.Set? then Some(SetStep(s, id, url, ttl, values, answered)) else None
    case Returned(_, _, _, _) => None
  }

  /** One step, or None where the label does not apply. */
  function Step(s: State, l: Label): Option<State> {
    match l
    case Tick(elapsed) => Some(s.(clock := s.clock + elapsed))
    case Begin(id, url, ttl) => if id in s.calls then None else Some(Moved(s, id, Asking(url, ttl)))
    case _ => if l.id in s.calls then CallStep(s, l, l.id, s.calls[l.id]) else None
  }

  function Run(labels: seq<Label>): Option<State> {
    if labels == [] then Some(INIT)
    else match Run(labels[..|labels| - 1])
      case None => None
      case Some(s) => Step(s, labels[|labels| - 1])
  }

  // ---------------------------------------------------------------------------------------------
  // What a lookup finds

  /** The store that last wrote the URL. */
  function Latest(stores: seq<Store>, url: string): Option<Store> {
    if stores == [] then None
    else if stores[|stores| - 1].url == url then Some(stores[|stores| - 1])
    else Latest(stores[..|stores| - 1], url)
  }

  /** The reference: the list stored last for the URL, for as long as its own TTL says. */
  function Fresh(stores: seq<Store>, url: string, now: int): Option<Values> {
    match Latest(stores, url)
    case None => None
    case Some(w) => if now <= w.at + w.ttl then Some(w.values) else None
  }

  lemma {:induction false} LatestIsStore(stores: seq<Store>, url: string)
    requires Latest(stores, url).Some?
    ensures Latest(stores, url).value in stores && Latest(stores, url).value.url == url
  {
    if stores[|stores| - 1].url != url {
      LatestIsStore(stores[..|stores| - 1], url);
    }
  }

  /** The table agrees with the reference for the URL, now and at every later time. */
  ghost predicate Agrees(s: State, url: string) {
    match Latest(s.stores, url)
    case None => url !in s.entries
    case Some(w) =>
      if url in s.entries then s.entries[url] == Entry(w.values, w.at + w.ttl) else w.at + w.ttl < s.clock
  }

  /** A successful fetch of the URL by that very call gave the stored list. */
  ghost predicate StoreOk(s: State, w: Store) {
    && w.ttl > 0 && w.at <= s.clock
    && w.caller in s.calls && s.calls[w.caller].ttl == w.ttl && s.calls[w.caller].url == w.url
    && exists f :: f in s.fetches && f.caller == w.caller && f.url == w.url && f.answer == Success(w.values)
                   && f.answered == w.answered <= w.at
  }

  ghost predicate OwnFetch(s: State, id: CallId, url: string, answer: Answer) {
    exists f :: f in s.fetches && f.caller == id && f.url == url && f.answer == answer
  }

  ghost predicate CacheHit(s: State, url: string, values: Values, at: int) {
    exists w :: w in s.stores && w.url == url && w.values == values && w.at <= at <= w.at + w.ttl
  }

  ghost predicate CallOk(s: State, id: CallId, call: Call) {
    match call
    case Asking(_, _) => true
    case Fetching(_, _) => true
    case Storing(url, ttl, values, answered) =>
      ttl > 0 && exists f :: f in s.fetches && f.caller == id && f.url == url && f.answer == Success(values)
                             && f.answered == answered <= s.clock
    case Returned(url, ttl, result, at) =>
      OwnFetch(s, id, url, result) || (result.Success? && ttl > 0 && CacheHit(s, url, result.value, at))
  }

  ghost predicate Inv(s: State) {
    && (forall url :: Agrees(s, url))
    && (forall w :: w in s.stores ==> StoreOk(s, w))
    && (forall id :: id in s.calls ==> CallOk(s, id, s.calls[id]))
  }

  /** What every step leaves alone: the past, and what a call was asked for. */
  ghost predicate Extends(s: State, t: State) {
    && s.clock <= t.clock && s.fetches <= t.fetches && s.stores <= t.stores
    && forall id :: id in s.calls ==> id in t.calls && t.calls[id].url == s.calls[id].url && t.calls[id].ttl == s.calls[id].ttl
  }

  lemma CallFrame(s: State, t: State, id: CallId)
    requires Extends(s, t) && id in s.calls && CallOk(s, id, s.calls[id])
    ensures CallOk(t, id, s.calls[id])
  {
    assert forall f :: f in s.fetches ==> f in t.fetches;
    assert forall w :: w in s.stores ==> w in t.stores;
  }

  lemma StoreFrame(s: State, t: State, w: Store)
    requires Extends(s, t) && StoreOk(s, w)
    ensures StoreOk(t, w)
  {
    assert forall f :: f in s.fetches ==> f in t.fetches;
  }

  lemma StepExtends(s: State, l: Label)
    requires Step(s, l).Some?
    ensures Extends(s, Step(s, l).value)
  {
  }

  /** Only the moved call, new stores and the table need a look after a step. */
  lemma FrameInv(s: State, t: State, id: CallId)
    requires Inv(s) && Extends(s, t)
    requires forall i :: i in t.calls && i != id ==> i in s.calls && t.calls[i] == s.calls[i]
    requires id in t.calls ==> CallOk(t, id, t.calls[id])
    requires forall w :: w in t.stores && w !in s.stores ==> StoreOk(t, w)
    requires forall url :: Agrees(t, url)
    ensures Inv(t)
  {
    forall w | w in t.stores ensures StoreOk(t, w) {
      if w in s.stores {
        StoreFrame(s, t, w);
      }
    }
    forall i | i in t.calls ensures CallOk(t, i, t.calls[i]) {
      if i != id {
        CallFrame(s, t, i);
      }
    }
  }

  lemma LookIsFresh(s: State, url: string)
    requires Agrees(s, url)
    ensures Look(s.entries, url, s.clock) == Fresh(s.stores, url, s.clock)
  {
  }

  lemma GetKeepsInv(s: State, id: CallId)
    requires Inv(s) && id in s.calls && s.calls[id].Asking?
    ensures Inv(GetStep(s, id, s.calls[id].url, s.calls[id].ttl))
  {
    var Asking(url, ttl) := s.calls[id];
    var t := GetStep(s, id, url, ttl);
    assert Step(s, Get(id)) == Some(t);
    StepExtends(s, Get(id));
    LookIsFresh(s, url);
    var found := Look(s.entries, url, s.clock);
    if ttl > 0 && found.Some? {
      var w := Latest(s.stores, url).value;
      LatestIsStore(s.stores, url);
      assert StoreOk(s, w);
      assert CacheHit(t, url, found.value, s.clock);
    }
    forall u ensures Agrees(t, u) {
      assert Agrees(s, u);
    }
    FrameInv(s, t, id);
  }

  lemma RespondKeepsInv(s: State, id: CallId, answer: Answer)
    requires Inv(s) && id in s.calls && s.calls[id].Fetching?
    ensures Inv(RespondStep(s, id, s.calls[id].url, s.calls[id].ttl, answer))
  {
    var Fetching(url, ttl) := s.calls[id];
    var t := RespondStep(s, id, url, ttl, answer);
    assert Step(s, Respond(id, answer)) == Some(t);
    StepExtends(s, Respond(id, answer));
    var f := Fetch(id, url, s.clock, answer);
    assert f in t.fetches;
    forall u ensures Agrees(t, u) {
      assert Agrees(s, u);
    }
    FrameInv(s, t, id);
  }

  lemma SetKeepsInv(s: State, id: CallId)
    requires Inv(s) && id in s.calls && s.calls[id].Storing?
    ensures var Storing(url, ttl, values, answered) := s.calls[id]; Inv(SetStep(s, id, url, ttl, values, answered))
  {
    var Storing(url, ttl, values, answered) := s.calls[id];
    var t := SetStep(s, id, url, ttl, values, answered);
    assert Step(s, Set(id)) == Some(t);
    StepExtends(s, Set(id));
    assert CallOk(s, id, s.calls[id]);
    var w := Store(id, url, values, answered, s.clock, ttl);
    assert StoreOk(t, w);
    assert OwnFetch(t, id, url, Success(values));
    forall u ensures Agrees(t, u) {
      assert Agrees(s, u);
      assert t.stores[..|t.stores| - 1] == s.stores;
    }
    FrameInv(s, t, id);
  }

  lemma StepKeepsInv(s: State, l: Label)
    requires Inv(s) && Step(s, l).Some?
    ensures Inv(Step(s, l).value)
  {
    match l
    case Get(id) => GetKeepsInv(s, id);
    case Respond(id, answer) => RespondKeepsInv(s, id, answer);
    case Set(id) => SetKeepsInv(s, id);
    case Begin(id, url, ttl) =>
      StepExtends(s, l);
      forall u ensures Agrees(Step(s, l).value, u) { assert Agrees(s, u); }
      FrameInv(s, Step(s, l).value, id);
    case Tick(elapsed) =>
      var t := Step(s, l).value;
      StepExtends(s, l);
      forall u ensures Agrees(t, u) { assert Agrees(s, u); }
      forall i | i in t.calls ensures CallOk(t, i, t.calls[i]) { CallFrame(s, t, i); }
      forall w | w in t.stores ensures StoreOk(t, w) { StoreFrame(s, t, w); }
  }

  lemma {:induction false} RunKeepsInv(labels: seq<Label>)
    requires Run(labels).Some?
    ensures Inv(Run(labels).value)
  {
    if labels != [] {
      RunKeepsInv(labels[..|labels| - 1]);
      StepKeepsInv(Run(labels[..|labels| - 1]).value, labels[|labels| - 1]);
    }
  }

  // ---------------------------------------------------------------------------------------------
  // The guarantees

  /** In every run the table is the reference: a lookup finds the list stored last for the URL,
      up to and including the instant at which the TTL of the call that stored it has passed. */
  lemma LookupFindsLatestStore(labels: seq<Label>, url: string)
    requires Run(labels).Some?
    ensures var s := Run(labels).value;
            Look(s.entries, url, s.clock) == Fresh(s.stores, url, s.clock)
  {
    RunKeepsInv(labels);
    LookIsFresh(Run(labels).value, url);
  }

  /** Every list handed out was fetched from that very URL: by the call itself, or by the call that
      stored it no longer ago than the storing call's TTL. An error is always the call's own. */
  lemma ValuesComeFromTheirUrl(labels: seq<Label>, id: CallId)
    requires Run(labels).Some? && id in Run(labels).value.calls && Run(labels).value.calls[id].Returned?
    ensures var s := Run(labels).value;
            var Returned(url, ttl, result, at) := s.calls[id];
            || OwnFetch(s, id, url, result)
            || (result.Success? && ttl > 0 &&
                exists w, f :: w in s.stores && f in s.fetches
                  && w.url == url && w.values == result.value && w.at <= at <= w.at + w.ttl
                  && f.caller == w.caller && f.url == url && f.answer == result && f.answered == w.answered <= w.at
                  && w.caller in s.calls && s.calls[w.caller].ttl == w.ttl > 0 && s.calls[w.caller].url == url)
  {
    RunKeepsInv(labels);
    var s := Run(labels).value;
    var Returned(url, ttl, result, at) := s.calls[id];
    assert CallOk(s, id, s.calls[id]);
    if !OwnFetch(s, id, url, result) {
      var w :| w in s.stores && w.url == url && w.values == result.value && w.at <= at <= w.at + w.ttl;
      assert StoreOk(s, w);
      var f :| f in s.fetches && f.caller == w.caller && f.url == w.url && f.answer == Success(w.values)
               && f.answered == w.answered <= w.at;
    }
  }

  /** The fetch is the call's own, or was stored within the storing call's TTL before `at`. */
  ghost predicate Recent(s: State, f: Fetch, id: CallId, at: int) {
    || f.caller == id
    || exists w :: w in s.stores && w.caller == f.caller && w.url == f.url && f.answer == Success(w.values)
                   && f.answered == w.answered <= w.at <= at <= w.at + w.ttl
  }

  /** The fetch that a list handed out comes from. */
  lemma DecidingFetch(labels: seq<Label>, id: CallId) returns (f: Fetch)
    requires Run(labels).Some? && id in Run(labels).value.calls && Run(labels).value.calls[id].Returned?
    ensures var s := Run(labels).value;
            var Returned(url, ttl, result, at) := s.calls[id];
            && f in s.fetches && f.url == url && f.answer == result
            && f.caller in s.calls && s.calls[f.caller].url == url && Recent(s, f, id, at)
  {
    hide Run;
    ValuesComeFromTheirUrl(labels, id);
    var s := Run(labels).value;
    var Returned(url, ttl, result, at) := s.calls[id];
    if OwnFetch(s, id, url, result) {
      f :| f in s.fetches && f.caller == id && f.url == url && f.answer == result;
    } else {
      var w, g :| w in s.stores && g in s.fetches
        && w.url == url && w.values == result.value && w.at <= at <= w.at + w.ttl
        && g.caller == w.caller && g.url == url && g.answer == result && g.answered == w.answered <= w.at
        && w.caller in s.calls && s.calls[w.caller].ttl == w.ttl > 0 && s.calls[w.caller].url == url;
      f := g;
    }
  }

  /** Calls without a positive TTL go past the cache: their steps leave it alone, they store nothing,
      and what they return they fetched. */
  lemma NonPositiveTtlBypassesCache(labels: seq<Label>, id: CallId)
    requires Run(labels).Some? && id in Run(labels).value.calls && Run(labels).value.calls[id].ttl <= 0
    ensures var s := Run(labels).value;
            && (s.calls[id].Returned? ==> OwnFetch(s, id, s.calls[id].url, s.calls[id].result))
            && (forall w :: w in s.stores ==> w.caller != id)
            && (forall l :: l in [Get(id), Set(id)] || (l.Respond? && l.id == id) ==>
                  Step(s, l).Some? ==> Step(s, l).value.entries == s.entries && Step(s, l).value.stores == s.stores)
  {
    RunKeepsInv(labels);
    var s := Run(labels).value;
    assert CallOk(s, id, s.calls[id]);
    forall w | w in s.stores ensures w.caller != id {
      assert StoreOk(s, w);
    }
  }

  lemma RunStep(labels: seq<Label>, s: State, l: Label)
    requires Run(labels) == Some(s)
    ensures Run(labels + [l]) == Step(s, l)
  {
    assert (labels + [l])[..|labels|] == labels;
  }

  /** The run in which call 0 stores a list and call 1 asks `elapsed` later. */
  function StoreThenAsk(url: string, values: Values, stored: int, elapsed: nat, reader: int): seq<Label> {
    [Begin(0, url, stored)] + [Get(0)] + [Respond(0, Success(values))] + [Set(0)] + [Tick(elapsed)]
    + [Begin(1, url, reader)] + [Get(1)]
  }

  /** Only the TTL of the call that stored a list says how old it may get; the TTL of the call that
      reads it bounds nothing. */
  lemma ReaderTtlIsNoBound(url: string, values: Values, stored: int, elapsed: nat, reader: int)
    requires stored > 0 && reader > 0
    ensures var labels := StoreThenAsk(url, values, stored, elapsed, reader);
            Run(labels).Some? && 1 in Run(labels).value.calls
            && Run(labels).value.calls[1] == (if elapsed <= stored then Returned(url, reader, Success(values), elapsed)
                                              else Fetching(url, reader))
  {
    hide Run;
    RunEmpty();
    var s1 := Step(INIT, Begin(0, url, stored)).value;
    RunStep([], INIT, Begin(0, url, stored));
    assert [] + [Begin(0, url, stored)] == [Begin(0, url, stored)];
    var l1 := [Begin(0, url, stored)];
    RunStep(l1, s1, Get(0));
    var s2 := Step(s1, Get(0)).value;
    var l2 := l1 + [Get(0)];
    RunStep(l2, s2, Respond(0, Success(values)));
    var s3 := Step(s2, Respond(0, Success(values))).value;
    var l3 := l2 + [Respond(0, Success(values))];
    RunStep(l3, s3, Set(0));
    var s4 := Step(s3, Set(0)).value;
    var l4 := l3 + [Set(0)];
    RunStep(l4, s4, Tick(elapsed));
    var s5 := Step(s4, Tick(elapsed)).value;
    var l5 := l4 + [Tick(elapsed)];
    RunStep(l5, s5, Begin(1, url, reader));
    var s6 := Step(s5, Begin(1, url, reader)).value;
    var l6 := l5 + [Begin(1, url, reader)];
    RunStep(l6, s6, Get(1));
  }

  /** The latest store wins, not the latest fetch: with two misses at once the older answer can
      replace the newer one, and then stays for its full TTL. */
  lemma OlderFetchCanWin(url: string, older: Values, newer: Values, ttl: int, delay: nat)
    requires ttl > 0
    ensures exists labels ::
              Run(labels).Some?
              && var s := Run(labels).value;
              && s.fetches == [Fetch(0, url, 0, Success(older)), Fetch(1, url, delay, Success(newer))]
              && s.stores == [Store(1, url, newer, delay, delay, ttl), Store(0, url, older, 0, delay, ttl)]
              && s.clock == delay && Look(s.entries, url, delay + ttl) == Some(older)
  {
    hide Run;
    RunEmpty();
    var s0, s1 := INIT, Step(INIT, Begin(0, url, ttl)).value;
    RunStep([], s0, Begin(0, url, ttl));
    var s2 := Step(s1, Get(0)).value;
    var l1 := [] + [Begin(0, url, ttl)];
    RunStep(l1, s1, Get(0));
    var s3 := Step(s2, Begin(1, url, ttl)).value;
    var l2 := l1 + [Get(0)];
    RunStep(l2, s2, Begin(1, url, ttl));
    var s4 := Step(s3, Get(1)).value;
    var l3 := l2 + [Begin(1, url, ttl)];
    RunStep(l3, s3, Get(1));
    var s5 := Step(s4, Respond(0, Success(older))).value;
    var l4 := l3 + [Get(1)];
    RunStep(l4, s4, Respond(0, Success(older)));
    var s6 := Step(s5, Tick(delay)).value;
    var l5 := l4 + [Respond(0, Success(older))];
    RunStep(l5, s5, Tick(delay));
    NewerIsOverwritten(l5 + [Tick(delay)], s6, url, older, newer, ttl);
  }

  lemma NewerIsOverwritten(labels: seq<Label>, s: State, url: string, older: Values, newer: Values, ttl: int)
    requires ttl > 0 && Run(labels) == Some(s)
    requires 0 in s.calls && s.calls[0] == Storing(url, ttl, older, 0)
    requires 1 in s.calls && s.calls[1] == Fetching(url, ttl)
    ensures exists more ::
              Run(more).Some?
              && var t := Run(more).value;
              && t.fetches == s.fetches + [Fetch(1, url, s.clock, Success(newer))]
              && t.stores == s.stores + [Store(1, url, newer, s.clock, s.clock, ttl), Store(0, url, older, 0, s.clock, ttl)]
              && t.clock == s.clock && Look(t.entries, url, s.clock + ttl) == Some(older)
  {
    hide Run;
    var s1 := Step(s, Respond(1, Success(newer))).value;
    RunStep(labels, s, Respond(1, Success(newer)));
    var l1 := labels + [Respond(1, Success(newer))];
    var s2 := Step(s1, Set(1)).value;
    RunStep(l1, s1, Set(1));
    var l2 := l1 + [Set(1)];
    var s3 := Step(s2, Set(0)).value;
    RunStep(l2, s2, Set(0));
    var l3 := l2 + [Set(0)];
    assert Run(l3) == Some(s3);
  }

  /** The answer that a lookup can find for the URL is the newest of all that were stored for it. */
  ghost predicate HoldsNewest(s: State, url: string) {
    var w := Latest(s.stores, url);
    w.Some? ==> forall v :: v in s.stores && v.url == url ==> v.answered <= w.value.answered
  }

  /** A later answer for the URL of a call about to store has been stored already. */
  ghost predicate Overtaken(s: State, id: CallId) {
    && id in s.calls && s.calls[id].Storing?
    && exists v :: v in s.stores && v.url == s.calls[id].url && s.calls[id].answered < v.answered
  }

  lemma {:induction false} LatestOfOther(stores: seq<Store>, w: Store, url: string)
    ensures Latest(stores + [w], url) == if w.url == url then Some(w) else Latest(stores, url)
  {
    assert (stores + [w])[..|stores|] == stores;
  }

  /** After a store a lookup finds the newest answer for the URL if and only if the storing call was not
      overtaken; a store for another URL changes nothing. */
  lemma NewestAfterSetExactly(s: State, id: CallId, url: string)
    requires Step(s, Set(id)).Some?
    ensures var t := Step(s, Set(id)).value;
            HoldsNewest(t, url) <==> if s.calls[id].url == url then !Overtaken(s, id) else HoldsNewest(s, url)
  {
    var t := Step(s, Set(id)).value;
    var Storing(u, ttl, values, answered) := s.calls[id];
    var w := Store(id, u, values, answered, s.clock, ttl);
    LatestOfOther(s.stores, w, url);
    assert forall v :: v in t.stores <==> v in s.stores || v == w;
  }

  lemma OtherStepsStoreNothing(s: State, l: Label)
    requires Step(s, l).Some? && !l.Set?
    ensures Step(s, l).value.stores == s.stores
  {
  }

  /** No call was overtaken at its store for the URL. */
  ghost predicate NeverOvertaken(labels: seq<Label>, url: string) {
    labels == [] ||
    var l, earlier := labels[|labels| - 1], labels[..|labels| - 1];
    && NeverOvertaken(earlier, url)
    && (l.Set? && Run(earlier).Some? && l.id in Run(earlier).value.calls && Run(earlier).value.calls[l.id].url == url ==>
          !Overtaken(Run(earlier).value, l.id))
  }

  /** At every moment of the run. */
  ghost predicate HoldsNewestThroughout(labels: seq<Label>, url: string) {
    forall n :: 0 <= n <= |labels| && Run(labels[..n]).Some? ==> HoldsNewest(Run(labels[..n]).value, url)
  }

  /** Over whole runs: what a lookup finds is at every moment the newest answer stored for the URL if and
      only if no call was overtaken at its store. */
  lemma {:induction false} NewestThroughoutExactly(labels: seq<Label>, url: string)
    requires Run(labels).Some?
    ensures HoldsNewestThroughout(labels, url) <==> NeverOvertaken(labels, url)
  {
    if labels == [] {
      assert labels[..0] == [];
    } else {
      var earlier, l := labels[..|labels| - 1], labels[|labels| - 1];
      NewestThroughoutExactly(earlier, url);
      ThroughoutGrows(labels, url);
      var s := Run(earlier).value;
      hide Step, Overtaken, HoldsNewest, Latest;
      if HoldsNewest(s, url) {
        NewestKeptExactly(s, l, url);
      }
      assert earlier[..|earlier|] == earlier;
      if HoldsNewestThroughout(earlier, url) {
        assert HoldsNewest(s, url);
      }
    }
  }

  lemma ThroughoutGrows(labels: seq<Label>, url: string)
    requires labels != [] && Run(labels).Some?
    ensures var earlier := labels[..|labels| - 1];
            HoldsNewestThroughout(labels, url) <==> HoldsNewestThroughout(earlier, url) && HoldsNewest(Run(labels).value, url)
  {
    hide Run, HoldsNewest;
    var earlier := labels[..|labels| - 1];
    assert labels[..|labels|] == labels;
    assert forall n {:trigger earlier[..n]} :: 0 <= n <= |earlier| ==> earlier[..n] == labels[..n];
    forall n | 0 <= n <= |earlier| && HoldsNewestThroughout(labels, url) && Run(earlier[..n]).Some?
      ensures HoldsNewest(Run(earlier[..n]).value, url)
    {
      assert earlier[..n] == labels[..n];
    }
    forall n | 0 <= n <= |labels| && HoldsNewestThroughout(earlier, url) && HoldsNewest(Run(labels).value, url) && Run(labels[..n]).Some?
      ensures HoldsNewest(Run(labels[..n]).value, url)
    {
      if n < |labels| {
        assert earlier[..n] == labels[..n];
      }
    }
  }

  /** The same about the table itself: in a run without an overtaken store a lookup finds the newest
      answer stored for the URL, as long as it finds any. */
  lemma NewestAnswerStays(labels: seq<Label>, url: string)
    requires Run(labels).Some? && NeverOvertaken(labels, url)
    ensures var s := Run(labels).value;
            forall v :: v in s.stores && v.url == url && Look(s.entries, url, s.clock).Some? ==>
              Latest(s.stores, url).Some? && v.answered <= Latest(s.stores, url).value.answered
              && Look(s.entries, url, s.clock) == Some(Latest(s.stores, url).value.values)
  {
    hide HoldsNewest, NeverOvertaken, Run, Look, Latest;
    LookupFindsLatestStore(labels, url);
    NewestThroughoutExactly(labels, url);
    assert labels[..|labels|] == labels;
    NewestUnfold(Run(labels).value, url);
  }

  lemma NewestUnfold(s: State, url: string)
    requires HoldsNewest(s, url) && Look(s.entries, url, s.clock) == Fresh(s.stores, url, s.clock)
    ensures forall v :: v in s.stores && v.url == url && Look(s.entries, url, s.clock).Some? ==>
              Latest(s.stores, url).Some? && v.answered <= Latest(s.stores, url).value.answered
              && Look(s.entries, url, s.clock) == Some(Latest(s.stores, url).value.values)
  {
    hide Look, Latest;
  }

  lemma NewestKeptExactly(s: State, l: Label, url: string)
    requires HoldsNewest(s, url) && Step(s, l).Some?
    ensures HoldsNewest(Step(s, l).value, url)
       <==> (l.Set? && l.id in s.calls && s.calls[l.id].url == url ==> !Overtaken(s, l.id))
  {
    if l.Set? {
      NewestAfterSetExactly(s, l.id, url);
    } else {
      OtherStepsStoreNothing(s, l);
    }
  }

  lemma RunEmpty()
    ensures Run([]) == Some(INIT)
  {
  }
}
