/** The authenticator as an object with mutable lists (internal/auth/kubernetes.go), and the
    middleware that hands its verdict to a request (internal/auth/auth.go). One call runs at a time
    here; AuthSystem has the interleavings. The rules of the cache are those of ReviewCache. */
module KubernetesAuth {
  import opened Text
  import opened AuthConfig
  import opened TokenReview
  import opened ReviewCache
  import opened AuthSystem
  import opened Credentials

  /** A principal whose groups are a Go slice. */
  datatype Slice = Slice(identity: string, groups: array<string>)

  function Value(p: Slice): Principal
    reads p.groups
  {
    Principal(p.identity, p.groups[..])
  }

  /** What the surroundings contribute to one call: the context, the clock readings, whether the wait
      for a slot is given up, and the endpoint's reply. */
  datatype Surroundings = Surroundings(
    ended: bool, gaveUp: bool, started: int, checked: int, stored: int, reply: Reply)

  function OutcomeOf(r: Result<Slice, AuthError>): Outcome
    reads if r.Success? then {r.value.groups} else {}
  {
    match r
    case Success(p) => Success(Value(p))
    case Failure(e) => Failure(e)
  }

  /** The outcome of a review when `occupied` slots are taken. */
  function Reviewed(config: Config, occupied: nat, env: Surroundings): Outcome {
    if env.gaveUp || occupied == MAX_CONCURRENT_REVIEWS then Failure(Unavailable) else Decide(config, env.reply)
  }

  predicate Hits(config: Config, key: Digest, cache: map<Digest, Entry<Principal>>, env: Surroundings) {
    config.cacheTTL != 0 && key in cache && env.checked < cache[key].expires
  }

  /** The outcome of an uninterrupted call. */
  function Answered(
    config: Config, key: Digest, cache: map<Digest, Entry<Principal>>, occupied: nat, env: Surroundings): Outcome
  {
    if env.ended then Failure(Unavailable)
    else if Hits(config, key, cache, env) then Success(cache[key].principal)
    else Reviewed(config, occupied, env)
  }

  /** The cache after an uninterrupted call. */
  function CacheAfter(
    config: Config, key: Digest, cache: map<Digest, Entry<Principal>>, occupied: nat, env: Surroundings)
    : map<Digest, Entry<Principal>>
  {
    var reviewed := Reviewed(config, occupied, env);
    if env.ended || config.cacheTTL == 0 || Hits(config, key, cache, env) || reviewed.Failure? then cache
    else Publish(cache, key, reviewed.value, env.started, config.cacheTTL, env.stored)
  }

  method CloneList(a: array<string>) returns (b: array<string>)
    ensures fresh(b) && b[..] == a[..]
  {
    b := new string[a.Length];
    forall i | 0 <= i < a.Length {
      b[i] := a[i];
    }
  }

  /** The list that decoding the reply allocates. */
  method Decoded(groups: seq<string>) returns (b: array<string>)
    ensures fresh(b) && b[..] == groups
  {
    b := new string[|groups|];
    forall i | 0 <= i < |groups| {
      b[i] := groups[i];
    }
  }

  ghost function Lists(cache: map<Digest, Entry<Slice>>): set<array<string>> {
    set k | k in cache :: cache[k].principal.groups
  }

  /** A cache with its lists read out. */
  ghost function Contents(cache: map<Digest, Entry<Slice>>): map<Digest, Entry<Principal>>
    reads Lists(cache)
  {
    map k | k in cache :: Entry(Value(cache[k].principal), cache[k].expires)
  }

  lemma ContentsOfInsert(cache: map<Digest, Entry<Slice>>, key: Digest, e: Entry<Slice>)
    ensures Contents(cache[key := e]) == Contents(cache)[key := Entry(Value(e.principal), e.expires)]
  {
  }

  lemma ContentsOfSweep(cache: map<Digest, Entry<Slice>>, now: int)
    ensures Contents(Sweep(cache, now)) == Sweep(Contents(cache), now)
  {
  }

  class Kubernetes {
    const config: Config
    const digest: string -> Digest
    var cache: map<Digest, Entry<Slice>>
    var inFlight: nat
    ghost var repr: set<array<string>>  // the lists that cached principals own

    ghost predicate Valid()
      reads this
    {
      && repr == Lists(cache)
      && |cache| <= MAX_CACHED_REVIEWS
      && inFlight <= MAX_CONCURRENT_REVIEWS
    }

    /** The cache with its lists read out. */
    ghost function View(): map<Digest, Entry<Principal>>
      requires Valid()
      reads this, repr
    {
      Contents(cache)
    }

    constructor (config: Config, digest: string -> Digest)
      ensures Valid() && View() == map[] && inFlight == 0
      ensures this.config == config && this.digest == digest
    {
      this.config := config;
      this.digest := digest;
      cache := map[];
      inFlight := 0;
      repr := {};
    }

    /** Lines 122 to 127: a hit comes with its own copy of the groups. */
    method Lookup(key: Digest, now: int) returns (hit: Option<Slice>)
      requires Valid()
      ensures hit.Some? <==> key in View() && now < View()[key].expires
      ensures hit.Some? ==> fresh(hit.value.groups) && Value(hit.value) == View()[key].principal
    {
      if key in cache && now < cache[key].expires {
        var copy := CloneList(cache[key].principal.groups);
        hit := Some(Slice(cache[key].principal.identity, copy));
      } else {
        hit := None;
      }
    }

    /** Lines 136 to 140: the sweep, one entry at a time in whatever order the map yields them. */
    method DeleteExpired(now: int)
      modifies this`cache
      ensures cache == Sweep(old(cache), now)
    {
      var todo := cache.Keys;
      while todo != {}
        invariant todo <= old(cache).Keys
        invariant cache == map k | k in old(cache) && (k in todo || now < old(cache)[k].expires) :: old(cache)[k]
        decreases todo
      {
        var hash :| hash in todo;
        if !(now < cache[hash].expires) {
          cache := cache - {hash};
        }
        todo := todo - {hash};
      }
    }

    /** The sweep as seen through the view: deleted entries give up their lists. */
    method Expire(now: int)
      requires Valid()
      modifies this`cache, this`repr
      ensures Valid() && repr <= old(repr)
      ensures View() == Sweep(old(View()), now)
    {
      SweepShrinks(cache, now);
      ContentsOfSweep(cache, now);
      DeleteExpired(now);
      repr := Lists(cache);
    }

    /** Lines 143 to 145: the cached principal gets its own copy of the groups. */
    method Insert(key: Digest, p: Slice, expires: int)
      requires Valid() && p.groups !in repr
      requires key !in cache && |cache| < MAX_CACHED_REVIEWS
      modifies this`cache, this`repr
      ensures Valid() && p.groups !in repr
      ensures forall a :: a in repr ==> a in old(repr) || fresh(a)
      ensures View() == old(View())[key := Entry(Value(p), expires)]
    {
      var copy := CloneList(p.groups);
      ContentsOfInsert(cache, key, Entry(Slice(p.identity, copy), expires));
      cache := cache[key := Entry(Slice(p.identity, copy), expires)];
      repr := Lists(cache);
    }

    /** Lines 133 to 146. */
    method Publish(key: Digest, p: Slice, started: int, now: int)
      requires Valid() && p.groups !in repr
      modifies this`cache, this`repr
      ensures Valid() && p.groups !in repr
      ensures forall a :: a in repr ==> a in old(repr) || fresh(a)
      ensures View() == ReviewCache.Publish(old(View()), key, Value(p), started, config.cacheTTL, now)
    {
      ghost var before := View();
      Expire(now);
      assert View() == Sweep(before, now);
      assert cache.Keys == View().Keys && |cache| == |cache.Keys| == |View().Keys| == |View()|;
      var admitted := key !in cache && |cache| < MAX_CACHED_REVIEWS && now < started + config.cacheTTL;
      assert admitted == Admits(before, key, started, config.cacheTTL, now);
      if admitted {
        Insert(key, p, started + config.cacheTTL);
      }
    }

    /** Lines 186 to 218: the checks on a reply, with group names qualified in place. */
    method Inspect(reply: Reply) returns (r: Result<Slice, AuthError>)
      ensures r.Failure? ==> Decide(config, reply) == Failure(r.error)
      ensures r.Success? ==> fresh(r.value.groups) && Decide(config, reply) == Success(Value(r.value))
      ensures r.Success? <==> ReplyGrants(config, reply)
      ensures r.Success? ==> Bears(config, reply, Value(r.value))
      ensures r == Failure(Unavailable) <==> reply.NoStatus?
    {
      hide ReplyGrants, Bears;
      DecidesExactly(config, reply);
      if reply.NoStatus? {
        return Failure(Unavailable);
      }
      var groups := Decoded(reply.groups);
      for i := 0 to groups.Length
        invariant forall j :: 0 <= j < i ==> !AmbiguousGroup(reply.groups[j])
        invariant groups[..] == reply.groups
      {
        if AmbiguousGroup(groups[i]) {
          return Failure(Unauthenticated);
        }
      }
      forall g | g in reply.groups ensures !AmbiguousGroup(g) {
        var j :| 0 <= j < |reply.groups| && reply.groups[j] == g;
      }
      if !reply.authenticated || reply.error != "" || reply.username == "" || ContainsAny(reply.username, "\r\n\0") {
        return Failure(Unauthenticated);
      }
      if !exists a :: a in reply.audiences && a in config.audiences {
        return Failure(Unauthenticated);
      }
      var cluster := ClusterOf(config, reply);
      if cluster.None? {
        return Failure(Unauthenticated);
      }
      if !config.includeCluster {
        return Success(Slice(reply.username, groups));
      }
      for i := 0 to groups.Length
        invariant groups[..i] == QualifyAll(cluster.value, reply.groups)[..i]
        invariant groups[i..] == reply.groups[i..]
      {
        assert groups[i] == groups[i..][0] == reply.groups[i];
        groups[i] := Qualify(cluster.value, groups[i]);
      }
      assert groups[..] == groups[..groups.Length] == QualifyAll(cluster.value, reply.groups);
      r := Success(Slice(Qualify(cluster.value, reply.username), groups));
    }

    /** Lines 151 to 219: a slot is held during the review and given back on every path. */
    method Review(env: Surroundings) returns (r: Result<Slice, AuthError>)
      requires Valid()
      modifies this`inFlight
      ensures Valid() && inFlight == old(inFlight)
      ensures r.Success? ==> fresh(r.value.groups)
      ensures OutcomeOf(r) == Reviewed(config, inFlight, env)
    {
      if env.gaveUp || inFlight == MAX_CONCURRENT_REVIEWS {
        return Failure(Unavailable);
      }
      inFlight := inFlight + 1;
      r := Inspect(env.reply);
      inFlight := inFlight - 1;
    }

    /** Lines 114 to 148. The principal handed out shares no list with the cache, and the cache after
        the call is what the rules of ReviewCache make of the cache before it. */
    method Authenticate(token: string, env: Surroundings) returns (r: Result<Slice, AuthError>)
      requires Valid()
      modifies this
      ensures Valid() && inFlight == old(inFlight)
      ensures r.Success? ==> fresh(r.value.groups) && r.value.groups !in repr
      ensures forall a :: a in repr ==> a in old(repr) || fresh(a)
      ensures OutcomeOf(r) == Answered(config, digest(token), old(View()), inFlight, env)
      ensures View() == CacheAfter(config, digest(token), old(View()), inFlight, env)
    {
      if env.ended {
        return Failure(Unavailable);
      }
      if config.cacheTTL == 0 {
        r := Review(env);
        return;
      }
      var key := digest(token);
      var hit := Lookup(key, env.checked);
      if hit.Some? {
        return Success(hit.value);
      }
      r := Review(env);
      if r.Success? {
        Publish(key, r.value, env.started, env.stored);
      }
    }

    /** Whatever a caller writes into a list it was handed, the cache answers as before. */
    method CallerOverwrites(handed: array<string>, groups: seq<string>)
      requires Valid() && handed !in repr && |groups| == handed.Length
      modifies handed
      ensures Valid() && View() == old(View())
    {
      forall i | 0 <= i < handed.Length {
        handed[i] := groups[i];
      }
    }
  }

  // ---- internal/auth/auth.go ----

  const FORWARDED := ["X-Forwarded-User", "X-Forwarded-Groups", "X-Forwarded-Cluster", "X-Forwarded-Extra-Cluster-Name"]

  datatype Passage =
    | Public                     // a probe: handed on as it came
    | Refused(status: nat)
    | Verified

  function Values(headers: map<string, seq<string>>, name: string): seq<string> {
    if name in headers then headers[name] else []
  }

  predicate IsProbe(verb: string, path: string) {
    verb == "GET" && path in ["/health", "/metrics"]
  }

  function Stripped(headers: map<string, seq<string>>, identityHeader: string, groupsHeader: string)
    : map<string, seq<string>>
  {
    headers - ({identityHeader, groupsHeader, "Authorization"} + set name | name in FORWARDED)
  }

  /** The request presents this token: in its only Authorization header. */
  ghost predicate HasCredential(headers: map<string, seq<string>>, token: string) {
    && "Authorization" in headers && |headers["Authorization"]| == 1
    && Presents(headers["Authorization"][0], token)
  }

  lemma CredentialExactly(headers: map<string, seq<string>>, token: string)
    ensures HasCredential(headers, token) <==> BearerToken(Values(headers, "Authorization")) == Some(token)
  {
    hide Presents, BearerToken;
    BearerTokenExactly(Values(headers, "Authorization"), token);
  }

  /** The headers that handlers get to see after a request was not a probe. */
  predicate Forwardable(name: string, identityHeader: string, groupsHeader: string) {
    && name != identityHeader && name != groupsHeader && name != "Authorization"
    && name != "X-Forwarded-User" && name != "X-Forwarded-Groups"
    && name != "X-Forwarded-Cluster" && name != "X-Forwarded-Extra-Cluster-Name"
  }

  lemma StrippedExactly(headers: map<string, seq<string>>, identityHeader: string, groupsHeader: string)
    ensures Stripped(headers, identityHeader, groupsHeader)
         == map name | name in headers && Forwardable(name, identityHeader, groupsHeader) :: headers[name]
  {
    assert forall name :: name in FORWARDED <==>
      name == "X-Forwarded-User" || name == "X-Forwarded-Groups" || name == "X-Forwarded-Cluster" || name == "X-Forwarded-Extra-Cluster-Name";
  }

  class Request {
    const verb: string
    const path: string
    var headers: map<string, seq<string>>
    var principal: Option<Slice>  // the verified context

    constructor (verb: string, path: string, headers: map<string, seq<string>>)
      ensures this.verb == verb && this.path == path && this.headers == headers && principal == None
    {
      this.verb := verb;
      this.path := path;
      this.headers := headers;
      principal := None;
    }

    /** FromContext: a private copy of the verified principal. */
    method FromContext() returns (p: Option<Slice>)
      ensures p.Some? <==> principal.Some?
      ensures p.Some? ==> fresh(p.value.groups) && Value(p.value) == Value(principal.value)
    {
      if principal.None? {
        return None;
      }
      var copy := CloneList(principal.value.groups);
      p := Some(Slice(principal.value.identity, copy));
    }

    /** The credential is judged and the verified principal copied into the request. */
    method Admit(k: Kubernetes, credential: string, env: Surroundings) returns (passage: Passage)
      requires k.Valid() && principal == None
      modifies this`principal, k
      ensures k.Valid()
      ensures forall a :: a in k.repr ==> a in old(k.repr) || fresh(a)
      ensures var answer := Answered(k.config, k.digest(credential), old(k.View()), k.inFlight, env);
              && passage == (if answer.Success? then Verified else Refused(if answer.error == Unauthenticated then 401 else 503))
              && principal.Some? == passage.Verified?
              && (principal.Some? ==> fresh(principal.value.groups) && Value(principal.value) == answer.value)
      ensures principal.Some? ==> principal.value.groups !in k.repr
      ensures k.View() == CacheAfter(k.config, k.digest(credential), old(k.View()), k.inFlight, env)
    {
      hide Answered, CacheAfter, Contents, Lists;
      var r := k.Authenticate(credential, env);
      if r.Failure? {
        return Refused(if r.error.Unauthenticated? then 401 else 503);
      }
      var copy := CloneList(r.value.groups);
      principal := Some(Slice(r.value.identity, copy));
      passage := Verified;
    }

    /** Middleware in front of the handlers. A request that is verified carries what the authenticator
        said in a list of its own and none of the identity headers it came with; a refused one carries
        no principal; the status tells bad credentials from an authenticator that cannot tell. */
    method Middleware(k: Kubernetes, identityHeader: string, groupsHeader: string, env: Surroundings)
      returns (passage: Passage)
      requires k.Valid() && principal == None
      modifies this, k
      ensures k.Valid()
      ensures forall a :: a in k.repr ==> a in old(k.repr) || fresh(a)
      ensures passage.Public? <==> verb == "GET" && (path == "/health" || path == "/metrics")
      ensures passage.Public? ==> headers == old(headers) && k.View() == old(k.View())
      ensures !passage.Public? ==>
                headers == map name | name in old(headers) && Forwardable(name, identityHeader, groupsHeader) :: old(headers)[name]
      ensures principal.Some? == passage.Verified?
      ensures principal.Some? ==> fresh(principal.value.groups) && principal.value.groups !in k.repr
      ensures !passage.Public? && (forall token :: !HasCredential(old(headers), token)) ==>
                passage == Refused(401) && k.View() == old(k.View())
      ensures !passage.Public? ==> forall token :: HasCredential(old(headers), token) ==>
                var answer := Answered(k.config, k.digest(token), old(k.View()), k.inFlight, env);
                && passage == (if answer.Success? then Verified else Refused(if answer.error == Unauthenticated then 401 else 503))
                && (passage.Verified? ==> Value(principal.value) == answer.value)
                && k.View() == CacheAfter(k.config, k.digest(token), old(k.View()), k.inFlight, env)
    {
      hide Answered, CacheAfter, Contents, Lists, BearerToken, Stripped, Values, HasCredential, Forwardable;
      StrippedExactly(headers, identityHeader, groupsHeader);
      forall token ensures HasCredential(headers, token) <==> BearerToken(Values(headers, "Authorization")) == Some(token) {
        CredentialExactly(headers, token);
      }
      if IsProbe(verb, path) {
        return Public;
      }
      var credential := BearerToken(Values(headers, "Authorization"));
      headers := Stripped(headers, identityHeader, groupsHeader);
      if credential.None? {
        return Refused(401);
      }
      passage := Admit(k, credential.value, env);
    }
  }
}
