/** What an accepted job is sure to satisfy, whatever was submitted and whatever was answered. */
module SubmitGuarantees {
  import opened Text
  import AuthConfig
  import opened GroupsHeader
  import opened TokenReview
  import opened Tasks
  import opened Submit
  import AuthSystem
  import AuthGuarantees
  import K = CacheKey
  import P = Placeholders
  import T = Template
  import U = UnresolvedCheck
  import V = ValuesSystem

  // ---------------------------------------------------------------------------------------------
  // Cascading inputs

  /** The inputs bound after a prefix: those whose field is a string, with that string. */
  lemma {:induction false} BoundExactly(inputs: seq<Input>, payload: Payload, x: string)
    ensures x in Bound(inputs, payload) <==> FieldValue(payload, x).String? && exists j :: 0 <= j < |inputs| && inputs[j].name == x
    ensures x in Bound(inputs, payload) ==> Bound(inputs, payload)[x] == FieldValue(payload, x).s
  {
    if inputs != [] {
      var before, last := inputs[..|inputs| - 1], inputs[|inputs| - 1];
      BoundExactly(before, payload, x);
      if exists j :: 0 <= j < |before| && before[j].name == x {
        var j :| 0 <= j < |before| && before[j].name == x;
        assert inputs[j].name == x;
      }
      if exists j :: 0 <= j < |inputs| && inputs[j].name == x {
        var j :| 0 <= j < |inputs| && inputs[j].name == x;
        assert j < |before| ==> before[j].name == x;
        assert j == |before| ==> last.name == x;
      }
      assert last.name == x ==> inputs[|before|].name == x;
    }
  }

  /** The job's value for a values_url input: its default when the field was absent or null, else a
      member of the list answered for the URL at its position. */
  ghost predicate FromItsList(caller: Caller, task: string, inputs: seq<Input>, payload: Payload, i: nat, order: seq<string>,
                              answers: Answers, value: string)
    requires i < |inputs| && T.IsOrder(order, Bound(inputs[..i + 1], payload).Keys)
  {
    if FieldValue(payload, inputs[i].name).Null? then value == inputs[i].default
    else
      var url := UrlAt(caller, task, inputs, payload, i, order);
      !Contains(url, U.UNRESOLVED) && answers(i, url).Success? && HasValue(answers(i, url).value, value)
  }

  lemma CheckedIsFromItsList(p: Platform, caller: Caller, task: string, inputs: seq<Input>, payload: Payload, i: nat,
                             order: seq<string>, answers: Answers)
    requires i < |inputs| && T.IsOrder(order, Bound(inputs[..i + 1], payload).Keys)
    requires inputs[i].valuesURL != "" && CheckAt(caller, task, inputs, payload, i, order, answers) == None
    ensures FromItsList(caller, task, inputs, payload, i, order, answers,
                        EnvValue(p, inputs[i], FieldValue(payload, inputs[i].name)))
  {
    hide Contains, HasValue, T.Substitute, T.IsOrder, Bound;
  }

  /** What the handler accepts has no early refusal and a valid payload. */
  lemma AcceptedIsChecked(p: Platform, server: Server, request: Request, answers: Answers, enqueued: bool,
                          orders: seq<seq<string>>, job: Job)
    requires OrdersFor(p, server, request, orders)
    requires Handles(p, server, request, answers, enqueued, orders, Success(job))
    ensures EarlyRefusal(p, server, request, orders, answers) == None && Entry(p, server, request).Success?
    ensures var (task, payload) := Entry(p, server, request).value;
            ValidPayload(p, task, payload) && job == JobOf(p, CallerOf(server, request), request.task, task, payload)
  {
    hide Authorized, CallerOf, FirstRefusal, OrdersOk, FirstError, NoUnknownField, Environment;
  }

  /** Cascading acceptance: whenever the handler answers with a job, the caller passed the user-or-group
      check, no field is unknown, no input is in error, and the environment value of every values_url
      input is its default or a member of the list for the URL that the inputs bound up to its position
      give. */
  lemma AcceptedJobIsChecked(p: Platform, server: Server, request: Request, answers: Answers, enqueued: bool,
                             orders: seq<seq<string>>, job: Job, i: nat)
    requires OrdersFor(p, server, request, orders)
    requires Handles(p, server, request, answers, enqueued, orders, Success(job))
    requires Entry(p, server, request).Success? ==>
               var inputs := Entry(p, server, request).value.0.inputs;
               Decides(inputs, i) && inputs[i].valuesURL != ""
    ensures Entry(p, server, request).Success?
    ensures var (task, payload) := Entry(p, server, request).value;
            var caller := CallerOf(server, request);
            && Authorized(server, request, task) && NoUnknownField(task.inputs, job.payload)
            && Validate(p, task.inputs[i], FieldValue(payload, task.inputs[i].name)) == None
            && OrdersOk(task.inputs, payload, orders)
            && task.inputs[i].env in job.env
            && FromItsList(caller, request.task, task.inputs, payload, i, orders[i], answers, job.env[task.inputs[i].env])
  {
    hide Authorized, CallerOf, FirstRefusal, CheckAt, FirstError, Validate, Environment, NoUnknownField, FromItsList, EnvValue, FieldValue, Bound, Handles;
    AcceptedIsChecked(p, server, request, answers, enqueued, orders, job);
    var (task, payload) := Entry(p, server, request).value;
    var caller := CallerOf(server, request);
    NoRefusalMeansChecked(caller, request.task, task.inputs, payload, orders, answers, |task.inputs|, i);
    CheckedIsFromItsList(p, caller, request.task, task.inputs, payload, i, orders[i], answers);
    AcceptedInputsAreValid(p, task.inputs, payload, i);
    EnvironmentHolds(p, task.inputs, payload, i);
  }

  // ---------------------------------------------------------------------------------------------
  // Where the deciding list comes from

  /** The URL is a substitution of these variables into the template. */
  ghost predicate BuiltFrom(url: string, template: string, variables: T.Env) {
    && T.BraceFree(variables.inputs.Keys)
    && exists order :: T.IsOrder(order, variables.inputs.Keys) && url == T.Substitute(variables, order, template)
  }

  /** The calls that fetch a template's URLs, each with the variables it substituted. */
  ghost predicate CallsBuilt(s: V.State, template: string, url: string, origin: V.CallId -> T.Env) {
    forall c :: c in s.calls && s.calls[c].url == url ==> BuiltFrom(url, template, origin(c))
  }

  lemma SameUrlSameVariables(url: string, template: string, e1: T.Env, e2: T.Env)
    requires P.WellFormed(template) && K.Separated(P.Read(template))
    requires BuiltFrom(url, template, e1) && BuiltFrom(url, template, e2)
    ensures K.SameValues(P.Read(template), e1, e2)
  {
    hide T.IsOrder, T.Substitute, T.BraceFree, P.WellFormed, P.Read, K.Separated, K.SameValues;
    var o1 :| T.IsOrder(o1, e1.inputs.Keys) && url == T.Substitute(e1, o1, template);
    var o2 :| T.IsOrder(o2, e2.inputs.Keys) && url == T.Substitute(e2, o2, template);
    K.SameUrlExactlyForSameVariables(template, e1, o1, e2, o2);
  }

  /** From the cache to the queue: with the cache shared by any number of callers, the list in which an
      accepted value was found was fetched by a call that substituted the very same values for every
      variable the template uses, just now or no longer ago than the TTL of the call that stored it. */
  lemma ListWasFetchedForTheseValues(
    caller: Caller, task: string, inputs: seq<Input>, payload: Payload, i: nat, order: seq<string>, answers: Answers, value: string,
    labels: seq<V.Label>, id: V.CallId, origin: V.CallId -> T.Env)
    returns (f: V.Fetch)
    requires i < |inputs| && T.IsOrder(order, Bound(inputs[..i + 1], payload).Keys)
    requires T.BraceFree(Bound(inputs[..i + 1], payload).Keys)
    requires !FieldValue(payload, inputs[i].name).Null?
    requires FromItsList(caller, task, inputs, payload, i, order, answers, value)
    requires P.WellFormed(inputs[i].valuesURL) && K.Separated(P.Read(inputs[i].valuesURL))
    requires V.Run(labels).Some? && id in V.Run(labels).value.calls
    requires var url := UrlAt(caller, task, inputs, payload, i, order);
             var s := V.Run(labels).value;
             && s.calls[id].Returned? && s.calls[id].url == url && s.calls[id].result == answers(i, url)
             && CallsBuilt(s, inputs[i].valuesURL, url, origin)
    ensures var s := V.Run(labels).value;
            && f in s.fetches && f.url == UrlAt(caller, task, inputs, payload, i, order)
            && f.answer.Success? && HasValue(f.answer.value, value)
            && V.Recent(s, f, id, s.calls[id].at)
            && K.SameValues(P.Read(inputs[i].valuesURL), EnvAt(caller, task, inputs, payload, i), origin(f.caller))
  {
    hide T.IsOrder, T.Substitute, T.BraceFree, P.WellFormed, P.Read, K.Separated, K.SameValues, V.Run, V.Recent, Contains, HasValue, Bound, FieldValue;
    f := V.DecidingFetch(labels, id);
    var url, env := UrlAt(caller, task, inputs, payload, i, order), EnvAt(caller, task, inputs, payload, i);
    assert BuiltFrom(url, inputs[i].valuesURL, env);
    SameUrlSameVariables(url, inputs[i].valuesURL, env, origin(f.caller));
  }

  /** The template at a position mentions an input that is not a string-valued input at or before it. */
  ghost predicate NamesMissing(inputs: seq<Input>, payload: Payload, i: nat)
    requires i < |inputs|
  {
    exists t :: t in P.Read(inputs[i].valuesURL) && t.Slot? && T.INPUT <= t.name
                && !(FieldValue(payload, t.name[|T.INPUT|..]).String?
                     && exists j :: 0 <= j <= i && inputs[j].name == t.name[|T.INPUT|..])
  }

  lemma MissingIsUnbound(inputs: seq<Input>, payload: Payload, i: nat)
    requires i < |inputs|
    ensures NamesMissing(inputs, payload, i) <==> U.NamesUnbound(inputs[i].valuesURL, Bound(inputs[..i + 1], payload).Keys)
  {
    hide Bound, FieldValue, P.Read;
    forall t | t in P.Read(inputs[i].valuesURL) && t.Slot? && T.INPUT <= t.name
      ensures t.name[|T.INPUT|..] in Bound(inputs[..i + 1], payload)
         <==> FieldValue(payload, t.name[|T.INPUT|..]).String? && exists j :: 0 <= j <= i && inputs[j].name == t.name[|T.INPUT|..]
    {
      BoundAtPosition(inputs, payload, i, t.name[|T.INPUT|..]);
    }
  }

  /** Whoever submits whatever strings for the inputs bound at a position: the check fires there if and
      only if the template mentions an input that is not one of them. */
  ghost predicate CheckIsExactAt(inputs: seq<Input>, i: nat, names: set<string>, order: seq<string>)
    requires i < |inputs| && T.IsOrder(order, names)
  {
    forall caller: Caller, task: string, payload: Payload :: Bound(inputs[..i + 1], payload).Keys == names ==>
      (Contains(UrlAt(caller, task, inputs, payload, i, order), U.UNRESOLVED) <==> NamesMissing(inputs, payload, i))
  }

  /** A payload that binds the given strings. */
  function Strings(values: map<string, string>): Payload {
    map k | k in values :: String(values[k])
  }

  lemma StringsBind(inputs: seq<Input>, values: map<string, string>)
    requires values.Keys <= FieldNames(inputs)
    ensures Bound(inputs, Strings(values)) == values
  {
    hide Bound;
    var payload := Strings(values);
    forall x ensures x in Bound(inputs, payload) <==> x in values {
      BoundExactly(inputs, payload, x);
      if x in values {
        var j :| 0 <= j < |inputs| && inputs[j].name == x;
      }
    }
    forall x | x in values ensures Bound(inputs, payload)[x] == values[x] {
      BoundExactly(inputs, payload, x);
    }
  }

  lemma ExactAtIsExact(inputs: seq<Input>, i: nat, names: set<string>, order: seq<string>)
    requires i < |inputs| && T.IsOrder(order, names) && names <= FieldNames(inputs[..i + 1])
    ensures CheckIsExactAt(inputs, i, names, order) <==> U.CheckIsExact(names, order, inputs[i].valuesURL)
  {
    hide Contains, T.Substitute, T.IsOrder, Bound, FieldValue, FieldNames, NamesMissing, U.NamesUnbound, Strings;
    var s := inputs[i].valuesURL;
    if U.CheckIsExact(names, order, s) {
      forall caller: Caller, task: string, payload: Payload | Bound(inputs[..i + 1], payload).Keys == names
        ensures Contains(UrlAt(caller, task, inputs, payload, i, order), U.UNRESOLVED) <==> NamesMissing(inputs, payload, i)
      {
        var env := EnvAt(caller, task, inputs, payload, i);
        assert env.inputs.Keys == names;
        MissingIsUnbound(inputs, payload, i);
      }
    }
    if CheckIsExactAt(inputs, i, names, order) {
      forall env: T.Env | env.inputs.Keys == names
        ensures Contains(T.Substitute(env, order, s), U.UNRESOLVED) <==> U.NamesUnbound(s, names)
      {
        var payload, caller := Strings(env.inputs), Caller(env.identity, env.groups);
        StringsBind(inputs[..i + 1], env.inputs);
        MissingIsUnbound(inputs, payload, i);
        assert EnvAt(caller, env.task, inputs, payload, i) == env;
        assert UrlAt(caller, env.task, inputs, payload, i, order) == T.Substitute(env, order, s);
      }
    }
  }

  /** The unresolved check at every position of every task: it is exact for all callers and all payloads
      that bind the same inputs if and only if the template spells the text out when it mentions an
      unbound input, and has no trap when it does not. */
  lemma UnresolvedExactlyWhenNotBoundEarlier(inputs: seq<Input>, i: nat, names: set<string>, order: seq<string>)
    requires i < |inputs| && T.IsOrder(order, names) && names <= FieldNames(inputs[..i + 1])
    ensures var s := inputs[i].valuesURL;
            CheckIsExactAt(inputs, i, names, order) <==>
              if U.NamesUnbound(s, names) then U.SpelledOut(P.ParseIn(order, s)) else !U.HasTrap(P.ParseIn(order, s))
  {
    hide CheckIsExactAt, T.IsOrder, FieldNames, U.CheckIsExact, U.NamesUnbound, U.SpelledOut, U.HasTrap, P.ParseIn;
    ExactAtIsExact(inputs, i, names, order);
    U.CheckIsExactExactly(names, order, inputs[i].valuesURL);
  }

  /** With plain input names: exactly when the template mentions an unbound input or has no trap; so
      always on well-formed templates. */
  lemma UnresolvedExactForPlainNames(inputs: seq<Input>, i: nat, names: set<string>, order: seq<string>)
    requires i < |inputs| && T.IsOrder(order, names) && names <= FieldNames(inputs[..i + 1])
    requires T.BraceFree(names) && P.DollarFree(names)
    ensures var s := inputs[i].valuesURL;
            CheckIsExactAt(inputs, i, names, order) <==> U.NamesUnbound(s, names) || !U.HasTrap(P.ParseIn(order, s))
    ensures P.WellFormed(inputs[i].valuesURL) ==> CheckIsExactAt(inputs, i, names, order)
  {
    hide CheckIsExactAt, T.IsOrder, FieldNames, T.BraceFree, P.DollarFree, P.WellFormed, U.CheckIsExact, U.NamesUnbound, U.HasTrap, P.ParseIn;
    var s := inputs[i].valuesURL;
    ExactAtIsExact(inputs, i, names, order);
    U.CheckIsExactForPlainNames(names, order, s);
    if P.WellFormed(s) {
      U.CheckIsExactWhenWellFormed(names, order, s);
    }
  }

  lemma BoundAtPosition(inputs: seq<Input>, payload: Payload, i: nat, x: string)
    requires i < |inputs|
    ensures x in Bound(inputs[..i + 1], payload)
       <==> FieldValue(payload, x).String? && exists j :: 0 <= j <= i && inputs[j].name == x
  {
    hide Bound, FieldValue;
    var part := inputs[..i + 1];
    BoundExactly(part, payload, x);
    if exists j :: 0 <= j <= i && inputs[j].name == x {
      var j :| 0 <= j <= i && inputs[j].name == x;
      assert part[j].name == x;
    }
    if exists j :: 0 <= j < |part| && part[j].name == x {
      var j :| 0 <= j < |part| && part[j].name == x;
      assert inputs[j].name == x;
    }
  }

  // ---------------------------------------------------------------------------------------------
  // The order of Go's maps

  /** With prefix-free input names the handler's decision does not depend on any map order. */
  lemma {:induction false} DecisionIgnoresOrders(caller: Caller, task: string, inputs: seq<Input>, payload: Payload,
                                                 o1: seq<seq<string>>, o2: seq<seq<string>>, answers: Answers, n: nat)
    requires n <= |inputs| && OrdersOk(inputs, payload, o1) && OrdersOk(inputs, payload, o2)
    requires T.PrefixFree(FieldNames(inputs))
    ensures FirstRefusal(caller, task, inputs, payload, o1, answers, n) == FirstRefusal(caller, task, inputs, payload, o2, answers, n)
  {
    hide T.Substitute, T.PrefixFree, FieldNames, Contains, Judge, FieldValue, Bound;
    if n > 0 {
      DecisionIgnoresOrders(caller, task, inputs, payload, o1, o2, answers, n - 1);
      var env := EnvAt(caller, task, inputs, payload, n - 1);
      BoundNamesArePrefixFree(inputs, payload, n - 1);
      T.ReplaceIgnoresOrder(env, o1[n - 1], o2[n - 1], inputs[n - 1].valuesURL);
    }
  }

  lemma BoundNamesArePrefixFree(inputs: seq<Input>, payload: Payload, i: nat)
    requires i < |inputs| && T.PrefixFree(FieldNames(inputs))
    ensures T.PrefixFree(Bound(inputs[..i + 1], payload).Keys)
  {
    hide Bound, FieldValue;
    var names := Bound(inputs[..i + 1], payload).Keys;
    forall k | k in names ensures k in FieldNames(inputs) {
      BoundAtPosition(inputs, payload, i, k);
      var j :| 0 <= j <= i && inputs[j].name == k;
      assert inputs[j].name in FieldNames(inputs);
    }
    assert names <= FieldNames(inputs);
  }

  // ---------------------------------------------------------------------------------------------
  // Who the job belongs to

  /** The group check on the verified list and on the CSV that the job carries agree. */
  lemma AclAgreesWithCsv(cfg: AuthConfig.Config, reply: Reply, allowed: seq<string>)
    requires AuthConfig.Accepted(cfg) && Decide(cfg, reply).Success?
    ensures var p := Decide(cfg, reply).value;
            (exists g :: g in p.groups && g in allowed) <==> (exists g :: g in SplitGroups(Join(p.groups, ',')) && g in allowed)
  {
    GrantedGroupsSurviveCsv(cfg, reply);
  }

  /** No groups header makes its caller a member of the empty group. */
  lemma EmptyGroupIsNoMember(server: Server, request: Request)
    requires request.verified.None?
    ensures "" !in GroupsOf(server, request)
  {
    var header := CallerOf(server, request).groups;
    SplitPartsHaveNoSeparator(header, ',');
    KeptPartsAreSafe(Split(header, ','));
    assert "" in GroupsOf(server, request) ==> CsvSafe("");
  }

  /** From the authenticator to the queue: in every run of the authenticator, the job of a request
      that carries what a call returned bears the identity and the groups of a principal that a recent
      enough review of the very same token granted. */
  lemma JobBearsReviewedPrincipal(c: AuthSystem.Setup, labels: seq<AuthSystem.Label>, id: AuthSystem.CallId,
                                  p: Platform, server: Server, request: Request, task: Resolved, payload: Payload)
    requires AuthConfig.Accepted(c.config)
    requires AuthSystem.Run(c, labels).Some? && id in AuthSystem.Run(c, labels).value.calls
    requires AuthGuarantees.DigestTells(c, AuthSystem.Run(c, labels).value, AuthSystem.Run(c, labels).value.calls[id].token)
    requires var call := AuthSystem.Run(c, labels).value.calls[id];
             call.Returned? && call.result.Success? && request.verified == Some(call.result.value)
    ensures var s := AuthSystem.Run(c, labels).value;
            var job := JobOf(p, CallerOf(server, request), request.task, task, payload);
            AuthGuarantees.BackedByReview(c, s, id, s.calls[id].token, Principal(job.identity, SplitGroups(job.groups)), s.calls[id].at)
  {
    AuthGuarantees.AuthenticateRefinesReviews(c, labels, id);
    AuthGuarantees.HandedGroupsSurviveCsv(c, labels, id);
  }

  // ---------------------------------------------------------------------------------------------
  // Whose fault a refusal is

  lemma {:induction false} FirstRefusalOfHealthyRemotes(caller: Caller, task: string, inputs: seq<Input>, payload: Payload,
                                                        orders: seq<seq<string>>, answers: Answers, n: nat)
    requires n <= |inputs| && OrdersOk(inputs, payload, orders)
    requires forall i: nat, url: string :: answers(i, url).Success?
    ensures var r := FirstRefusal(caller, task, inputs, payload, orders, answers, n);
            r.Some? ==> HttpStatus(r.value) in [400, 403]
  {
    hide T.Substitute, Contains, FieldValue, Bound, HasValue;
    if n > 0 {
      FirstRefusalOfHealthyRemotes(caller, task, inputs, payload, orders, answers, n - 1);
    }
  }

  /** While every values URL answers with a list, a refusal before the queue is the caller's: no
      server error arises, and 401 and 404 come from the identity and the task's definition alone. */
  lemma HealthyRemotesCauseNoServerError(p: Platform, server: Server, request: Request, orders: seq<seq<string>>, answers: Answers)
    requires OrdersFor(p, server, request, orders)
    requires forall i: nat, url: string :: answers(i, url).Success?
    ensures var early := EarlyRefusal(p, server, request, orders, answers);
            var anonymous := server.requireIdentity && CallerOf(server, request).identity == "";
            early.Some? ==>
              && HttpStatus(early.value) < 500
              && (HttpStatus(early.value) == 401 <==> anonymous)
              && (HttpStatus(early.value) == 404 <==> !anonymous && Resolve(p, server.defaults, server.tasks, request.task).Failure?)
  {
    hide CallerOf, Authorized, Resolve, FirstRefusal;
    var entry := Entry(p, server, request);
    if entry.Success? {
      var (task, payload) := entry.value;
      FirstRefusalOfHealthyRemotes(CallerOf(server, request), request.task, task.inputs, payload, orders, answers, |task.inputs|);
    }
  }
}
