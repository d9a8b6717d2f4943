/** Submitting a task (handleSubmitTask in internal/api/api.go). */
module Submit {
  import opened Text
  import opened GroupsHeader
  import opened TokenReview
  import opened Tasks
  import ValuesCache
  import T = Template
  import U = UnresolvedCheck

  // ---------------------------------------------------------------------------------------------
  // Who calls, and may they

  datatype Server = Server(requireIdentity: bool, kubernetes: bool, defaults: Defaults, tasks: map<string, TaskDef>)

  /** A request as it reaches the handler: the principal in its context, the two configured headers,
      and the body, None when it is not JSON. */
  datatype Request = Request(
    task: string, verified: Option<Principal>, identityHeader: string, groupsHeader: string, body: Option<Payload>)

  datatype Caller = Caller(identity: string, groups: string)

  /** caller: headers count in trusted-header mode only. */
  function CallerOf(server: Server, request: Request): Caller {
    if request.verified.Some? then Caller(request.verified.value.identity, Join(request.verified.value.groups, ','))
    else if server.kubernetes then Caller("", "")
    else Caller(request.identityHeader, request.groupsHeader)
  }

  /** The groups that count for authorization. */
  function GroupsOf(server: Server, request: Request): seq<string> {
    if request.verified.Some? then request.verified.value.groups
    else SplitGroups(CallerOf(server, request).groups)
  }

  method IsAllowedUser(identity: string, allowedUsers: seq<string>) returns (ok: bool)
    ensures ok <==> identity != "" && identity in allowedUsers
  {
    if identity == "" {
      return false;
    }
    for i := 0 to |allowedUsers|
      invariant identity !in allowedUsers[..i]
    {
      if allowedUsers[i] != "" && identity == allowedUsers[i] {
        return true;
      }
    }
    return false;
  }

  method HasAnyGroup(userGroups: seq<string>, allowedGroups: seq<string>) returns (ok: bool)
    ensures ok <==> exists g :: g in userGroups && g in allowedGroups
  {
    for i := 0 to |userGroups|
      invariant forall k :: 0 <= k < i ==> userGroups[k] !in allowedGroups
    {
      for j := 0 to |allowedGroups|
        invariant userGroups[i] !in allowedGroups[..j]
      {
        if userGroups[i] == allowedGroups[j] {
          assert userGroups[i] in userGroups && userGroups[i] in allowedGroups;
          return true;
        }
      }
    }
    return false;
  }

  ghost predicate Authorized(server: Server, request: Request, task: Resolved) {
    || (task.allowedUsers == [] && task.allowedGroups == [])
    || (CallerOf(server, request).identity != "" && CallerOf(server, request).identity in task.allowedUsers)
    || (exists g :: g in GroupsOf(server, request) && g in task.allowedGroups)
  }

  method Authorize(server: Server, request: Request, task: Resolved) returns (ok: bool)
    ensures ok <==> Authorized(server, request, task)
  {
    if |task.allowedUsers| == 0 && |task.allowedGroups| == 0 {
      return true;
    }
    var userOK := false;
    if |task.allowedUsers| > 0 {
      userOK := IsAllowedUser(CallerOf(server, request).identity, task.allowedUsers);
    }
    var groupOK := false;
    if |task.allowedGroups| > 0 {
      groupOK := HasAnyGroup(GroupsOf(server, request), task.allowedGroups);
    }
    return userOK || groupOK;
  }

  // ---------------------------------------------------------------------------------------------
  // The values_url checks, in the order of the inputs

  /** What fetchOrCachedValues answers for the input at a position when it is asked for a URL. */
  type Answers = (nat, string) -> Result<ValuesCache.Values, string>

  datatype Refusal =
    | IdentityRequired
    | TaskError(error: Error)
    | NotAuthorized
    | InvalidJSON
    | NotAString(field: string)
    | Unresolved(field: string)
    | FetchTimeout(field: string)
    | FetchFailed(field: string)
    | NotAllowed(field: string)
    | Invalid(error: Error)
    | NotEnqueued

  function HttpStatus(refusal: Refusal): nat {
    match refusal
    case IdentityRequired => 401
    case TaskError(_) => 404
    case NotAuthorized | NotAllowed(_) => 403
    case InvalidJSON | NotAString(_) | Unresolved(_) | Invalid(_) => 400
    case FetchTimeout(_) => 504
    case FetchFailed(_) => 502
    case NotEnqueued => 503
  }

  /** inputValues after a prefix of the inputs: the submitted strings. */
  function Bound(inputs: seq<Input>, payload: Payload): map<string, string> {
    if inputs == [] then map[]
    else
      var before, name := Bound(inputs[..|inputs| - 1], payload), inputs[|inputs| - 1].name;
      var value := FieldValue(payload, name);
      if value.String? then before[name := value.s] else before
  }

  function EnvAt(caller: Caller, task: string, inputs: seq<Input>, payload: Payload, i: nat): T.Env
    requires i < |inputs|
  {
    T.Env(caller.identity, caller.groups, task, Bound(inputs[..i + 1], payload))
  }

  /** One order of the bound inputs for each position: Go's map iteration. */
  ghost predicate OrdersOk(inputs: seq<Input>, payload: Payload, orders: seq<seq<string>>) {
    |orders| == |inputs| && forall i :: 0 <= i < |inputs| ==> T.IsOrder(orders[i], Bound(inputs[..i + 1], payload).Keys)
  }

  function UrlAt(caller: Caller, task: string, inputs: seq<Input>, payload: Payload, i: nat, order: seq<string>): string
    requires i < |inputs| && T.IsOrder(order, Bound(inputs[..i + 1], payload).Keys)
  {
    T.Substitute(EnvAt(caller, task, inputs, payload, i), order, inputs[i].valuesURL)
  }

  predicate HasValue(allowed: ValuesCache.Values, submitted: string) {
    exists i :: 0 <= i < |allowed| && allowed[i].value == submitted
  }

  method IsValueAllowed(submitted: string, allowed: ValuesCache.Values) returns (ok: bool)
    ensures ok <==> HasValue(allowed, submitted)
  {
    for i := 0 to |allowed|
      invariant forall j :: 0 <= j < i ==> allowed[j].value != submitted
    {
      if allowed[i].value == submitted {
        return true;
      }
    }
    return false;
  }

  /** The answer for a submitted string decides. */
  function Judge(field: string, submitted: string, answer: Result<ValuesCache.Values, string>): Option<Refusal> {
    match answer
    case Failure(message) => Some(if Contains(message, "timeout") then FetchTimeout(field) else FetchFailed(field))
    case Success(allowed) => if HasValue(allowed, submitted) then None else Some(NotAllowed(field))
  }

  /** One turn of the loop, with the inputs bound so far. */
  function CheckWith(env: T.Env, input: Input, value: Value, order: seq<string>, answers: Answers, i: nat): Option<Refusal>
    requires T.IsOrder(order, env.inputs.Keys)
  {
    if input.valuesURL == "" || value.Null? then None
    else if !value.String? then Some(NotAString(input.name))
    else
      var url := T.Substitute(env, order, input.valuesURL);
      if Contains(url, U.UNRESOLVED) then Some(Unresolved(input.name))
      else Judge(input.name, value.s, answers(i, url))
  }

  function CheckAt(caller: Caller, task: string, inputs: seq<Input>, payload: Payload, i: nat, order: seq<string>,
                   answers: Answers): Option<Refusal>
    requires i < |inputs| && T.IsOrder(order, Bound(inputs[..i + 1], payload).Keys)
  {
    CheckWith(EnvAt(caller, task, inputs, payload, i), inputs[i], FieldValue(payload, inputs[i].name), order, answers, i)
  }

  /** The first refusal among the first n inputs. */
  ghost function FirstRefusal(caller: Caller, task: string, inputs: seq<Input>, payload: Payload,
                              orders: seq<seq<string>>, answers: Answers, n: nat): Option<Refusal>
    requires n <= |inputs| && OrdersOk(inputs, payload, orders)
  {
    if n == 0 then None
    else match FirstRefusal(caller, task, inputs, payload, orders, answers, n - 1)
      case Some(r) => Some(r)
      case None => CheckAt(caller, task, inputs, payload, n - 1, orders[n - 1], answers)
  }

  lemma {:induction false} FirstRefusalStays(caller: Caller, task: string, inputs: seq<Input>, payload: Payload,
                                             orders: seq<seq<string>>, answers: Answers, n: nat, m: nat)
    requires n <= m <= |inputs| && OrdersOk(inputs, payload, orders)
    requires FirstRefusal(caller, task, inputs, payload, orders, answers, n).Some?
    ensures FirstRefusal(caller, task, inputs, payload, orders, answers, m)
         == FirstRefusal(caller, task, inputs, payload, orders, answers, n)
  {
    hide CheckAt, OrdersOk;
    if n < m {
      FirstRefusalStays(caller, task, inputs, payload, orders, answers, n, m - 1);
    }
  }

  lemma {:induction false} NoRefusalMeansChecked(caller: Caller, task: string, inputs: seq<Input>, payload: Payload,
                                                 orders: seq<seq<string>>, answers: Answers, n: nat, i: nat)
    requires i < n <= |inputs| && OrdersOk(inputs, payload, orders)
    requires FirstRefusal(caller, task, inputs, payload, orders, answers, n) == None
    ensures CheckAt(caller, task, inputs, payload, i, orders[i], answers) == None
  {
    hide CheckAt;
    if i < n - 1 {
      NoRefusalMeansChecked(caller, task, inputs, payload, orders, answers, n - 1, i);
    }
  }

  lemma {:induction false} SameOrdersSameRefusal(caller: Caller, task: string, inputs: seq<Input>, payload: Payload,
                                                 o1: seq<seq<string>>, o2: seq<seq<string>>, answers: Answers, n: nat)
    requires n <= |inputs| && OrdersOk(inputs, payload, o1) && OrdersOk(inputs, payload, o2) && o1[..n] == o2[..n]
    ensures FirstRefusal(caller, task, inputs, payload, o1, answers, n) == FirstRefusal(caller, task, inputs, payload, o2, answers, n)
  {
    hide CheckAt;
    if n > 0 {
      assert o1[..n - 1] == o1[..n][..n - 1] == o2[..n - 1];
      assert o1[n - 1] == o1[..n][n - 1] == o2[n - 1];
      SameOrdersSameRefusal(caller, task, inputs, payload, o1, o2, answers, n - 1);
    }
  }

  lemma {:induction false} OrdersExist(inputs: seq<Input>, payload: Payload, n: nat) returns (orders: seq<seq<string>>)
    requires n <= |inputs|
    ensures |orders| == n && forall i :: 0 <= i < n ==> T.IsOrder(orders[i], Bound(inputs[..i + 1], payload).Keys)
  {
    hide Bound;
    orders := [];
    if n > 0 {
      var before := OrdersExist(inputs, payload, n - 1);
      var last := T.OrderExists(Bound(inputs[..n], payload).Keys);
      orders := before + [last];
    }
  }

  method CheckValue(env: T.Env, input: Input, value: Value, answers: Answers, i: nat) returns (refusal: Option<Refusal>)
    ensures exists order :: T.IsOrder(order, env.inputs.Keys) && refusal == CheckWith(env, input, value, order, answers, i)
  {
    hide Contains, T.Substitute, T.IsOrder;
    ghost var order := T.OrderExists(env.inputs.Keys);
    if input.valuesURL == "" || value.Null? {
      return None;
    }
    if !value.String? {
      return Some(NotAString(input.name));
    }
    var url := T.SubstituteURL(env, input.valuesURL);
    order :| T.IsOrder(order, env.inputs.Keys) && url == T.Substitute(env, order, input.valuesURL);
    if Contains(url, U.UNRESOLVED) {
      return Some(Unresolved(input.name));
    }
    var allowed := answers(i, url);
    if allowed.Failure? {
      return Some(if Contains(allowed.error, "timeout") then FetchTimeout(input.name) else FetchFailed(input.name));
    }
    var ok := IsValueAllowed(value.s, allowed.value);
    if !ok {
      return Some(NotAllowed(input.name));
    }
    return None;
  }

  lemma BoundNothing(payload: Payload)
    ensures Bound([], payload) == map[]
  {
  }

  lemma BoundNext(inputs: seq<Input>, payload: Payload, i: nat)
    requires i < |inputs|
    ensures var value, before := FieldValue(payload, inputs[i].name), Bound(inputs[..i], payload);
            Bound(inputs[..i + 1], payload) == if value.String? then before[inputs[i].name := value.s] else before
  {
    hide FieldValue;
    assert inputs[..i + 1][..i] == inputs[..i];
  }

  /** The loop over the inputs: each is bound before its own values_url is substituted. */
  method CheckValues(caller: Caller, task: string, inputs: seq<Input>, payload: Payload, answers: Answers)
    returns (refusal: Option<Refusal>)
    ensures exists orders :: OrdersOk(inputs, payload, orders)
              && refusal == FirstRefusal(caller, task, inputs, payload, orders, answers, |inputs|)
  {
    hide CheckWith, T.IsOrder, Bound, FieldValue;
    assert Bound([], payload) == map[] by { BoundNothing(payload); }
    ghost var orders := OrdersExist(inputs, payload, |inputs|);
    var inputValues := map[];
    for i := 0 to |inputs|
      invariant inputValues == Bound(inputs[..i], payload)
      invariant OrdersOk(inputs, payload, orders)
      invariant FirstRefusal(caller, task, inputs, payload, orders, answers, i) == None
    {
      var value := FieldValue(payload, inputs[i].name);
      BoundNext(inputs, payload, i);
      if value.String? {
        inputValues := inputValues[inputs[i].name := value.s];
      }
      assert inputValues == Bound(inputs[..i + 1], payload);
      var env := T.Env(caller.identity, caller.groups, task, inputValues);
      refusal := CheckValue(env, inputs[i], value, answers, i);
      ghost var order :| T.IsOrder(order, env.inputs.Keys) && refusal == CheckWith(env, inputs[i], value, order, answers, i);
      ghost var before := orders;
      orders := orders[i := order];
      SameOrdersSameRefusal(caller, task, inputs, payload, before, orders, answers, i);
      assert refusal == CheckAt(caller, task, inputs, payload, i, order, answers);
      if refusal.Some? {
        FirstRefusalStays(caller, task, inputs, payload, orders, answers, i + 1, |inputs|);
        return;
      }
    }
    refusal := None;
  }

  // ---------------------------------------------------------------------------------------------
  // handleSubmitTask

  datatype Job = Job(
    task: string, identity: string, groups: string, env: map<string, string>, payload: Payload,
    queue: string, timeout: int, maxRetry: int)

  function JobOf(p: Platform, caller: Caller, name: string, task: Resolved, payload: Payload): Job {
    Job(name, caller.identity, caller.groups, Environment(p, task.inputs, payload), payload, task.queue, task.timeout, task.maxRetry)
  }

  /** Everything up to the decoding of the body: the resolved task and the payload, or the refusal. */
  ghost function Entry(p: Platform, server: Server, request: Request): Result<(Resolved, Payload), Refusal> {
    if server.requireIdentity && CallerOf(server, request).identity == "" then Failure(IdentityRequired)
    else
      var resolved := Resolve(p, server.defaults, server.tasks, request.task);
      if resolved.Failure? then Failure(TaskError(resolved.error))
      else if !Authorized(server, request, resolved.value) then Failure(NotAuthorized)
      else if request.body.None? then Failure(InvalidJSON)
      else Success((resolved.value, request.body.value))
  }

  /** The orders that the substitutions of an accepted entry were made in. */
  ghost predicate OrdersFor(p: Platform, server: Server, request: Request, orders: seq<seq<string>>) {
    var entry := Entry(p, server, request);
    entry.Success? ==> OrdersOk(entry.value.0.inputs, entry.value.1, orders)
  }

  /** The refusal before the payload is validated, if there is one. */
  ghost function EarlyRefusal(p: Platform, server: Server, request: Request, orders: seq<seq<string>>, answers: Answers): Option<Refusal>
    requires OrdersFor(p, server, request, orders)
  {
    match Entry(p, server, request)
    case Failure(r) => Some(r)
    case Success((task, payload)) =>
      FirstRefusal(CallerOf(server, request), request.task, task.inputs, payload, orders, answers, |task.inputs|)
  }

  ghost predicate ValidPayload(p: Platform, task: Resolved, payload: Payload) {
    NoUnknownField(task.inputs, payload) && FirstError(p, task.inputs, payload) == None
  }

  /** What the handler answers: the first refusal in the order of the checks, or the job. */
  ghost predicate Handles(p: Platform, server: Server, request: Request, answers: Answers, enqueued: bool,
                          orders: seq<seq<string>>, result: Result<Job, Refusal>)
    requires OrdersFor(p, server, request, orders)
  {
    var early := EarlyRefusal(p, server, request, orders, answers);
    if early.Some? then result == Failure(early.value)
    else
      var (task, payload) := Entry(p, server, request).value;
      if !ValidPayload(p, task, payload) then
        result.Failure? && result.error.Invalid?
        && (if NoUnknownField(task.inputs, payload)
            then FirstError(p, task.inputs, payload) == Some(result.error.error)
            else result.error.error.UnknownField? && result.error.error.field in payload
                 && result.error.error.field !in FieldNames(task.inputs))
      else if !enqueued then result == Failure(NotEnqueued)
      else result == Success(JobOf(p, CallerOf(server, request), request.task, task, payload))
  }

  /** The handler; `enqueued` is the queue's answer. */
  method HandleSubmitTask(p: Platform, server: Server, request: Request, answers: Answers, enqueued: bool)
    returns (result: Result<Job, Refusal>)
    ensures exists orders :: OrdersFor(p, server, request, orders) && Handles(p, server, request, answers, enqueued, orders, result)
  {
    hide FirstRefusal, FirstError, NoUnknownField, FieldNames, Environment, OrdersOk, Authorized, CallerOf, OrdersFor;
    var caller := CallerOf(server, request);
    if Entry(p, server, request).Failure? {
      NoOrdersNeeded(p, server, request);
    }
    if server.requireIdentity && caller.identity == "" {
      return Failure(IdentityRequired);
    }
    var resolved := Resolve(p, server.defaults, server.tasks, request.task);
    if resolved.Failure? {
      return Failure(TaskError(resolved.error));
    }
    var task := resolved.value;
    var authorized := Authorize(server, request, task);
    if !authorized {
      return Failure(NotAuthorized);
    }
    if request.body.None? {
      return Failure(InvalidJSON);
    }
    var payload := request.body.value;
    assert Entry(p, server, request) == Success((task, payload));
    var refusal := CheckValues(caller, request.task, task.inputs, payload, answers);
    ghost var orders :| OrdersOk(task.inputs, payload, orders)
      && refusal == FirstRefusal(caller, request.task, task.inputs, payload, orders, answers, |task.inputs|);
    OrdersAreFor(p, server, request, orders);
    if refusal.Some? {
      return Failure(refusal.value);
    }
    var env := ValidatePayload(p, task.inputs, payload);
    if env.Failure? {
      return Failure(Invalid(env.error));
    }
    if !enqueued {
      return Failure(NotEnqueued);
    }
    return Success(Job(request.task, caller.identity, caller.groups, env.value, payload, task.queue, task.timeout, task.maxRetry));
  }

  lemma NoOrdersNeeded(p: Platform, server: Server, request: Request)
    requires Entry(p, server, request).Failure?
    ensures OrdersFor(p, server, request, [])
  {
    hide Entry;
  }

  lemma OrdersAreFor(p: Platform, server: Server, request: Request, orders: seq<seq<string>>)
    requires Entry(p, server, request).Success?
    requires var (task, payload) := Entry(p, server, request).value; OrdersOk(task.inputs, payload, orders)
    ensures OrdersFor(p, server, request, orders)
  {
    hide Entry, OrdersOk;
  }
}
