/** An account of the submit handler (internal/api/api.go) in terms of the configuration, the request and
    the answers of the values URLs alone: who may run what, which URL is asked with which values in it,
    and what the job says. It calls none of the functions of the account in Submit, and the two agree. */
module SubmitTerms {
  import opened Text
  import opened GroupsHeader
  import opened Tasks
  import opened Submit
  import SubmitGuarantees
  import ValuesCache
  import Q = QueryEscape
  import P = Placeholders
  import T = Template
  import U = UnresolvedCheck

  // ---------------------------------------------------------------------------------------------
  // Who calls, and may they

  /** Verified principals come first; headers count only without the Kubernetes authenticator. */
  function Identity(server: Server, request: Request): string {
    match request.verified
    case Some(p) => p.identity
    case None => if server.kubernetes then "" else request.identityHeader
  }

  function GroupsText(server: Server, request: Request): string {
    match request.verified
    case Some(p) => Join(p.groups, ',')
    case None => if server.kubernetes then "" else request.groupsHeader
  }

  ghost predicate IsMember(server: Server, request: Request, g: string) {
    match request.verified
    case Some(p) => g in p.groups
    case None => !server.kubernetes && NamedIn(request.groupsHeader, g)
  }

  /** The task's own lists decide: it is open to all, to some users, or to some groups. */
  ghost predicate MayRun(server: Server, request: Request, task: TaskDef) {
    || (task.allowedUsers == [] && task.allowedGroups == [])
    || (Identity(server, request) != "" && Identity(server, request) in task.allowedUsers)
    || (exists g :: g in task.allowedGroups && IsMember(server, request, g))
  }

  lemma CallerInTerms(server: Server, request: Request)
    ensures CallerOf(server, request) == Caller(Identity(server, request), GroupsText(server, request))
  {
  }

  lemma MembersInTerms(server: Server, request: Request, g: string)
    ensures g in GroupsOf(server, request) <==> IsMember(server, request, g)
  {
    hide NamedIn, SplitGroups;
    SplitNamesExactly(GroupsText(server, request), g);
    if request.verified.None? && server.kubernetes {
      assert SplitGroups("") == [] by { NothingInEmpty(); }
    }
  }

  lemma NothingInEmpty()
    ensures SplitGroups("") == []
  {
  }

  lemma PermissionInTerms(server: Server, request: Request, task: TaskDef, resolved: Resolved)
    requires resolved.allowedUsers == task.allowedUsers && resolved.allowedGroups == task.allowedGroups
    ensures Authorized(server, request, resolved) <==> MayRun(server, request, task)
  {
    hide CallerOf, GroupsOf, IsMember, Identity, GroupsText;
    CallerInTerms(server, request);
    forall g ensures g in GroupsOf(server, request) <==> IsMember(server, request, g) {
      MembersInTerms(server, request, g);
    }
  }

  // ---------------------------------------------------------------------------------------------
  // The settings of a job

  function OrElse(a: string, b: string): string {
    if a != "" then a else b
  }

  function TimeoutText(task: TaskDef, defaults: Defaults): string {
    OrElse(task.timeout, OrElse(defaults.timeout, "5m"))
  }

  function RetryDelayText(task: TaskDef, defaults: Defaults): string {
    OrElse(task.retryDelay, OrElse(defaults.retryDelay, "30s"))
  }

  /** Each setting is the task's own if it has one, else the file's default, else the built-in one. */
  ghost predicate Settled(p: Platform, task: TaskDef, defaults: Defaults, queue: string, timeout: int, maxRetry: int) {
    && queue == OrElse(task.queue, OrElse(defaults.queue, "default"))
    && p.duration(TimeoutText(task, defaults)) == Some(timeout)
    && maxRetry == match task.maxRetry { case Some(n) => n case None => defaults.maxRetry }
  }

  lemma ResolutionInTerms(p: Platform, defaults: Defaults, tasks: map<string, TaskDef>, name: string)
    ensures Resolve(p, defaults, tasks, name).Success? <==>
              && name in tasks
              && p.duration(TimeoutText(tasks[name], defaults)).Some?
              && p.duration(RetryDelayText(tasks[name], defaults)).Some?
    ensures match Resolve(p, defaults, tasks, name)
            case Failure(e) =>
              e == (if name !in tasks then NotFound
                    else if p.duration(TimeoutText(tasks[name], defaults)).None? then BadDuration(TimeoutText(tasks[name], defaults))
                    else BadDuration(RetryDelayText(tasks[name], defaults)))
            case Success(r) =>
              && Settled(p, tasks[name], defaults, r.queue, r.timeout, r.maxRetry)
              && p.duration(RetryDelayText(tasks[name], defaults)) == Some(r.retryDelay)
              && r.allowedUsers == tasks[name].allowedUsers && r.allowedGroups == tasks[name].allowedGroups
              && r.inputs == tasks[name].inputs
  {
  }

  // ---------------------------------------------------------------------------------------------
  // The URL that is asked

  /** A template in pieces: text without "$", and placeholders "${name}". */
  datatype Piece = Literal(text: string) | Placeholder(name: string)

  predicate Plain(pieces: seq<Piece>) {
    forall q :: q in pieces ==> (q.Literal? ==> '$' !in q.text) && (q.Placeholder? ==> '$' !in q.name && '}' !in q.name)
  }

  function TemplateOf(pieces: seq<Piece>): string {
    if pieces == [] then ""
    else (match pieces[0] case Literal(text) => text case Placeholder(name) => "${" + name + "}") + TemplateOf(pieces[1..])
  }

  /** x is submitted as a string and is the name of an input at or before the position. */
  predicate IsStringAt(inputs: seq<Input>, payload: Payload, i: nat, x: string)
    requires i < |inputs|
  {
    x in payload && payload[x].String? && exists j :: 0 <= j <= i && inputs[j].name == x
  }

  /** What stands in the URL for "${name}". */
  function Filling(server: Server, request: Request, inputs: seq<Input>, payload: Payload, i: nat, name: string): string
    requires i < |inputs|
  {
    if name == "identity" then Q.Escape(Identity(server, request))
    else if name == "groups" then Q.Escape(GroupsText(server, request))
    else if name == "task" then Q.Escape(request.task)
    else if "input." <= name && IsStringAt(inputs, payload, i, name[6..]) then Q.Escape(payload[name[6..]].s)
    else "${" + name + "}"
  }

  function Filled(server: Server, request: Request, inputs: seq<Input>, payload: Payload, i: nat, pieces: seq<Piece>): string
    requires i < |inputs|
  {
    if pieces == [] then ""
    else
      (match pieces[0]
       case Literal(text) => text
       case Placeholder(name) => Filling(server, request, inputs, payload, i, name))
      + Filled(server, request, inputs, payload, i, pieces[1..])
  }

  lemma ShownIsFilling(server: Server, request: Request, inputs: seq<Input>, payload: Payload, i: nat, name: string)
    requires i < |inputs|
    ensures P.Show(P.Slot(name), EnvAt(CallerOf(server, request), request.task, inputs, payload, i))
         == Filling(server, request, inputs, payload, i, name)
  {
    hide CallerOf, Bound, Q.Escape;
    CallerInTerms(server, request);
    if "input." <= name {
      var x := name[6..];
      SubmitGuarantees.BoundAtPosition(inputs, payload, i, x);
      SubmitGuarantees.BoundExactly(inputs[..i + 1], payload, x);
    }
  }

  lemma NamesAreBraceFree(inputs: seq<Input>, payload: Payload, i: nat)
    requires i < |inputs| && forall j :: 0 <= j <= i ==> '}' !in inputs[j].name
    ensures T.BraceFree(Bound(inputs[..i + 1], payload).Keys)
  {
    hide Bound;
    forall x | x in Bound(inputs[..i + 1], payload) ensures '}' !in x {
      SubmitGuarantees.BoundAtPosition(inputs, payload, i, x);
    }
  }

  lemma NothingToReplace(env: T.Env, order: seq<string>)
    requires T.IsOrder(order, env.inputs.Keys)
    ensures T.Substitute(env, order, "") == ""
  {
  }

  lemma TextStays(env: T.Env, order: seq<string>, text: string, rest: string)
    requires T.IsOrder(order, env.inputs.Keys) && '$' !in text
    ensures T.Substitute(env, order, text + rest) == text + T.Substitute(env, order, rest)
  {
    hide T.Pairs, T.Replace;
    T.KeysStartWithDollar(env, order);
    T.ReplaceKeepsText(T.Pairs(env, order), text, rest);
  }

  lemma {:induction false} SubstituteFills(server: Server, request: Request, inputs: seq<Input>, payload: Payload, i: nat,
                                           order: seq<string>, pieces: seq<Piece>)
    requires i < |inputs| && T.IsOrder(order, Bound(inputs[..i + 1], payload).Keys)
    requires T.BraceFree(Bound(inputs[..i + 1], payload).Keys) && Plain(pieces)
    ensures T.Substitute(EnvAt(CallerOf(server, request), request.task, inputs, payload, i), order, TemplateOf(pieces))
         == Filled(server, request, inputs, payload, i, pieces)
  {
    hide CallerOf, Bound, T.IsOrder, T.BraceFree, T.Substitute, P.Show, Filling;
    var env := EnvAt(CallerOf(server, request), request.task, inputs, payload, i);
    if pieces == [] {
      NothingToReplace(env, order);
    } else {
      assert pieces[0] in pieces;
      SubstituteFills(server, request, inputs, payload, i, order, pieces[1..]);
      var rest := TemplateOf(pieces[1..]);
      match pieces[0]
      case Literal(text) =>
        TextStays(env, order, text, rest);
      case Placeholder(name) =>
        P.ReplaceSlot(env, order, name, rest);
        ShownIsFilling(server, request, inputs, payload, i, name);
    }
  }

  /** The URL that decides: the template with every placeholder of the caller, of the task and of the
      strings submitted so far replaced by the escaped value, in place, and nothing else changed. */
  lemma UrlInTerms(server: Server, request: Request, inputs: seq<Input>, payload: Payload, i: nat, order: seq<string>,
                   pieces: seq<Piece>)
    requires i < |inputs| && T.IsOrder(order, Bound(inputs[..i + 1], payload).Keys)
    requires forall j :: 0 <= j <= i ==> '}' !in inputs[j].name
    requires Plain(pieces) && inputs[i].valuesURL == TemplateOf(pieces)
    ensures UrlAt(CallerOf(server, request), request.task, inputs, payload, i, order)
         == Filled(server, request, inputs, payload, i, pieces)
  {
    hide CallerOf, Bound, T.IsOrder, T.BraceFree, T.Substitute, Filled, TemplateOf, Plain;
    NamesAreBraceFree(inputs, payload, i);
    SubstituteFills(server, request, inputs, payload, i, order, pieces);
  }

  /** Every well-formed template has such pieces. */
  lemma {:induction false} WellFormedHasPieces(s: string) returns (pieces: seq<Piece>)
    requires P.WellFormed(s)
    ensures Plain(pieces) && TemplateOf(pieces) == s
    decreases |s|
  {
    pieces := [];
    if s != "" {
      var tokens := P.Read(s);
      if P.PlacedName(s).Some? {
        P.PlacedNameIsKey(s);
        var n := P.PlacedName(s).value;
        var rest := s[|T.Key(n)|..];
        assert tokens[1..] == P.Read(rest);
        var more := WellFormedHasPieces(rest);
        pieces := [Placeholder(n)] + more;
        assert s == T.Key(n) + rest;
      } else {
        assert tokens[0] == P.Char(s[0]) && tokens[1..] == P.Read(s[1..]);
        var more := WellFormedHasPieces(s[1..]);
        pieces := [Literal([s[0]])] + more;
      }
    }
  }

  // ---------------------------------------------------------------------------------------------
  // The refusals on the way

  ghost predicate Has(s: string, sub: string) {
    exists k :: HasAt(s, sub, k)
  }

  /** The check of an input against the list for a URL ends in a refusal. */
  ghost predicate RefusedAt(inputs: seq<Input>, payload: Payload, answers: Answers, i: nat, url: string, r: Refusal)
    requires i < |inputs|
  {
    && inputs[i].valuesURL != "" && inputs[i].name in payload && payload[inputs[i].name] != Null
    && var value := payload[inputs[i].name];
       match r
       case NotAString(f) => f == inputs[i].name && !value.String?
       case Unresolved(f) => f == inputs[i].name && value.String? && Has(url, "${input.")
       case FetchTimeout(f) =>
         && f == inputs[i].name && value.String? && !Has(url, "${input.")
         && answers(i, url).Failure? && Has(answers(i, url).error, "timeout")
       case FetchFailed(f) =>
         && f == inputs[i].name && value.String? && !Has(url, "${input.")
         && answers(i, url).Failure? && !Has(answers(i, url).error, "timeout")
       case NotAllowed(f) =>
         && f == inputs[i].name && value.String? && !Has(url, "${input.")
         && answers(i, url).Success? && forall v :: v in answers(i, url).value ==> v.value != value.s
       case _ => false
  }

  ghost predicate IsRefused(inputs: seq<Input>, payload: Payload, answers: Answers, i: nat, url: string)
    requires i < |inputs|
  {
    exists r :: RefusedAt(inputs, payload, answers, i, url, r)
  }

  lemma CheckInTerms(caller: Caller, task: string, inputs: seq<Input>, payload: Payload, i: nat, order: seq<string>, answers: Answers)
    requires i < |inputs| && T.IsOrder(order, Bound(inputs[..i + 1], payload).Keys)
    ensures var url, verdict := UrlAt(caller, task, inputs, payload, i, order), CheckAt(caller, task, inputs, payload, i, order, answers);
            && (verdict.Some? <==> IsRefused(inputs, payload, answers, i, url))
            && (verdict.Some? ==> RefusedAt(inputs, payload, answers, i, url, verdict.value))
  {
    hide Contains, Bound, T.IsOrder, T.Substitute, HasAt;
    var url := UrlAt(caller, task, inputs, payload, i, order);
    ContainsExactly(url, "${input.");
    if answers(i, url).Failure? {
      ContainsExactly(answers(i, url).error, "timeout");
    }
    if answers(i, url).Success? && inputs[i].name in payload && payload[inputs[i].name].String? {
      ListInTerms(answers(i, url).value, payload[inputs[i].name].s);
    }
    var verdict := CheckAt(caller, task, inputs, payload, i, order, answers);
    assert verdict.Some? ==> RefusedAt(inputs, payload, answers, i, url, verdict.value);
    if IsRefused(inputs, payload, answers, i, url) {
      var r :| RefusedAt(inputs, payload, answers, i, url, r);
    }
  }

  lemma ListInTerms(allowed: ValuesCache.Values, s: string)
    ensures HasValue(allowed, s) <==> !forall v :: v in allowed ==> v.value != s
  {
    if HasValue(allowed, s) {
      var k :| 0 <= k < |allowed| && allowed[k].value == s;
      assert allowed[k] in allowed;
    }
  }

  /** The refusal of the first position that has one. */
  ghost predicate FirstRefusedAt(inputs: seq<Input>, payload: Payload, answers: Answers, urls: seq<string>, i: nat, r: Refusal)
    requires |urls| == |inputs|
  {
    && i < |inputs| && RefusedAt(inputs, payload, answers, i, urls[i], r)
    && forall j :: 0 <= j < i ==> !IsRefused(inputs, payload, answers, j, urls[j])
  }

  ghost predicate UrlsAre(caller: Caller, task: string, inputs: seq<Input>, payload: Payload, orders: seq<seq<string>>, urls: seq<string>)
    requires OrdersOk(inputs, payload, orders)
  {
    |urls| == |inputs| && forall i :: 0 <= i < |inputs| ==> urls[i] == UrlAt(caller, task, inputs, payload, i, orders[i])
  }

  lemma {:induction false} FirstRefusalInTerms(caller: Caller, task: string, inputs: seq<Input>, payload: Payload,
                                               orders: seq<seq<string>>, answers: Answers, urls: seq<string>, n: nat)
    requires n <= |inputs| && OrdersOk(inputs, payload, orders) && UrlsAre(caller, task, inputs, payload, orders, urls)
    ensures var first := FirstRefusal(caller, task, inputs, payload, orders, answers, n);
            && (first.None? <==> forall j :: 0 <= j < n ==> !IsRefused(inputs, payload, answers, j, urls[j]))
            && (first.Some? ==> exists i: nat :: FirstRefusedAt(inputs, payload, answers, urls, i, first.value))
  {
    hide CheckAt, Bound, T.IsOrder, UrlAt, IsRefused, RefusedAt;
    if n > 0 {
      FirstRefusalInTerms(caller, task, inputs, payload, orders, answers, urls, n - 1);
      CheckInTerms(caller, task, inputs, payload, n - 1, orders[n - 1], answers);
      var before := FirstRefusal(caller, task, inputs, payload, orders, answers, n - 1);
      var last := CheckAt(caller, task, inputs, payload, n - 1, orders[n - 1], answers);
      assert before.None? && last.Some? ==> FirstRefusedAt(inputs, payload, answers, urls, n - 1, last.value);
    }
  }

  // ---------------------------------------------------------------------------------------------
  // The handler

  /** The URLs that the checks ask, wherever the template is well formed and the names have no "}". */
  ghost predicate UrlsFill(server: Server, request: Request, inputs: seq<Input>, payload: Payload, urls: seq<string>) {
    |urls| == |inputs|
    && forall i: nat, pieces ::
         i < |inputs| && Plain(pieces) && TemplateOf(pieces) == inputs[i].valuesURL && (forall j :: 0 <= j <= i ==> '}' !in inputs[j].name) ==>
           urls[i] == Filled(server, request, inputs, payload, i, pieces)
  }

  ghost predicate IsJob(p: Platform, server: Server, request: Request, task: TaskDef, payload: Payload, job: Job) {
    && job.task == request.task && job.payload == payload
    && job.identity == Identity(server, request) && job.groups == GroupsText(server, request)
    && Settled(p, task, server.defaults, job.queue, job.timeout, job.maxRetry)
    && ValidatedTo(p, task.inputs, payload, Success(job.env))
  }

  /** From the decoded body on. */
  ghost predicate Concludes(p: Platform, server: Server, request: Request, task: TaskDef, payload: Payload, answers: Answers,
                            enqueued: bool, urls: seq<string>, result: Result<Job, Refusal>)
  {
    UrlsFill(server, request, task.inputs, payload, urls)
    && if exists i: nat :: i < |task.inputs| && IsRefused(task.inputs, payload, answers, i, urls[i]) then
         result.Failure? && exists i: nat :: FirstRefusedAt(task.inputs, payload, answers, urls, i, result.error)
       else match result
         case Success(job) => enqueued && IsJob(p, server, request, task, payload, job)
         case Failure(r) =>
           if r.Invalid? then ValidatedTo(p, task.inputs, payload, Failure(r.error))
           else r.NotEnqueued? && !enqueued && exists env :: ValidatedTo(p, task.inputs, payload, Success(env))
  }

  /** The whole handler: the first thing that is wrong, in this order, or the job. */
  ghost predicate Responds(p: Platform, server: Server, request: Request, answers: Answers, enqueued: bool, urls: seq<string>,
                           result: Result<Job, Refusal>)
  {
    if server.requireIdentity && Identity(server, request) == "" then result == Failure(IdentityRequired)
    else if request.task !in server.tasks then result == Failure(TaskError(NotFound))
    else
      var task := server.tasks[request.task];
      var timeout, retryDelay := TimeoutText(task, server.defaults), RetryDelayText(task, server.defaults);
      if p.duration(timeout).None? then result == Failure(TaskError(BadDuration(timeout)))
      else if p.duration(retryDelay).None? then result == Failure(TaskError(BadDuration(retryDelay)))
      else if !MayRun(server, request, task) then result == Failure(NotAuthorized)
      else match request.body
        case None => result == Failure(InvalidJSON)
        case Some(payload) => Concludes(p, server, request, task, payload, answers, enqueued, urls, result)
  }

  lemma PrefixIsAnswered(p: Platform, server: Server, request: Request, answers: Answers, enqueued: bool, urls: seq<string>, r: Refusal)
    requires Entry(p, server, request) == Failure(r)
    ensures Responds(p, server, request, answers, enqueued, urls, Failure(r))
  {
    hide CallerOf, Authorized, MayRun, Identity, GroupsText, Resolve, Settled, TimeoutText, RetryDelayText, Concludes;
    CallerInTerms(server, request);
    ResolutionInTerms(p, server.defaults, server.tasks, request.task);
    if request.task in server.tasks {
      var resolved := Resolve(p, server.defaults, server.tasks, request.task);
      if resolved.Success? {
        PermissionInTerms(server, request, server.tasks[request.task], resolved.value);
      }
    }
  }

  /** What is known of a request once its body is decoded. */
  lemma EntryInTerms(p: Platform, server: Server, request: Request)
    requires Entry(p, server, request).Success?
    ensures request.task in server.tasks && request.body == Some(Entry(p, server, request).value.1)
    ensures server.requireIdentity ==> Identity(server, request) != ""
    ensures var task, resolved := server.tasks[request.task], Entry(p, server, request).value.0;
            && p.duration(TimeoutText(task, server.defaults)).Some? && p.duration(RetryDelayText(task, server.defaults)).Some?
            && Settled(p, task, server.defaults, resolved.queue, resolved.timeout, resolved.maxRetry)
            && resolved.inputs == task.inputs
            && MayRun(server, request, task)
  {
    hide CallerOf, Authorized, MayRun, Identity, GroupsText, Resolve, Settled, TimeoutText, RetryDelayText;
    CallerInTerms(server, request);
    ResolutionInTerms(p, server.defaults, server.tasks, request.task);
    var resolved := Resolve(p, server.defaults, server.tasks, request.task).value;
    PermissionInTerms(server, request, server.tasks[request.task], resolved);
  }

  lemma UrlsOf(server: Server, request: Request, inputs: seq<Input>, payload: Payload, orders: seq<seq<string>>) returns (urls: seq<string>)
    requires OrdersOk(inputs, payload, orders)
    ensures UrlsAre(CallerOf(server, request), request.task, inputs, payload, orders, urls)
    ensures UrlsFill(server, request, inputs, payload, urls)
  {
    hide CallerOf, Bound, T.IsOrder, UrlAt, Filled, TemplateOf, Plain;
    var caller := CallerOf(server, request);
    urls := seq(|inputs|, i requires 0 <= i < |inputs| => UrlAt(caller, request.task, inputs, payload, i, orders[i]));
    forall i: nat, pieces | i < |inputs| && Plain(pieces) && TemplateOf(pieces) == inputs[i].valuesURL && (forall j :: 0 <= j <= i ==> '}' !in inputs[j].name)
      ensures urls[i] == Filled(server, request, inputs, payload, i, pieces)
    {
      UrlInTerms(server, request, inputs, payload, i, orders[i], pieces);
    }
  }

  lemma RefusalConcludes(p: Platform, server: Server, request: Request, task: TaskDef, payload: Payload, answers: Answers,
                         enqueued: bool, orders: seq<seq<string>>, urls: seq<string>)
    requires OrdersOk(task.inputs, payload, orders)
    requires UrlsAre(CallerOf(server, request), request.task, task.inputs, payload, orders, urls)
    requires UrlsFill(server, request, task.inputs, payload, urls)
    requires FirstRefusal(CallerOf(server, request), request.task, task.inputs, payload, orders, answers, |task.inputs|).Some?
    ensures var r := FirstRefusal(CallerOf(server, request), request.task, task.inputs, payload, orders, answers, |task.inputs|).value;
            Concludes(p, server, request, task, payload, answers, enqueued, urls, Failure(r))
  {
    hide CallerOf, OrdersOk, UrlsAre, UrlsFill, FirstRefusal, IsRefused, RefusedAt;
    var r := FirstRefusal(CallerOf(server, request), request.task, task.inputs, payload, orders, answers, |task.inputs|).value;
    FirstRefusalInTerms(CallerOf(server, request), request.task, task.inputs, payload, orders, answers, urls, |task.inputs|);
    UrlsFillLength(server, request, task.inputs, payload, urls);
    var i: nat :| FirstRefusedAt(task.inputs, payload, answers, urls, i, r);
    FirstRefusedIsRefused(task.inputs, payload, answers, urls, i, r);
  }

  lemma UrlsFillLength(server: Server, request: Request, inputs: seq<Input>, payload: Payload, urls: seq<string>)
    requires UrlsFill(server, request, inputs, payload, urls)
    ensures |urls| == |inputs|
  {
  }

  lemma FirstRefusedIsRefused(inputs: seq<Input>, payload: Payload, answers: Answers, urls: seq<string>, i: nat, r: Refusal)
    requires |urls| == |inputs| && FirstRefusedAt(inputs, payload, answers, urls, i, r)
    ensures i < |inputs| && IsRefused(inputs, payload, answers, i, urls[i])
  {
    hide RefusedAt;
  }

  lemma ValidationConcludes(p: Platform, server: Server, request: Request, payload: Payload, answers: Answers,
                            enqueued: bool, orders: seq<seq<string>>, urls: seq<string>, result: Result<Job, Refusal>)
    requires Entry(p, server, request).Success? && OrdersFor(p, server, request, orders)
    requires Handles(p, server, request, answers, enqueued, orders, result)
    requires EarlyRefusal(p, server, request, orders, answers) == None
    requires payload == Entry(p, server, request).value.1 && request.task in server.tasks
    requires var inputs := server.tasks[request.task].inputs;
             && inputs == Entry(p, server, request).value.0.inputs && OrdersOk(inputs, payload, orders)
             && UrlsAre(CallerOf(server, request), request.task, inputs, payload, orders, urls)
             && UrlsFill(server, request, inputs, payload, urls)
    ensures Concludes(p, server, request, server.tasks[request.task], payload, answers, enqueued, urls, result)
  {
    hide CallerOf, OrdersOk, UrlsAre, UrlsFill, FirstRefusal, IsRefused, RefusedAt, Identity, GroupsText, Entry, Settled,
      ValidatedTo, NoUnknownField, FirstError, FieldNames, Environment, MayRun;
    var resolved := Entry(p, server, request).value.0;
    var inputs := resolved.inputs;
    CallerInTerms(server, request);
    EntryInTerms(p, server, request);
    UrlsFillLength(server, request, inputs, payload, urls);
    FirstRefusalInTerms(CallerOf(server, request), request.task, inputs, payload, orders, answers, urls, |inputs|);
    if ValidPayload(p, resolved, payload) {
      AcceptanceInTerms(p, inputs, payload);
    } else if NoUnknownField(inputs, payload) {
      FaultInTerms(p, inputs, payload, result.error.error);
    } else {
      UnknownInTerms(p, inputs, payload, result.error.error.field);
    }
  }

  /** The handler in terms of the configuration and the request: whatever it answers is what the account
      above says for the URLs that its checks asked. */
  lemma HandlerInTerms(p: Platform, server: Server, request: Request, answers: Answers, enqueued: bool,
                       orders: seq<seq<string>>, result: Result<Job, Refusal>) returns (urls: seq<string>)
    requires OrdersFor(p, server, request, orders)
    requires Handles(p, server, request, answers, enqueued, orders, result)
    ensures Responds(p, server, request, answers, enqueued, urls, result)
  {
    hide CallerOf, OrdersOk, UrlsAre, UrlsFill, FirstRefusal, MayRun, Settled, ValidPayload, NoUnknownField, FirstError, Concludes, Entry;
    var entry := Entry(p, server, request);
    urls := [];
    if entry.Failure? {
      PrefixIsAnswered(p, server, request, answers, enqueued, urls, entry.error);
    } else {
      var (resolved, payload) := entry.value;
      EntryInTerms(p, server, request);
      urls := UrlsOf(server, request, resolved.inputs, payload, orders);
      if EarlyRefusal(p, server, request, orders, answers).Some? {
        RefusalConcludes(p, server, request, server.tasks[request.task], payload, answers, enqueued, orders, urls);
      } else {
        ValidationConcludes(p, server, request, payload, answers, enqueued, orders, urls, result);
      }
    }
  }

  /** A submitted field of a values_url input whose template is well formed is a string in the list that
      was answered for the filled template, and the filled template left no input open. */
  ghost predicate IsListed(server: Server, request: Request, inputs: seq<Input>, payload: Payload, answers: Answers, i: nat, pieces: seq<Piece>)
    requires i < |inputs|
  {
    var url := Filled(server, request, inputs, payload, i, pieces);
    inputs[i].name in payload && payload[inputs[i].name] != Null ==>
      && payload[inputs[i].name].String? && !Has(url, "${input.")
      && answers(i, url).Success? && exists v :: v in answers(i, url).value && v.value == payload[inputs[i].name].s
  }

  lemma NotRefusedIsListed(server: Server, request: Request, inputs: seq<Input>, payload: Payload, answers: Answers, i: nat, pieces: seq<Piece>)
    requires i < |inputs| && inputs[i].valuesURL != ""
    requires !IsRefused(inputs, payload, answers, i, Filled(server, request, inputs, payload, i, pieces))
    ensures IsListed(server, request, inputs, payload, answers, i, pieces)
  {
    hide Has, Filled;
    var url, f := Filled(server, request, inputs, payload, i, pieces), inputs[i].name;
    assert !RefusedAt(inputs, payload, answers, i, url, NotAString(f));
    assert !RefusedAt(inputs, payload, answers, i, url, Unresolved(f));
    assert !RefusedAt(inputs, payload, answers, i, url, FetchTimeout(f));
    assert !RefusedAt(inputs, payload, answers, i, url, FetchFailed(f));
    assert !RefusedAt(inputs, payload, answers, i, url, NotAllowed(f));
  }

  /** A job exists only for a configured task that its caller may run by the task's own lists; it bears
      the caller, the settings and the fields it was submitted with, and every checked field was listed
      under the URL with exactly these values in it. */
  lemma JobInTerms(p: Platform, server: Server, request: Request, answers: Answers, enqueued: bool,
                   orders: seq<seq<string>>, job: Job)
    requires OrdersFor(p, server, request, orders)
    requires Handles(p, server, request, answers, enqueued, orders, Success(job))
    ensures enqueued && request.task in server.tasks && request.body == Some(job.payload)
    ensures server.requireIdentity ==> Identity(server, request) != ""
    ensures MayRun(server, request, server.tasks[request.task])
    ensures IsJob(p, server, request, server.tasks[request.task], job.payload, job)
    ensures var inputs := server.tasks[request.task].inputs;
            forall i: nat, pieces ::
              i < |inputs| && inputs[i].valuesURL != "" && Plain(pieces) && TemplateOf(pieces) == inputs[i].valuesURL
              && (forall j :: 0 <= j <= i ==> '}' !in inputs[j].name) ==>
                IsListed(server, request, inputs, job.payload, answers, i, pieces)
  {
    hide CallerOf, OrdersOk, OrdersFor, Handles, MayRun, Settled, ValidatedTo, IsRefused, Filled, TemplateOf, Plain, IsListed;
    var urls := HandlerInTerms(p, server, request, answers, enqueued, orders, Success(job));
    var inputs := server.tasks[request.task].inputs;
    forall i: nat, pieces
      | i < |inputs| && inputs[i].valuesURL != "" && Plain(pieces) && TemplateOf(pieces) == inputs[i].valuesURL
        && (forall j :: 0 <= j <= i ==> '}' !in inputs[j].name)
      ensures IsListed(server, request, inputs, job.payload, answers, i, pieces)
    {
      assert urls[i] == Filled(server, request, inputs, job.payload, i, pieces);
      NotRefusedIsListed(server, request, inputs, job.payload, answers, i, pieces);
    }
  }

  /** The status of a refusal tells what was wrong first. */
  lemma StatusTellsWhatFailed(p: Platform, server: Server, request: Request, answers: Answers, enqueued: bool,
                              orders: seq<seq<string>>, r: Refusal)
    requires OrdersFor(p, server, request, orders)
    requires Handles(p, server, request, answers, enqueued, orders, Failure(r))
    ensures HttpStatus(r) ==
              if server.requireIdentity && Identity(server, request) == "" then 401
              else if request.task !in server.tasks || p.duration(TimeoutText(server.tasks[request.task], server.defaults)).None?
                      || p.duration(RetryDelayText(server.tasks[request.task], server.defaults)).None? then 404
              else if !MayRun(server, request, server.tasks[request.task]) then 403
              else if request.body.None? then 400
              else match r
                case NotAllowed(_) => 403
                case FetchTimeout(_) => 504
                case FetchFailed(_) => 502
                case NotEnqueued => 503
                case _ => 400
    ensures r.NotEnqueued? ==> !enqueued
  {
    hide CallerOf, OrdersOk, OrdersFor, Handles, MayRun, ValidatedTo, UrlsFill;
    var urls := HandlerInTerms(p, server, request, answers, enqueued, orders, Failure(r));
  }
}
