/** Task definitions, input validation and the environment of a job (internal/tasks/tasks.go). */
module Tasks {
  import opened Text
  import opened Decimal

  datatype Match = BadPattern | Matches | Differs

  /** What the program asks of its libraries: regexp, time.ParseDuration, and the conversion of a
      float64 outside the int64 range, which the language leaves to the implementation. */
  datatype Platform = Platform(
    regexp: (string, string) -> Match,
    duration: string -> Option<int>,
    overflow: real -> int)

  datatype Input = Input(
    name: string, env: string, required: bool, kind: string, pattern: string, enum: seq<string>,
    min: Option<real>, max: Option<real>, default: string, valuesURL: string, valuesCache: string)

  datatype Defaults = Defaults(timeout: string, maxRetry: int, retryDelay: string, queue: string, logRetention: string)

  datatype TaskDef = TaskDef(
    script: string, description: string, timeout: string, maxRetry: Option<int>, retryDelay: string, queue: string,
    allowedUsers: seq<string>, allowedGroups: seq<string>, inputs: seq<Input>)

  /** A decoded JSON value; a finite float64 is a real together with its shortest decimal text. */
  datatype Value =
    | Null
    | String(s: string)
    | Bool(b: bool)
    | Number(n: real, shortest: string)
    | Integer(i: int)
    | Other(shown: string)  // arrays and objects

  type Payload = map<string, Value>

  datatype Error =
    | NotFound
    | BadDuration(text: string)
    | UnknownField(field: string)
    | Required(field: string)
    | NotString(field: string)
    | InvalidPattern(field: string)
    | PatternMismatch(field: string)
    | NotInEnum(field: string)
    | NotInteger(field: string)
    | NotNumber(field: string)
    | NotBool(field: string)
    | BelowMin(field: string)
    | AboveMax(field: string)

  predicate AtLeast(n: real, min: Option<real>) { min.Some? ==> min.value <= n }

  predicate AtMost(n: real, max: Option<real>) { max.Some? ==> n <= max.value }

  predicate Within(n: real, min: Option<real>, max: Option<real>) {
    AtLeast(n, min) && AtMost(n, max)
  }

  function ValidateText(p: Platform, input: Input, s: string): Option<Error> {
    var match_ := if input.pattern == "" then Matches else p.regexp(input.pattern, s);
    if match_ == BadPattern then Some(InvalidPattern(input.name))
    else if match_ == Differs then Some(PatternMismatch(input.name))
    else if input.enum != [] && s !in input.enum then Some(NotInEnum(input.name))
    else None
  }

  function ValidateNumber(input: Input, n: real): Option<Error> {
    if !AtLeast(n, input.min) then Some(BelowMin(input.name))
    else if !AtMost(n, input.max) then Some(AboveMax(input.name))
    else None
  }

  /** Input.Validate: the error, if any. A type the program does not know is not checked. */
  function Validate(p: Platform, input: Input, value: Value): Option<Error> {
    if value.Null? then
      if input.required && input.default == "" then Some(Required(input.name)) else None
    else if input.kind == "string" || input.kind == "" then
      if value.String? then ValidateText(p, input, value.s) else Some(NotString(input.name))
    else if input.kind == "int" || input.kind == "float" then
      match value
      case Number(n, _) => ValidateNumber(input, n)
      case Integer(i) => ValidateNumber(input, i as real)
      case _ => Some(if input.kind == "int" then NotInteger(input.name) else NotNumber(input.name))
    else if input.kind == "bool" && !value.Bool? then Some(NotBool(input.name))
    else None
  }

  function NumberOf(value: Value): Option<real> {
    match value
    case Number(n, _) => Some(n)
    case Integer(i) => Some(i as real)
    case _ => None
  }

  predicate IsText(input: Input) { input.kind == "string" || input.kind == "" }

  predicate IsNumeric(input: Input) { input.kind == "int" || input.kind == "float" }

  /** Each complaint on its own: whether the value really has the fault. */
  predicate HasFault(p: Platform, input: Input, value: Value, e: Error) {
    match e
    case Required(f) => f == input.name && value.Null? && input.required && input.default == ""
    case NotString(f) => f == input.name && IsText(input) && !value.Null? && !value.String?
    case InvalidPattern(f) =>
      f == input.name && IsText(input) && value.String? && input.pattern != "" && p.regexp(input.pattern, value.s) == BadPattern
    case PatternMismatch(f) =>
      f == input.name && IsText(input) && value.String? && input.pattern != "" && p.regexp(input.pattern, value.s) == Differs
    case NotInEnum(f) => f == input.name && IsText(input) && value.String? && input.enum != [] && value.s !in input.enum
    case NotInteger(f) => f == input.name && input.kind == "int" && !value.Null? && NumberOf(value).None?
    case NotNumber(f) => f == input.name && input.kind == "float" && !value.Null? && NumberOf(value).None?
    case BelowMin(f) =>
      f == input.name && IsNumeric(input) && NumberOf(value).Some? && input.min.Some? && NumberOf(value).value < input.min.value
    case AboveMax(f) =>
      f == input.name && IsNumeric(input) && NumberOf(value).Some? && input.max.Some? && input.max.value < NumberOf(value).value
    case NotBool(f) => f == input.name && input.kind == "bool" && !value.Null? && !value.Bool?
    case _ => false
  }

  /** A value is refused if and only if it has some fault, and then for a fault it has. */
  lemma RefusedExactlyForAFault(p: Platform, input: Input, value: Value)
    ensures Validate(p, input, value).Some? <==> exists e :: HasFault(p, input, value, e)
    ensures Validate(p, input, value).Some? ==> HasFault(p, input, value, Validate(p, input, value).value)
  {
    var verdict := Validate(p, input, value);
    assert verdict.Some? ==> HasFault(p, input, value, verdict.value);
    if exists e :: HasFault(p, input, value, e) {
      var e :| HasFault(p, input, value, e);
      FaultIsNotAccepted(p, input, value, e);
    }
  }

  lemma FaultIsNotAccepted(p: Platform, input: Input, value: Value, e: Error)
    requires HasFault(p, input, value, e)
    ensures Validate(p, input, value).Some?
  {
  }

  // ---------------------------------------------------------------------------------------------
  // The environment value

  /** The fraction is discarded, toward zero. */
  function Truncate(n: real): int {
    if n >= 0.0 then n.Floor else -(-n).Floor
  }

  const INT64_LIMIT := 9223372036854775808.0

  predicate FitsInt64(n: real) {
    -INT64_LIMIT <= Truncate(n) as real && Truncate(n) as real < INT64_LIMIT
  }

  function ToInt64(p: Platform, n: real): int {
    if FitsInt64(n) then Truncate(n) else p.overflow(n)
  }

  /** Input.GetEnvValue */
  function EnvValue(p: Platform, input: Input, value: Value): string {
    match value
    case Null => input.default
    case String(s) => s
    case Bool(b) => if b then "true" else "false"
    case Number(n, shortest) => if input.kind == "int" then FormatInt(ToInt64(p, n)) else shortest
    case Integer(i) => FormatInt(i)
    case Other(shown) => shown
  }

  /** What an operator expects of an `int` input's bounds: every accepted number reaches the script
      as the decimal text of its integer part, and that integer is within the bounds too. */
  ghost predicate IntegersSurvive(input: Input) {
    forall p: Platform, n: real, shortest: string ::
      Validate(p, input, Number(n, shortest)) == None ==>
        && ParseInt(EnvValue(p, input, Number(n, shortest))) == Some(Truncate(n))
        && Within(Truncate(n) as real, input.min, input.max)
  }

  predicate Integral(n: real) { n.Floor as real == n }

  predicate NoneAccepted(input: Input) {
    input.min.Some? && input.max.Some? && input.max.value < input.min.value
  }

  /** Both bounds are there and keep the integer part inside int64. */
  predicate Confined(input: Input) {
    && input.min.Some? && -INT64_LIMIT - 1.0 < input.min.value
    && input.max.Some? && input.max.value < INT64_LIMIT
  }

  /** Truncation toward zero can only leave the bounds at a positive minimum or a negative maximum. */
  predicate BoundsAbsorbTruncation(input: Input) {
    && (input.min.Some? ==> input.min.value <= 0.0 || Integral(input.min.value))
    && (input.max.Some? ==> 0.0 <= input.max.value || Integral(input.max.value))
  }

  lemma NegatedIntegral(n: real)
    ensures Integral(-n) <==> Integral(n)
  {
    if Integral(n) {
      assert -n == (-n.Floor) as real;
    }
    if Integral(-n) {
      assert n == (-(-n).Floor) as real;
    }
  }

  lemma TruncateBrackets(n: real)
    ensures n >= 0.0 ==> 0.0 <= Truncate(n) as real <= n && n < Truncate(n) as real + 1.0
    ensures n <= 0.0 ==> n <= Truncate(n) as real <= 0.0 && Truncate(n) as real - 1.0 < n
    ensures Truncate(n) as real == n <==> Integral(n)
  {
    NegatedIntegral(n);
    var floor := if n >= 0.0 then n.Floor else (-n).Floor;
    assert floor as real == if n >= 0.0 then Truncate(n) as real else -(Truncate(n) as real);
  }

  lemma IntegerAbove(m: int, k: int, n: real)
    requires n < m as real + 1.0 && k as real <= n
    ensures k <= m
  {
  }

  lemma TruncationStaysWithin(input: Input, n: real)
    requires BoundsAbsorbTruncation(input) && Within(n, input.min, input.max)
    ensures Within(Truncate(n) as real, input.min, input.max)
  {
    TruncateBrackets(n);
    if n >= 0.0 {
      if input.min.Some? && Integral(input.min.value) {
        IntegerAbove(Truncate(n), input.min.value.Floor, n);
      }
    } else {
      if input.max.Some? && Integral(input.max.value) {
        IntegerAbove(-Truncate(n), -input.max.value.Floor, -n);
      }
    }
  }

  lemma ConfinedFits(input: Input, n: real)
    requires Confined(input) && Within(n, input.min, input.max)
    ensures FitsInt64(n)
  {
    TruncateBrackets(n);
    if n < 0.0 {
      assert -INT64_LIMIT - 1.0 < Truncate(n) as real;
    }
  }

  lemma BeyondInt64(n: real)
    requires n <= -INT64_LIMIT - 1.0 || INT64_LIMIT <= n
    ensures !FitsInt64(n)
  {
    TruncateBrackets(n);
  }

  lemma AcceptedIsWithin(p: Platform, input: Input, n: real, shortest: string)
    requires input.kind == "int"
    ensures Validate(p, input, Number(n, shortest)) == None <==> Within(n, input.min, input.max)
  {
  }

  /** A number that an `int` input accepts and its script sees wrong. */
  lemma UnfitIsSeen(input: Input, n: real)
    requires input.kind == "int" && Within(n, input.min, input.max)
    requires !FitsInt64(n) || !Within(Truncate(n) as real, input.min, input.max)
    ensures !IntegersSurvive(input)
  {
    var p := Platform((_, _) => Matches, _ => None, (x: real) => Truncate(x) + 1);
    AcceptedIsWithin(p, input, n, "");
    ParseUndoesFormatInt(ToInt64(p, n));
    assert EnvValue(p, input, Number(n, "")) == FormatInt(ToInt64(p, n));
  }

  /** Integer bounds survive truncation and formatting exactly when nothing is accepted at all, or the
      bounds confine the value to int64, a positive minimum is integral and a negative maximum is. */
  lemma IntegersSurviveExactly(input: Input)
    requires input.kind == "int"
    ensures IntegersSurvive(input) <==> NoneAccepted(input) || (Confined(input) && BoundsAbsorbTruncation(input))
  {
    if NoneAccepted(input) {
      forall p: Platform, n: real, shortest: string ensures Validate(p, input, Number(n, shortest)) != None {
        AcceptedIsWithin(p, input, n, shortest);
      }
    } else if !Confined(input) {
      var n := BeyondWitness(input);
      BeyondInt64(n);
      UnfitIsSeen(input, n);
    } else if !BoundsAbsorbTruncation(input) {
      var n := if input.min.value <= 0.0 || Integral(input.min.value) then input.max.value else input.min.value;
      TruncateBrackets(n);
      UnfitIsSeen(input, n);
    } else {
      forall p: Platform, n: real, shortest: string | Validate(p, input, Number(n, shortest)) == None
        ensures ParseInt(EnvValue(p, input, Number(n, shortest))) == Some(Truncate(n))
        ensures Within(Truncate(n) as real, input.min, input.max)
      {
        AcceptedIsWithin(p, input, n, shortest);
        ConfinedFits(input, n);
        TruncationStaysWithin(input, n);
        ParseUndoesFormatInt(Truncate(n));
      }
    }
  }

  lemma BeyondWitness(input: Input) returns (n: real)
    requires !NoneAccepted(input) && !Confined(input)
    ensures Within(n, input.min, input.max) && (n <= -INT64_LIMIT - 1.0 || INT64_LIMIT <= n)
  {
    var low, high := -2.0 * INT64_LIMIT, 2.0 * INT64_LIMIT;
    if input.min.None? {
      n := if input.max.Some? && input.max.value < low then input.max.value else low;
    } else if input.min.value <= -INT64_LIMIT - 1.0 {
      n := input.min.value;
    } else if input.max.None? {
      n := if high < input.min.value then input.min.value else high;
    } else {
      n := input.max.value;
    }
  }

  // ---------------------------------------------------------------------------------------------
  // Resolve

  datatype Resolved = Resolved(
    timeout: int, maxRetry: int, retryDelay: int, queue: string,
    allowedUsers: seq<string>, allowedGroups: seq<string>, inputs: seq<Input>)

  /** The task's own setting, else the file's default, else the built-in one. */
  function Effective(own: string, common: string, builtin: string): string {
    if own != "" then own else if common != "" then common else builtin
  }

  function Resolve(p: Platform, defaults: Defaults, tasks: map<string, TaskDef>, name: string): Result<Resolved, Error> {
    if name !in tasks then Failure(NotFound)
    else
      var task := tasks[name];
      var timeout := Effective(task.timeout, defaults.timeout, "5m");
      var retryDelay := Effective(task.retryDelay, defaults.retryDelay, "30s");
      if p.duration(timeout).None? then Failure(BadDuration(timeout))
      else if p.duration(retryDelay).None? then Failure(BadDuration(retryDelay))
      else Success(Resolved(
        p.duration(timeout).value,
        if task.maxRetry.Some? then task.maxRetry.value else defaults.maxRetry,
        p.duration(retryDelay).value,
        Effective(task.queue, defaults.queue, "default"),
        task.allowedUsers, task.allowedGroups, task.inputs))
  }

  // ---------------------------------------------------------------------------------------------
  // ValidatePayload

  function FieldValue(payload: Payload, name: string): Value {
    if name in payload then payload[name] else Null
  }

  function FieldNames(inputs: seq<Input>): set<string> {
    set i | 0 <= i < |inputs| :: inputs[i].name
  }

  /** The first error, in the order of the inputs. */
  function FirstError(p: Platform, inputs: seq<Input>, payload: Payload): Option<Error> {
    if inputs == [] then None
    else match FirstError(p, inputs[..|inputs| - 1], payload)
      case Some(e) => Some(e)
      case None => Validate(p, inputs[|inputs| - 1], FieldValue(payload, inputs[|inputs| - 1].name))
  }

  /** The environment that the inputs add up to; a later input wins over an earlier one. */
  function Environment(p: Platform, inputs: seq<Input>, payload: Payload): map<string, string> {
    if inputs == [] then map[]
    else
      var before, last := Environment(p, inputs[..|inputs| - 1], payload), inputs[|inputs| - 1];
      if last.env == "" then before
      else before[last.env := EnvValue(p, last, FieldValue(payload, last.name))]
  }

  predicate NoUnknownField(inputs: seq<Input>, payload: Payload) {
    payload.Keys <= FieldNames(inputs)
  }

  /** The outcome of a validation, in terms of the submitted fields. */
  ghost predicate ValidatedTo(p: Platform, inputs: seq<Input>, payload: Payload, result: Result<map<string, string>, Error>) {
    match result
    case Success(env) =>
      && (forall k :: k in payload ==> exists i :: 0 <= i < |inputs| && inputs[i].name == k)
      && (forall j :: 0 <= j < |inputs| ==> !FieldIsFaulty(p, inputs[j], payload))
      && Tells(p, inputs, payload, env)
    case Failure(e) =>
      if e.UnknownField? then e.field in payload && forall i :: 0 <= i < |inputs| ==> inputs[i].name != e.field
      else
        && (forall k :: k in payload ==> exists i :: 0 <= i < |inputs| && inputs[i].name == k)
        && exists i: nat :: FaultAt(p, inputs, payload, i, e)
  }

  lemma UnknownInTerms(p: Platform, inputs: seq<Input>, payload: Payload, k: string)
    requires k in payload && k !in FieldNames(inputs)
    ensures ValidatedTo(p, inputs, payload, Failure(UnknownField(k)))
  {
  }

  lemma FaultInTerms(p: Platform, inputs: seq<Input>, payload: Payload, e: Error)
    requires NoUnknownField(inputs, payload) && FirstError(p, inputs, payload) == Some(e)
    ensures ValidatedTo(p, inputs, payload, Failure(e))
  {
    hide FirstError, FieldIsFaulty, FieldHasFault;
    FirstErrorExactly(p, inputs, payload);
    var i: nat :| FaultAt(p, inputs, payload, i, e);
    FaultIsNotUnknown(p, inputs[i], payload, e);
  }

  lemma FaultIsNotUnknown(p: Platform, input: Input, payload: Payload, e: Error)
    requires FieldHasFault(p, input, payload, e)
    ensures !e.UnknownField?
  {
  }

  lemma AcceptanceInTerms(p: Platform, inputs: seq<Input>, payload: Payload)
    requires NoUnknownField(inputs, payload) && FirstError(p, inputs, payload) == None
    ensures ValidatedTo(p, inputs, payload, Success(Environment(p, inputs, payload)))
  {
    hide FirstError, Environment, FieldIsFaulty, Tells;
    FirstErrorExactly(p, inputs, payload);
    EnvironmentTells(p, inputs, payload);
  }

  /** ValidatePayload, once the task is resolved. The payload's fields are visited in an order that
      nobody controls, so which unknown field is named is open. */
  method ValidatePayload(p: Platform, inputs: seq<Input>, payload: Payload)
    returns (result: Result<map<string, string>, Error>)
    ensures result.Success? <==> NoUnknownField(inputs, payload) && FirstError(p, inputs, payload) == None
    ensures result.Success? ==> result.value == Environment(p, inputs, payload)
    ensures !NoUnknownField(inputs, payload) ==>
              result.Failure? && result.error.UnknownField?
              && result.error.field in payload && result.error.field !in FieldNames(inputs)
    ensures NoUnknownField(inputs, payload) && result.Failure? ==> FirstError(p, inputs, payload) == Some(result.error)
    ensures ValidatedTo(p, inputs, payload, result)
  {
    hide ValidatedTo, Validate, EnvValue, FieldValue;
    var known: set<string> := {};
    for i := 0 to |inputs|
      invariant known == FieldNames(inputs[..i])
    {
      known := known + {inputs[i].name};
      FieldNamesGrow(inputs, i);
    }
    assert inputs[..|inputs|] == inputs;
    var fields := payload.Keys;
    while fields != {}
      invariant fields <= payload.Keys && payload.Keys - fields <= known
      decreases |fields|
    {
      var k :| k in fields;
      if k !in known {
        UnknownInTerms(p, inputs, payload, k);
        return Failure(UnknownField(k));
      }
      fields := fields - {k};
    }
    var env := map[];
    for i := 0 to |inputs|
      invariant FirstError(p, inputs[..i], payload) == None
      invariant env == Environment(p, inputs[..i], payload)
    {
      var value := FieldValue(payload, inputs[i].name);
      var error := Validate(p, inputs[i], value);
      assert inputs[..i + 1][..i] == inputs[..i];
      if error.Some? {
        assert FirstError(p, inputs[..i + 1], payload) == error;
        FirstErrorStays(p, inputs, i + 1, payload);
        FaultInTerms(p, inputs, payload, error.value);
        return Failure(error.value);
      }
      if inputs[i].env != "" {
        env := env[inputs[i].env := EnvValue(p, inputs[i], value)];
      }
    }
    AcceptanceInTerms(p, inputs, payload);
    return Success(env);
  }

  lemma FieldNamesGrow(inputs: seq<Input>, i: nat)
    requires i < |inputs|
    ensures FieldNames(inputs[..i + 1]) == FieldNames(inputs[..i]) + {inputs[i].name}
  {
    var names := FieldNames(inputs[..i + 1]);
    assert inputs[..i + 1][i] == inputs[i];
    forall n | n in FieldNames(inputs[..i]) ensures n in names {
      var j :| 0 <= j < i && inputs[..i][j].name == n;
      assert inputs[..i + 1][j].name == n;
    }
    forall n | n in names ensures n in FieldNames(inputs[..i]) + {inputs[i].name} {
      var j :| 0 <= j < i + 1 && inputs[..i + 1][j].name == n;
      if j < i {
        assert inputs[..i][j].name == n;
      }
    }
  }

  lemma {:induction false} FirstErrorStays(p: Platform, inputs: seq<Input>, i: nat, payload: Payload)
    requires i <= |inputs| && FirstError(p, inputs[..i], payload).Some?
    ensures FirstError(p, inputs, payload) == FirstError(p, inputs[..i], payload)
  {
    if i == |inputs| {
      assert inputs[..i] == inputs;
    } else {
      assert inputs[..|inputs| - 1][..i] == inputs[..i];
      FirstErrorStays(p, inputs[..|inputs| - 1], i, payload);
    }
  }

  /** An accepted payload has no input in error. */
  lemma {:induction false} AcceptedInputsAreValid(p: Platform, inputs: seq<Input>, payload: Payload, i: nat)
    requires i < |inputs| && FirstError(p, inputs, payload) == None
    ensures Validate(p, inputs[i], FieldValue(payload, inputs[i].name)) == None
  {
    if i < |inputs| - 1 {
      AcceptedInputsAreValid(p, inputs[..|inputs| - 1], payload, i);
    }
  }

  /** What is submitted for an input, an absent field counting as null, has the fault. */
  predicate FieldHasFault(p: Platform, input: Input, payload: Payload, e: Error) {
    if input.name in payload then HasFault(p, input, payload[input.name], e) else HasFault(p, input, Null, e)
  }

  ghost predicate FieldIsFaulty(p: Platform, input: Input, payload: Payload) {
    exists e :: FieldHasFault(p, input, payload, e)
  }

  lemma FieldRefusedExactly(p: Platform, input: Input, payload: Payload)
    ensures Validate(p, input, FieldValue(payload, input.name)).Some? <==> FieldIsFaulty(p, input, payload)
    ensures var verdict := Validate(p, input, FieldValue(payload, input.name));
            verdict.Some? ==> FieldHasFault(p, input, payload, verdict.value)
  {
    hide Validate, HasFault;
    RefusedExactlyForAFault(p, input, FieldValue(payload, input.name));
    if exists e :: HasFault(p, input, FieldValue(payload, input.name), e) {
      var e :| HasFault(p, input, FieldValue(payload, input.name), e);
      assert FieldHasFault(p, input, payload, e);
    }
    if FieldIsFaulty(p, input, payload) {
      var e :| FieldHasFault(p, input, payload, e);
      assert HasFault(p, input, FieldValue(payload, input.name), e);
    }
  }

  /** The error is a fault of some input, and no earlier input has any. */
  ghost predicate FaultAt(p: Platform, inputs: seq<Input>, payload: Payload, i: nat, e: Error) {
    && i < |inputs| && FieldHasFault(p, inputs[i], payload, e)
    && forall j :: 0 <= j < i ==> !FieldIsFaulty(p, inputs[j], payload)
  }

  /** There is a first error if and only if some input is faulty, and then it is a fault of the first
      faulty input. */
  lemma {:induction false} FirstErrorExactly(p: Platform, inputs: seq<Input>, payload: Payload)
    ensures FirstError(p, inputs, payload) == None <==> forall j :: 0 <= j < |inputs| ==> !FieldIsFaulty(p, inputs[j], payload)
    ensures FirstError(p, inputs, payload).Some? ==> exists i: nat :: FaultAt(p, inputs, payload, i, FirstError(p, inputs, payload).value)
  {
    hide Validate, HasFault, FieldValue, FieldIsFaulty, FieldHasFault;
    if inputs != [] {
      var before, last := inputs[..|inputs| - 1], inputs[|inputs| - 1];
      FirstErrorExactly(p, before, payload);
      FieldRefusedExactly(p, last, payload);
      if FirstError(p, before, payload).Some? {
        var e := FirstError(p, before, payload).value;
        var i: nat :| FaultAt(p, before, payload, i, e);
        assert FaultAt(p, inputs, payload, i, e);
        FaultIsFaulty(p, inputs, payload, i, e);
      } else {
        assert forall j :: 0 <= j < |before| ==> inputs[j] == before[j];
        assert FirstError(p, inputs, payload).Some? ==> FaultAt(p, inputs, payload, |before|, FirstError(p, inputs, payload).value);
      }
    }
  }

  lemma FaultIsFaulty(p: Platform, inputs: seq<Input>, payload: Payload, i: nat, e: Error)
    requires FaultAt(p, inputs, payload, i, e)
    ensures FieldIsFaulty(p, inputs[i], payload)
  {
    hide FieldHasFault;
  }

  // ---------------------------------------------------------------------------------------------
  // What a script reads

  /** m is n without its fraction. */
  predicate IntegerPart(n: real, m: int) {
    if n >= 0.0 then 0 <= m && m as real <= n < m as real + 1.0
    else m <= 0 && m as real - 1.0 < n <= m as real
  }

  /** What the text in the environment says about the field that an input reads. */
  ghost predicate Carries(p: Platform, input: Input, payload: Payload, text: string) {
    if input.name !in payload || payload[input.name] == Null then text == input.default
    else match payload[input.name]
      case Null => true
      case String(s) => text == s
      case Bool(b) => (text == "true" <==> b) && (text == "false" <==> !b)
      case Integer(n) => Denotes(text, n)
      case Number(n, shortest) =>
        if input.kind != "int" then text == shortest
        else if -9223372036854775809.0 < n < 9223372036854775808.0 then exists m :: IntegerPart(n, m) && Denotes(text, m)
        else Denotes(text, p.overflow(n))
      case Other(shown) => text == shown
  }

  lemma FitsExactly(n: real)
    ensures FitsInt64(n) <==> -9223372036854775809.0 < n < 9223372036854775808.0
    ensures IntegerPart(n, Truncate(n))
  {
    TruncateBrackets(n);
    if -9223372036854775809.0 < n < 0.0 {
      assert -9223372036854775809.0 < Truncate(n) as real;
    }
  }

  lemma ValueIsCarried(p: Platform, input: Input, payload: Payload)
    ensures Carries(p, input, payload, EnvValue(p, input, FieldValue(payload, input.name)))
  {
    hide FitsInt64, Truncate, FormatInt, Denotes, IntegerPart;
    match FieldValue(payload, input.name)
    case Integer(n) => FormatDenotes(n);
    case Number(n, _) =>
      FitsExactly(n);
      FormatDenotes(ToInt64(p, n));
    case _ =>
  }

  /** The last input that writes a variable decides what it holds. */
  predicate Decides(inputs: seq<Input>, i: nat) {
    && i < |inputs| && inputs[i].env != ""
    && forall j :: i < j < |inputs| ==> inputs[j].env != inputs[i].env
  }

  /** A variable holds the value of the last input that writes it. */
  lemma {:induction false} EnvironmentHolds(p: Platform, inputs: seq<Input>, payload: Payload, i: nat)
    requires Decides(inputs, i)
    ensures var env := Environment(p, inputs, payload);
            && inputs[i].env in env
            && env[inputs[i].env] == EnvValue(p, inputs[i], FieldValue(payload, inputs[i].name))
  {
    hide EnvValue, FieldValue;
    if i < |inputs| - 1 {
      EnvironmentHolds(p, inputs[..|inputs| - 1], payload, i);
    }
  }

  /** The environment holds nothing but the inputs' variables. */
  lemma {:induction false} EnvironmentHoldsOnly(p: Platform, inputs: seq<Input>, payload: Payload, e: string)
    returns (i: nat)
    requires e in Environment(p, inputs, payload)
    ensures i < |inputs| && inputs[i].env == e && e != ""
  {
    hide EnvValue, FieldValue;
    i := |inputs| - 1;
    if inputs[i].env != e || e == "" {
      i := EnvironmentHoldsOnly(p, inputs[..i], payload, e);
    }
  }
  lemma {:induction false} SomeInputDecides(inputs: seq<Input>, e: string) returns (i: nat)
    requires e != "" && exists j :: 0 <= j < |inputs| && inputs[j].env == e
    ensures Decides(inputs, i) && inputs[i].env == e
  {
    i := |inputs| - 1;
    if inputs[i].env != e {
      i := SomeInputDecides(inputs[..|inputs| - 1], e);
    }
  }

  /** The environment says of every variable what the last input that writes it was given, and holds
      no other variable. */
  ghost predicate Tells(p: Platform, inputs: seq<Input>, payload: Payload, env: map<string, string>) {
    && (forall e :: e in env <==> e != "" && exists i :: 0 <= i < |inputs| && inputs[i].env == e)
    && (forall i: nat :: Decides(inputs, i) && inputs[i].env in env ==> Carries(p, inputs[i], payload, env[inputs[i].env]))
  }

  /** What a script reads back: the environment in terms of the submitted fields. */
  lemma EnvironmentTells(p: Platform, inputs: seq<Input>, payload: Payload)
    ensures Tells(p, inputs, payload, Environment(p, inputs, payload))
  {
    hide EnvValue, FieldValue, Carries, Environment;
    var env := Environment(p, inputs, payload);
    forall e ensures e in env <==> e != "" && exists i :: 0 <= i < |inputs| && inputs[i].env == e {
      if e in env {
        var i := EnvironmentHoldsOnly(p, inputs, payload, e);
      }
      if e != "" && exists i :: 0 <= i < |inputs| && inputs[i].env == e {
        var i := SomeInputDecides(inputs, e);
        EnvironmentHolds(p, inputs, payload, i);
      }
    }
    forall i: nat | Decides(inputs, i) && inputs[i].env in env
      ensures Carries(p, inputs[i], payload, env[inputs[i].env])
    {
      EnvironmentHolds(p, inputs, payload, i);
      ValueIsCarried(p, inputs[i], payload);
    }
  }
}
