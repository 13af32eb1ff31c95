/** The node runtime of cofounder/api/build.js (lines 66-128): how a node's
    declaration turns into the settings of its private queue and retry loop,
    and how the wrapped work function sees its input and shapes its output.
    The queue, the retry loop and the lifecycle events themselves are not
    modelled; the work function is a parameter. */
module NodeRuntime {
  import opened Values
  import opened Text

  /** A node declaration: its `in` and `out` key lists (an absent list is
      the empty one, which the source treats alike) and its raw `queue` block. */
  datatype NodeSpec = NodeSpec(inKeys: seq<string>, outKeys: seq<string>, queue: Option<Value>)

  // ---------------------------------------------------------------------------
  // Input and output projection (build.js lines 86-103)
  // ---------------------------------------------------------------------------

  /** `keys.reduce((acc, k) => ({...acc, [k]: src[k] || null}), {})` */
  function Pick(keys: seq<string>, src: Value): (r: Bag)
    ensures r.Keys == set k | k in keys
    ensures forall k :: k in r ==> r[k] == OrNull(Get(Some(src), k))
  {
    if |keys| == 0 then map[]
    else Pick(keys[..|keys| - 1], src)[keys[|keys| - 1] := OrNull(Get(Some(src), keys[|keys| - 1]))]
  }

  /** What the work function receives as `data`: with a non-empty `in` list a
      fresh object holding exactly those keys, each the bag's value when it is
      truthy and null otherwise; with no `in` list the bag itself. */
  function ProjectInput(inKeys: seq<string>, data: Bag): (r: Bag)
    ensures |inKeys| == 0 ==> r == data
    ensures |inKeys| > 0 ==> r.Keys == set k | k in inKeys
    ensures |inKeys| > 0 ==> forall k :: k in r ==>
              r[k] == (if k in data && Truthy(data[k]) then data[k] else Null)
  {
    if |inKeys| > 0 then Pick(inKeys, Obj(data)) else data
  }

  /** The `{success: false}` object that stands for a falsy work result. */
  const Unsuccessful: Value := Obj(map["success" := Bool(false)])

  /** What a node returns for the work function's result: a falsy result
      becomes `{success: false}`; otherwise a non-empty `out` list keeps
      exactly those keys (truthy value or null) and no `out` list passes the
      result on as it is. */
  function ProjectOutput(outKeys: seq<string>, response: Value): (r: Value)
    ensures !Truthy(response) ==> r == Unsuccessful
    ensures Truthy(response) && |outKeys| > 0 ==>
              r.Obj? && r.fields.Keys == (set k | k in outKeys) &&
              forall k :: k in r.fields ==> r.fields[k] == OrNull(Get(Some(response), k))
    ensures Truthy(response) && |outKeys| == 0 ==> r == response
  {
    if !Truthy(response) then Unsuccessful
    else if |outKeys| > 0 then Obj(Pick(outKeys, response))
    else response
  }

  // ---------------------------------------------------------------------------
  // Calling the work function (build.js lines 84-107)
  // ---------------------------------------------------------------------------

  /** What a work function can throw: an `Error` object, seen through its
      `name` and `message`, or any other value. */
  datatype Thrown = ErrorObject(name: string, message: string) | OtherValue(v: Value)

  /** How a call of the work function settles. */
  datatype Outcome = Resolved(value: Value) | Rejected(thrown: Thrown)

  /** `String(error)`: an `Error` object converts by `Error.prototype.toString`
      (ECMAScript section 20.5.3.4): the name and the message joined by ": ",
      or only the one that is not empty; any other value converts as usual. */
  function ErrorText(t: Thrown): (r: string)
    ensures t.ErrorObject? && t.name != "" ==> StartsWith(r, t.name)
    ensures t.ErrorObject? && t.message != "" ==> |r| >= |t.message| && r[|r| - |t.message|..] == t.message
    ensures t.OtherValue? ==> r == JsString(t.v)
  {
    match t
    case ErrorObject(name, message) =>
      if name == "" then message
      else if message == "" then name
      else name + ": " + message
    case OtherValue(v) => JsString(v)
  }

  /** The whole wrapper around one call of the work function: project the
      input, call, project the output. A rejected call is caught and
      rethrown as `new Error(error)`, so the node fails with an `Error`
      whose message is `String(error)`; a node's `Err` holds that message.
      The retry loop around it is not modelled: a deterministic work
      function that fails once fails on every attempt, and the last
      rethrown error is the one the node rejects with. A node never
      returns a falsy value. */
  function RunNode(spec: NodeSpec, work: Bag -> Outcome, data: Bag): (r: Result<Value>)
    ensures r.Err? <==> work(ProjectInput(spec.inKeys, data)).Rejected?
    ensures r.Err? ==> r.error == ErrorText(work(ProjectInput(spec.inKeys, data)).thrown)
    ensures r.Ok? ==> Truthy(r.value)
  {
    match work(ProjectInput(spec.inKeys, data))
    case Rejected(t) => Err(ErrorText(t))
    case Resolved(response) => Ok(ProjectOutput(spec.outKeys, response))
  }

  /** A work function that throws `new Error("boom")` fails the node with the
      message "Error: boom", and one that throws the string "boom" fails it
      with "boom": the rethrow keeps the text, not the error. */
  lemma RethrowExample(spec: NodeSpec, data: Bag)
    ensures RunNode(spec, _ => Rejected(ErrorObject("Error", "boom")), data) == Err("Error: boom")
    ensures RunNode(spec, _ => Rejected(OtherValue(Str("boom"))), data) == Err("boom")
  {
  }

  /** Every value a projection produces is truthy or null: falsy values such
      as 0, "" and false never survive it. */
  lemma ProjectedValuesTruthyOrNull(keys: seq<string>, src: Value, k: string)
    requires k in keys
    ensures k in Pick(keys, src)
    ensures Truthy(Pick(keys, src)[k]) || Pick(keys, src)[k] == Null
  {
  }

  /** With a non-empty `in` list the work function — and so the node — cannot
      tell apart two bags that agree on the `in` keys up to falsy values. */
  lemma NodeSeesOnlyItsInputs(spec: NodeSpec, work: Bag -> Outcome, d1: Bag, d2: Bag)
    requires |spec.inKeys| > 0
    requires forall k :: k in spec.inKeys ==> OrNull(Get(Some(Obj(d1)), k)) == OrNull(Get(Some(Obj(d2)), k))
    ensures RunNode(spec, work, d1) == RunNode(spec, work, d2)
  {
    var a := ProjectInput(spec.inKeys, d1);
    var b := ProjectInput(spec.inKeys, d2);
    assert a.Keys == b.Keys;
    forall k | k in a ensures a[k] == b[k] {
      assert k in spec.inKeys;
    }
    assert a == b;
  }

  /** A node with `out` declared returns an object with exactly those keys,
      whatever its work function returns. */
  lemma OutputKeysExactly(spec: NodeSpec, work: Bag -> Outcome, data: Bag)
    requires |spec.outKeys| > 0
    requires work(ProjectInput(spec.inKeys, data)).Resolved?
    requires Truthy(work(ProjectInput(spec.inKeys, data)).value)
    ensures RunNode(spec, work, data).Ok?
    ensures RunNode(spec, work, data).value.Obj?
    ensures RunNode(spec, work, data).value.fields.Keys == set k | k in spec.outKeys
  {
  }

  /** The worked example of a node `{in: ["x"], out: ["z"]}` whose function
      doubles `x` and adds a stray `w`: called with `{x: 5, q: 7}` the function
      sees `{x: 5}` and the node yields `{z: 10}`. */
  lemma DoublingExample()
    ensures ProjectInput(["x"], map["x" := Num(5), "q" := Num(7)]) == map["x" := Num(5)]
    ensures ProjectOutput(["z"], Obj(map["z" := Num(10), "w" := Num(99)])) == Obj(map["z" := Num(10)])
  {
    var inp := ProjectInput(["x"], map["x" := Num(5), "q" := Num(7)]);
    assert inp.Keys == {"x"};
    var out := ProjectOutput(["z"], Obj(map["z" := Num(10), "w" := Num(99)]));
    assert out.fields.Keys == {"z"};
  }

  // ---------------------------------------------------------------------------
  // Queue and retry settings (build.js lines 71-76 and 110)
  // ---------------------------------------------------------------------------

  /** A limit that `|| Infinity` may leave unbounded. */
  datatype Limit = Unbounded | Bounded(n: int)

  /** The settings handed to the node's queue and retry loop. */
  datatype QueueConfig = QueueConfig(
    concurrency: Limit,
    intervalCap: Limit,
    interval: int,
    timeout: Option<int>,
    retries: int)

  /** `parseInt(x)` for a possibly absent value: `undefined` converts to the
      string "undefined", which holds no digit. */
  function ParseIntValue(x: Option<Value>): Option<int> {
    if x.None? then ParseInt("undefined") else ParseInt(JsString(x.value))
  }

  /** `parseInt(undefined)` is NaN. */
  lemma UndefinedIsNaN()
    ensures ParseIntValue(None) == None
  {
    var u := "undefined";
    assert !IsJsSpace(u[0]) && TrimStart(u) == u;
    assert u[0] != '-' && u[0] != '+' && u[0] != '0';
    assert !IsDigitIn(u[0], 10) && DigitPrefix(u, 10) == [];
  }

  /** `parseInt(x) || fallback`: NaN and 0 are falsy, so both give the
      fallback; a non-zero fallback therefore never yields 0. */
  function IntOr(x: Option<Value>, fallback: int): (r: int)
    ensures fallback != 0 ==> r != 0
    ensures r == fallback || ParseIntValue(x) == Some(r)
  {
    var p := ParseIntValue(x);
    if p.Some? && p.value != 0 then p.value else fallback
  }

  /** `parseInt(x) || Infinity` */
  function LimitOf(x: Option<Value>): (r: Limit)
    ensures r != Bounded(0)
  {
    var p := ParseIntValue(x);
    if p.Some? && p.value != 0 then Bounded(p.value) else Unbounded
  }

  /** The queue and retry settings derived from a node's `queue` block. */
  function ConfigOf(queue: Option<Value>): (r: QueueConfig)
    ensures r.concurrency != Bounded(0) && r.intervalCap != Bounded(0)
    ensures r.timeout != Some(0)
    ensures r.retries != 0
  {
    var t := ParseIntValue(Get(queue, "timeout"));
    QueueConfig(
      LimitOf(Get(queue, "concurrency")),
      LimitOf(Get(Get(queue, "interval"), "limit")),
      IntOr(Get(Get(queue, "interval"), "time"), 0),
      if t.Some? && t.value != 0 then Some(t.value) else None,
      IntOr(Get(queue, "retry"), 5))
  }

  /** A node without a `queue` block runs unbounded, without a rate window or
      timeout, and with five retries. */
  lemma DefaultConfig()
    ensures ConfigOf(None) == QueueConfig(Unbounded, Unbounded, 0, None, 5)
  {
    UndefinedIsNaN();
    assert Get(None, "interval") == None;
    assert LimitOf(None) == Unbounded && IntOr(None, 0) == 0 && IntOr(None, 5) == 5;
  }

  /** A retry setting of 0, one that is absent, and one that holds no digits
      all give five retries. */
  lemma RetryDefaultsToFive(queue: Option<Value>)
    requires Get(queue, "retry") == None || Get(queue, "retry") == Some(Num(0))
          || ParseIntValue(Get(queue, "retry")) == None
    ensures ConfigOf(queue).retries == 5
  {
    var x := Get(queue, "retry");
    if x == None {
      UndefinedIsNaN();
    } else if x == Some(Num(0)) {
      assert JsString(Num(0)) == "0";
      assert ParseInt("0") == Some(0) by { ParseIntDecimal(0); }
    }
    assert ParseIntValue(x).None? || ParseIntValue(x).value == 0;
    assert ConfigOf(queue).retries == IntOr(x, 5);
  }

  /** A concurrency of 0 or none at all means "unbounded". */
  lemma ConcurrencyZeroIsUnbounded(queue: Option<Value>)
    requires Get(queue, "concurrency") == None || Get(queue, "concurrency") == Some(Num(0))
    ensures ConfigOf(queue).concurrency == Unbounded
  {
    UndefinedIsNaN();
    assert ParseInt("0") == Some(0) by { ParseIntDecimal(0); }
  }

  /** An interval limit of 0 or none means "unbounded", and a missing
      interval time is 0, whatever else the block holds. */
  lemma IntervalDefaults(queue: Option<Value>)
    requires Get(Get(queue, "interval"), "limit") == None || Get(Get(queue, "interval"), "limit") == Some(Num(0))
    requires Get(Get(queue, "interval"), "time") == None || Get(Get(queue, "interval"), "time") == Some(Num(0))
    ensures ConfigOf(queue).intervalCap == Unbounded
    ensures ConfigOf(queue).interval == 0
  {
    UndefinedIsNaN();
    assert JsString(Num(0)) == "0";
    assert ParseInt("0") == Some(0) by { ParseIntDecimal(0); }
  }

  /** `parseInt` of a number and of its text both read the number back. */
  lemma ParseIntValueOfNumber(n: int)
    ensures ParseIntValue(Some(Num(n))) == Some(n)
    ensures ParseIntValue(Some(Str(IntToString(n)))) == Some(n)
  {
    var s := IntToString(n);
    ParseIntToString(n);
    assert JsString(Num(n)) == s && JsString(Str(s)) == s;
  }

  /** A numeric setting and the same number written as text configure the
      queue alike, because `parseInt` reads back what `String` writes. */
  lemma TextAndNumberAgree(n: int)
    ensures LimitOf(Some(Num(n))) == LimitOf(Some(Str(IntToString(n))))
    ensures n != 0 ==> LimitOf(Some(Num(n))) == Bounded(n)
    ensures IntOr(Some(Num(n)), 5) == (if n == 0 then 5 else n)
    ensures forall d :: IntOr(Some(Num(n)), d) == IntOr(Some(Str(IntToString(n))), d)
  {
    ParseIntValueOfNumber(n);
    var a, b := Some(Num(n)), Some(Str(IntToString(n)));
    assert ParseIntValue(a) == ParseIntValue(b) == Some(n);
    forall d
      ensures IntOr(a, d) == IntOr(b, d)
    {
      assert IntOr(a, d) == (if n != 0 then n else d) == IntOr(b, d);
    }
  }
}
