/** The `run` closure that cofounder/api/build.js (lines 189-237) attaches to
    every compiled sequence: levels before `context.sequence.resume` are
    skipped, each later level dispatches all of its members with the data
    bag as it stood when the level began, and every response is merged into
    the bag. The first failing member fails the run. Member calls go through
    a dispatcher given as a parameter, which stands for `system.run`. */
module SequenceRunner {
  import opened Values
  import opened Text

  type Id = string

  /** `system.run` on one member id: the response, or the error it throws. */
  type Dispatch = (Id, Bag) -> Result<Value>

  // ---------------------------------------------------------------------------
  // The resume threshold (build.js line 199)
  // ---------------------------------------------------------------------------

  /** The number `step_index >= resume_at` compares against, or `None` when
      the comparison is with NaN and therefore always false. A falsy or
      absent `resume` gives 0; a number is itself; `true` is 1; a string, an
      array or an object is compared as the number its text denotes. */
  function ResumeAt(resume: Option<Value>): (t: Option<int>)
    ensures resume.None? || !Truthy(resume.value) ==> t == Some(0)
    ensures resume.Some? && resume.value.Num? ==> t == Some(resume.value.n)
    ensures resume.Some? && resume.value.Obj? ==> t.None?
  {
    if resume.None? then Some(0)
    else
      var v := resume.value;
      if !Truthy(v) then Some(0)
      else match v
        case Null => Some(0)
        case Num(n) => Some(n)
        case Bool(_) => Some(1)
        case Obj(_) =>
          assert JsString(v) == "[object Object]";
          StringToNumber(JsString(v))
        case Str(_) => StringToNumber(JsString(v))
        case List(_) => StringToNumber(JsString(v))
  }

  /** Whether level `i` is run for the threshold `t`. */
  predicate Runs(i: nat, t: Option<int>) {
    t.Some? && i >= t.value
  }

  /** A resume value written as text resumes at the same level as the number. */
  lemma ResumeTextAgrees(n: int)
    ensures ResumeAt(Some(Str(IntToString(n)))) == ResumeAt(Some(Num(n))) == Some(n)
  {
    var s := IntToString(n);
    NumberOfString(n);
    assert s != "" by {
      if n < 0 { assert s[0] == '-'; }
    }
    assert JsString(Str(s)) == s;
    assert ResumeAt(Some(Str(s))) == StringToNumber(s);
  }

  // ---------------------------------------------------------------------------
  // Merging responses (build.js line 219)
  // ---------------------------------------------------------------------------

  /** `data = merge(data, response)`, taken as a shallow right-biased merge: an
      object response overrides the bag key by key; any other response adds
      nothing. */
  function Merge(data: Bag, response: Value): (r: Bag)
    ensures response.Obj? ==> r.Keys == data.Keys + response.fields.Keys
    ensures response.Obj? ==> forall k :: k in response.fields ==> r[k] == response.fields[k]
    ensures forall k :: k in data && (!response.Obj? || k !in response.fields) ==> k in r && r[k] == data[k]
    ensures !response.Obj? ==> r == data
  {
    if response.Obj? then data + response.fields else data
  }

  /** Merging the same response twice changes nothing the first merge did not. */
  lemma MergeIdempotent(data: Bag, response: Value)
    ensures Merge(Merge(data, response), response) == Merge(data, response)
  {
  }

  /** The fold of one level's responses over `acc`, in list order, each member
      having been called with `input`; a failing call stops the fold. */
  function MergeLevel(call: Dispatch, ids: seq<Id>, input: Bag, acc: Bag): (r: Result<Bag>)
    ensures r.Ok? ==> acc.Keys <= r.value.Keys
    decreases |ids|
  {
    if |ids| == 0 then Ok(acc)
    else match call(ids[0], input)
      case Err(e) => Err(e)
      case Ok(v) => MergeLevel(call, ids[1..], input, Merge(acc, v))
  }

  /** A level fails exactly when one of its members fails; the first member
      in list order whose call fails decides the error, and a level that
      succeeds loses no key of the bag it started from. */
  lemma {:induction false} MergeLevelOutcome(call: Dispatch, ids: seq<Id>, input: Bag, acc: Bag)
    ensures var r := MergeLevel(call, ids, input, acc);
            && (r.Err? <==> exists k :: 0 <= k < |ids| && call(ids[k], input).Err?)
            && (r.Err? ==> exists k :: 0 <= k < |ids| && call(ids[k], input) == Err(r.error) &&
                                       forall m :: 0 <= m < k ==> call(ids[m], input).Ok?)
            && (r.Ok? ==> acc.Keys <= r.value.Keys)
    decreases |ids|
  {
    if |ids| > 0 {
      assert forall k :: 1 <= k < |ids| ==> ids[k] == ids[1..][k - 1];
      var c := call(ids[0], input);
      if c.Ok? {
        var next := Merge(acc, c.value);
        MergeLevelOutcome(call, ids[1..], input, next);
        var rest := MergeLevel(call, ids[1..], input, next);
        if rest.Err? {
          var k :| 0 <= k < |ids| - 1 && call(ids[1..][k], input) == Err(rest.error) &&
                   forall m :: 0 <= m < k ==> call(ids[1..][m], input).Ok?;
          assert call(ids[k + 1], input) == Err(rest.error);
          assert forall m :: 0 <= m < k + 1 ==> call(ids[m], input).Ok? by {
            forall m | 0 <= m < k + 1 ensures call(ids[m], input).Ok? {
              if m > 0 { assert ids[m] == ids[1..][m - 1]; }
            }
          }
        } else {
          assert forall k :: 0 <= k < |ids| ==> call(ids[k], input).Ok? by {
            forall k | 0 <= k < |ids| ensures call(ids[k], input).Ok? {
              if k > 0 { assert ids[k] == ids[1..][k - 1]; }
            }
          }
        }
      }
    }
  }

  // ---------------------------------------------------------------------------
  // The run
  // ---------------------------------------------------------------------------

  /** One `sequence:step:start` event: the level's index, its members, and the
      data every member of the level is called with. */
  datatype Step = Step(index: nat, ids: seq<Id>, input: Bag)

  /** What a run yields, and the levels it dispatched. */
  datatype Outcome = Outcome(result: Result<Bag>, trace: seq<Step>)

  /** The run from level `i` on, with threshold `t` and the bag `data`: a
      failure always comes from a dispatched level. */
  function RunFrom(call: Dispatch, levels: seq<seq<Id>>, i: nat, t: Option<int>, data: Bag): (r: Outcome)
    requires i <= |levels|
    ensures r.result.Err? ==> |r.trace| > 0
    decreases |levels| - i
  {
    if i == |levels| then Outcome(Ok(data), [])
    else if !Runs(i, t) then RunFrom(call, levels, i + 1, t, data)
    else
      match MergeLevel(call, levels[i], data, data)
      case Err(e) => Outcome(Err(e), [Step(i, levels[i], data)])
      case Ok(d) =>
        var rest := RunFrom(call, levels, i + 1, t, d);
        Outcome(rest.result, [Step(i, levels[i], data)] + rest.trace)
  }

  /** The whole run of a sequence whose compiled levels are `levels`. */
  function Run(call: Dispatch, levels: seq<seq<Id>>, resume: Option<Value>, data: Bag): (r: Outcome)
    ensures r.result.Err? ==> |r.trace| > 0
  {
    RunFrom(call, levels, 0, ResumeAt(resume), data)
  }

  /** Dispatches every member of one level with the same `data` and merges
      the responses in list order; the first failure in list order is the
      level's error. */
  method RunLevel(call: Dispatch, ids: seq<Id>, data: Bag) returns (r: Result<Bag>)
    ensures r == MergeLevel(call, ids, data, data)
  {
    var acc := data;
    var failure: Option<string> := None;
    var j := 0;
    while j < |ids|
      invariant 0 <= j <= |ids|
      invariant failure.None? ==> MergeLevel(call, ids, data, data) == MergeLevel(call, ids[j..], data, acc)
      invariant failure.Some? ==> MergeLevel(call, ids, data, data) == Err(failure.value)
    {
      var response := call(ids[j], data);
      assert ids[j..][0] == ids[j] && ids[j..][1..] == ids[j + 1..];
      if failure.None? {
        if response.Err? {
          failure := Some(response.error);
        } else {
          acc := Merge(acc, response.value);
        }
      }
      j := j + 1;
    }
    if failure.Some? {
      r := Err(failure.value);
    } else {
      r := Ok(acc);
    }
  }

  /** The loop over `sequence.entries()` once `resume_at` is known: a level
      runs when its index has reached the threshold `t`; a failing level ends
      the run with its error. The trace lists the levels dispatched. */
  method RunLevels(call: Dispatch, levels: seq<seq<Id>>, t: Option<int>, data: Bag)
    returns (r: Result<Bag>, trace: seq<Step>)
    ensures Outcome(r, trace) == RunFrom(call, levels, 0, t, data)
  {
    var current := data;
    trace := [];
    var stepIndex := 0;
    while stepIndex < |levels|
      invariant 0 <= stepIndex <= |levels|
      invariant RunFrom(call, levels, 0, t, data) ==
                Outcome(RunFrom(call, levels, stepIndex, t, current).result,
                        trace + RunFrom(call, levels, stepIndex, t, current).trace)
    {
      if Runs(stepIndex, t) {
        var step := Step(stepIndex, levels[stepIndex], current);
        var levelResult := RunLevel(call, levels[stepIndex], current);
        if levelResult.Err? {
          assert RunFrom(call, levels, stepIndex, t, current) == Outcome(levelResult, [step]);
          r, trace := Err(levelResult.error), trace + [step];
          return;
        }
        var rest := RunFrom(call, levels, stepIndex + 1, t, levelResult.value);
        assert RunFrom(call, levels, stepIndex, t, current) == Outcome(rest.result, [step] + rest.trace);
        assert trace + ([step] + rest.trace) == trace + [step] + rest.trace;
        trace := trace + [step];
        current := levelResult.value;
      } else {
        assert RunFrom(call, levels, stepIndex, t, current) == RunFrom(call, levels, stepIndex + 1, t, current);
      }
      stepIndex := stepIndex + 1;
    }
    r := Ok(current);
  }

  /** The sequence's run: `resume_at` is read from the resume value, then the
      levels are run against it. */
  method RunSequence(call: Dispatch, levels: seq<seq<Id>>, resume: Option<Value>, data: Bag)
    returns (r: Result<Bag>, trace: seq<Step>)
    ensures Outcome(r, trace) == Run(call, levels, resume, data)
  {
    var t := ResumeAt(resume);
    r, trace := RunLevels(call, levels, t, data);
  }

  // ---------------------------------------------------------------------------
  // Properties of the run
  // ---------------------------------------------------------------------------

  /** The first level at or after `i` that the threshold lets run, or the
      number of levels when there is none. */
  function FirstRun(i: nat, t: Option<int>, n: nat): (f: nat)
    requires i <= n
    ensures i <= f <= n
    ensures forall j :: i <= j < f ==> !Runs(j, t)
    ensures f < n ==> Runs(f, t)
  {
    if t.None? || t.value >= n then n else if t.value <= i then i else t.value
  }

  /** Which levels a run dispatches: the levels from the first one the
      threshold admits, consecutively and in order, up to the end or up to
      the level that failed, each with its own members. */
  lemma {:induction false} TraceShape(call: Dispatch, levels: seq<seq<Id>>, i: nat, t: Option<int>, data: Bag)
    requires i <= |levels|
    ensures var o := RunFrom(call, levels, i, t, data);
            var f := FirstRun(i, t, |levels|);
            && f + |o.trace| <= |levels|
            && (forall j :: 0 <= j < |o.trace| ==> o.trace[j].index == f + j && o.trace[j].ids == levels[f + j])
            && (o.result.Ok? ==> f + |o.trace| == |levels|)
            && (o.result.Err? ==> |o.trace| > 0)
    decreases |levels| - i
  {
    if i < |levels| {
      TraceShape(call, levels, i + 1, t, data);
      if Runs(i, t) {
        var r := MergeLevel(call, levels[i], data, data);
        if r.Ok? {
          TraceShape(call, levels, i + 1, t, r.value);
        }
      }
    }
  }

  /** How data flows through a run: the first dispatched level sees the
      initial bag, each later one sees the merge of the one before, a failing
      run fails with the last dispatched level's error, and a successful one
      returns the merge of the last dispatched level (the initial bag when
      none ran). */
  lemma {:induction false} TraceChain(call: Dispatch, levels: seq<seq<Id>>, i: nat, t: Option<int>, data: Bag)
    requires i <= |levels|
    ensures var o := RunFrom(call, levels, i, t, data);
            && (|o.trace| > 0 ==> o.trace[0].input == data)
            && (forall j :: 0 <= j < |o.trace| - 1 ==>
                  MergeLevel(call, o.trace[j].ids, o.trace[j].input, o.trace[j].input) == Ok(o.trace[j + 1].input))
            && (|o.trace| == 0 ==> o.result == Ok(data))
            && (|o.trace| > 0 ==> var last := o.trace[|o.trace| - 1];
                  MergeLevel(call, last.ids, last.input, last.input) == o.result)
    decreases |levels| - i
  {
    if i < |levels| {
      if !Runs(i, t) {
        TraceChain(call, levels, i + 1, t, data);
      } else {
        var r := MergeLevel(call, levels[i], data, data);
        if r.Ok? {
          TraceChain(call, levels, i + 1, t, r.value);
          var rest := RunFrom(call, levels, i + 1, t, r.value);
          var o := RunFrom(call, levels, i, t, data);
          assert o.trace == [Step(i, levels[i], data)] + rest.trace;
          forall j | 0 <= j < |o.trace| - 1
            ensures MergeLevel(call, o.trace[j].ids, o.trace[j].input, o.trace[j].input) == Ok(o.trace[j + 1].input)
          {
            if j > 0 {
              assert o.trace[j] == rest.trace[j - 1] && o.trace[j + 1] == rest.trace[j];
            }
          }
        }
      }
    }
  }

  /** A run that starts at or beyond the last level (or against NaN) dispatches
      nothing and returns the bag unchanged. */
  lemma {:induction false} NothingLeftToRun(call: Dispatch, levels: seq<seq<Id>>, i: nat, t: Option<int>, data: Bag)
    requires i <= |levels|
    requires t.None? || t.value >= |levels|
    ensures RunFrom(call, levels, i, t, data) == Outcome(Ok(data), [])
    decreases |levels| - i
  {
    if i < |levels| {
      NothingLeftToRun(call, levels, i + 1, t, data);
    }
  }

  /** Resuming at level `k` is the same as running, from the start, the
      sequence that has only the levels from `k` on. */
  lemma {:induction false} ResumeDropsLevels(call: Dispatch, levels: seq<seq<Id>>, k: nat, i: nat, data: Bag)
    requires k <= i <= |levels|
    ensures RunFrom(call, levels, i, Some(k), data).result == RunFrom(call, levels[k..], i - k, Some(0), data).result
    decreases |levels| - i
  {
    if i < |levels| {
      assert levels[k..][i - k] == levels[i];
      var r := MergeLevel(call, levels[i], data, data);
      if r.Ok? {
        ResumeDropsLevels(call, levels, k, i + 1, r.value);
      }
    }
  }

  /** Levels before the threshold are skipped without effect. */
  lemma {:induction false} SkipToThreshold(call: Dispatch, levels: seq<seq<Id>>, k: nat, i: nat, data: Bag)
    requires i <= k <= |levels|
    ensures RunFrom(call, levels, i, Some(k), data) == RunFrom(call, levels, k, Some(k), data)
    decreases k - i
  {
    if i < k {
      SkipToThreshold(call, levels, k, i + 1, data);
    }
  }

  /** A run resumed at level `k` returns what a fresh run of the remaining
      levels on the same bag returns. */
  lemma ResumeIsSuffixRun(call: Dispatch, levels: seq<seq<Id>>, k: nat, data: Bag)
    requires 0 < k <= |levels|
    ensures Run(call, levels, Some(Num(k)), data).result == Run(call, levels[k..], None, data).result
  {
    SkipToThreshold(call, levels, k, 0, data);
    ResumeDropsLevels(call, levels, k, k, data);
  }

  /** A resume value of `|levels|` or more returns the bag untouched and
      dispatches no member. */
  lemma ResumePastEnd(call: Dispatch, levels: seq<seq<Id>>, n: int, data: Bag)
    requires n >= |levels| && n != 0
    ensures Run(call, levels, Some(Num(n)), data) == Outcome(Ok(data), [])
  {
    NothingLeftToRun(call, levels, 0, Some(n), data);
  }

  /** With no resume value every level runs, in order, starting with the first. */
  lemma FreshRunDispatchesAll(call: Dispatch, levels: seq<seq<Id>>, data: Bag)
    requires Run(call, levels, None, data).result.Ok?
    ensures |Run(call, levels, None, data).trace| == |levels|
    ensures forall j :: 0 <= j < |levels| ==> Run(call, levels, None, data).trace[j].ids == levels[j]
  {
    TraceShape(call, levels, 0, Some(0), data);
  }
}
