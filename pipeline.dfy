/**
 * The fail-soft step pipeline shared by `NLPPipeline.process_text` and the
 * script function `prepare`: a value of any Python type flows through an
 * ordered list of steps; a step that raises is logged and skipped, and the
 * following steps run on the last successful result.
 */
module Pipeline {
  import opened Outcomes
  import opened Chars
  import opened Stopwords

  /** What flows through a pipeline: a string, a list of strings, or any other
      Python value (None, a number, pandas' NaN for a missing cell). */
  datatype Value = Text(s: string) | Tokens(ts: seq<string>) | Other

  /** The three built-in steps, and a user step that raises, carrying its name for the log. */
  datatype Step = Lowercase | Tokenize | RemoveStopwords | Raise(name: string)

  /** A string tokenizer; None stands for a call that raises. */
  type Tokenizer = string -> Option<seq<string>>

  /** The state the steps read: the stopword set and the tokenizer in use. */
  datatype Env = Env(stopwords: set<string>, tokenizer: Tokenizer)

  /** The current result and the steps that raised so far (the printed error lines). */
  datatype Trace = Trace(value: Value, failed: seq<Step>)

  /** A tokenizer that never raises, built from a plain one such as NLTK's `word_tokenize`. */
  function Total(f: string -> seq<string>): Tokenizer {
    s => Some(f(s))
  }

  /** The characters of a string as one-character strings, which is what
      iterating over a Python string yields. */
  function Characters(s: string): (r: seq<string>)
    ensures |r| == |s|
    ensures forall i :: 0 <= i < |s| ==> r[i] == [s[i]]
  {
    seq(|s|, i requires 0 <= i < |s| => [s[i]])
  }

  /** The string a lowercasing step produces: the lowered text, or "" for anything that is not a string. */
  function LoweredText(v: Value): string {
    if v.Text? then Lower(v.s) else ""
  }

  /** `lowercase` (and the script's lambda): never raises; a non-string becomes "". */
  function LowercaseValue(v: Value): (r: Value)
    ensures r.Text? && IsLowerCase(r.s)
    ensures !v.Text? ==> r.s == ""
    ensures v.Text? ==> r.s == Lower(v.s)
    ensures v.Text? ==> |r.s| == |v.s| && (IsLowerCase(v.s) ==> r.s == v.s)
  {
    LowerIsLowerCase(LoweredText(v));
    LowerIsLowerCase(if v.Text? then v.s else "");
    Text(LoweredText(v))
  }

  /** `tokenize`: a non-string gives the empty list without calling the tokenizer;
      a string is handed to the tokenizer, which may raise. */
  function TokenizeValue(tokenizer: Tokenizer, v: Value): (r: Option<Value>)
    ensures !v.Text? ==> r == Some(Tokens([]))
    ensures v.Text? ==> (r.None? <==> tokenizer(v.s).None?)
    ensures v.Text? && tokenizer(v.s).Some? ==> r == Some(Tokens(tokenizer(v.s).value))
    ensures r.Some? ==> r.value.Tokens?
  {
    if !v.Text? then Some(Tokens([]))
    else match tokenizer(v.s)
      case Some(ts) => Some(Tokens(ts))
      case None => None
  }

  /** `remove_stopwords` / `remove_stop`: keeps the items whose lower-case form is
      not a stopword. A string is iterated character by character; iterating
      anything else (None, a number) raises. */
  function RemoveStopwordsValue(stops: set<string>, v: Value): (r: Option<Value>)
    ensures r.None? <==> v.Other?
    ensures r.Some? ==> r.value.Tokens? && forall t :: t in r.value.ts ==> Lower(t) !in stops
    ensures v.Tokens? ==> r.Some? && |r.value.ts| <= |v.ts| && forall t :: t in r.value.ts ==> t in v.ts
    ensures v.Text? ==> r.Some? && forall t :: t in r.value.ts ==> |t| == 1 && t[0] in v.s
    ensures v.Tokens? ==> r == Some(Tokens(FilterStopwords(v.ts, stops)))
    ensures v.Text? ==> r == Some(Tokens(FilterStopwords(Characters(v.s), stops)))
  {
    match v
    case Tokens(ts) => Some(Tokens(FilterStopwords(ts, stops)))
    case Text(s) => Some(Tokens(FilterStopwords(Characters(s), stops)))
    case Other => None
  }

  function RunStep(env: Env, step: Step, v: Value): (r: Option<Value>)
    ensures step.Raise? ==> r.None?
    ensures step.Lowercase? ==> r.Some?
  {
    match step
    case Lowercase => Some(LowercaseValue(v))
    case Tokenize => TokenizeValue(env.tokenizer, v)
    case RemoveStopwords => RemoveStopwordsValue(env.stopwords, v)
    case Raise(_) => None
  }

  /** One iteration of the loop: on success the result is replaced, on an
      exception the result is kept and the step is logged. */
  function Apply(env: Env, step: Step, t: Trace): (r: Trace)
    ensures r.failed == t.failed || (r.failed == t.failed + [step] && r.value == t.value)
    ensures step.Raise? ==> r == Trace(t.value, t.failed + [step])
    ensures step.Lowercase? ==> r.failed == t.failed && r.value.Text?
  {
    match RunStep(env, step, t.value)
    case Some(v) => Trace(v, t.failed)
    case None => Trace(t.value, t.failed + [step])
  }

  /** The loop, left to right, from a given trace. */
  function RunFrom(env: Env, steps: seq<Step>, t: Trace): (r: Trace)
    ensures |t.failed| <= |r.failed| <= |t.failed| + |steps|
    ensures r.failed[..|t.failed|] == t.failed
    decreases |steps|
  {
    if steps == [] then t
    else Apply(env, steps[|steps| - 1], RunFrom(env, steps[..|steps| - 1], t))
  }

  /** The loop from the input value with an empty log. */
  function Run(env: Env, steps: seq<Step>, v: Value): (r: Trace)
    ensures |r.failed| <= |steps|
    ensures steps == [] ==> r == Trace(v, [])
  {
    RunFrom(env, steps, Trace(v, []))
  }

  /** The processed column: every record run through the pipeline on its own. */
  function RunColumn(env: Env, steps: seq<Step>, column: seq<Value>): (r: seq<Value>)
    ensures |r| == |column|
    ensures forall i :: 0 <= i < |column| ==> r[i] == Run(env, steps, column[i]).value
  {
    seq(|column|, i requires 0 <= i < |column| => Run(env, steps, column[i]).value)
  }

  /** An empty pipeline returns its input unchanged and logs nothing. */
  lemma RunEmpty(env: Env, v: Value)
    ensures Run(env, [], v) == Trace(v, [])
  {
  }

  /** Running a + b is running a, then b on what a left. */
  lemma {:induction false} RunFromConcat(env: Env, a: seq<Step>, b: seq<Step>, t: Trace)
    ensures RunFrom(env, a + b, t) == RunFrom(env, b, RunFrom(env, a, t))
    decreases |b|
  {
    if b == [] {
      assert a + b == a;
    } else {
      var b' := b[..|b| - 1];
      assert (a + b)[..|a + b| - 1] == a + b';
      assert (a + b)[|a + b| - 1] == b[|b| - 1];
      RunFromConcat(env, a, b', t);
    }
  }

  /** The result never depends on what was logged before; the log only grows at its end. */
  lemma {:induction false} RunFromLog(env: Env, steps: seq<Step>, v: Value, log: seq<Step>)
    ensures RunFrom(env, steps, Trace(v, log)).value == Run(env, steps, v).value
    ensures RunFrom(env, steps, Trace(v, log)).failed == log + Run(env, steps, v).failed
    decreases |steps|
  {
    if steps != [] {
      RunFromLog(env, steps[..|steps| - 1], v, log);
      var t := RunFrom(env, steps[..|steps| - 1], Trace(v, []));
      assert log + (t.failed + [steps[|steps| - 1]]) == (log + t.failed) + [steps[|steps| - 1]];
    }
  }

  /** A step that raises is skipped: the result is what the pipeline without it
      gives, and the step is logged. The steps after it still run. */
  lemma RaisingStepIsSkipped(env: Env, a: seq<Step>, b: seq<Step>, name: string, v: Value)
    ensures Run(env, a + [Raise(name)] + b, v).value == Run(env, a + b, v).value
    ensures Raise(name) in Run(env, a + [Raise(name)] + b, v).failed
  {
    var ta := Run(env, a, v);
    RunFromConcat(env, a + [Raise(name)], b, Trace(v, []));
    RunFromConcat(env, a, [Raise(name)], Trace(v, []));
    assert [Raise(name)][..0] == [];
    var tr := RunFrom(env, [Raise(name)], ta);
    assert tr == Trace(ta.value, ta.failed + [Raise(name)]);
    RunFromConcat(env, a, b, Trace(v, []));
    RunFromLog(env, b, ta.value, ta.failed);
    RunFromLog(env, b, ta.value, ta.failed + [Raise(name)]);
    assert Raise(name) in ta.failed + [Raise(name)];
  }

  /** The log holds only steps of the pipeline, and every user step that raises is in it. */
  lemma {:induction false} RunLogsFailures(env: Env, steps: seq<Step>, v: Value)
    ensures forall s :: s in Run(env, steps, v).failed ==> s in steps
    ensures forall s :: s in steps && s.Raise? ==> s in Run(env, steps, v).failed
    ensures |Run(env, steps, v).failed| <= |steps|
    decreases |steps|
  {
    if steps != [] {
      var init := steps[..|steps| - 1];
      RunLogsFailures(env, init, v);
      assert steps == init + [steps[|steps| - 1]];
    }
  }

  /** The default pipeline lowercase, tokenize, remove stopwords, when the tokenizer does not raise. */
  lemma DefaultRun(env: Env, v: Value)
    requires env.tokenizer(LoweredText(v)).Some?
    ensures Run(env, [Lowercase, Tokenize, RemoveStopwords], v)
         == Trace(Tokens(FilterStopwords(env.tokenizer(LoweredText(v)).value, env.stopwords)), [])
  {
    var steps := [Lowercase, Tokenize, RemoveStopwords];
    var t0 := Trace(v, []);
    var t1 := Apply(env, Lowercase, t0);
    assert t1 == Trace(Text(LoweredText(v)), []);
    var toks := env.tokenizer(LoweredText(v)).value;
    var t2 := Apply(env, Tokenize, t1);
    assert t2 == Trace(Tokens(toks), []);
    var t3 := Apply(env, RemoveStopwords, t2);
    assert t3 == Trace(Tokens(FilterStopwords(toks, env.stopwords)), []);
    assert [Lowercase][..0] == [];
    assert RunFrom(env, [Lowercase], t0) == t1;
    assert steps[..2] == [Lowercase, Tokenize] && [Lowercase, Tokenize][..1] == [Lowercase];
    assert RunFrom(env, [Lowercase, Tokenize], t0) == t2;
    assert steps[..2] == [Lowercase, Tokenize];
  }
}
