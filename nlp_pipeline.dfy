/**
 * The class `NLPPipeline` of functions/tokenizer.py: a stopword set built from
 * a language corpus with accumulated inclusions and exclusions, the steps
 * lowercase, tokenize (NLTK's `word_tokenize`) and remove_stopwords, and the
 * fail-soft processing of a text, a column and a data frame.
 */
module NLP {
  import opened Outcomes
  import opened Chars
  import opened Stopwords
  import opened Pipeline
  import opened Frames

  class NLPPipeline {
    var language: string
    /** The corpus stopwords for the language. */
    var stopwords: set<string>
    var customInclude: set<string>
    var customExclude: set<string>
    var effectiveStopwords: set<string>
    /** NLTK's `word_tokenize`, supplied by the caller. */
    const wordTokenize: string -> seq<string>

    ghost predicate Valid()
      reads this
    {
      effectiveStopwords == Effective(stopwords, customInclude, customExclude)
    }

    function Custom(): Customization
      reads this
    {
      Customization(customInclude, customExclude)
    }

    /** `corpus` is the NLTK stopword list of `language`. */
    constructor (language: string, corpus: set<string>, wordTokenize: string -> seq<string>)
      ensures Valid()
      ensures this.language == language && stopwords == corpus && this.wordTokenize == wordTokenize
      ensures customInclude == {} && customExclude == {} && effectiveStopwords == corpus
    {
      this.language := language;
      this.stopwords := corpus;
      this.customInclude := {};
      this.customExclude := {};
      this.wordTokenize := wordTokenize;
      new;
      UpdateStopwords();
    }

    /** Recomputes the effective set from the corpus set and the custom sets. */
    method UpdateStopwords()
      modifies this
      ensures Valid()
      ensures language == old(language) && stopwords == old(stopwords)
      ensures customInclude == old(customInclude) && customExclude == old(customExclude)
    {
      effectiveStopwords := stopwords;
      effectiveStopwords := effectiveStopwords + customInclude;
      effectiveStopwords := effectiveStopwords - customExclude;
    }

    method CustomizeStopwords(inclusions: Option<set<string>>, exclusions: Option<set<string>>)
      modifies this
      ensures Valid()
      ensures Custom() == Customize(old(Custom()), inclusions, exclusions)
      ensures old(customInclude) <= customInclude && old(customExclude) <= customExclude
      ensures language == old(language) && stopwords == old(stopwords)
    {
      if inclusions.Some? && inclusions.value != {} {
        customInclude := customInclude + inclusions.value;
      }
      if exclusions.Some? && exclusions.value != {} {
        customExclude := customExclude + exclusions.value;
      }
      UpdateStopwords();
    }

    /** What the three steps read: the effective stopwords and `word_tokenize`, which never raises. */
    function StepEnv(): Env
      reads this
    {
      Env(effectiveStopwords, Total(wordTokenize))
    }

    /** The steps enabled by the flags, in the fixed order lowercase, tokenize, remove_stopwords. */
    function GetPipeline(lowercase: bool, tokenize: bool, removeStops: bool): (r: seq<Step>)
      ensures |r| == (if lowercase then 1 else 0) + (if tokenize then 1 else 0) + (if removeStops then 1 else 0)
      ensures Lowercase in r <==> lowercase
      ensures Tokenize in r <==> tokenize
      ensures RemoveStopwords in r <==> removeStops
      ensures forall i, j :: 0 <= i < j < |r| ==> Rank(r[i]) < Rank(r[j])
    {
      (if lowercase then [Lowercase] else []) +
      (if tokenize then [Tokenize] else []) +
      (if removeStops then [RemoveStopwords] else [])
    }

    /** The pipeline used when none is given. */
    lemma DefaultPipeline()
      ensures GetPipeline(true, true, true) == [Lowercase, Tokenize, RemoveStopwords]
    {
    }

    method ProcessText(text: Value, pipeline: Option<seq<Step>>) returns (result: Value, failed: seq<Step>)
      ensures Trace(result, failed) == Run(StepEnv(), pipeline.GetOr(GetPipeline(true, true, true)), text)
    {
      var steps := pipeline.GetOr(GetPipeline(true, true, true));
      var env := StepEnv();
      result, failed := text, [];
      for i := 0 to |steps|
        invariant Trace(result, failed) == RunFrom(env, steps[..i], Trace(text, []))
      {
        ghost var before := Trace(result, failed);
        assert steps[..i + 1][..i] == steps[..i];
        var next := RunStep(env, steps[i], result);
        if next.Some? {
          result := next.value;
        } else {
          failed := failed + [steps[i]];
        }
        assert Trace(result, failed) == Apply(env, steps[i], before);
      }
      assert steps[..|steps|] == steps;
    }

    /** Each record is processed on its own; a record's failures never abort the column. */
    method ProcessSeries(series: seq<Value>, pipeline: Option<seq<Step>>) returns (out: seq<Value>)
      ensures out == RunColumn(StepEnv(), pipeline.GetOr(GetPipeline(true, true, true)), series)
    {
      out := [];
      for i := 0 to |series|
        invariant |out| == i
        invariant forall k :: 0 <= k < i ==>
                    out[k] == Run(StepEnv(), pipeline.GetOr(GetPipeline(true, true, true)), series[k]).value
      {
        var v, _ := ProcessText(series[i], pipeline);
        out := out + [v];
      }
    }

    /** Fails, before anything is computed, when the text column is missing; otherwise
        returns a new frame with the result column set, and leaves `df` alone. */
    method ProcessDataframe(df: DataFrame, textColumn: string, resultColumn: string, pipeline: Option<seq<Step>>)
      returns (result: Result<DataFrame, string>)
      ensures result.Failure? <==> textColumn !in df.columns
      ensures result.Failure? ==> result.error == MissingColumn(textColumn)
      ensures result.Success? ==>
                fresh(result.value) &&
                result.value.columns == df.columns[resultColumn := RunColumn(StepEnv(),
                  pipeline.GetOr(GetPipeline(true, true, true)), df.columns[textColumn])]
      ensures result.Success? && Rectangular(df.columns) ==> Rectangular(result.value.columns)
      ensures unchanged(df)
    {
      if textColumn !in df.columns {
        return Failure(MissingColumn(textColumn));
      }
      var copy := df.Copy();
      var column := ProcessSeries(df.columns[textColumn], pipeline);
      copy.columns := copy.columns[resultColumn := column];
      if Rectangular(df.columns) {
        AddColumnRectangular(df.columns, textColumn, resultColumn, column);
      }
      return Success(copy);
    }
  }

  /** Position of a built-in step in the default pipeline. */
  function Rank(s: Step): nat {
    match s
    case Lowercase => 0
    case Tokenize => 1
    case RemoveStopwords => 2
    case Raise(_) => 3
  }

  /** The customised set of the example: inclusions {dear, regards, must, would, also}
      and exclusion {against}. An excluded word stays out even if later included. */
  lemma ExampleCustomization(corpus: set<string>)
    ensures var c := Customize(Customization({}, {}), Some({"dear", "regards", "must", "would", "also"}), Some({"against"}));
            var e := Effective(corpus, c.inclusions, c.exclusions);
            "dear" in e && "must" in e && "would" in e && "also" in e && "against" !in e
  {
  }

  /** A pipeline with a user step that raises between tokenize and remove_stopwords:
      the error is logged, the tokens are still filtered. */
  lemma FailingStepExample(p: NLPPipeline, text: string)
    ensures Run(p.StepEnv(), [Lowercase, Tokenize, Raise("failing_step"), RemoveStopwords], Text(text))
         == Trace(Tokens(FilterStopwords(p.wordTokenize(Lower(text)), p.effectiveStopwords)), [Raise("failing_step")])
  {
    var env := p.StepEnv();
    var v := Text(text);
    RaisingStepIsSkipped(env, [Lowercase, Tokenize], [RemoveStopwords], "failing_step", v);
    assert [Lowercase, Tokenize] + [Raise("failing_step")] + [RemoveStopwords]
        == [Lowercase, Tokenize, Raise("failing_step"), RemoveStopwords];
    assert [Lowercase, Tokenize] + [RemoveStopwords] == [Lowercase, Tokenize, RemoveStopwords];
    DefaultRun(env, v);
    RunLogsFailures(env, [Lowercase, Tokenize, Raise("failing_step"), RemoveStopwords], v);
    var steps := [Lowercase, Tokenize, Raise("failing_step"), RemoveStopwords];
    var t3 := Run(env, steps[..3], v);
    assert steps[..3] == [Lowercase, Tokenize] + [Raise("failing_step")];
    RunFromConcat(env, [Lowercase, Tokenize], [Raise("failing_step")], Trace(v, []));
    assert [Raise("failing_step")][..0] == [];
    assert [Lowercase, Tokenize, RemoveStopwords][..2] == [Lowercase, Tokenize];
    assert Run(env, [Lowercase, Tokenize], v).failed == [];
  }
}
