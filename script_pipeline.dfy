/**
 * The module-level half of functions/tokenizer.py: a global stopword set
 * customised in place, the regular-expression `tokenize`, `remove_stop`, the
 * fail-soft `prepare`, the three-step `pipeline` and `process_dataframe`,
 * which writes its result column into the frame it is given.
 */
module Script {
  import opened Outcomes
  import opened Chars
  import opened Stopwords
  import opened Pipeline
  import opened RegexTokenizer
  import opened Frames

  const IncludeStopwords: set<string> := {"dear", "regards", "must", "would", "also"}
  const ExcludeStopwords: set<string> := {"against"}

  /** The global set: the NLTK English corpus, grown by the inclusions, then shrunk by the exclusions. */
  method InitStopwords(corpus: set<string>) returns (stopwords: set<string>)
    ensures stopwords == Effective(corpus, IncludeStopwords, ExcludeStopwords)
    ensures "dear" in stopwords && "regards" in stopwords && "must" in stopwords
    ensures "would" in stopwords && "also" in stopwords && "against" !in stopwords
    ensures forall w :: w in corpus && w != "against" ==> w in stopwords
  {
    stopwords := corpus;
    stopwords := stopwords + IncludeStopwords;
    stopwords := stopwords - ExcludeStopwords;
  }

  /** `tokenize` as written: the pattern uses `\p{L}`, which Python's `re`
      rejects ("bad escape"), so every call on a string raises. */
  function AsWrittenTokenizer(): (r: Tokenizer)
    ensures forall s :: r(s).None?
  {
    s => None
  }

  /** `tokenize` as documented: the maximal `[\w-]` runs holding a letter. */
  function DocumentedTokenizer(): (r: Tokenizer)
    ensures forall s :: r(s) == Some(RegexTokenize(s))
    ensures forall s :: r(s).Some? && forall t :: t in r(s).value ==> IsToken(t)
  {
    s => Some(RegexTokenize(s))
  }

  /** The script's `tokenize` as documented: [] for a non-string, otherwise tokens of
      word characters and hyphens, each holding a letter. */
  function TokenizeText(v: Value): (r: Value)
    ensures r.Tokens?
    ensures !v.Text? ==> r.ts == []
    ensures v.Text? ==> r.ts == RegexTokenize(v.s)
    ensures forall t :: t in r.ts ==> IsToken(t)
  {
    TokenizeValue(DocumentedTokenizer(), v).value
  }

  /** The script's `remove_stop` over the global set. */
  function RemoveStop(stopwords: set<string>, tokens: seq<string>): (r: seq<string>)
    ensures |r| <= |tokens|
    ensures forall t :: t in r <==> t in tokens && Lower(t) !in stopwords
    ensures FilterStopwords(r, stopwords) == r
  {
    FilterStopwordsIdempotent(tokens, stopwords);
    FilterStopwords(tokens, stopwords)
  }

  /** Kept tokens stay in their input order, each as often as it occurs. */
  lemma RemoveStopConcat(stopwords: set<string>, a: seq<string>, b: seq<string>)
    ensures RemoveStop(stopwords, a + b) == RemoveStop(stopwords, a) + RemoveStop(stopwords, b)
  {
    FilterStopwordsConcat(a, b, stopwords);
  }

  /** The global `pipeline`: the lowercasing lambda, `tokenize`, `remove_stop`. */
  function ScriptSteps(): (r: seq<Step>)
    ensures |r| == 3 && r[0] == Lowercase
    ensures forall s :: s in r ==> !s.Raise?
  {
    [Lowercase, Tokenize, RemoveStopwords]
  }

  function ScriptEnv(stopwords: set<string>): Env {
    Env(stopwords, DocumentedTokenizer())
  }

  method Prepare(text: Value, pipeline: seq<Step>, env: Env) returns (result: Value, failed: seq<Step>)
    ensures Trace(result, failed) == Run(env, pipeline, text)
  {
    result, failed := text, [];
    for i := 0 to |pipeline|
      invariant Trace(result, failed) == RunFrom(env, pipeline[..i], Trace(text, []))
    {
      ghost var before := Trace(result, failed);
      assert pipeline[..i + 1][..i] == pipeline[..i];
      var next := RunStep(env, pipeline[i], result);
      if next.Some? {
        result := next.value;
      } else {
        failed := failed + [pipeline[i]];
      }
      assert Trace(result, failed) == Apply(env, pipeline[i], before);
    }
    assert pipeline[..|pipeline|] == pipeline;
  }

  /** With the documented tokenizer the script pipeline never logs an error; it yields
      the lower-case tokens of the text, without stopwords, in text order. */
  lemma ScriptRun(stopwords: set<string>, v: Value)
    ensures Run(ScriptEnv(stopwords), ScriptSteps(), v)
         == Trace(Tokens(FilterStopwords(RegexTokenize(LoweredText(v)), stopwords)), [])
    ensures forall t :: t in Run(ScriptEnv(stopwords), ScriptSteps(), v).value.ts ==>
              IsToken(t) && IsLowerCase(t) && t !in stopwords
  {
    DefaultRun(ScriptEnv(stopwords), v);
    var ts := RegexTokenize(LoweredText(v));
    LowerIsLowerCase(if v.Text? then v.s else "");
    forall t | t in ts ensures IsLowerCase(t) {
      LowerTokensAreLowerCase(LoweredText(v), t);
    }
    forall t | t in FilterStopwords(ts, stopwords) ensures t !in stopwords {
      LowerIsLowerCase(t);
    }
  }

  /** As written, `tokenize` raises on the lowered string; `prepare` logs it and
      `remove_stop` then iterates over the characters of that string. */
  lemma AsWrittenRun(stopwords: set<string>, v: Value)
    ensures Run(Env(stopwords, AsWrittenTokenizer()), ScriptSteps(), v)
         == Trace(Tokens(FilterStopwords(Characters(LoweredText(v)), stopwords)), [Tokenize])
  {
    var env := Env(stopwords, AsWrittenTokenizer());
    var steps := ScriptSteps();
    var t1 := Apply(env, Lowercase, Trace(v, []));
    assert t1 == Trace(Text(LoweredText(v)), []);
    var t2 := Apply(env, Tokenize, t1);
    assert t2 == Trace(Text(LoweredText(v)), [Tokenize]);
    assert [Lowercase][..0] == [];
    assert RunFrom(env, [Lowercase], Trace(v, [])) == t1;
    assert steps[..2] == [Lowercase, Tokenize] && [Lowercase, Tokenize][..1] == [Lowercase];
    assert RunFrom(env, [Lowercase, Tokenize], Trace(v, [])) == t2;
  }

  /** A lower-case word of two or more characters, none of them or it a stopword:
      as written the result is its characters, as documented the word itself. */
  lemma AsWrittenSplitsWords(stopwords: set<string>, w: string)
    requires IsToken(w) && IsLowerCase(w) && |w| >= 2
    requires w !in stopwords && forall i :: 0 <= i < |w| ==> [w[i]] !in stopwords
    ensures Run(Env(stopwords, AsWrittenTokenizer()), ScriptSteps(), Text(w)).value == Tokens(Characters(w))
    ensures Run(ScriptEnv(stopwords), ScriptSteps(), Text(w)).value == Tokens([w])
    ensures Characters(w) != [w]
  {
    LowerIsLowerCase(w);
    AsWrittenRun(stopwords, Text(w));
    var cs := Characters(w);
    forall i | 0 <= i < |cs| ensures Lower(cs[i]) !in stopwords {
      assert Lower(cs[i]) == cs[i];
    }
    FilterStopwordsKeepsAll(cs, stopwords);
    ScriptRun(stopwords, Text(w));
    TokenizeToken(w);
    assert Lower([w][0]) == w;
    FilterStopwordsKeepsAll([w], stopwords);
  }

  /** As written, every cell of the token column holds the non-stopword characters
      of the lowered cell, and `tokenize` is logged as failing on every record. */
  lemma AsWrittenColumn(stopwords: set<string>, column: seq<Value>)
    ensures var r := RunColumn(Env(stopwords, AsWrittenTokenizer()), ScriptSteps(), column);
            |r| == |column| &&
            forall i :: 0 <= i < |column| ==> r[i] == Tokens(FilterStopwords(Characters(LoweredText(column[i])), stopwords))
  {
    forall i | 0 <= i < |column| {
      AsWrittenRun(stopwords, column[i]);
    }
  }

  /** With the documented tokenizer, every cell of the token column holds the
      lower-case regex tokens of its cell that are not stopwords. */
  lemma DocumentedColumn(stopwords: set<string>, column: seq<Value>)
    ensures var r := RunColumn(ScriptEnv(stopwords), ScriptSteps(), column);
            |r| == |column| &&
            forall i :: 0 <= i < |column| ==> r[i] == Tokens(FilterStopwords(RegexTokenize(LoweredText(column[i])), stopwords))
  {
    forall i | 0 <= i < |column| {
      ScriptRun(stopwords, column[i]);
    }
  }

  /** Writes the token column into `df` itself; a missing text column fails first and changes nothing.
      `tokenize` is the one the script's tokenizer behaves as: as written or as documented. */
  method ProcessDataframe(df: DataFrame, textColumn: string, tokenColumn: string, stopwords: set<string>,
                          tokenize: Tokenizer)
    returns (result: Result<DataFrame, string>)
    modifies df
    ensures result.Failure? <==> textColumn !in old(df.columns)
    ensures result.Failure? ==> result.error == MissingColumn(textColumn) && unchanged(df)
    ensures result.Success? ==>
              result.value == df &&
              df.columns == old(df.columns)[tokenColumn := RunColumn(Env(stopwords, tokenize), ScriptSteps(),
                                                                      old(df.columns)[textColumn])]
    ensures result.Success? && Rectangular(old(df.columns)) ==> Rectangular(df.columns)
  {
    if textColumn !in df.columns {
      return Failure(MissingColumn(textColumn));
    }
    var series := df.columns[textColumn];
    var column := [];
    for i := 0 to |series|
      invariant unchanged(df)
      invariant |column| == i
      invariant forall k :: 0 <= k < i ==> column[k] == Run(Env(stopwords, tokenize), ScriptSteps(), series[k]).value
    {
      var v, _ := Prepare(series[i], ScriptSteps(), Env(stopwords, tokenize));
      column := column + [v];
    }
    assert column == RunColumn(Env(stopwords, tokenize), ScriptSteps(), series);
    if Rectangular(df.columns) {
      AddColumnRectangular(df.columns, textColumn, tokenColumn, column);
    }
    df.columns := df.columns[tokenColumn := column];
    return Success(df);
  }
}
