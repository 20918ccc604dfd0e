# Text preprocessing pipelines — a Dafny model

This project models the text-preprocessing core of a small collection of notebook utilities.
It covers two files.

- `functions/tokenizer.py` holds two scripts in one file.
  - The first is the class `NLPPipeline`. It keeps a corpus stopword set and accumulated
    custom inclusions and exclusions, and recomputes the effective set
    (corpus ∪ inclusions) − exclusions. Its steps are lowercase, tokenize (NLTK's
    `word_tokenize`) and remove_stopwords. `get_pipeline` chooses the steps from flags.
    `process_text` folds the steps over a value; a step that raises is logged and skipped.
    `process_series` and `process_dataframe` apply that fold to every cell of a column,
    on a copy of the frame.
  - The second is a script. It has a global stopword set customised in place, a
    regular-expression `tokenize`, `remove_stop`, the same fail-soft fold `prepare`,
    a three-step `pipeline`, and a `process_dataframe` that writes into the frame it is given.
- `text_cleaning.py` holds punctuation removal, whitespace normalisation, stopword removal,
  ASCII folding, and `clean_text`. `clean_text` applies the steps its flags enable, in the
  fixed order punctuation → whitespace → stopwords → unicode.

Modules:

- `Chars` (chars.dfy) holds the ASCII character classes.
- `Seqs` (seqs.dfy) holds an order-preserving filter and its lemmas.
- `Stopwords` (stopwords.dfy) holds the effective set, customisation and the stopword filter.
- `Pipeline` (pipeline.dfy) holds the value, step, trace and fail-soft fold.
- `RegexTokenizer` (regex_tokenizer.dfy) holds the script's tokenizer.
- `Frames` (frames.dfy) holds the data frame.
- `NLP` (nlp_pipeline.dfy) holds the class.
- `Script` (script_pipeline.dfy) holds the script half.
- `TextCleaning` (text_cleaning.dfy) holds the cleaning functions.

Some things are outside the model and become parameters:

- the NLTK stopword corpus, a `set<string>`;
- `word_tokenize`, a `string -> seq<string>`;
- NFKD decomposition, a `string -> string`.

A value in the pipeline is a `Value`: a string, a list of strings, or any other Python value.
A step that raises is a `Step.Raise` carrying its name. The printed error lines become the
list of failed steps in a `Trace`.

When a step raises, the loop at functions/tokenizer.py:150-155 goes on from the last
successful result, so the later steps still run and remove_stopwords still filters the
tokens; see `NLP.FailingStepExample`.

## Model

| member | source | states |
|---|---|---|
| `Chars.Lower` | functions/tokenizer.py:84 | `str.lower`: same length, no upper-case letter left, each upper-case ASCII letter replaced by its lower-case counterpart, every other character kept |
| `Chars.LowerIsLowerCase` | functions/tokenizer.py:84 | lowering yields lower-case text, is idempotent, and changes nothing exactly when the text is already lower-case |
| `Stopwords.Effective` | functions/tokenizer.py:45-47 | a word is an effective stopword iff it is in the corpus or the inclusions and not in the exclusions (exclusion wins) |
| `Stopwords.Customize` | functions/tokenizer.py:58-61 | the custom sets only grow; a word is added to a set iff it is in the matching argument; a missing or empty argument leaves its set alone |
| `Stopwords.CustomizeIdempotent` | functions/tokenizer.py:49-62 | repeating a customisation with the same arguments leaves the custom sets as after the first call |
| `Stopwords.ExcludedStaysExcluded` | functions/tokenizer.py:45-61 | a word once excluded is not a stopword after any later customisation, even one that includes it |
| `Stopwords.FilterStopwords` | functions/tokenizer.py:110 | the result is no longer than the input and holds exactly the tokens whose lower-case form is not a stopword |
| `Stopwords.FilterStopwordsConcat` | functions/tokenizer.py:110 | the filter distributes over concatenation, so kept tokens stay in input order |
| `Stopwords.FilterStopwordsIdempotent` | functions/tokenizer.py:110 | filtering twice equals filtering once |
| `Stopwords.FilterStopwordsKeepsAll` | functions/tokenizer.py:110 | the filter returns its input iff no token is a stopword |
| `Pipeline.LowercaseValue` | functions/tokenizer.py:82-84 | never raises; a string becomes its lowered form (`Lower`), so it keeps its length and lower-case text is unchanged; a non-string gives ""; the result is always lower-case |
| `Pipeline.TokenizeValue` | functions/tokenizer.py:96-98 | a non-string gives [] without calling the tokenizer; a string raises iff the tokenizer raises, and otherwise gives exactly the tokenizer's list |
| `Pipeline.RemoveStopwordsValue` | functions/tokenizer.py:110 | raises iff the value is neither a string nor a list; a list gives exactly `FilterStopwords` of its tokens (every non-stopword token, in order); a string gives `FilterStopwords` of its one-character strings |
| `Pipeline.Characters` | functions/tokenizer.py:110 | iterating a string yields one one-character string per character, in order |
| `Pipeline.RunStep` | functions/tokenizer.py:152 | a user step that raises always fails; lowercase never fails |
| `Pipeline.Apply` | functions/tokenizer.py:150-154 | one iteration either keeps the log, or appends the step to it and keeps the previous result; a raising user step always does the latter; lowercase never fails |
| `Pipeline.RunFrom` | functions/tokenizer.py:150-155 | the fold keeps the earlier log as a prefix and adds at most one entry per step |
| `Pipeline.Run` | functions/tokenizer.py:149-155 | the log has at most one entry per step; no steps return the input with an empty log |
| `Pipeline.RunColumn` | functions/tokenizer.py:172 | the processed column has one cell per record, each the fold's result on that record alone |
| `Pipeline.RunEmpty` | functions/tokenizer.py:149-155 | an empty pipeline returns its input unchanged and logs nothing |
| `Pipeline.RunFromConcat` | functions/tokenizer.py:150-155 | steps run left to right: running a + b is running b on what a left |
| `Pipeline.RunFromLog` | functions/tokenizer.py:150-155 | the result never depends on earlier log entries; the log only grows at its end |
| `Pipeline.RaisingStepIsSkipped` | functions/tokenizer.py:151-154 | inserting a raising step anywhere leaves the final result as without it, so the later steps still run; the step is logged |
| `Pipeline.RunLogsFailures` | functions/tokenizer.py:153-154 | the log holds only steps of the pipeline, at most one entry per step, and every raising user step |
| `Pipeline.DefaultRun` | functions/tokenizer.py:126-133 | lowercase, tokenize, remove_stopwords gives the non-stopword tokens of the lowered text, with no error, when the tokenizer does not raise |
| `NLP.NLPPipeline.constructor` | functions/tokenizer.py:28-39 | the custom sets start empty and the effective set equals the corpus set of the language |
| `NLP.NLPPipeline.UpdateStopwords` | functions/tokenizer.py:41-47 | re-establishes effective == (corpus ∪ include) − exclude and changes no other field |
| `NLP.NLPPipeline.CustomizeStopwords` | functions/tokenizer.py:49-62 | the custom sets become `Customize` of the old ones (they only grow); corpus and language are unchanged; the effective-set invariant holds afterwards |
| `NLP.NLPPipeline.GetPipeline` | functions/tokenizer.py:112-133 | each step is present iff its flag is set; the length is the number of true flags; steps are in the order lowercase, tokenize, remove_stopwords |
| `NLP.NLPPipeline.DefaultPipeline` | functions/tokenizer.py:146-147 | the default pipeline is all three steps, in order |
| `NLP.NLPPipeline.ProcessText` | functions/tokenizer.py:135-155 | the result and the error log are those of the fail-soft left-to-right fold; with no pipeline given, the default one is used |
| `NLP.NLPPipeline.ProcessSeries` | functions/tokenizer.py:157-172 | every cell is processed on its own; a record's failure never aborts the column |
| `NLP.NLPPipeline.ProcessDataframe` | functions/tokenizer.py:174-193 | a missing text column fails with the ValueError message before anything is done; otherwise a fresh copy gets the result column; the input frame is unchanged; equal column lengths are preserved |
| `NLP.ExampleCustomization` | functions/tokenizer.py:201-204 | after the example customisation "dear", "must", "would" and "also" are stopwords and "against" is not, whatever the corpus |
| `NLP.FailingStepExample` | functions/tokenizer.py:149-155 | in [lowercase, tokenize, failing, remove_stopwords] the failure is logged and the tokens are still filtered |
| `Frames.DataFrame.Copy` | functions/tokenizer.py:191 | the copy is a new object with the same columns |
| `Frames.AddColumnRectangular` | functions/tokenizer.py:192 | adding a column as long as the text column keeps all columns the same length |
| `Script.InitStopwords` | functions/tokenizer.py:243-249 | the global set is (corpus ∪ inclusions) − {against}: it holds dear, regards, must, would and also, never against, and every other corpus word |
| `Script.AsWrittenTokenizer` | functions/tokenizer.py:265 | as written, the tokenizer raises on every string |
| `Script.DocumentedTokenizer` | functions/tokenizer.py:252-265 | as documented, the tokenizer never raises and gives exactly `RegexTokenize` of the string: word-character-or-hyphen tokens that hold a letter |
| `Script.ScriptSteps` | functions/tokenizer.py:313 | the global pipeline is three built-in steps, none a user callable, starting with lowercasing |
| `RegexTokenizer.RunLength` | functions/tokenizer.py:265 | the run at the start is made of word characters and hyphens, and ends at the end of the text or before a character that is neither |
| `RegexTokenizer.RegexTokenize` | functions/tokenizer.py:252-265 | every token consists of word characters or hyphens and holds a letter |
| `RegexTokenizer.TokenizeSeparated` | functions/tokenizer.py:265 | tokens never span a separator and come in text order: tokens(a + [c] + b) == tokens(a) + tokens(b) |
| `RegexTokenizer.TokenizeNoLetter` | functions/tokenizer.py:265 | text without letters (digits, punctuation) yields no token |
| `RegexTokenizer.TokenizeToken` | functions/tokenizer.py:265 | a text that is a single token yields exactly that token |
| `RegexTokenizer.TokensAroundNumber` | functions/tokenizer.py:265 | in "word number word" only the two words are tokens |
| `RegexTokenizer.LowerTokensAreLowerCase` | functions/tokenizer.py:265 | the tokens of lower-case text are lower-case |
| `Script.TokenizeText` | functions/tokenizer.py:263-265 | with the documented tokenizer (see ## Findings): a non-string gives []; a string gives exactly its `RegexTokenize` tokens, each made of word characters or hyphens and holding a letter |
| `Script.RemoveStop` | functions/tokenizer.py:268-278 | keeps exactly the tokens whose lower-case form is not in the global set, no more of them than given, and removing again changes nothing |
| `Script.RemoveStopConcat` | functions/tokenizer.py:278 | remove_stop distributes over concatenation, so kept tokens stay in input order with their multiplicity |
| `Script.Prepare` | functions/tokenizer.py:291-309 | the result and the error log are those of the fail-soft left-to-right fold |
| `Script.ScriptRun` | functions/tokenizer.py:313 | with the documented tokenizer (see ## Findings), the script pipeline logs no error and yields the lower-case regex tokens of the text that are not stopwords; a non-string yields [] |
| `Script.AsWrittenRun` | functions/tokenizer.py:302-313 | as written, tokenize raises and is logged, and remove_stop runs over the characters of the lowered text |
| `Script.AsWrittenSplitsWords` | functions/tokenizer.py:265 | for a non-stopword word of two or more letters, as written the result is its characters, as documented the word itself |
| `Script.ProcessDataframe` | functions/tokenizer.py:317-337 | a missing text column fails with the ValueError message and leaves the frame unchanged; otherwise the token column, the fold run with the given tokenizer (as written or as documented, see ## Findings), is written into the given frame, which is returned |
| `Script.AsWrittenColumn` | functions/tokenizer.py:335 | as written, each cell of the token column holds the non-stopword characters of the lowered cell |
| `Script.DocumentedColumn` | functions/tokenizer.py:335 | with the documented tokenizer, each cell holds the lower-case non-stopword regex tokens of its cell |
| `TextCleaning.RemovePunctuation` | text_cleaning.py:21-23 | a character is in the result iff it is in the text and is not ASCII punctuation |
| `TextCleaning.RemovePunctuationConcat` | text_cleaning.py:23 | every other character is kept in its original order |
| `TextCleaning.RemovePunctuationIdempotent` | text_cleaning.py:23 | removing punctuation twice equals removing it once |
| `TextCleaning.RemovePunctuationKeepsClean` | text_cleaning.py:23 | text without punctuation is returned unchanged, and only such text |
| `TextCleaning.LStrip` | text_cleaning.py:28 | removes exactly the leading whitespace |
| `TextCleaning.RStrip` | text_cleaning.py:28 | removes exactly the trailing whitespace |
| `TextCleaning.Collapse` | text_cleaning.py:28 | replacing whitespace runs gives empty text only for empty text, and keeps whether the text starts with whitespace |
| `TextCleaning.CollapseSingleSpaced` | text_cleaning.py:28 | after replacing whitespace runs, the only whitespace is single ' ' characters, never adjacent |
| `TextCleaning.CollapseNonSpace` | text_cleaning.py:28 | replacing whitespace runs keeps every other character, in order |
| `TextCleaning.Strip` | text_cleaning.py:28 | strip removes only the ends: the result is the slice of the text after its leading whitespace, everything after it is whitespace, and it has no whitespace at either end |
| `TextCleaning.StripNonSpace` | text_cleaning.py:28 | strip keeps every non-whitespace character in order |
| `TextCleaning.WordsNonSpace` | text_cleaning.py:28 | `Words`, the maximal runs of non-whitespace characters that the argument-less `str.split` gives, are each non-empty and free of whitespace |
| `TextCleaning.RemoveExtraWhitespace` | text_cleaning.py:26-28 | the result is the words of the text joined by exactly one space; hence no leading or trailing whitespace, only single, non-adjacent ' ' separators, and the text's non-whitespace characters in order |
| `TextCleaning.RemoveExtraWhitespaceFixes` | text_cleaning.py:28 | already-normalised text is returned unchanged |
| `TextCleaning.RemoveExtraWhitespaceIdempotent` | text_cleaning.py:28 | normalising whitespace twice equals doing it once |
| `TextCleaning.RemoveExtraWhitespaceWords` | text_cleaning.py:28 | splitting the result on single spaces gives back exactly the words of the text |
| `TextCleaning.Join` | text_cleaning.py:35 | the words with exactly one space between neighbours: the length is their total length plus one per gap, and the first word comes first |
| `TextCleaning.SplitJoin` | text_cleaning.py:35 | splitting the space-joined words on spaces gives the words back when none contains a space |
| `TextCleaning.RemoveStopwords` | text_cleaning.py:31-35 | the words of the result, split on spaces, are the non-stopword tokens in order (when none holds a space); no kept token gives "" |
| `TextCleaning.NormalizeUnicode` | text_cleaning.py:38-40 | the result is ASCII only, no longer than the decomposed text, and holds exactly its ASCII characters |
| `TextCleaning.NormalizeUnicodeConcat` | text_cleaning.py:40 | the kept characters stay in decomposed order: where the decomposition splits at a boundary, so does the result |
| `TextCleaning.NormalizeUnicodeChar` | text_cleaning.py:40 | a single decomposed character is kept iff it is ASCII |
| `TextCleaning.NormalizeUnicodeDecomposed` | text_cleaning.py:40 | the result depends only on the decomposed text: it equals normalising that text with no further decomposition |
| `TextCleaning.NormalizeDecomposedConcat` | text_cleaning.py:40 | on decomposed text the ASCII filter distributes over every concatenation, so with `NormalizeUnicodeChar` each decomposed character is kept iff ASCII, in order and once |
| `TextCleaning.NormalizeUnicodeIdempotent` | text_cleaning.py:40 | since decomposition leaves ASCII text alone, normalising twice equals normalising once |
| `TextCleaning.CleanText` | text_cleaning.py:43-59 | all flags false returns the text; normalize gives ASCII; whitespace collapsing (not followed by stopwords or unicode) gives normalised spacing; punctuation removal (likewise) leaves no punctuation |
| `TextCleaning.CleanTextDefaults` | text_cleaning.py:43-54 | with the default flags the result is normalised, has no punctuation, and its non-space characters are the text's non-space, non-punctuation characters in order |
| `TextCleaning.EnabledCleaners` | text_cleaning.py:51-58 | a step is enabled iff its flag is set, in the fixed order punctuation, whitespace, stopwords, unicode |
| `TextCleaning.CleanTextIsFixedOrder` | text_cleaning.py:51-59 | `clean_text` equals applying each enabled step exactly once, left to right in that fixed order |

## Findings

| source | as written | input that shows it | evidently intended | confidence | as-written member | corrected member |
|---|---|---|---|---|---|---|
| functions/tokenizer.py:265 | the pattern uses `\p{L}`, which Python's standard `re` module rejects as a bad escape, so `tokenize` raises on every string; `prepare` logs the error and `remove_stop` then iterates over the characters of the lowered string | the text "bc", when "b", "c" and "bc" are not stopwords: the result is ["b", "c"] instead of ["bc"] | tokens are the maximal runs of word characters and hyphens that contain a letter | not executed; high (the `regex` package would accept `\p{L}`, but the file imports `re`) | `Script.AsWrittenSplitsWords` | `RegexTokenizer.RegexTokenize` |

## Left out

- `visualization_utils.py` is not part of this model. It only sets global matplotlib/seaborn parameters and saves figures.
- NLTK resources are not modelled: downloads, corpus contents and `word_tokenize`. The corpus set and `word_tokenize` are parameters, and `word_tokenize` is taken never to raise.
- Unicode NFKD decomposition is a parameter. Only the ASCII filter after it is modelled.
- Python's full Unicode `str.lower`, `\w`, `\p{L}` and `str.isspace` are restricted to ASCII characters.
- Printing is left out, including the customisation summary and the error lines. The error log is the list of failed steps, not the message text. `print_tokens` and the example-usage blocks at the end of each script are also left out.
- `tqdm` progress bars are left out. pandas is reduced to a map from column names to cell lists; index alignment and dtypes are not modelled.
- A raising callable without a `__name__` (a `functools.partial`, a callable object) is not modelled. The error handler at functions/tokenizer.py:154 and :307 reads `transform.__name__`, so for such a callable the handler itself raises `AttributeError`, which escapes `process_text`/`prepare` and aborts the whole column. Every `Step.Raise` carries a name, so `Pipeline.RaisingStepIsSkipped` and `NLP.NLPPipeline.ProcessSeries` hold for named callables only.
- User-supplied pipeline callables other than the three built-in steps are modelled only as steps that raise. A custom callable that succeeds is not modelled.
- An iterable of strings other than a list (a tuple, a set, a pandas Series) is modelled as `Other`. The remove-stopwords step at functions/tokenizer.py:110 and :278 raises on `Other`, while Python filters such an iterable. This only arises with a custom pipeline that passes such a value to that step without tokenizing first.
- A list holding non-string items cannot be represented. In Python, remove_stopwords raises on such a list.
- `TextCleaning.RemoveStopwords` states the words of its result only when no kept token contains a space, because `word_tokenize` is a parameter.
- `NLP.NLPPipeline.ProcessText` and `Script.Prepare` report which steps failed, not the exception text.
