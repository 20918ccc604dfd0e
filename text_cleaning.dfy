/**
 * text_cleaning.py: punctuation removal, whitespace normalisation, stopword
 * removal, ASCII folding, and `clean_text`, which applies the enabled ones in
 * the fixed order punctuation, whitespace, stopwords, unicode.
 */
module TextCleaning {
  import opened Chars
  import opened Seqs
  import opened Stopwords

  /** What the functions take from NLTK and `unicodedata`: the stopword list of
      the language, `word_tokenize`, and NFKD decomposition. */
  datatype Resources = Resources(stopwords: set<string>, wordTokenize: string -> seq<string>,
                                 decompose: string -> string)

  // ---------------------------------------------------------------- punctuation

  predicate NotPunct(c: char) { !IsPunct(c) }

  /** `remove_punctuation`: deletes every ASCII punctuation character. */
  function RemovePunctuation(text: string): (r: string)
    ensures |r| <= |text|
    ensures forall c :: c in r <==> c in text && !IsPunct(c)
  {
    Filter(text, NotPunct)
  }

  /** Every other character is kept, in its original order. */
  lemma RemovePunctuationConcat(a: string, b: string)
    ensures RemovePunctuation(a + b) == RemovePunctuation(a) + RemovePunctuation(b)
  {
    FilterConcat(a, b, NotPunct);
  }

  lemma RemovePunctuationIdempotent(text: string)
    ensures RemovePunctuation(RemovePunctuation(text)) == RemovePunctuation(text)
  {
    FilterIdempotent(text, NotPunct);
  }

  lemma RemovePunctuationKeepsClean(text: string)
    ensures RemovePunctuation(text) == text <==> forall i :: 0 <= i < |text| ==> !IsPunct(text[i])
  {
    FilterKeepsAll(text, NotPunct);
  }

  // ----------------------------------------------------------------- whitespace

  predicate NotSpace(c: char) { !IsSpace(c) }

  /** The characters that are not whitespace, in order. */
  function NonSpace(s: string): string {
    Filter(s, NotSpace)
  }

  /** Leading whitespace removed (the left half of `str.strip`). */
  function LStrip(s: string): (r: string)
    ensures |r| <= |s| && r == s[|s| - |r|..]
    ensures forall i :: 0 <= i < |s| - |r| ==> IsSpace(s[i])
    ensures r == [] || !IsSpace(r[0])
    decreases |s|
  {
    if s != [] && IsSpace(s[0]) then LStrip(s[1..]) else s
  }

  /** Trailing whitespace removed (the right half of `str.strip`). */
  function RStrip(s: string): (r: string)
    ensures |r| <= |s| && r == s[..|r|]
    ensures forall i :: |r| <= i < |s| ==> IsSpace(s[i])
    ensures r == [] || !IsSpace(r[|r| - 1])
    decreases |s|
  {
    if s != [] && IsSpace(s[|s| - 1]) then RStrip(s[..|s| - 1]) else s
  }

  /** `str.strip`: no whitespace is left at either end. */
  function Strip(s: string): (r: string)
    ensures |r| <= |s|
    ensures Trimmed(r)
    ensures var lo := |s| - |LStrip(s)|;
            lo + |r| <= |s| && r == s[lo..lo + |r|] && forall i :: lo + |r| <= i < |s| ==> IsSpace(s[i])
  {
    var l := LStrip(s);
    var r := RStrip(l);
    if r != [] then
      assert r[0] == l[0];
      r
    else
      r
  }

  /** The regular-expression substitution: each maximal run of whitespace becomes one space. */
  function Collapse(s: string): (r: string)
    ensures r == [] <==> s == []
    ensures s != [] ==> (IsSpace(r[0]) <==> IsSpace(s[0]))
    decreases |s|
  {
    if s == [] then []
    else if IsSpace(s[0]) then [' '] + Collapse(LStrip(s))
    else [s[0]] + Collapse(s[1..])
  }

  /** The only whitespace is single ' ' characters, never two in a row. */
  predicate SingleSpaced(s: string) {
    forall i :: 0 <= i < |s| && IsSpace(s[i]) ==> s[i] == ' ' && (i + 1 < |s| ==> !IsSpace(s[i + 1]))
  }

  predicate Trimmed(s: string) {
    s == [] || (!IsSpace(s[0]) && !IsSpace(s[|s| - 1]))
  }

  predicate NormalizedSpace(s: string) {
    SingleSpaced(s) && Trimmed(s)
  }

  lemma SingleSpacedCons(x: char, u: string)
    requires SingleSpaced(u)
    requires IsSpace(x) ==> x == ' ' && (u == [] || !IsSpace(u[0]))
    ensures SingleSpaced([x] + u)
  {
    var s := [x] + u;
    forall i | 0 <= i < |s| && IsSpace(s[i]) ensures s[i] == ' ' && (i + 1 < |s| ==> !IsSpace(s[i + 1])) {
      if i > 0 {
        assert s[i] == u[i - 1];
        if i + 1 < |s| { assert s[i + 1] == u[i]; }
      }
    }
  }

  lemma SingleSpacedSlice(s: string, lo: int, hi: int)
    requires 0 <= lo <= hi <= |s| && SingleSpaced(s)
    ensures SingleSpaced(s[lo..hi])
  {
    var t := s[lo..hi];
    forall i | 0 <= i < |t| && IsSpace(t[i]) ensures t[i] == ' ' && (i + 1 < |t| ==> !IsSpace(t[i + 1])) {
      assert t[i] == s[lo + i];
      if i + 1 < |t| { assert t[i + 1] == s[lo + i + 1]; }
    }
  }

  lemma {:induction false} CollapseSingleSpaced(s: string)
    ensures SingleSpaced(Collapse(s))
    decreases |s|
  {
    if s != [] {
      if IsSpace(s[0]) {
        var t := LStrip(s);
        CollapseSingleSpaced(t);
        SingleSpacedCons(' ', Collapse(t));
      } else {
        CollapseSingleSpaced(s[1..]);
        SingleSpacedCons(s[0], Collapse(s[1..]));
      }
    }
  }

  lemma NonSpaceCons(x: char, u: string)
    ensures NonSpace([x] + u) == (if IsSpace(x) then [] else [x]) + NonSpace(u)
  {
    assert ([x] + u)[0] == x && ([x] + u)[1..] == u;
  }

  lemma NonSpaceSplit(s: string, k: int)
    requires 0 <= k <= |s| && forall i :: 0 <= i < k ==> IsSpace(s[i])
    ensures NonSpace(s) == NonSpace(s[k..])
  {
    assert s == s[..k] + s[k..];
    FilterConcat(s[..k], s[k..], NotSpace);
    FilterNone(s[..k], NotSpace);
  }

  /** Collapsing keeps every non-whitespace character, in order. */
  lemma {:induction false} CollapseNonSpace(s: string)
    ensures NonSpace(Collapse(s)) == NonSpace(s)
    decreases |s|
  {
    if s != [] {
      if IsSpace(s[0]) {
        var t := LStrip(s);
        CollapseNonSpace(t);
        NonSpaceCons(' ', Collapse(t));
        NonSpaceSplit(s, |s| - |t|);
      } else {
        CollapseNonSpace(s[1..]);
        NonSpaceCons(s[0], Collapse(s[1..]));
        NonSpaceCons(s[0], s[1..]);
        assert s == [s[0]] + s[1..];
      }
    }
  }

  lemma NonSpaceTail(s: string, k: int)
    requires 0 <= k <= |s| && forall i :: k <= i < |s| ==> IsSpace(s[i])
    ensures NonSpace(s) == NonSpace(s[..k])
  {
    assert s == s[..k] + s[k..];
    FilterConcat(s[..k], s[k..], NotSpace);
    FilterNone(s[k..], NotSpace);
  }

  lemma StripNonSpace(s: string)
    ensures NonSpace(Strip(s)) == NonSpace(s)
  {
    var l := LStrip(s);
    NonSpaceSplit(s, |s| - |l|);
    NonSpaceTail(l, |RStrip(l)|);
  }

  lemma StripSingleSpaced(s: string)
    requires SingleSpaced(s)
    ensures SingleSpaced(Strip(s))
  {
    var l := LStrip(s);
    var k := |s| - |l|;
    SingleSpacedSlice(s, k, |s|);
    SingleSpacedSlice(l, 0, |RStrip(l)|);
  }

  /** `remove_extra_whitespace`: whitespace runs replaced by one space, then both ends stripped. */
  function RemoveExtraWhitespace(text: string): (r: string)
    ensures NormalizedSpace(r)
    ensures NonSpace(r) == NonSpace(text)
    ensures forall c :: c in r ==> c == ' ' || (c in text && !IsSpace(c))
    ensures r == Join(Words(text))
  {
    CollapseSingleSpaced(text);
    CollapseNonSpace(text);
    StripCollapseWords(text);
    StripNonSpace(Collapse(text));
    StripSingleSpaced(Collapse(text));
    var r := Strip(Collapse(text));
    assert forall c :: c in r && !IsSpace(c) ==> c in NonSpace(r);
    r
  }

  /** Length of the run of non-whitespace characters at the start. */
  function WordLength(s: string): (k: nat)
    ensures k <= |s|
    ensures forall i :: 0 <= i < k ==> !IsSpace(s[i])
    ensures k == |s| || IsSpace(s[k])
    decreases |s|
  {
    if s == [] || IsSpace(s[0]) then 0 else 1 + WordLength(s[1..])
  }

  /** The maximal runs of non-whitespace characters, in order, as Python's
      argument-less `str.split` gives them. */
  function Words(s: string): seq<string>
    decreases |s|
  {
    var t := LStrip(s);
    if t == [] then []
    else
      var k := WordLength(t);
      [t[..k]] + Words(t[k..])
  }

  /** Every word is non-empty and holds no whitespace. */
  lemma {:induction false} WordsNonSpace(s: string)
    ensures forall i :: 0 <= i < |Words(s)| ==> Words(s)[i] != [] && forall j :: 0 <= j < |Words(s)[i]| ==> !IsSpace(Words(s)[i][j])
    decreases |s|
  {
    var t := LStrip(s);
    if t != [] {
      var k := WordLength(t);
      assert k >= 1;
      WordsNonSpace(t[k..]);
      var ws := Words(s);
      assert ws == [t[..k]] + Words(t[k..]);
      forall i | 0 <= i < |ws| ensures ws[i] != [] && forall j :: 0 <= j < |ws[i]| ==> !IsSpace(ws[i][j]) {
        if i > 0 {
          assert ws[i] == Words(t[k..])[i - 1];
        }
      }
    }
  }

  /** Replacing whitespace runs leaves a run of non-whitespace characters as it is. */
  lemma {:induction false} CollapseWord(w: string, rest: string)
    requires forall i :: 0 <= i < |w| ==> !IsSpace(w[i])
    ensures Collapse(w + rest) == w + Collapse(rest)
    decreases |w|
  {
    if w == [] {
      assert w + rest == rest;
    } else {
      var x := w + rest;
      assert x[0] == w[0] && x[1..] == w[1..] + rest;
      assert Collapse(x) == [w[0]] + Collapse(w[1..] + rest);
      CollapseWord(w[1..], rest);
      ConcatAssoc([w[0]], w[1..], Collapse(rest));
      assert [w[0]] + w[1..] == w;
    }
  }

  lemma {:induction false} RStripAppend(x: string, y: string)
    requires y != [] && !IsSpace(y[0])
    ensures RStrip(x + y) == x + RStrip(y)
    decreases |y|
  {
    var xy := x + y;
    if IsSpace(y[|y| - 1]) {
      assert xy[..|xy| - 1] == x + y[..|y| - 1];
      assert y[..|y| - 1][0] == y[0];
      RStripAppend(x, y[..|y| - 1]);
    }
  }

  lemma WordsLStrip(s: string)
    ensures Words(s) == Words(LStrip(s))
  {
    var t := LStrip(s);
    assert LStrip(t) == t;
  }

  lemma WordsCons(s: string)
    requires s != [] && !IsSpace(s[0])
    ensures Words(s) == [s[..WordLength(s)]] + Words(s[WordLength(s)..])
  {
    assert LStrip(s) == s;
  }

  lemma JoinCons(w: string, ws: seq<string>)
    requires ws != []
    ensures Join([w] + ws) == w + " " + Join(ws)
  {
    assert ([w] + ws)[0] == w && ([w] + ws)[1..] == ws;
  }

  /** A word and at most one space after it strip back to the word. */
  lemma RStripWord(w: string, tail: string)
    requires w != [] && !IsSpace(w[|w| - 1])
    requires tail == [] || tail == [' ']
    ensures RStrip(w + tail) == w
  {
    if tail != [] {
      assert (w + tail)[..|w|] == w;
    } else {
      assert w + tail == w;
    }
  }

  /** Collapsing text made only of whitespace leaves at most one space. */
  lemma CollapseBlank(s: string)
    requires LStrip(s) == []
    ensures Collapse(s) == [] || Collapse(s) == [' ']
  {
  }

  lemma ConcatAssoc(a: string, b: string, c: string)
    ensures a + (b + c) == (a + b) + c
  {
  }

  /** A word, a whitespace run, then more words: the run becomes the one space
      between the word and the words after it. */
  lemma CollapseGap(w: string, rest: string)
    requires w != [] && !IsSpace(w[|w| - 1])
    requires rest != [] && IsSpace(rest[0]) && LStrip(rest) != []
    requires RStrip(Collapse(LStrip(rest))) == Join(Words(LStrip(rest)))
    ensures RStrip(w + Collapse(rest)) == Join([w] + Words(LStrip(rest)))
  {
    var u := LStrip(rest);
    var cu := Collapse(u);
    assert Collapse(rest) == [' '] + cu;
    ConcatAssoc(w, [' '], cu);
    CollapseSingleSpaced(u);
    RStripAppend(w + [' '], cu);
    JoinCons(w, Words(u));
  }

  /** A last word followed by nothing but whitespace strips back to that word. */
  lemma CollapseEnd(w: string, rest: string)
    requires w != [] && !IsSpace(w[|w| - 1])
    requires LStrip(rest) == []
    ensures RStrip(w + Collapse(rest)) == Join([w] + Words(LStrip(rest)))
  {
    CollapseBlank(rest);
    RStripWord(w, Collapse(rest));
    assert Words([]) == [];
    assert [w] + [] == [w];
  }

  /** Text that does not start with whitespace: collapsing the runs and stripping
      the end leaves its words with one space between neighbours. */
  lemma {:induction false} CollapseWords(s: string)
    requires s == [] || !IsSpace(s[0])
    ensures RStrip(Collapse(s)) == Join(Words(s))
    decreases |s|
  {
    if s != [] {
      var k := WordLength(s);
      var w := s[..k];
      var rest := s[k..];
      var u := LStrip(rest);
      assert k >= 1 && !IsSpace(s[k - 1]);
      assert w != [] && w[|w| - 1] == s[k - 1];
      assert Collapse(s) == w + Collapse(rest) by {
        assert s == w + rest;
        CollapseWord(w, rest);
      }
      assert Words(s) == [w] + Words(u) by { WordsCons(s); WordsLStrip(rest); }
      if u == [] {
        CollapseEnd(w, rest);
      } else {
        CollapseWords(u);
        CollapseGap(w, rest);
      }
    }
  }

  /** Collapsing commutes with stripping leading whitespace. */
  lemma LStripCollapse(text: string)
    ensures LStrip(Collapse(text)) == Collapse(LStrip(text))
  {
    var t := LStrip(text);
    CollapseSingleSpaced(t);
    assert LStrip(Collapse(t)) == Collapse(t);
    if text != [] && IsSpace(text[0]) {
      assert Collapse(text) == [' '] + Collapse(t);
    }
  }

  lemma StripCollapseWords(text: string)
    ensures Strip(Collapse(text)) == Join(Words(text))
  {
    var t := LStrip(text);
    assert Words(text) == Words(t) by { WordsLStrip(text); }
    assert RStrip(Collapse(t)) == Join(Words(t)) by { CollapseWords(t); }
    assert LStrip(Collapse(text)) == Collapse(t) by { LStripCollapse(text); }
  }

  /** Split on single spaces, the result gives back exactly the words of the text. */
  lemma RemoveExtraWhitespaceWords(text: string)
    requires Words(text) != []
    ensures Split(RemoveExtraWhitespace(text)) == Words(text)
  {
    var ws := Words(text);
    WordsNonSpace(text);
    forall w | w in ws ensures ' ' !in w {
      var i :| 0 <= i < |ws| && ws[i] == w;
      assert IsSpace(' ');
    }
    SplitJoin(ws);
  }

  /** After a single space comes a non-space, so stripping leading space drops just that one. */
  lemma LStripSingleSpace(s: string)
    requires s != [] && IsSpace(s[0]) && SingleSpaced(s)
    ensures LStrip(s) == s[1..]
  {
    if |s| > 1 {
      assert !IsSpace(s[1]);
      assert s[1..][0] == s[1];
    }
  }

  lemma {:induction false} CollapseSingleSpacedIdentity(s: string)
    requires SingleSpaced(s)
    ensures Collapse(s) == s
    decreases |s|
  {
    if s != [] {
      SingleSpacedSlice(s, 1, |s|);
      CollapseSingleSpacedIdentity(s[1..]);
      if IsSpace(s[0]) {
        LStripSingleSpace(s);
        assert Collapse(s) == [' '] + Collapse(s[1..]);
        assert s[0] == ' ';
      } else {
        assert Collapse(s) == [s[0]] + Collapse(s[1..]);
      }
      assert s == [s[0]] + s[1..];
    }
  }

  /** Normalised text is left as it is; hence the function is idempotent. */
  lemma RemoveExtraWhitespaceFixes(text: string)
    requires NormalizedSpace(text)
    ensures RemoveExtraWhitespace(text) == text
  {
    CollapseSingleSpacedIdentity(text);
    assert LStrip(text) == text;
    assert RStrip(text) == text;
  }

  lemma RemoveExtraWhitespaceIdempotent(text: string)
    ensures RemoveExtraWhitespace(RemoveExtraWhitespace(text)) == RemoveExtraWhitespace(text)
  {
    RemoveExtraWhitespaceFixes(RemoveExtraWhitespace(text));
  }

  // ------------------------------------------------------------------ stopwords

  function TotalLength(words: seq<string>): nat {
    if words == [] then 0 else |words[0]| + TotalLength(words[1..])
  }

  /** `" ".join`: the words with exactly one space between neighbours. */
  function Join(words: seq<string>): (r: string)
    ensures words != [] ==> |r| == TotalLength(words) + |words| - 1
    ensures words != [] ==> r[..|words[0]|] == words[0]
  {
    if words == [] then ""
    else if |words| == 1 then words[0]
    else words[0] + " " + Join(words[1..])
  }

  /** The pieces between single spaces, as Python's split on " " gives them. */
  function Split(s: string): (r: seq<string>)
    ensures |r| >= 1
  {
    if s == [] then [""]
    else
      var rest := Split(s[1..]);
      if s[0] == ' ' then [""] + rest else [[s[0]] + rest[0]] + rest[1..]
  }

  lemma {:induction false} SplitPrefix(w: string, s: string)
    requires ' ' !in w
    ensures Split(w + s) == [w + Split(s)[0]] + Split(s)[1..]
  {
    if w != [] {
      assert (w + s)[0] == w[0] && (w + s)[1..] == w[1..] + s;
      SplitPrefix(w[1..], s);
      assert [w[0]] + (w[1..] + Split(s)[0]) == w + Split(s)[0];
    } else {
      assert w + s == s;
      assert w + Split(s)[0] == Split(s)[0];
      assert Split(s) == [Split(s)[0]] + Split(s)[1..];
    }
  }

  /** Splitting the joined words on spaces gives the words back, when none holds a space. */
  lemma {:induction false} SplitJoin(words: seq<string>)
    requires words != [] && forall w :: w in words ==> ' ' !in w
    ensures Split(Join(words)) == words
  {
    if |words| == 1 {
      SplitPrefix(words[0], "");
      assert words[0] + "" == words[0];
    } else {
      var rest := Join(words[1..]);
      SplitJoin(words[1..]);
      assert words[0] + " " + rest == words[0] + (" " + rest);
      SplitPrefix(words[0], " " + rest);
      assert (" " + rest)[0] == ' ' && (" " + rest)[1..] == rest;
      assert Split(" " + rest) == [""] + Split(rest);
      assert words[0] + "" == words[0];
      assert words == [words[0]] + words[1..];
    }
  }

  /** `remove_stopwords`: the tokens of the text that are not stopwords, joined by single spaces. */
  function RemoveStopwords(text: string, stops: set<string>, wordTokenize: string -> seq<string>): (r: string)
    ensures var kept := FilterStopwords(wordTokenize(text), stops);
            (kept != [] && forall w :: w in kept ==> ' ' !in w) ==> Split(r) == kept
    ensures FilterStopwords(wordTokenize(text), stops) == [] ==> r == ""
  {
    var kept := FilterStopwords(wordTokenize(text), stops);
    if kept != [] && forall w :: w in kept ==> ' ' !in w then
      SplitJoin(kept);
      Join(kept)
    else
      Join(kept)
  }

  // -------------------------------------------------------------------- unicode

  predicate IsAsciiString(s: string) { forall i :: 0 <= i < |s| ==> IsAscii(s[i]) }

  /** `normalize_unicode`: the NFKD decomposition of the text with every
      non-ASCII character dropped by the ASCII encoding. */
  function NormalizeUnicode(text: string, decompose: string -> string): (r: string)
    ensures |r| <= |decompose(text)|
    ensures IsAsciiString(r)
    ensures forall c :: c in r <==> c in decompose(text) && IsAscii(c)
  {
    var r := Filter(decompose(text), IsAscii);
    assert forall i :: 0 <= i < |r| ==> r[i] in r;
    r
  }

  /** The kept characters stay in decomposed order: where decomposition splits
      at a boundary, so does the result. */
  lemma NormalizeUnicodeConcat(a: string, b: string, decompose: string -> string)
    requires decompose(a + b) == decompose(a) + decompose(b)
    ensures NormalizeUnicode(a + b, decompose) == NormalizeUnicode(a, decompose) + NormalizeUnicode(b, decompose)
  {
    FilterConcat(decompose(a), decompose(b), IsAscii);
  }

  /** The result is the ASCII filter of the decomposition: normalising the
      decomposed text with no further decomposition gives the same result. */
  lemma NormalizeUnicodeDecomposed(text: string, decompose: string -> string)
    ensures NormalizeUnicode(text, decompose) == NormalizeUnicode(decompose(text), s => s)
  {
    var id: string -> string := s => s;
    assert id(decompose(text)) == decompose(text);
  }

  /** With no further decomposition, normalising distributes over every concatenation. */
  lemma NormalizeDecomposedConcat(a: string, b: string)
    ensures NormalizeUnicode(a + b, s => s) == NormalizeUnicode(a, s => s) + NormalizeUnicode(b, s => s)
  {
    NormalizeUnicodeConcat(a, b, s => s);
  }

  /** A text whose decomposition is one character keeps it iff it is ASCII. */
  lemma NormalizeUnicodeChar(text: string, decompose: string -> string, c: char)
    requires decompose(text) == [c]
    ensures NormalizeUnicode(text, decompose) == if IsAscii(c) then [c] else []
  {
    assert [c][1..] == [];
  }

  /** Since NFKD leaves ASCII text alone, normalising twice is normalising once. */
  lemma NormalizeUnicodeIdempotent(text: string, decompose: string -> string)
    requires forall s :: IsAsciiString(s) ==> decompose(s) == s
    ensures NormalizeUnicode(NormalizeUnicode(text, decompose), decompose) == NormalizeUnicode(text, decompose)
  {
    var r := NormalizeUnicode(text, decompose);
    FilterKeepsAll(r, IsAscii);
  }

  // ----------------------------------------------------------------- clean_text

  function CleanText(text: string, removePunct: bool, removeWs: bool, removeStops: bool, normalize: bool,
                     res: Resources): (r: string)
    ensures !removePunct && !removeWs && !removeStops && !normalize ==> r == text
    ensures normalize ==> IsAsciiString(r)
    ensures removeWs && !removeStops && !normalize ==> NormalizedSpace(r)
    ensures removePunct && !removeStops && !normalize ==> forall c :: c in r ==> !IsPunct(c)
  {
    var t1 := if removePunct then RemovePunctuation(text) else text;
    var t2 := if removeWs then RemoveExtraWhitespace(t1) else t1;
    var t3 := if removeStops then RemoveStopwords(t2, res.stopwords, res.wordTokenize) else t2;
    if normalize then NormalizeUnicode(t3, res.decompose) else t3
  }

  /** With the default flags (punctuation and whitespace only) the result is normalised,
      free of punctuation, and its non-space characters are those of the input that are
      neither space nor punctuation, in order. */
  lemma CleanTextDefaults(text: string, res: Resources)
    ensures var r := CleanText(text, true, true, false, false, res);
            NormalizedSpace(r) && (forall c :: c in r ==> !IsPunct(c)) &&
            NonSpace(r) == RemovePunctuation(NonSpace(text))
  {
    FilterCommute(text, NotPunct, NotSpace);
  }

  /** The four cleaning steps, in the order `clean_text` applies them. */
  datatype Cleaner = Punctuation | Whitespace | StopwordRemoval | Unicode

  function CleanerRank(c: Cleaner): nat {
    match c
    case Punctuation => 0
    case Whitespace => 1
    case StopwordRemoval => 2
    case Unicode => 3
  }

  function EnabledCleaners(removePunct: bool, removeWs: bool, removeStops: bool, normalize: bool): (r: seq<Cleaner>)
    ensures Punctuation in r <==> removePunct
    ensures Whitespace in r <==> removeWs
    ensures StopwordRemoval in r <==> removeStops
    ensures Unicode in r <==> normalize
    ensures forall i, j :: 0 <= i < j < |r| ==> CleanerRank(r[i]) < CleanerRank(r[j])
  {
    (if removePunct then [Punctuation] else []) + ((if removeWs then [Whitespace] else []) +
    ((if removeStops then [StopwordRemoval] else []) + (if normalize then [Unicode] else [])))
  }

  function ApplyCleaner(c: Cleaner, text: string, res: Resources): string {
    match c
    case Punctuation => RemovePunctuation(text)
    case Whitespace => RemoveExtraWhitespace(text)
    case StopwordRemoval => RemoveStopwords(text, res.stopwords, res.wordTokenize)
    case Unicode => NormalizeUnicode(text, res.decompose)
  }

  /** Applies the cleaners left to right. */
  function ApplyCleaners(cs: seq<Cleaner>, text: string, res: Resources): string
    decreases |cs|
  {
    if cs == [] then text else ApplyCleaners(cs[1..], ApplyCleaner(cs[0], text, res), res)
  }

  /** An optional first cleaner is applied exactly when its flag is set. */
  lemma ApplyOptional(flag: bool, c: Cleaner, rest: seq<Cleaner>, text: string, res: Resources)
    ensures ApplyCleaners((if flag then [c] else []) + rest, text, res)
         == ApplyCleaners(rest, if flag then ApplyCleaner(c, text, res) else text, res)
  {
    if flag {
      assert ([c] + rest)[0] == c && ([c] + rest)[1..] == rest;
    } else {
      assert [] + rest == rest;
    }
  }

  /** An optional last cleaner is applied exactly when its flag is set. */
  lemma ApplyLast(flag: bool, c: Cleaner, text: string, res: Resources)
    ensures ApplyCleaners(if flag then [c] else [], text, res) == if flag then ApplyCleaner(c, text, res) else text
  {
    if flag {
      assert [c][1..] == [];
    }
  }

  /** `clean_text` applies each enabled step exactly once, in the fixed order,
      whatever order the flags are given in. */
  lemma CleanTextIsFixedOrder(text: string, removePunct: bool, removeWs: bool, removeStops: bool, normalize: bool,
                              res: Resources)
    ensures CleanText(text, removePunct, removeWs, removeStops, normalize, res)
         == ApplyCleaners(EnabledCleaners(removePunct, removeWs, removeStops, normalize), text, res)
  {
    var u := if normalize then [Unicode] else [];
    var s := if removeStops then [StopwordRemoval] else [];
    var w := if removeWs then [Whitespace] else [];
    var t1 := if removePunct then RemovePunctuation(text) else text;
    var t2 := if removeWs then RemoveExtraWhitespace(t1) else t1;
    var t3 := if removeStops then RemoveStopwords(t2, res.stopwords, res.wordTokenize) else t2;
    calc {
      ApplyCleaners(EnabledCleaners(removePunct, removeWs, removeStops, normalize), text, res);
      { ApplyOptional(removePunct, Punctuation, w + (s + u), text, res); }
      ApplyCleaners(w + (s + u), t1, res);
      { ApplyOptional(removeWs, Whitespace, s + u, t1, res); }
      ApplyCleaners(s + u, t2, res);
      { ApplyOptional(removeStops, StopwordRemoval, u, t2, res); }
      ApplyCleaners(u, t3, res);
      { ApplyLast(normalize, Unicode, t3, res); }
      if normalize then NormalizeUnicode(t3, res.decompose) else t3;
      CleanText(text, removePunct, removeWs, removeStops, normalize, res);
    }
  }
}
