/**
 * The script's tokenizer: `re.findall(r"[\w-]*\p{L}[\w-]*", text)` on a string.
 * Scanning left to right, a match starting at the first character of a
 * maximal run of `[\w-]` characters extends (greedily, backtracking to the
 * last letter and then on again) to the end of that run, and exists exactly
 * when the run holds a letter. So the tokens are the maximal runs of word
 * characters and hyphens that contain a letter, in text order.
 */
module RegexTokenizer {
  import opened Chars

  predicate IsTokenChar(c: char) { IsWordChar(c) || c == '-' }

  predicate HasLetter(s: string) { exists i :: 0 <= i < |s| && IsLetter(s[i]) }

  predicate IsToken(w: string) {
    HasLetter(w) && forall i :: 0 <= i < |w| ==> IsTokenChar(w[i])
  }

  /** The length of the run of `[\w-]` characters at the start of s. */
  function RunLength(s: string): (n: nat)
    ensures n <= |s|
    ensures forall i :: 0 <= i < n ==> IsTokenChar(s[i])
    ensures n < |s| ==> !IsTokenChar(s[n])
  {
    if s == [] || !IsTokenChar(s[0]) then 0 else 1 + RunLength(s[1..])
  }

  function RegexTokenize(s: string): (r: seq<string>)
    ensures forall t :: t in r ==> IsToken(t)
    decreases |s|
  {
    if s == [] then []
    else if !IsTokenChar(s[0]) then RegexTokenize(s[1..])
    else
      var n := RunLength(s);
      (if HasLetter(s[..n]) then [s[..n]] else []) + RegexTokenize(s[n..])
  }

  /** A separator ends a run: the run at the start of a + [c] + b lies within a. */
  lemma {:induction false} RunLengthSeparated(a: string, c: char, b: string)
    requires !IsTokenChar(c)
    ensures RunLength(a + [c] + b) == RunLength(a)
  {
    if a == [] {
      assert (a + [c] + b)[0] == c;
    } else {
      assert (a + [c] + b)[0] == a[0];
      if IsTokenChar(a[0]) {
        assert (a + [c] + b)[1..] == a[1..] + [c] + b;
        RunLengthSeparated(a[1..], c, b);
      }
    }
  }

  /** Tokens never span a separator, and come out in text order:
      the tokens of a + [c] + b are those of a followed by those of b. */
  lemma {:induction false} TokenizeSeparated(a: string, c: char, b: string)
    requires !IsTokenChar(c)
    ensures RegexTokenize(a + [c] + b) == RegexTokenize(a) + RegexTokenize(b)
    decreases |a|
  {
    var s := a + [c] + b;
    if a == [] {
      assert s[0] == c && s[1..] == b;
    } else if !IsTokenChar(a[0]) {
      assert s[0] == a[0] && s[1..] == a[1..] + [c] + b;
      TokenizeSeparated(a[1..], c, b);
    } else {
      assert s[0] == a[0];
      RunLengthSeparated(a, c, b);
      var n := RunLength(a);
      assert s[..n] == a[..n];
      assert s[n..] == a[n..] + [c] + b;
      TokenizeSeparated(a[n..], c, b);
    }
  }

  /** A text without letters (digits, punctuation, hyphens, underscores) yields no token. */
  lemma {:induction false} TokenizeNoLetter(s: string)
    requires forall i :: 0 <= i < |s| ==> !IsLetter(s[i])
    ensures RegexTokenize(s) == []
    decreases |s|
  {
    if s != [] {
      if IsTokenChar(s[0]) {
        var n := RunLength(s);
        assert !HasLetter(s[..n]);
        TokenizeNoLetter(s[n..]);
      } else {
        TokenizeNoLetter(s[1..]);
      }
    }
  }

  /** A text that is a single token yields exactly that token. */
  lemma TokenizeToken(w: string)
    requires IsToken(w)
    ensures RegexTokenize(w) == [w]
  {
    assert w[0] == w[0];
    var n := RunLength(w);
    assert n == |w|;
    assert w[..n] == w && w[n..] == [];
  }

  /** Between two tokens, a separated run without letters (a number, say) yields nothing. */
  lemma TokensAroundNumber(w1: string, digits: string, w2: string)
    requires IsToken(w1) && IsToken(w2)
    requires forall i :: 0 <= i < |digits| ==> !IsLetter(digits[i])
    ensures RegexTokenize(w1 + [' '] + digits + [' '] + w2) == [w1, w2]
  {
    TokenizeToken(w1);
    TokenizeToken(w2);
    TokenizeNoLetter(digits);
    TokenizeSeparated(digits, ' ', w2);
    assert w1 + [' '] + digits + [' '] + w2 == w1 + [' '] + (digits + [' '] + w2);
    TokenizeSeparated(w1, ' ', digits + [' '] + w2);
  }

  /** Tokens of a lower-case text are lower-case. */
  lemma {:induction false} LowerTokensAreLowerCase(s: string, t: string)
    requires IsLowerCase(s) && t in RegexTokenize(s)
    ensures IsLowerCase(t)
    decreases |s|
  {
    if IsTokenChar(s[0]) {
      var n := RunLength(s);
      if t != s[..n] || !HasLetter(s[..n]) {
        LowerTokensAreLowerCase(s[n..], t);
      }
    } else {
      LowerTokensAreLowerCase(s[1..], t);
    }
  }
}
