/** Stopword sets: the effective set built from a base corpus and accumulated
    inclusions and exclusions, and the stopword filter over a token list. */
module Stopwords {
  import opened Outcomes
  import opened Chars
  import opened Seqs

  /** (base ∪ inclusions) − exclusions: an excluded word is never a stopword. */
  function Effective(base: set<string>, inclusions: set<string>, exclusions: set<string>): (r: set<string>)
    ensures forall w :: w in r <==> (w in base || w in inclusions) && w !in exclusions
  {
    (base + inclusions) - exclusions
  }

  /** The accumulated inclusions and exclusions of a customisable pipeline. */
  datatype Customization = Customization(inclusions: set<string>, exclusions: set<string>)

  /** One customisation: an absent or empty argument leaves its set alone,
      otherwise its words are added to what is already there. */
  function Customize(c: Customization, inclusions: Option<set<string>>, exclusions: Option<set<string>>): (r: Customization)
    ensures c.inclusions <= r.inclusions && c.exclusions <= r.exclusions
    ensures forall w :: w in r.inclusions <==> w in c.inclusions || (inclusions.Some? && w in inclusions.value)
    ensures forall w :: w in r.exclusions <==> w in c.exclusions || (exclusions.Some? && w in exclusions.value)
  {
    Customization(
      if inclusions.Some? && inclusions.value != {} then c.inclusions + inclusions.value else c.inclusions,
      if exclusions.Some? && exclusions.value != {} then c.exclusions + exclusions.value else c.exclusions)
  }

  /** Repeating a customisation changes nothing. */
  lemma CustomizeIdempotent(c: Customization, inclusions: Option<set<string>>, exclusions: Option<set<string>>)
    ensures Customize(Customize(c, inclusions, exclusions), inclusions, exclusions) == Customize(c, inclusions, exclusions)
  {
  }

  /** Once excluded, a word is not a stopword after any later customisation,
      even one that includes it. */
  lemma ExcludedStaysExcluded(base: set<string>, c: Customization, inclusions: Option<set<string>>,
                              exclusions: Option<set<string>>, w: string)
    requires w in c.exclusions
    ensures var c' := Customize(c, inclusions, exclusions); w !in Effective(base, c'.inclusions, c'.exclusions)
  {
  }

  function NotStopword(stops: set<string>): string -> bool {
    t => Lower(t) !in stops
  }

  /** The tokens whose lower-case form is not a stopword, in their original order. */
  function FilterStopwords(tokens: seq<string>, stops: set<string>): (r: seq<string>)
    ensures |r| <= |tokens|
    ensures forall t :: t in r <==> t in tokens && Lower(t) !in stops
  {
    Filter(tokens, NotStopword(stops))
  }

  lemma FilterStopwordsConcat(a: seq<string>, b: seq<string>, stops: set<string>)
    ensures FilterStopwords(a + b, stops) == FilterStopwords(a, stops) + FilterStopwords(b, stops)
  {
    FilterConcat(a, b, NotStopword(stops));
  }

  lemma FilterStopwordsIdempotent(tokens: seq<string>, stops: set<string>)
    ensures FilterStopwords(FilterStopwords(tokens, stops), stops) == FilterStopwords(tokens, stops)
  {
    FilterIdempotent(tokens, NotStopword(stops));
  }

  lemma FilterStopwordsKeepsAll(tokens: seq<string>, stops: set<string>)
    ensures FilterStopwords(tokens, stops) == tokens <==> forall i :: 0 <= i < |tokens| ==> Lower(tokens[i]) !in stops
  {
    FilterKeepsAll(tokens, NotStopword(stops));
  }
}
