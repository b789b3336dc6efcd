/** The keyword categoriser (scraper/categorizer.py): every category of an ordered
    taxonomy scores an article by keyword evidence, and the first category with
    the highest positive score wins. */
module Categorizer {
  import opened Text
  import opened Base

  /** The configured taxonomy, in iteration order: each category key with its
      keywords. The order decides ties. */
  type Taxonomy = seq<(string, seq<string>)>

  /** `_build_text(a)`: title, description and the space-joined tags, joined by
      spaces and lower-cased. */
  function BuildText(a: Article): string {
    Lower(Join(" ", [a.title, a.description, Join(" ", a.tags)]))
  }

  /** The search text is `lower(title + " " + description + " " + " ".join(tags))`. */
  lemma BuildTextIsConcatenation(a: Article)
    ensures BuildText(a) == Lower(a.title + " " + a.description + " " + Join(" ", a.tags))
  {
    var parts := [a.title, a.description, Join(" ", a.tags)];
    assert parts[1..] == [a.description, Join(" ", a.tags)];
    assert parts[1..][1..] == [Join(" ", a.tags)];
    assert Join(" ", parts[1..]) == a.description + " " + Join(" ", a.tags);
    assert Join(" ", parts) == a.title + " " + (a.description + " " + Join(" ", a.tags));
  }

  /** The regex assertion `\b` at position `p`: a word character on exactly one
      side of `p`. */
  predicate IsBoundary(s: string, p: int)
    requires 0 <= p <= |s|
  {
    (p > 0 && IsWordChar(s[p - 1])) != (p < |s| && IsWordChar(s[p]))
  }

  /** The pattern `\b<kw>\b` (with `kw` escaped, case ignored) matches at index `i`. */
  predicate WholeWordAt(text: string, kw: string, i: int) {
    0 <= i && i + |kw| <= |text|
    && Lower(text[i..i + |kw|]) == Lower(kw)
    && IsBoundary(text, i) && IsBoundary(text, i + |kw|)
  }

  /** `re.search(rf"\b{re.escape(kw)}\b", text, re.IGNORECASE)` finds a match. */
  predicate WholeWordIn(text: string, kw: string) {
    exists i | 0 <= i <= |text| - |kw| :: WholeWordAt(text, kw, i)
  }

  /** What one keyword adds to its category's score: 2 for a keyword of at most
      three characters found as a whole word, 1 for a longer keyword found as a
      substring, 0 otherwise. */
  function KeywordPoints(kw: string, text: string): nat {
    if |kw| <= 3 then (if WholeWordIn(text, kw) then 2 else 0)
    else if Contains(text, Lower(kw)) then 1 else 0
  }

  /** A category's score: the points of each of its keywords, each counted once. */
  function Score(keywords: seq<string>, text: string): nat {
    if keywords == [] then 0
    else Score(keywords[..|keywords| - 1], text) + KeywordPoints(keywords[|keywords| - 1], text)
  }

  lemma {:induction false} ScoreAppend(a: seq<string>, b: seq<string>, text: string)
    ensures Score(a + b, text) == Score(a, text) + Score(b, text)
  {
    if b != [] {
      var b' := b[..|b| - 1];
      assert (a + b)[..|a + b| - 1] == a + b';
      ScoreAppend(a, b', text);
    } else {
      assert a + b == a;
    }
  }

  lemma ScoreRemoveAt(b: seq<string>, k: int, text: string)
    requires 0 <= k < |b|
    ensures Score(b, text) == Score(b[..k] + b[k + 1..], text) + KeywordPoints(b[k], text)
  {
    var x := b[k];
    assert b == b[..k] + ([x] + b[k + 1..]);
    ScoreAppend(b[..k], [x] + b[k + 1..], text);
    ScoreAppend([x], b[k + 1..], text);
    ScoreAppend(b[..k], b[k + 1..], text);
    assert [x][..|[x]| - 1] == [];
  }

  lemma MultisetRemoveAt(b: seq<string>, k: int)
    requires 0 <= k < |b|
    ensures multiset(b[..k] + b[k + 1..]) == multiset(b) - multiset{b[k]}
  {
    assert b == (b[..k] + [b[k]]) + b[k + 1..];
  }

  /** The score does not depend on the order of a category's keywords. */
  lemma {:induction false} ScoreOrderIndependent(a: seq<string>, b: seq<string>, text: string)
    requires multiset(a) == multiset(b)
    ensures Score(a, text) == Score(b, text)
    decreases |a|
  {
    if a != [] {
      var n := |a| - 1;
      var x := a[n];
      assert x in multiset(b);
      var k :| 0 <= k < |b| && b[k] == x;
      MultisetRemoveAt(a, n);
      MultisetRemoveAt(b, k);
      assert a[..n] + a[n + 1..] == a[..n];
      ScoreOrderIndependent(a[..n], b[..k] + b[k + 1..], text);
      ScoreRemoveAt(b, k, text);
    } else {
      assert |b| == 0;
    }
  }

  /** A short keyword that stands as a word of its own earns 2, in whatever letter
      case the word is written: `AI` matches `ai`, and `ai` matches `AI`. */
  lemma StandaloneShortKeyword(kw: string, word: string, before: string, after: string)
    requires 1 <= |kw| <= 3 && |word| == |kw| && Lower(word) == Lower(kw)
    requires IsWordChar(word[0]) && IsWordChar(word[|word| - 1])
    requires before == [] || !IsWordChar(before[|before| - 1])
    requires after == [] || !IsWordChar(after[0])
    ensures KeywordPoints(kw, before + word + after) == 2
  {
    var text := before + word + after;
    assert text[|before|..|before| + |word|] == word;
    assert WholeWordAt(text, kw, |before|);
  }

  /** Case is ignored on both sides: the keyword `AI` earns 2 in the lower-cased
      search text `new ai chips`. */
  lemma ShortKeywordIgnoresCase()
    ensures KeywordPoints("AI", "new ai chips") == 2
  {
    assert Lower("ai") == "ai" && Lower("AI") == "ai";
    StandaloneShortKeyword("AI", "ai", "new ", " chips");
    assert "new " + "ai" + " chips" == "new ai chips";
  }

  lemma GoNotAWordOfAlgorithm()
    ensures !WholeWordIn("algorithm", "go")
  {
    var text := "algorithm";
    forall i | 0 <= i <= |text| - 2
      ensures !WholeWordAt(text, "go", i)
    {
      if i == 2 {
        assert !IsBoundary(text, 2);
      } else {
        assert Lower(text[i..i + 2])[0] == LowerChar(text[i]);
        assert Lower(text[i..i + 2])[1] == LowerChar(text[i + 1]);
      }
    }
  }

  /** A short keyword found only inside a longer word earns nothing: `go` in
      `algorithm`. */
  lemma ShortKeywordInsideWord()
    ensures KeywordPoints("go", "algorithm") == 0
    ensures KeywordPoints("go", "learn go today") == 2
  {
    GoNotAWordOfAlgorithm();
    StandaloneShortKeyword("go", "go", "learn ", " today");
    assert "learn " + "go" + " today" == "learn go today";
  }

  /** The strict `>` of the loop over the taxonomy: starting from `bestCat` with
      `bestScore`, a category replaces the current best only when it scores more. */
  function PickBest(tax: Taxonomy, text: string, bestCat: string, bestScore: nat): string
    decreases |tax|
  {
    if tax == [] then bestCat
    else
      var s := Score(tax[0].1, text);
      if s > bestScore then PickBest(tax[1..], text, tax[0].0, s)
      else PickBest(tax[1..], text, bestCat, bestScore)
  }

  /** `categorize_article` on an already built search text. */
  function Categorize(tax: Taxonomy, text: string, default: string): string {
    PickBest(tax, text, default, 0)
  }

  /** Category `k` has the highest score of the taxonomy, and every category before
      it scores strictly less. */
  predicate IsFirstMaximum(tax: Taxonomy, text: string, k: int) {
    && 0 <= k < |tax|
    && (forall j | 0 <= j < |tax| :: Score(tax[j].1, text) <= Score(tax[k].1, text))
    && (forall j | 0 <= j < k :: Score(tax[j].1, text) < Score(tax[k].1, text))
  }

  /** When no category beats the current best, the current best stays. */
  lemma {:induction false} PickBestKeepsBest(tax: Taxonomy, text: string, bestCat: string, bestScore: nat)
    requires forall j | 0 <= j < |tax| :: Score(tax[j].1, text) <= bestScore
    ensures PickBest(tax, text, bestCat, bestScore) == bestCat
    decreases |tax|
  {
    if tax != [] {
      assert forall j | 0 <= j < |tax[1..]| :: tax[1..][j] == tax[j + 1];
      PickBestKeepsBest(tax[1..], text, bestCat, bestScore);
    }
  }

  /** A first maximum of the tail is a first maximum of the whole taxonomy when the
      head scores less. */
  lemma FirstMaximumCons(tax: Taxonomy, text: string, k: int)
    requires tax != [] && IsFirstMaximum(tax[1..], text, k)
    requires Score(tax[0].1, text) < Score(tax[1..][k].1, text)
    ensures IsFirstMaximum(tax, text, k + 1)
  {
    assert forall j | 1 <= j < |tax| :: tax[j] == tax[1..][j - 1];
  }

  /** When some category beats the current best, the choice is the first category
      with the highest score. */
  lemma {:induction false} PickBestFindsFirstMaximum(tax: Taxonomy, text: string, bestCat: string, bestScore: nat)
    requires exists j | 0 <= j < |tax| :: Score(tax[j].1, text) > bestScore
    ensures exists k :: IsFirstMaximum(tax, text, k) && Score(tax[k].1, text) > bestScore
                      && PickBest(tax, text, bestCat, bestScore) == tax[k].0
    decreases |tax|
  {
    var s := Score(tax[0].1, text);
    var rest := tax[1..];
    assert forall j | 0 <= j < |rest| :: rest[j] == tax[j + 1];
    if s > bestScore {
      if exists j | 0 <= j < |rest| :: Score(rest[j].1, text) > s {
        PickBestFindsFirstMaximum(rest, text, tax[0].0, s);
        var k :| IsFirstMaximum(rest, text, k) && Score(rest[k].1, text) > s
                 && PickBest(rest, text, tax[0].0, s) == rest[k].0;
        FirstMaximumCons(tax, text, k);
      } else {
        PickBestKeepsBest(rest, text, tax[0].0, s);
        assert IsFirstMaximum(tax, text, 0);
      }
    } else {
      var j :| 0 <= j < |tax| && Score(tax[j].1, text) > bestScore;
      assert j > 0 && Score(rest[j - 1].1, text) > bestScore;
      PickBestFindsFirstMaximum(rest, text, bestCat, bestScore);
      var k :| IsFirstMaximum(rest, text, k) && Score(rest[k].1, text) > bestScore
               && PickBest(rest, text, bestCat, bestScore) == rest[k].0;
      FirstMaximumCons(tax, text, k);
    }
  }

  /** When no category scores above 0 the default is chosen; otherwise the key of
      the first category with the highest score, which may itself be the default. */
  lemma CategorizeIsFirstMaximum(tax: Taxonomy, text: string, default: string)
    ensures (forall j | 0 <= j < |tax| :: Score(tax[j].1, text) == 0)
            ==> Categorize(tax, text, default) == default
    ensures (exists j | 0 <= j < |tax| :: Score(tax[j].1, text) > 0)
            ==> exists k :: IsFirstMaximum(tax, text, k) && Score(tax[k].1, text) > 0
                         && Categorize(tax, text, default) == tax[k].0
  {
    if forall j | 0 <= j < |tax| :: Score(tax[j].1, text) == 0 {
      PickBestKeepsBest(tax, text, default, 0);
    } else {
      PickBestFindsFirstMaximum(tax, text, default, 0);
    }
  }

  /** The result is always the default category or a key of the taxonomy. */
  lemma CategorizeInTaxonomy(tax: Taxonomy, text: string, default: string)
    ensures Categorize(tax, text, default) == default
            || exists k | 0 <= k < |tax| :: Categorize(tax, text, default) == tax[k].0
  {
    CategorizeIsFirstMaximum(tax, text, default);
  }

  /** `categorize_article(a)`: nested loops over the taxonomy and each category's
      keywords, keeping the best score seen so far. */
  method CategorizeArticle(a: Article, tax: Taxonomy, default: string) returns (cat: string)
    ensures cat == Categorize(tax, BuildText(a), default)
  {
    var text := BuildText(a);
    var bestCat := default;
    var bestScore := 0;
    for i := 0 to |tax|
      invariant PickBest(tax[i..], text, bestCat, bestScore) == Categorize(tax, text, default)
    {
      var (key, keywords) := tax[i];
      var score := 0;
      for j := 0 to |keywords|
        invariant score == Score(keywords[..j], text)
      {
        var kw := keywords[j];
        assert keywords[..j + 1][..j] == keywords[..j];
        if |kw| <= 3 {
          if WholeWordIn(text, kw) {
            score := score + 2;
          }
        } else {
          if Contains(text, Lower(kw)) {
            score := score + 1;
          }
        }
      }
      assert keywords[..|keywords|] == keywords;
      if score > bestScore {
        bestScore := score;
        bestCat := key;
      }
    }
    cat := bestCat;
  }

  /** The article with its category recomputed; no other field changes. */
  function Categorized(a: Article, tax: Taxonomy, default: string): Article {
    a.(category := Categorize(tax, BuildText(a), default))
  }

  /** The effect of `categorize_articles` on the list's contents. */
  function CategorizeAll(articles: seq<Article>, tax: Taxonomy, default: string): seq<Article> {
    seq(|articles|, i requires 0 <= i < |articles| => Categorized(articles[i], tax, default))
  }

  /** Categorising ignores the category field, so running the batch again changes
      nothing. */
  lemma CategorizeAllIdempotent(articles: seq<Article>, tax: Taxonomy, default: string)
    ensures CategorizeAll(CategorizeAll(articles, tax, default), tax, default)
         == CategorizeAll(articles, tax, default)
  {
  }

  /** `categorize_articles(articles)`: each element's category is overwritten in
      place, and the same list comes back. */
  method CategorizeArticles(articles: array<Article>, tax: Taxonomy, default: string)
    returns (r: array<Article>)
    modifies articles
    ensures r == articles
    ensures articles[..] == CategorizeAll(old(articles[..]), tax, default)
  {
    for i := 0 to articles.Length
      invariant articles[..i] == CategorizeAll(old(articles[..]), tax, default)[..i]
      invariant articles[i..] == old(articles[..])[i..]
    {
      var cat := CategorizeArticle(articles[i], tax, default);
      articles[i] := articles[i].(category := cat);
    }
    r := articles;
  }
}
