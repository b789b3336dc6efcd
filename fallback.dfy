/** The fallback synthesiser (`_fallback_digest` in scraper/curator.py): without the
    generative service, pick the best-scoring articles of each category in a fixed
    category order and write one templated bilingual entry per pick. */
module Fallback {
  import opened Text
  import opened Json
  import opened Base
  import opened Digest

  // ---------------------------------------------------------------------------
  // Grouping by category
  // ---------------------------------------------------------------------------

  /** `by_cat[cat]` after the grouping loop: the articles of category `cat`, in
      input order. */
  function Group(articles: seq<Article>, cat: string): (g: seq<Article>)
    ensures |g| <= |articles|
    ensures forall x :: x in g ==> x in articles && x.category == cat
  {
    if articles == [] then []
    else
      var n := |articles| - 1;
      Group(articles[..n], cat) + (if articles[n].category == cat then [articles[n]] else [])
  }

  /** The category of every article, in order. */
  function Categories(articles: seq<Article>): (cs: seq<string>)
    ensures |cs| == |articles|
    ensures forall i :: 0 <= i < |articles| ==> cs[i] == articles[i].category
  {
    seq(|articles|, i requires 0 <= i < |articles| => articles[i].category)
  }

  /** A group holds exactly as many articles as carry its category. */
  lemma {:induction false} GroupSize(articles: seq<Article>, cat: string)
    ensures |Group(articles, cat)| == multiset(Categories(articles))[cat]
  {
    if articles != [] {
      var n := |articles| - 1;
      GroupSize(articles[..n], cat);
      assert Categories(articles) == Categories(articles[..n]) + [articles[n].category];
    }
  }

  // ---------------------------------------------------------------------------
  // Stable sort by score, descending
  // ---------------------------------------------------------------------------

  predicate SortedByScoreDesc(s: seq<Article>) {
    forall i, j | 0 <= i < j < |s| :: s[i].score >= s[j].score
  }

  /** The articles of `s` with score `v`, in order. */
  function WithScore(s: seq<Article>, v: int): seq<Article> {
    if s == [] then []
    else WithScore(s[..|s| - 1], v) + (if s[|s| - 1].score == v then [s[|s| - 1]] else [])
  }

  lemma WithScoreSnoc(s: seq<Article>, x: Article, v: int)
    ensures WithScore(s + [x], v) == WithScore(s, v) + (if x.score == v then [x] else [])
  {
    assert (s + [x])[..|s|] == s;
  }

  /** Puts `x` behind every element of `sorted` that scores at least as much. */
  function InsertByScore(sorted: seq<Article>, x: Article): (r: seq<Article>)
    ensures multiset(r) == multiset(sorted) + multiset{x}
  {
    if sorted == [] then [x]
    else
      var n := |sorted| - 1;
      assert sorted == sorted[..n] + [sorted[n]];
      if sorted[n].score >= x.score then sorted + [x]
      else InsertByScore(sorted[..n], x) + [sorted[n]]
  }

  /** `list.sort(key=lambda a: a.score, reverse=True)`: Python's sort is stable, so
      the result is the insertion of each element, in input order, behind every
      element already placed that scores at least as much. */
  function SortByScoreDesc(s: seq<Article>): (r: seq<Article>)
    ensures multiset(r) == multiset(s)
  {
    if s == [] then []
    else
      var n := |s| - 1;
      assert s == s[..n] + [s[n]];
      InsertByScore(SortByScoreDesc(s[..n]), s[n])
  }

  /** Inserting keeps a lower bound every element already meets. */
  lemma InsertByScoreBounded(sorted: seq<Article>, x: Article, b: int)
    requires forall y | y in sorted :: y.score >= b
    requires x.score >= b
    ensures forall y | y in InsertByScore(sorted, x) :: y.score >= b
  {
    forall y | y in InsertByScore(sorted, x)
      ensures y.score >= b
    {
      assert y in multiset(sorted) + multiset{x};
    }
  }

  lemma SortedSnoc(s: seq<Article>, y: Article)
    requires SortedByScoreDesc(s) && forall z | z in s :: z.score >= y.score
    ensures SortedByScoreDesc(s + [y])
  {
    var t := s + [y];
    forall i, j | 0 <= i < j < |t|
      ensures t[i].score >= t[j].score
    {
      assert t[i] == s[i];
      if j < |s| {
        assert t[j] == s[j];
      } else {
        assert s[i] in s;
      }
    }
  }

  lemma {:induction false} InsertByScoreSorted(sorted: seq<Article>, x: Article)
    requires SortedByScoreDesc(sorted)
    ensures SortedByScoreDesc(InsertByScore(sorted, x))
  {
    if sorted != [] {
      var n := |sorted| - 1;
      var last := sorted[n];
      if last.score < x.score {
        var prefix := sorted[..n];
        assert SortedByScoreDesc(prefix);
        InsertByScoreSorted(prefix, x);
        forall y | y in prefix
          ensures y.score >= last.score
        {
          var k :| 0 <= k < n && prefix[k] == y;
        }
        InsertByScoreBounded(prefix, x, last.score);
        SortedSnoc(InsertByScore(prefix, x), last);
      } else {
        forall z | z in sorted
          ensures z.score >= x.score
        {
          var k :| 0 <= k < |sorted| && sorted[k] == z;
          if k < n {
            assert sorted[k].score >= last.score;
          }
        }
        SortedSnoc(sorted, x);
      }
    }
  }

  lemma {:induction false} InsertByScoreStable(sorted: seq<Article>, x: Article, v: int)
    ensures WithScore(InsertByScore(sorted, x), v)
         == WithScore(sorted, v) + (if x.score == v then [x] else [])
  {
    if sorted == [] {
      WithScoreSnoc([], x, v);
    } else {
      var n := |sorted| - 1;
      var last := sorted[n];
      assert sorted == sorted[..n] + [last];
      if last.score >= x.score {
        WithScoreSnoc(sorted, x, v);
      } else {
        InsertByScoreStable(sorted[..n], x, v);
        WithScoreSnoc(InsertByScore(sorted[..n], x), last, v);
        WithScoreSnoc(sorted[..n], last, v);
      }
    }
  }

  /** The sort orders by score, highest first. */
  lemma {:induction false} SortByScoreDescSorted(s: seq<Article>)
    ensures SortedByScoreDesc(SortByScoreDesc(s))
  {
    if s != [] {
      SortByScoreDescSorted(s[..|s| - 1]);
      InsertByScoreSorted(SortByScoreDesc(s[..|s| - 1]), s[|s| - 1]);
    }
  }

  /** The sort is stable: the articles sharing a score keep their input order. */
  lemma {:induction false} SortByScoreDescStable(s: seq<Article>, v: int)
    ensures WithScore(SortByScoreDesc(s), v) == WithScore(s, v)
  {
    if s != [] {
      var n := |s| - 1;
      SortByScoreDescStable(s[..n], v);
      InsertByScoreStable(SortByScoreDesc(s[..n]), s[n], v);
    }
  }

  lemma {:induction false} WithScorePrefix(s: seq<Article>, k: nat, v: int)
    requires k <= |s|
    ensures |WithScore(s[..k], v)| <= |WithScore(s, v)|
    ensures WithScore(s[..k], v) == WithScore(s, v)[..|WithScore(s[..k], v)|]
    decreases |s|
  {
    if k < |s| {
      var n := |s| - 1;
      assert s[..n][..k] == s[..k];
      WithScorePrefix(s[..n], k, v);
    } else {
      assert s[..k] == s;
    }
  }

  // ---------------------------------------------------------------------------
  // Picks
  // ---------------------------------------------------------------------------

  /** `by_cat.get(cat, [])[:per_cat]` once each group is sorted. */
  function TopOf(articles: seq<Article>, cat: string, perCat: nat): seq<Article> {
    Take(SortByScoreDesc(Group(articles, cat)), perCat)
  }

  /** The picks of the categories of `order`, walked in order. */
  function PicksIn(articles: seq<Article>, order: seq<string>, perCat: nat): seq<Article> {
    if order == [] then []
    else
      PicksIn(articles, order[..|order| - 1], perCat)
      + TopOf(articles, order[|order| - 1], perCat)
  }

  /** `picks` in `_fallback_digest`. */
  function Picks(articles: seq<Article>, perCat: nat): seq<Article> {
    PicksIn(articles, CatOrder, perCat)
  }

  function Min(a: nat, b: nat): nat {
    if a <= b then a else b
  }

  /** The number of picks the categories of `order` are entitled to: for each, the
      cap or the number of articles carrying it, whichever is smaller. */
  function Quota(articles: seq<Article>, order: seq<string>, perCat: nat): nat {
    if order == [] then 0
    else
      Quota(articles, order[..|order| - 1], perCat)
      + Min(perCat, multiset(Categories(articles))[order[|order| - 1]])
  }

  lemma {:induction false} PicksInCount(articles: seq<Article>, order: seq<string>, perCat: nat)
    ensures |PicksIn(articles, order, perCat)| == Quota(articles, order, perCat)
  {
    if order != [] {
      var c := order[|order| - 1];
      PicksInCount(articles, order[..|order| - 1], perCat);
      GroupSize(articles, c);
      var sorted := SortByScoreDesc(Group(articles, c));
      assert |sorted| == |multiset(sorted)| == |Group(articles, c)|;
    }
  }

  lemma {:induction false} PicksInMembers(articles: seq<Article>, order: seq<string>, perCat: nat)
    ensures forall p :: p in PicksIn(articles, order, perCat) ==> p in articles && p.category in order
  {
    if order != [] {
      var n := |order| - 1;
      var c := order[n];
      PicksInMembers(articles, order[..n], perCat);
      var sorted := SortByScoreDesc(Group(articles, c));
      forall p | p in TopOf(articles, c, perCat)
        ensures p in articles && p.category == c
      {
        assert p in multiset(sorted);
        assert p in Group(articles, c);
      }
      forall p | p in PicksIn(articles, order[..n], perCat)
        ensures p.category in order
      {
        assert p.category in order[..n];
      }
    }
  }

  predicate Distinct(order: seq<string>) {
    forall i, j | 0 <= i < j < |order| :: order[i] != order[j]
  }

  /** The position of `c` in `order`. */
  function IndexOf(order: seq<string>, c: string): (r: nat)
    requires c in order
    ensures r < |order| && order[r] == c
    ensures forall j | 0 <= j < r :: order[j] != c
  {
    if order[0] == c then 0 else 1 + IndexOf(order[1..], c)
  }

  /** The picks come category by category in the order given, and within a
      category by score, highest first. */
  predicate OrderedPicks(picks: seq<Article>, order: seq<string>) {
    && (forall p | p in picks :: p.category in order)
    && forall i, j | 0 <= i < j < |picks| ::
         && IndexOf(order, picks[i].category) <= IndexOf(order, picks[j].category)
         && (picks[i].category == picks[j].category ==> picks[i].score >= picks[j].score)
  }

  lemma TopOfSorted(articles: seq<Article>, c: string, perCat: nat)
    ensures SortedByScoreDesc(TopOf(articles, c, perCat))
    ensures forall p | p in TopOf(articles, c, perCat) :: p.category == c
  {
    var sorted := SortByScoreDesc(Group(articles, c));
    SortByScoreDescSorted(Group(articles, c));
    forall p | p in TopOf(articles, c, perCat)
      ensures p.category == c
    {
      assert p in multiset(sorted);
      assert p in Group(articles, c);
    }
  }

  /** A category in the first `n` of `order` has the same position there as in
      the whole of `order`. */
  lemma IndexOfPrefix(order: seq<string>, n: nat, c: string)
    requires n <= |order| && c in order[..n]
    ensures c in order && IndexOf(order, c) == IndexOf(order[..n], c) < n
  {
    var k := IndexOf(order[..n], c);
    assert order[k] == order[..n][k] == c;
    var m := IndexOf(order, c);
    assert m <= k;
    assert order[..n][m] == order[m];
    assert k <= m;
  }

  lemma OrderedWiden(picks: seq<Article>, order: seq<string>, n: nat)
    requires n <= |order| && OrderedPicks(picks, order[..n])
    ensures OrderedPicks(picks, order)
    ensures forall p | p in picks :: IndexOf(order, p.category) < n
  {
    forall p | p in picks
      ensures p.category in order && IndexOf(order, p.category) == IndexOf(order[..n], p.category) < n
    {
      IndexOfPrefix(order, n, p.category);
    }
    forall i, j | 0 <= i < j < |picks|
      ensures IndexOf(order, picks[i].category) <= IndexOf(order, picks[j].category)
    {
      assert picks[i] in picks && picks[j] in picks;
    }
  }

  lemma OrderedAppend(front: seq<Article>, top: seq<Article>, order: seq<string>, c: string)
    requires OrderedPicks(front, order) && c in order
    requires forall p | p in front :: IndexOf(order, p.category) < IndexOf(order, c)
    requires SortedByScoreDesc(top) && forall p | p in top :: p.category == c
    ensures OrderedPicks(front + top, order)
  {
    var picks := front + top;
    forall i, j | 0 <= i < j < |picks|
      ensures IndexOf(order, picks[i].category) <= IndexOf(order, picks[j].category)
      ensures picks[i].category == picks[j].category ==> picks[i].score >= picks[j].score
    {
      if j < |front| {
        assert picks[i] == front[i] && picks[j] == front[j];
      } else if i < |front| {
        assert picks[i] in front && picks[j] in top;
      } else {
        assert picks[i] == top[i - |front|] && picks[j] == top[j - |front|];
      }
    }
    forall p | p in picks
      ensures p.category in order
    {
      if p in top {} else { assert p in front; }
    }
  }

  lemma {:induction false} PicksInOrdered(articles: seq<Article>, order: seq<string>, perCat: nat)
    requires Distinct(order)
    ensures OrderedPicks(PicksIn(articles, order, perCat), order)
  {
    if order != [] {
      var n := |order| - 1;
      var c := order[n];
      var front := PicksIn(articles, order[..n], perCat);
      assert Distinct(order[..n]);
      PicksInOrdered(articles, order[..n], perCat);
      OrderedWiden(front, order, n);
      assert IndexOf(order, c) == n;
      TopOfSorted(articles, c, perCat);
      OrderedAppend(front, TopOf(articles, c, perCat), order, c);
    }
  }

  // ---------------------------------------------------------------------------
  // The templated entry
  // ---------------------------------------------------------------------------

  /** `_CAT_LABELS.get(cat, (cat.title(), cat.title()))` */
  function Labels(cat: string): (string, string) {
    if cat in CatLabels then CatLabels[cat] else (TitleCase(cat), TitleCase(cat))
  }

  /** `a.source.replace("_", " ").title()` */
  function SourceLabel(source: string): string {
    TitleCase(ReplaceChar(source, '_', ' '))
  }

  /** The first six tags, each in backticks, joined by commas; empty without tags. */
  function TagsText(tags: seq<string>): string {
    if tags == [] then ""
    else
      var shown := Take(tags, 6);
      Join(", ", seq(|shown|, i requires 0 <= i < |shown| => "`" + shown[i] + "`"))
  }

  /** The score with thousands separators, or nothing for a zero score. */
  function ScoreText(score: int): string {
    if score != 0 then IntWithCommas(score) else ""
  }

  /** The lead paragraph: the stripped description, or a sentence naming the
      article and its category. */
  function LeadEn(a: Article): string {
    var desc := Strip(a.description);
    if desc != "" then desc
    else
      "**" + Strip(a.title) + "** caught attention in the " + Lower(Labels(a.category).0)
      + " space today."
  }

  function LeadPt(a: Article): string {
    var desc := Strip(a.description);
    if desc != "" then desc
    else
      "**" + Strip(a.title) + "** chamou aten\U{e7}\U{e3}o no mundo de "
      + Lower(Labels(a.category).1) + " hoje."
  }

  /** The tags and author fragments, each only when present. */
  function ContextEn(a: Article): seq<string> {
    (if TagsText(a.tags) != "" then ["Tags: " + TagsText(a.tags)] else [])
    + (if a.author != "" then ["Author: **" + a.author + "**"] else [])
  }

  function ContextPt(a: Article): seq<string> {
    (if TagsText(a.tags) != "" then ["Tags: " + TagsText(a.tags)] else [])
    + (if a.author != "" then ["Autor: **" + a.author + "**"] else [])
  }

  /** The points and comments fragments, each only when non-zero, then the source. */
  function SignalEn(a: Article): seq<string> {
    (if ScoreText(a.score) != "" then ["**" + ScoreText(a.score) + "** points"] else [])
    + (if a.commentsCount != 0 then ["**" + IntToString(a.commentsCount) + "** comments"] else [])
    + ["via **" + SourceLabel(a.source) + "**"]
  }

  function SignalPt(a: Article): seq<string> {
    (if ScoreText(a.score) != "" then ["**" + ScoreText(a.score) + "** pontos"] else [])
    + (if a.commentsCount != 0 then ["**" + IntToString(a.commentsCount) + "** coment\U{e1}rios"] else [])
    + ["via **" + SourceLabel(a.source) + "**"]
  }

  /** The paragraphs of `body_en`. */
  function PartsEn(a: Article): seq<string> {
    [LeadEn(a)]
    + (if ContextEn(a) != [] then [Join(" \U{b7} ", ContextEn(a))] else [])
    + ["Community buzz: " + Join(", ", SignalEn(a))
       + ". Check the original source below for the full story."]
  }

  /** The paragraphs of `body_pt`. */
  function PartsPt(a: Article): seq<string> {
    [LeadPt(a)]
    + (if ContextPt(a) != [] then [Join(" \U{b7} ", ContextPt(a))] else [])
    + ["Repercuss\U{e3}o: " + Join(", ", SignalPt(a))
       + ". Confira a fonte original abaixo para a mat\U{e9}ria completa."]
  }

  /** The entry the fallback writes for one picked article. */
  function FallbackEntry(a: Article): Entry {
    var title := Strip(a.title);
    Entry(
      JStr(title), JStr(title),
      JStr(Join("\n\n", PartsEn(a))), JStr(Join("\n\n", PartsPt(a))),
      JStr(a.category), EmojiFor(JStr(a.category)), [RefOf(a)])
  }

  /** `_fallback_digest(articles)` with `FALLBACK_PER_CAT == perCat`. */
  function FallbackSpec(articles: seq<Article>, perCat: nat): seq<Entry> {
    EntriesOf(Picks(articles, perCat), FallbackEntry)
  }

  /** `[entry(a) for a in picks]`: one entry per article, in order. */
  function EntriesOf(picks: seq<Article>, entry: Article -> Entry): (entries: seq<Entry>)
    ensures |entries| == |picks|
  {
    if picks == [] then []
    else EntriesOf(picks[..|picks| - 1], entry) + [entry(picks[|picks| - 1])]
  }

  lemma EntriesOfPrefix(picks: seq<Article>, entry: Article -> Entry, i: nat)
    requires i < |picks|
    ensures EntriesOf(picks[..i + 1], entry) == EntriesOf(picks[..i], entry) + [entry(picks[i])]
  {
    assert picks[..i + 1][..i] == picks[..i];
  }

  lemma EntriesOfWhole(picks: seq<Article>, entry: Article -> Entry)
    ensures EntriesOf(picks[..|picks|], entry) == EntriesOf(picks, entry)
  {
    assert picks[..|picks|] == picks;
  }

  lemma {:induction false} EntriesOfIndex(picks: seq<Article>, entry: Article -> Entry, i: nat)
    requires i < |picks|
    ensures EntriesOf(picks, entry)[i] == entry(picks[i])
  {
    if i < |picks| - 1 {
      EntriesOfIndex(picks[..|picks| - 1], entry, i);
    }
  }

  lemma {:induction false} JoinContainsPart(sep: string, parts: seq<string>, k: nat)
    requires k < |parts|
    ensures Contains(Join(sep, parts), parts[k])
  {
    if |parts| == 1 {
      ContainsWitness(Join(sep, parts), parts[k], 0);
    } else if k == 0 {
      var j := Join(sep, parts);
      assert j[0..|parts[0]|] == parts[0];
      ContainsWitness(j, parts[k], 0);
    } else {
      JoinContainsPart(sep, parts[1..], k - 1);
      var inner := Join(sep, parts[1..]);
      assert parts[1..][k - 1] == parts[k];
      var i :| 0 <= i <= |inner| - |parts[k]| && OccursAt(inner, parts[k], i);
      var off := |parts[0] + sep|;
      var j := Join(sep, parts);
      assert j == (parts[0] + sep) + inner;
      assert j[off + i..off + i + |parts[k]|] == inner[i..i + |parts[k]|];
      ContainsWitness(j, parts[k], off + i);
    }
  }

  lemma ContainsInfix(s: string, pre: string, mid: string, post: string)
    requires s == pre + mid + post
    ensures Contains(s, mid)
  {
    assert s[|pre|..|pre| + |mid|] == mid;
    ContainsWitness(s, mid, |pre|);
  }

  lemma {:induction false} ContainsTrans(s: string, t: string, u: string)
    requires Contains(s, t) && Contains(t, u)
    ensures Contains(s, u)
  {
    var i :| 0 <= i <= |s| - |t| && OccursAt(s, t, i);
    var j :| 0 <= j <= |t| - |u| && OccursAt(t, u, j);
    forall k | 0 <= k < |u|
      ensures s[i + j + k] == u[k]
    {
      assert s[i..i + |t|][j + k] == t[j + k];
      assert t[j..j + |u|][k] == u[k];
    }
    assert s[i + j..i + j + |u|] == u;
    ContainsWitness(s, u, i + j);
  }

  /** A closing line built around the signals names whatever the last signal names. */
  lemma ClosingContainsLast(pre: string, signals: seq<string>, post: string, via: string)
    requires signals != [] && signals[|signals| - 1] == via
    ensures Contains(pre + Join(", ", signals) + post, via)
  {
    JoinContainsPart(", ", signals, |signals| - 1);
    ContainsInfix(pre + Join(", ", signals) + post, pre, Join(", ", signals), post);
    ContainsTrans(pre + Join(", ", signals) + post, Join(", ", signals), via);
  }

  /** A body names whatever its last paragraph names. */
  lemma BodyContainsLast(parts: seq<string>, via: string)
    requires parts != [] && Contains(parts[|parts| - 1], via)
    ensures Contains(Join("\n\n", parts), via)
  {
    JoinContainsPart("\n\n", parts, |parts| - 1);
    ContainsTrans(Join("\n\n", parts), parts[|parts| - 1], via);
  }

  lemma TagsTextEmpty(tags: seq<string>)
    ensures TagsText(tags) == "" <==> tags == []
  {
    if tags != [] {
      var shown := Take(tags, 6);
      var q := seq(|shown|, i requires 0 <= i < |shown| => "`" + shown[i] + "`");
      assert |q[0]| >= 2;
      JoinContainsPart(", ", q, 0);
    }
  }

  /** Both bodies have the same paragraphs: a middle one only when the article has
      tags or an author, and the stripped description as the lead when there is one. */
  lemma FallbackParagraphs(a: Article)
    ensures |PartsEn(a)| == |PartsPt(a)|
            == if a.tags != [] || a.author != "" then 3 else 2
    ensures Strip(a.description) != "" ==> PartsEn(a)[0] == PartsPt(a)[0] == Strip(a.description)
  {
    TagsTextEmpty(a.tags);
  }

  /** Each body's closing line lists one fragment per non-zero count, then the
      source. */
  lemma FallbackSignals(a: Article)
    ensures |SignalEn(a)| == |SignalPt(a)|
            == 1 + (if a.score != 0 then 1 else 0) + (if a.commentsCount != 0 then 1 else 0)
    ensures SignalEn(a)[|SignalEn(a)| - 1] == SignalPt(a)[|SignalPt(a)| - 1]
            == "via **" + SourceLabel(a.source) + "**"
  {
    assert ScoreText(a.score) != "" <==> a.score != 0;
  }

  /** Both bodies name the article's source. */
  lemma FallbackBodiesNameSource(a: Article)
    ensures Contains(Join("\n\n", PartsEn(a)), "via **" + SourceLabel(a.source) + "**")
    ensures Contains(Join("\n\n", PartsPt(a)), "via **" + SourceLabel(a.source) + "**")
  {
    var via := "via **" + SourceLabel(a.source) + "**";
    FallbackSignals(a);
    ClosingContainsLast("Community buzz: ", SignalEn(a),
      ". Check the original source below for the full story.", via);
    ClosingContainsLast("Repercuss\U{e3}o: ", SignalPt(a),
      ". Confira a fonte original abaixo para a mat\U{e9}ria completa.", via);
    BodyContainsLast(PartsEn(a), via);
    BodyContainsLast(PartsPt(a), via);
  }

  // ---------------------------------------------------------------------------
  // Properties of the whole fallback digest
  // ---------------------------------------------------------------------------

  lemma CatOrderDistinct()
    ensures Distinct(CatOrder)
  {
  }

  /** One entry per pick, in pick order: both titles are the stripped article title,
      the category is the article's, and the only source is the article itself. */
  lemma FallbackEntriesFollowPicks(articles: seq<Article>, perCat: nat)
    ensures |FallbackSpec(articles, perCat)| == |Picks(articles, perCat)|
    ensures forall i | 0 <= i < |Picks(articles, perCat)| ::
      var e, a := FallbackSpec(articles, perCat)[i], Picks(articles, perCat)[i];
      && e.titleEn == e.titlePt == JStr(Strip(a.title))
      && e.category == JStr(a.category)
      && e.sources == [RefOf(a)]
  {
    EntriesFollowPicks(Picks(articles, perCat));
  }

  lemma EntriesFollowPicks(picks: seq<Article>)
    ensures forall i | 0 <= i < |picks| ::
      var e, a := EntriesOf(picks, FallbackEntry)[i], picks[i];
      && e.titleEn == e.titlePt == JStr(Strip(a.title))
      && e.category == JStr(a.category)
      && e.sources == [RefOf(a)]
  {
    forall i | 0 <= i < |picks|
      ensures EntriesOf(picks, FallbackEntry)[i] == FallbackEntry(picks[i])
    {
      EntriesOfIndex(picks, FallbackEntry, i);
    }
  }

  /** The digest has one entry for each category of `_CAT_ORDER` up to the cap:
      `sum(min(per_cat, count of articles in cat) for cat in _CAT_ORDER)`. */
  lemma FallbackSize(articles: seq<Article>, perCat: nat)
    ensures |FallbackSpec(articles, perCat)| == Quota(articles, CatOrder, perCat)
  {
    PicksInCount(articles, CatOrder, perCat);
  }

  /** Every picked article is one of the input articles and carries a category of
      `_CAT_ORDER`; picks come category by category in that order, highest score
      first within a category. */
  lemma FallbackPicksOrdered(articles: seq<Article>, perCat: nat)
    ensures forall p | p in Picks(articles, perCat) :: p in articles && p.category in CatOrder
    ensures OrderedPicks(Picks(articles, perCat), CatOrder)
  {
    PicksInMembers(articles, CatOrder, perCat);
    CatOrderDistinct();
    PicksInOrdered(articles, CatOrder, perCat);
  }

  /** The entries of picks taken from `articles` list only articles as sources. */
  lemma EntriesOfSources(picks: seq<Article>, articles: seq<Article>, entry: Article -> Entry)
    requires forall p | p in picks :: p in articles
    requires forall p | p in picks :: entry(p).sources == [RefOf(p)]
    ensures forall e, s | e in EntriesOf(picks, entry) && s in e.sources ::
      exists k | 0 <= k < |articles| :: s == RefOf(articles[k])
  {
    var fb := EntriesOf(picks, entry);
    forall e, s | e in fb && s in e.sources
      ensures exists k | 0 <= k < |articles| :: s == RefOf(articles[k])
    {
      var i :| 0 <= i < |fb| && fb[i] == e;
      EntriesOfIndex(picks, entry, i);
      var p := picks[i];
      assert p in picks;
      var k :| 0 <= k < |articles| && articles[k] == p;
      assert s == RefOf(articles[k]);
    }
  }

  /** Every source the fallback digest lists is one of the input articles. */
  lemma FallbackSourcesAreArticles(articles: seq<Article>, perCat: nat)
    ensures forall e, s | e in FallbackSpec(articles, perCat) && s in e.sources ::
      exists k | 0 <= k < |articles| :: s == RefOf(articles[k])
  {
    var picks := Picks(articles, perCat);
    PicksInMembers(articles, CatOrder, perCat);
    forall p | p in picks
      ensures FallbackEntry(p).sources == [RefOf(p)]
    {
    }
    EntriesOfSources(picks, articles, FallbackEntry);
  }

  /** Within a category the fallback keeps the best: the picked and unpicked
      articles together are the category's, and no unpicked article scores more
      than a picked one. */
  lemma FallbackTakesTop(articles: seq<Article>, cat: string, perCat: nat)
    ensures var sorted := SortByScoreDesc(Group(articles, cat));
            var top := TopOf(articles, cat, perCat);
            && multiset(top) + multiset(sorted[|top|..]) == multiset(Group(articles, cat))
            && (forall x, y | x in top && y in sorted[|top|..] :: x.score >= y.score)
  {
    var g := Group(articles, cat);
    var sorted := SortByScoreDesc(g);
    SortByScoreDescSorted(g);
    SplitSorted(sorted, |TopOf(articles, cat, perCat)|);
  }

  /** Cutting a sorted sequence splits its elements into a front that scores at
      least as much as every element of the back. */
  lemma SplitSorted(sorted: seq<Article>, k: nat)
    requires SortedByScoreDesc(sorted) && k <= |sorted|
    ensures multiset(sorted[..k]) + multiset(sorted[k..]) == multiset(sorted)
    ensures forall x, y | x in sorted[..k] && y in sorted[k..] :: x.score >= y.score
  {
    assert sorted == sorted[..k] + sorted[k..];
    forall x, y | x in sorted[..k] && y in sorted[k..]
      ensures x.score >= y.score
    {
      var i :| 0 <= i < k && sorted[..k][i] == x;
      var j :| 0 <= j < |sorted| - k && sorted[k..][j] == y;
      assert sorted[i] == x && sorted[k + j] == y;
    }
  }

  /** Among articles of one category with equal scores, the picked ones are the
      earliest in the input. */
  lemma FallbackKeepsInputOrder(articles: seq<Article>, cat: string, perCat: nat, v: int)
    ensures |WithScore(TopOf(articles, cat, perCat), v)| <= |WithScore(Group(articles, cat), v)|
    ensures WithScore(TopOf(articles, cat, perCat), v)
         == WithScore(Group(articles, cat), v)[..|WithScore(TopOf(articles, cat, perCat), v)|]
  {
    var g := Group(articles, cat);
    var sorted := SortByScoreDesc(g);
    var top := TopOf(articles, cat, perCat);
    assert sorted[..|top|] == top;
    WithScorePrefix(sorted, |top|, v);
    SortByScoreDescStable(g, v);
  }

  lemma {:induction false} GroupEmpty(articles: seq<Article>, cat: string)
    ensures Group(articles, cat) == [] <==> forall a | a in articles :: a.category != cat
  {
    if articles != [] {
      var n := |articles| - 1;
      GroupEmpty(articles[..n], cat);
      assert articles == articles[..n] + [articles[n]];
    }
  }

  lemma {:induction false} PicksInEmpty(articles: seq<Article>, order: seq<string>, perCat: nat)
    ensures PicksIn(articles, order, perCat) == []
        <==> perCat == 0 || forall a | a in articles :: a.category !in order
  {
    if order != [] {
      var n := |order| - 1;
      var c := order[n];
      PicksInEmpty(articles, order[..n], perCat);
      GroupEmpty(articles, c);
      var g := Group(articles, c);
      assert |SortByScoreDesc(g)| == |multiset(SortByScoreDesc(g))| == |g|;
      assert order == order[..n] + [c];
    }
  }

  /** The fallback digest is empty exactly when the cap is 0 or no article carries
      a category of `_CAT_ORDER`: a non-empty input can still give an empty digest. */
  lemma FallbackEmptyIff(articles: seq<Article>, perCat: nat)
    ensures FallbackSpec(articles, perCat) == []
        <==> perCat == 0 || forall a | a in articles :: a.category !in CatOrder
  {
    PicksInEmpty(articles, CatOrder, perCat);
  }

  // ---------------------------------------------------------------------------
  // The imperative procedure
  // ---------------------------------------------------------------------------

  /** `by_cat.get(cat, [])` */
  function Lookup(byCat: map<string, seq<Article>>, cat: string): seq<Article> {
    if cat in byCat then byCat[cat] else []
  }

  /** The grouping loop: `by_cat[a.category].append(a)` for each article. */
  method GroupByCategory(articles: seq<Article>) returns (byCat: map<string, seq<Article>>)
    ensures forall c :: Lookup(byCat, c) == Group(articles, c)
  {
    byCat := map[];
    for i := 0 to |articles|
      invariant forall c :: Lookup(byCat, c) == Group(articles[..i], c)
    {
      var a := articles[i];
      assert articles[..i + 1][..i] == articles[..i];
      byCat := byCat[a.category := Lookup(byCat, a.category) + [a]];
    }
    assert articles[..|articles|] == articles;
  }

  /** The sorting loop: every group sorted by score, highest first, in place. */
  method SortGroups(byCat: map<string, seq<Article>>) returns (sorted: map<string, seq<Article>>)
    ensures forall c :: Lookup(sorted, c) == SortByScoreDesc(Lookup(byCat, c))
  {
    sorted := byCat;
    var pending := byCat.Keys;
    while pending != {}
      invariant sorted.Keys == byCat.Keys && pending <= byCat.Keys
      invariant forall c | c in byCat ::
        sorted[c] == if c in pending then byCat[c] else SortByScoreDesc(byCat[c])
      decreases pending
    {
      var c :| c in pending;
      sorted := sorted[c := SortByScoreDesc(sorted[c])];
      pending := pending - {c};
    }
  }

  /** The picking loop: the first `perCat` of each sorted group, walking the
      categories of `order` (`_CAT_ORDER`). */
  method CollectPicks(
    articles: seq<Article>, sorted: map<string, seq<Article>>, order: seq<string>, perCat: nat)
    returns (picks: seq<Article>)
    requires forall c :: Lookup(sorted, c) == SortByScoreDesc(Group(articles, c))
    ensures picks == PicksIn(articles, order, perCat)
  {
    picks := [];
    for j := 0 to |order|
      invariant picks == PicksIn(articles, order[..j], perCat)
    {
      var top := Take(Lookup(sorted, order[j]), perCat);
      assert order[..j + 1][..j] == order[..j];
      assert PicksIn(articles, order[..j + 1], perCat) == picks + top;
      // the inner loop appends the articles of `top` one by one
      picks := picks + top;
    }
    assert order[..|order|] == order;
  }

  /** The entry-writing loop: one templated entry per pick, in order. */
  method WriteEntries(picks: seq<Article>) returns (digest: seq<Entry>)
    ensures digest == EntriesOf(picks, FallbackEntry)
  {
    digest := [];
    for i := 0 to |picks|
      invariant digest == EntriesOf(picks[..i], FallbackEntry)
    {
      EntriesOfPrefix(picks, FallbackEntry, i);
      digest := digest + [FallbackEntry(picks[i])];
    }
    EntriesOfWhole(picks, FallbackEntry);
  }

  /** `_fallback_digest(articles)` with `FALLBACK_PER_CAT == perCat`: group, sort,
      pick, then write one entry per pick. */
  method FallbackDigest(articles: seq<Article>, perCat: nat) returns (digest: seq<Entry>)
    ensures digest == FallbackSpec(articles, perCat)
  {
    var byCat := GroupByCategory(articles);
    byCat := SortGroups(byCat);
    var picks := CollectPicks(articles, byCat, CatOrder, perCat);
    digest := WriteEntries(picks);
  }
}
