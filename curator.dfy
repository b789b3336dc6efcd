/** The digest creator (scraper/curator.py): find the service token, show the
    generative service a condensed view of the articles, turn its reply into digest
    entries, and fall back to the templated digest whenever that yields nothing. */
module Curator {
  import opened Text
  import opened Json
  import opened Base
  import opened Digest
  import opened Fallback

  // ---------------------------------------------------------------------------
  // The service token
  // ---------------------------------------------------------------------------

  /** The process environment. */
  type Env = map<string, string>

  /** `_TOKEN_VARS`, in order of preference. */
  const TokenVars: seq<string> := ["GH_MODELS_TOKEN", "GITHUB_TOKEN"]

  /** `os.environ.get(name, "")` */
  function EnvGet(env: Env, name: string): string {
    if name in env then env[name] else ""
  }

  /** The stripped value of the first of `names` whose stripped value is not empty,
      or "" when there is none. */
  function TokenFrom(env: Env, names: seq<string>): string {
    if names == [] then ""
    else if Strip(EnvGet(env, names[0])) != "" then Strip(EnvGet(env, names[0]))
    else TokenFrom(env, names[1..])
  }

  lemma {:induction false} TokenFromEmpty(env: Env, names: seq<string>)
    ensures TokenFrom(env, names) == ""
        <==> forall i | 0 <= i < |names| :: Strip(EnvGet(env, names[i])) == ""
  {
    if names != [] {
      var rest := names[1..];
      TokenFromEmpty(env, rest);
      assert forall i | 1 <= i < |names| :: names[i] == rest[i - 1];
    }
  }

  lemma {:induction false} TokenFromFirst(env: Env, names: seq<string>)
    requires TokenFrom(env, names) != ""
    ensures exists i | 0 <= i < |names| ::
        && TokenFrom(env, names) == Strip(EnvGet(env, names[i]))
        && forall j | 0 <= j < i :: Strip(EnvGet(env, names[j])) == ""
  {
    var v := Strip(EnvGet(env, names[0]));
    if v != "" {
      assert TokenFrom(env, names) == Strip(EnvGet(env, names[0]));
    } else {
      var rest := names[1..];
      TokenFromFirst(env, rest);
      var i :| 0 <= i < |rest|
        && TokenFrom(env, rest) == Strip(EnvGet(env, rest[i]))
        && forall j | 0 <= j < i :: Strip(EnvGet(env, rest[j])) == "";
      assert names[i + 1] == rest[i];
      forall j | 0 <= j < i + 1
        ensures Strip(EnvGet(env, names[j])) == ""
      {
        if j > 0 {
          assert names[j] == rest[j - 1];
        }
      }
      assert TokenFrom(env, names) == Strip(EnvGet(env, names[i + 1]));
    }
  }

  /** The token is empty exactly when every variable is unset or blank, and
      otherwise it is the stripped value of the first variable that is not. */
  lemma TokenFromIsFirstSet(env: Env, names: seq<string>)
    ensures TokenFrom(env, names) == ""
        <==> forall i | 0 <= i < |names| :: Strip(EnvGet(env, names[i])) == ""
    ensures TokenFrom(env, names) != "" ==>
      exists i | 0 <= i < |names| ::
        && TokenFrom(env, names) == Strip(EnvGet(env, names[i]))
        && forall j | 0 <= j < i :: Strip(EnvGet(env, names[j])) == ""
  {
    TokenFromEmpty(env, names);
    if TokenFrom(env, names) != "" {
      TokenFromFirst(env, names);
    }
  }

  /** `_get_token()` with `_TOKEN_VARS == names`: the first variable holding a
      non-blank value, stripped. */
  method GetToken(env: Env, names: seq<string>) returns (token: string)
    ensures token == TokenFrom(env, names)
  {
    for i := 0 to |names|
      invariant TokenFrom(env, names[i..]) == TokenFrom(env, names)
    {
      var value := Strip(EnvGet(env, names[i]));
      assert names[i..][0] == names[i];
      if value != "" {
        assert TokenFrom(env, names[i..]) == value;
        return value;
      }
      assert names[i..][1..] == names[i + 1..];
      assert TokenFrom(env, names[i..]) == TokenFrom(env, names[i + 1..]);
    }
    return "";
  }

  // ---------------------------------------------------------------------------
  // The condensed view of the articles
  // ---------------------------------------------------------------------------

  /** What the service is shown of one article; `id` is the article's position. */
  datatype Condensed = Condensed(
    id: nat,
    title: string,
    source: string,
    category: string,
    desc: string,
    score: int,
    tags: seq<string>,
    comments: int,
    author: string)

  /** The longest description and the most tags the service is shown. */
  const DescLimit: nat := 500
  const TagLimit: nat := 6

  /** `_condense_articles(articles)` */
  function Condense(articles: seq<Article>): (cs: seq<Condensed>)
    ensures |cs| == |articles|
  {
    seq(|articles|, i requires 0 <= i < |articles| =>
      var a := articles[i];
      Condensed(i, a.title, a.source, a.category, Take(a.description, DescLimit),
        a.score, Take(a.tags, TagLimit), a.commentsCount, a.author))
  }

  /** Each condensed record is its article seen through a narrower window: the id
      is the article's position, the description is cut to its first 500 characters
      and the tags to the first six, and the other fields are copied. */
  lemma CondenseFaithful(articles: seq<Article>)
    ensures forall i | 0 <= i < |articles| ::
      var c := Condense(articles)[i];
      && c.id == i
      && c.title == articles[i].title && c.source == articles[i].source
      && c.category == articles[i].category && c.author == articles[i].author
      && c.score == articles[i].score && c.comments == articles[i].commentsCount
      && |c.desc| == Min(|articles[i].description|, DescLimit)
      && c.desc == articles[i].description[..|c.desc|]
      && |c.tags| == Min(|articles[i].tags|, TagLimit)
      && c.tags == articles[i].tags[..|c.tags|]
  {
  }

  // ---------------------------------------------------------------------------
  // Extracting the JSON array from the reply
  // ---------------------------------------------------------------------------

  /** `re.sub(r"^```(?:json)?\s*\n?", "", text)` on a text that starts with a fence:
      the fence, a `json` tag when one follows, and all white space after them. What
      is removed is the three backquotes, then `json` when the text goes on with it,
      then only white space, up to the first character that is not white space. */
  function DropOpeningFence(t: string): (r: string)
    requires StartsWith(t, "```")
    ensures |r| <= |t| - 3 && r == t[|t| - |r|..]
    ensures r == [] || !IsSpace(r[0])
    ensures var k := if StartsWith(t[3..], "json") then 7 else 3;
      k <= |t| - |r| && AllSpace(t[k..|t| - |r|])
  {
    var rest := t[3..];
    var body := if StartsWith(rest, "json") then rest[4..] else rest;
    LStripSpec(body);
    var k := if StartsWith(rest, "json") then 7 else 3;
    assert body == t[k..];
    var r := LStrip(body);
    assert t[k..|t| - |r|] == body[..|body| - |r|];
    r
  }

  /** A closing fence at `q`: three backquotes followed by nothing but white space. */
  predicate FenceAt(t: string, q: nat) {
    q + 3 <= |t| && t[q..q + 3] == "```" && AllSpace(t[q + 3..])
  }

  /** No fence starts after a closing fence, so a text has at most one. */
  lemma FenceIsLast(t: string, q: nat)
    requires FenceAt(t, q)
    ensures forall p | q < p :: !FenceAt(t, p)
  {
    forall p | q < p
      ensures !FenceAt(t, p)
    {
      if p + 3 <= |t| {
        var k := if p >= q + 3 then p else q + 3;
        assert IsSpace(t[k]) by {
          assert t[q + 3..][k - (q + 3)] == t[k];
        }
        assert t[p..p + 3][k - p] == t[k];
      }
    }
  }

  /** The first closing fence at or after `from`. */
  function FindFence(t: string, from: nat): (r: Option<nat>)
    ensures r.Some? ==> from <= r.value && FenceAt(t, r.value)
    ensures r.None? ==> forall q | from <= q :: !FenceAt(t, q)
    decreases |t| - from
  {
    if from + 3 > |t| then None
    else if FenceAt(t, from) then Some(from)
    else FindFence(t, from + 1)
  }

  /** `re.sub(r"\n?```\s*$", "", text)`: the leftmost match is the closing fence,
      together with the newline before it when there is one. The text is left as it
      is exactly when it has no closing fence; otherwise it is cut at one. */
  function DropClosingFence(t: string): (r: string)
    ensures |r| <= |t| && r == t[..|r|]
    ensures r != t ==> exists q | 0 <= q <= |t| ::
      && FenceAt(t, q)
      && (r == t[..q] || (q > 0 && t[q - 1] == '\n' && r == t[..q - 1]))
    ensures r == t <==> forall q | 0 <= q :: !FenceAt(t, q)
  {
    match FindFence(t, 0)
    case None => t
    case Some(q) => if q > 0 && t[q - 1] == '\n' then t[..q - 1] else t[..q]
  }

  /** Both fences removed, when the text starts with one. */
  function Unfence(t: string): (r: string)
    ensures |r| <= |t|
    ensures Contains(t, r)
  {
    if StartsWith(t, "```") then
      var afterOpening := DropOpeningFence(t);
      var r := DropClosingFence(afterOpening);
      assert r == t[|t| - |afterOpening|..][..|r|];
      assert OccursAt(t, r, |t| - |afterOpening|);
      r
    else
      assert OccursAt(t, t, 0);
      t
  }

  /** `text[:text.rfind("]") + 1]` when there is a `]`: everything after the last one
      is dropped. */
  function CutAfterLastBracket(u: string): (r: string)
    ensures |r| <= |u| && r == u[..|r|]
    ensures ']' in r ==> r[|r| - 1] == ']'
    ensures ']' in u ==> ']' in r
    ensures ']' !in u[|r|..]
    ensures ']' !in u ==> r == u
  {
    var end := RFind(u, ']');
    if end != -1 then u[..end + 1] else u
  }

  /** The text `_parse_json` hands to `json.loads`: stripped, unfenced when it
      starts with a fence, and cut after its last `]`. */
  function PreprocessJson(text: string): string {
    CutAfterLastBracket(Unfence(Strip(text)))
  }

  /** Preprocessing only trims: its result is a contiguous piece of the stripped
      reply; it is a prefix of the unfenced text that ends with a `]` when there is
      one, and what it leaves of that text holds no `]`, so the cut is at the last. */
  lemma PreprocessIsInfix(text: string)
    ensures Contains(Strip(text), PreprocessJson(text))
    ensures var u := Unfence(Strip(text)); var r := PreprocessJson(text);
      && |r| <= |u| && r == u[..|r|]
      && (']' in u ==> |r| > 0 && r[|r| - 1] == ']')
      && ']' !in u[|r|..]
  {
    var u := Unfence(Strip(text));
    var r := PreprocessJson(text);
    assert OccursAt(u, r, 0);
    ContainsWitness(u, r, 0);
    ContainsTrans(Strip(text), u, r);
  }

  /** A bare array is passed on unchanged. */
  lemma PreprocessBareArray(a: string)
    requires |a| >= 2 && a[0] == '[' && a[|a| - 1] == ']'
    ensures PreprocessJson(a) == a
  {
    StripUnchanged(a);
    assert !StartsWith(a, "```") by {
      assert |a| < 3 || a[..3][0] == '[';
    }
    assert Unfence(a) == a;
    assert RFind(a, ']') == |a| - 1;
    assert a[..|a|] == a;
  }

  /** Prose after the array is cut off, as long as it holds no `]`; white space
      at its end goes with the strip. */
  lemma PreprocessDropsTrailingProse(a: string, prose: string)
    requires |a| >= 2 && a[0] == '[' && a[|a| - 1] == ']'
    requires ']' !in prose
    ensures PreprocessJson(a + prose) == a
  {
    RStripAppend(a, prose);
    RStripSpec(prose);
    var p := RStrip(prose);
    assert ']' !in p by {
      assert forall j | 0 <= j < |p| :: p[j] == prose[j];
    }
    var u := a + p;
    assert Strip(a + prose) == u by {
      assert u[0] == '[';
    }
    assert !StartsWith(u, "```") by {
      assert u[0] == '[';
    }
    CutAfterArray(a, p);
  }

  /** An array followed by text without `]` is cut back to the array. */
  lemma CutAfterArray(a: string, p: string)
    requires |a| >= 1 && a[|a| - 1] == ']' && ']' !in p
    ensures CutAfterLastBracket(a + p) == a
  {
    var u := a + p;
    assert u[|a| - 1] == ']';
    assert forall j | |a| <= j < |u| :: u[j] == p[j - |a|];
    var r := CutAfterLastBracket(u);
    assert |r| >= |a| by {
      assert ']' !in u[|r|..];
    }
    assert u[..|a|] == a;
  }

  /** The opening fence, its tag and the newline after it are dropped. */
  lemma OpeningFenceDropped(a: string, tag: string)
    requires |a| >= 1 && !IsSpace(a[0])
    requires tag == "json" || tag == ""
    ensures StartsWith("```" + tag + "\n" + a + "\n```", "```")
    ensures DropOpeningFence("```" + tag + "\n" + a + "\n```") == a + "\n```"
  {
    var t := "```" + tag + "\n" + a + "\n```";
    assert t[..3] == "```";
    var rest := t[3..];
    assert rest == tag + "\n" + a + "\n```";
    var body := "\n" + a + "\n```";
    if tag == "json" {
      assert rest[..4] == "json";
      assert rest[4..] == body;
    } else {
      assert rest[0] == '\n';
      assert !StartsWith(rest, "json");
      assert rest == body;
    }
    var afterOpening := a + "\n```";
    assert body[0] == '\n' && body[1..] == afterOpening;
    assert LStrip(body) == LStrip(afterOpening);
    assert afterOpening[0] == a[0];
    assert LStrip(afterOpening) == afterOpening;
  }

  /** A text ending in a newline and a fence loses exactly those. */
  lemma ClosingFenceDropped(a: string)
    ensures DropClosingFence(a + "\n```") == a
  {
    var t := a + "\n```";
    var q := |a| + 1;
    assert t[q..q + 3] == "```" && t[q + 3..] == [];
    assert FenceAt(t, q);
    var found := FindFence(t, 0);
    FenceIsLast(t, q);
    FenceIsLast(t, found.value);
    assert found.value == q;
    assert t[q - 1] == '\n';
    assert t[..q - 1] == a;
  }

  /** A reply wrapped in a Markdown fence, with or without the `json` tag, gives
      back the array inside. */
  lemma PreprocessDropsFences(a: string, tag: string)
    requires |a| >= 2 && a[0] == '[' && a[|a| - 1] == ']'
    requires tag == "json" || tag == ""
    ensures PreprocessJson("```" + tag + "\n" + a + "\n```") == a
  {
    var t := "```" + tag + "\n" + a + "\n```";
    assert t[0] == '`' && t[|t| - 1] == '`';
    StripUnchanged(t);
    OpeningFenceDropped(a, tag);
    ClosingFenceDropped(a);
    assert Unfence(t) == a;
    assert RFind(a, ']') == |a| - 1;
    assert a[..|a|] == a;
  }

  // ---------------------------------------------------------------------------
  // Turning the parsed reply into entries
  // ---------------------------------------------------------------------------

  /** The articles that the ids of a `source_ids` list point at, in order: an id
      counts when it is an `int` (a boolean is one) within range. */
  function RefsOf(ids: seq<JsonValue>, articles: seq<Article>): (refs: seq<SourceRef>)
    ensures |refs| <= |ids|
  {
    if ids == [] then []
    else
      var sid := ids[|ids| - 1];
      RefsOf(ids[..|ids| - 1], articles)
      + (if IsPyInt(sid) && 0 <= PyIntValue(sid) < |articles|
         then [RefOf(articles[PyIntValue(sid)])] else [])
  }

  /** Every resolved source is one of the articles. */
  lemma {:induction false} RefsOfAreArticles(ids: seq<JsonValue>, articles: seq<Article>)
    ensures forall r | r in RefsOf(ids, articles) :: exists k | 0 <= k < |articles| :: r == RefOf(articles[k])
  {
    if ids != [] {
      var n := |ids| - 1;
      RefsOfAreArticles(ids[..n], articles);
    }
  }

  /** Iterating over a `source_ids` value: a list gives its elements, a string its
      characters and an object its keys (neither of which is ever an `int`); any
      other value is not iterable, which raises. */
  function ResolveIds(ids: JsonValue, articles: seq<Article>): Option<seq<SourceRef>> {
    match ids
    case JArr(items) => Some(RefsOf(items, articles))
    case JStr(_) => Some([])
    case JObj(_) => Some([])
    case _ => None
  }

  /** The entry `_enrich_entries` writes for one element of the parsed reply, or
      `None` when building it raises: the element is not an object, its
      `source_ids` is not iterable, or its category cannot be a dictionary key. */
  function EnrichOne(entry: JsonValue, articles: seq<Article>): Option<Entry> {
    if !entry.JObj? then None
    else
      var f := entry.fields;
      var cat := Get(f, "category", JStr("general"));
      var sources := ResolveIds(Get(f, "source_ids", JArr([])), articles);
      if sources.None? || !IsHashable(cat) then None
      else
        Some(Entry(
          Get(f, "title_en", JStr("")), Get(f, "title_pt", JStr("")),
          Get(f, "body_en", JStr("")), Get(f, "body_pt", JStr("")),
          cat, EmojiFor(cat), sources.value))
  }

  /** `_enrich_entries(raw, articles)`, or `None` when it raises. */
  function Enrich(raw: seq<JsonValue>, articles: seq<Article>): Option<seq<Entry>> {
    if raw == [] then Some([])
    else
      match Enrich(raw[..|raw| - 1], articles)
      case None => None
      case Some(done) =>
        match EnrichOne(raw[|raw| - 1], articles)
        case None => None
        case Some(e) => Some(done + [e])
  }

  /** Enrichment is all or nothing, one entry per element and in order. */
  lemma {:induction false} EnrichAllOrNothing(raw: seq<JsonValue>, articles: seq<Article>)
    ensures Enrich(raw, articles).Some?
        <==> forall i | 0 <= i < |raw| :: EnrichOne(raw[i], articles).Some?
    ensures Enrich(raw, articles).Some? ==>
      && |Enrich(raw, articles).value| == |raw|
      && forall i | 0 <= i < |raw| ::
           Some(Enrich(raw, articles).value[i]) == EnrichOne(raw[i], articles)
  {
    if raw != [] {
      var n := |raw| - 1;
      EnrichAllOrNothing(raw[..n], articles);
      assert forall i | 0 <= i < n :: raw[..n][i] == raw[i];
    }
  }

  lemma {:induction false} EnrichFailureSticks(raw: seq<JsonValue>, articles: seq<Article>, n: nat)
    requires n <= |raw| && Enrich(raw[..n], articles).None?
    ensures Enrich(raw, articles).None?
  {
    if n < |raw| {
      assert raw[..|raw| - 1][..n] == raw[..n];
      EnrichFailureSticks(raw[..|raw| - 1], articles, n);
    } else {
      assert raw[..n] == raw;
    }
  }

  /** The ways one element makes the whole enrichment raise. */
  lemma EnrichOneFails(entry: JsonValue, articles: seq<Article>)
    ensures EnrichOne(entry, articles).None? <==>
      || !entry.JObj?
      || (var cat := Get(entry.fields, "category", JStr("general"));
          cat.JArr? || cat.JObj?)
      || (var ids := Get(entry.fields, "source_ids", JArr([]));
          ids.JNull? || ids.JBool? || ids.JInt? || ids.JFloat?)
  {
  }

  /** An empty object becomes an entry of category "general" with empty texts and
      no sources. */
  lemma EnrichOneDefaults(articles: seq<Article>)
    ensures EnrichOne(JObj(map[]), articles)
         == Some(Entry(JStr(""), JStr(""), JStr(""), JStr(""), JStr("general"), "\U{1F4CC}", []))
  {
  }

  /** A list of in-range integer ids, booleans included, resolves to those
      articles, in order. */
  lemma {:induction false} RefsOfValidIds(ids: seq<JsonValue>, articles: seq<Article>)
    requires forall m | 0 <= m < |ids| :: IsPyInt(ids[m]) && 0 <= PyIntValue(ids[m]) < |articles|
    ensures |RefsOf(ids, articles)| == |ids|
    ensures forall m | 0 <= m < |ids| :: RefsOf(ids, articles)[m] == RefOf(articles[PyIntValue(ids[m])])
  {
    if ids != [] {
      var n := |ids| - 1;
      var prefix := ids[..n];
      assert forall m | 0 <= m < n :: prefix[m] == ids[m];
      RefsOfValidIds(prefix, articles);
      var front := RefsOf(prefix, articles);
      var last := RefOf(articles[PyIntValue(ids[n])]);
      assert RefsOf(ids, articles) == front + [last];
      ValidRefsSnoc(ids, articles, front, last);
    }
  }

  lemma ValidRefsSnoc(ids: seq<JsonValue>, articles: seq<Article>, front: seq<SourceRef>, last: SourceRef)
    requires ids != [] && |front| == |ids| - 1
    requires forall m | 0 <= m < |ids| :: IsPyInt(ids[m]) && 0 <= PyIntValue(ids[m]) < |articles|
    requires forall m | 0 <= m < |front| :: front[m] == RefOf(articles[PyIntValue(ids[m])])
    requires last == RefOf(articles[PyIntValue(ids[|ids| - 1])])
    ensures forall m | 0 <= m < |ids| :: (front + [last])[m] == RefOf(articles[PyIntValue(ids[m])])
  {
  }

  /** Ids resolve one at a time: the sources of two lists one after the other are
      the sources of the first followed by those of the second. */
  lemma {:induction false} RefsOfAppend(a: seq<JsonValue>, b: seq<JsonValue>, articles: seq<Article>)
    ensures RefsOf(a + b, articles) == RefsOf(a, articles) + RefsOf(b, articles)
    decreases |b|
  {
    if b == [] {
      assert a + b == a;
    } else {
      var n := |b| - 1;
      assert (a + b)[..|a + b| - 1] == a + b[..n];
      assert (a + b)[|a + b| - 1] == b[n];
      RefsOfAppend(a, b[..n], articles);
    }
  }

  /** Ids that are not integers, or out of range, contribute nothing. */
  lemma {:induction false} RefsOfInvalidIds(ids: seq<JsonValue>, articles: seq<Article>)
    requires forall m | 0 <= m < |ids| :: !IsPyInt(ids[m]) || !(0 <= PyIntValue(ids[m]) < |articles|)
    ensures RefsOf(ids, articles) == []
  {
    if ids != [] {
      var n := |ids| - 1;
      assert forall m | 0 <= m < n :: ids[..n][m] == ids[m];
      RefsOfInvalidIds(ids[..n], articles);
    }
  }

  /** `true` is the integer 1, so it names the second article. */
  lemma RefsOfBoolId(articles: seq<Article>)
    requires |articles| >= 2
    ensures RefsOf([JBool(true), JBool(false)], articles) == [RefOf(articles[1]), RefOf(articles[0])]
  {
    assert [JBool(true), JBool(false)][..1] == [JBool(true)];
  }

  /** The inner loop of `_enrich_entries`: keep the in-range integer ids of a list,
      as references to their articles. */
  method ResolveSourceIds(items: seq<JsonValue>, articles: seq<Article>) returns (sources: seq<SourceRef>)
    ensures sources == RefsOf(items, articles)
  {
    sources := [];
    for k := 0 to |items|
      invariant sources == RefsOf(items[..k], articles)
    {
      assert items[..k + 1][..k] == items[..k];
      var sid := items[k];
      if IsPyInt(sid) && 0 <= PyIntValue(sid) < |articles| {
        sources := sources + [RefOf(articles[PyIntValue(sid)])];
      }
    }
    assert items[..|items|] == items;
  }

  /** The body of the loop of `_enrich_entries` for one element; `None` when it
      raises. */
  method EnrichEntry(entry: JsonValue, articles: seq<Article>) returns (r: Option<Entry>)
    ensures r == EnrichOne(entry, articles)
  {
    if !entry.JObj? {
      return None;
    }
    var fields := entry.fields;
    var cat := Get(fields, "category", JStr("general"));
    var ids := Get(fields, "source_ids", JArr([]));
    var sources: seq<SourceRef>;
    match ids {
      case JArr(items) =>
        sources := ResolveSourceIds(items, articles);
      case JStr(_) =>
        sources := [];
      case JObj(_) =>
        sources := [];
      case _ =>
        return None;
    }
    if !IsHashable(cat) {
      return None;
    }
    return Some(Entry(
      Get(fields, "title_en", JStr("")), Get(fields, "title_pt", JStr("")),
      Get(fields, "body_en", JStr("")), Get(fields, "body_pt", JStr("")),
      cat, EmojiFor(cat), sources));
  }

  /** `_enrich_entries`: walk the reply, resolve each entry's ids against the
      articles and attach the emoji; `None` when it raises. */
  method EnrichEntries(raw: seq<JsonValue>, articles: seq<Article>) returns (r: Option<seq<Entry>>)
    ensures r == Enrich(raw, articles)
  {
    var digest: seq<Entry> := [];
    for i := 0 to |raw|
      invariant Enrich(raw[..i], articles) == Some(digest)
    {
      assert raw[..i + 1][..i] == raw[..i];
      var entry := EnrichEntry(raw[i], articles);
      if entry.None? {
        EnrichFailureSticks(raw, articles, i + 1);
        return None;
      }
      digest := digest + [entry.value];
    }
    assert raw[..|raw|] == raw;
    return Some(digest);
  }

  // ---------------------------------------------------------------------------
  // The service call and the routing
  // ---------------------------------------------------------------------------

  /** The generative service: the content of the model's reply to the condensed
      articles sent with the token, or `None` when the request fails in any way
      (transport error, error status, a reply without the expected shape). */
  type Service = (seq<Condensed>, string) -> Option<string>

  /** `json.loads`: `None` when the text is not valid JSON. */
  type Parser = string -> Option<JsonValue>

  /** What `_call_ai` returns. Every failure is caught and gives []; so does a
      parsed reply that is not a list, since measuring or walking it either raises
      or yields no entry. */
  function AiDigest(
    condensed: seq<Condensed>, articles: seq<Article>, token: string,
    service: Service, parse: Parser): seq<Entry>
  {
    match service(condensed, token)
    case None => []
    case Some(content) =>
      match parse(PreprocessJson(content))
      case None => []
      case Some(v) =>
        if !v.JArr? then []
        else
          match Enrich(v.items, articles)
          case None => []
          case Some(entries) => entries
  }

  /** `_call_ai(condensed, articles, token)` */
  method CallAi(
    condensed: seq<Condensed>, articles: seq<Article>, token: string,
    service: Service, parse: Parser) returns (entries: seq<Entry>)
    ensures entries == AiDigest(condensed, articles, token, service, parse)
  {
    var reply := service(condensed, token);
    if reply.None? {
      return [];
    }
    var parsed := parse(PreprocessJson(reply.value));
    if parsed.None? || !parsed.value.JArr? {
      return [];
    }
    var enriched := EnrichEntries(parsed.value.items, articles);
    if enriched.None? {
      return [];
    }
    return enriched.value;
  }

  /** The sources of one enriched element are articles. */
  lemma EnrichOneSources(entry: JsonValue, articles: seq<Article>)
    ensures EnrichOne(entry, articles).Some? ==>
      forall s | s in EnrichOne(entry, articles).value.sources ::
        exists k | 0 <= k < |articles| :: s == RefOf(articles[k])
  {
    if EnrichOne(entry, articles).Some? {
      var ids := Get(entry.fields, "source_ids", JArr([]));
      if ids.JArr? {
        RefsOfAreArticles(ids.items, articles);
        assert EnrichOne(entry, articles).value.sources == RefsOf(ids.items, articles);
      }
    }
  }

  /** The sources of every enriched entry are articles. */
  lemma {:induction false} EnrichSources(raw: seq<JsonValue>, articles: seq<Article>)
    ensures Enrich(raw, articles).Some? ==>
      forall e, s | e in Enrich(raw, articles).value && s in e.sources ::
        exists k | 0 <= k < |articles| :: s == RefOf(articles[k])
  {
    if raw != [] && Enrich(raw, articles).Some? {
      var n := |raw| - 1;
      EnrichSources(raw[..n], articles);
      EnrichOneSources(raw[n], articles);
      var done := Enrich(raw[..n], articles).value;
      assert Enrich(raw, articles).value == done + [EnrichOne(raw[n], articles).value];
    }
  }

  /** Every source an entry of the service's digest lists is one of the articles. */
  lemma AiDigestSourcesAreArticles(
    condensed: seq<Condensed>, articles: seq<Article>, token: string,
    service: Service, parse: Parser)
    ensures forall e, s | e in AiDigest(condensed, articles, token, service, parse) && s in e.sources ::
      exists k | 0 <= k < |articles| :: s == RefOf(articles[k])
  {
    var reply := service(condensed, token);
    if reply.Some? {
      var parsed := parse(PreprocessJson(reply.value));
      if parsed.Some? && parsed.value.JArr? {
        EnrichSources(parsed.value.items, articles);
      }
    }
  }

  /** `create_digest(articles)` with `AI_CONFIG["enabled"] == enabled` and
      `FALLBACK_PER_CAT == perCat`: the service's entries when a token is set, the
      service is enabled and it produced entries; the fallback digest otherwise. */
  function Curate(
    articles: seq<Article>, token: string, enabled: bool, perCat: nat,
    service: Service, parse: Parser): seq<Entry>
  {
    if token == "" || !enabled then FallbackSpec(articles, perCat)
    else
      var ai := AiDigest(Condense(articles), articles, token, service, parse);
      if ai == [] then FallbackSpec(articles, perCat) else ai
  }

  /** `create_digest(articles)` */
  method CreateDigest(
    articles: seq<Article>, env: Env, enabled: bool, perCat: nat,
    service: Service, parse: Parser) returns (digest: seq<Entry>)
    ensures digest == Curate(articles, TokenFrom(env, TokenVars), enabled, perCat, service, parse)
  {
    var token := GetToken(env, TokenVars);
    if token == "" || !enabled {
      digest := FallbackDigest(articles, perCat);
      return;
    }
    var condensed := Condense(articles);
    digest := CallAi(condensed, articles, token, service, parse);
    if digest == [] {
      digest := FallbackDigest(articles, perCat);
    }
  }

  /** Without a token, or with the service disabled, the service is never asked:
      the digest is the fallback digest whatever the service would answer. */
  lemma CurateWithoutService(
    articles: seq<Article>, token: string, enabled: bool, perCat: nat,
    service1: Service, parse1: Parser, service2: Service, parse2: Parser)
    requires token == "" || !enabled
    ensures Curate(articles, token, enabled, perCat, service1, parse1) == FallbackSpec(articles, perCat)
    ensures Curate(articles, token, enabled, perCat, service1, parse1)
         == Curate(articles, token, enabled, perCat, service2, parse2)
  {
  }

  /** A service that always fails leaves the fallback digest. */
  lemma CurateServiceDown(
    articles: seq<Article>, token: string, enabled: bool, perCat: nat,
    service: Service, parse: Parser)
    requires forall c, t :: service(c, t).None?
    ensures Curate(articles, token, enabled, perCat, service, parse) == FallbackSpec(articles, perCat)
  {
  }

  /** The digest is empty only when the fallback digest is: when the cap is 0 or no
      article carries a category of `_CAT_ORDER`. */
  lemma CurateEmpty(
    articles: seq<Article>, token: string, enabled: bool, perCat: nat,
    service: Service, parse: Parser)
    ensures Curate(articles, token, enabled, perCat, service, parse) == [] ==>
      perCat == 0 || forall a | a in articles :: a.category !in CatOrder
  {
    FallbackEmptyIff(articles, perCat);
  }

  /** Whichever way the digest is produced, every source it lists is one of the
      articles it was made from. */
  lemma CurateSourcesAreArticles(
    articles: seq<Article>, token: string, enabled: bool, perCat: nat,
    service: Service, parse: Parser)
    ensures forall e, s | e in Curate(articles, token, enabled, perCat, service, parse) && s in e.sources ::
      exists k | 0 <= k < |articles| :: s == RefOf(articles[k])
  {
    AiDigestSourcesAreArticles(Condense(articles), articles, token, service, parse);
    FallbackSourcesAreArticles(articles, perCat);
  }
}
