/** The normalised article record every feed produces, its dictionary form, and
    the interface of a feed scraper (scraper/sources/base.py). */
module Base {
  import opened Json
  import opened Text

  /** One piece of content. `fetchedAt` is the creation time in ISO form. */
  datatype Article = Article(
    title: string,
    url: string,
    source: string,
    description: string,
    author: string,
    tags: seq<string>,
    category: string,
    score: int,
    commentsCount: int,
    readingTimeMin: int,
    publishedAt: string,
    fetchedAt: string,
    language: string)

  /** The dataclass fields, in declaration order. */
  datatype Field =
    | Title | Url | Source | Description | Author | Tags | Category
    | Score | CommentsCount | ReadingTimeMin | PublishedAt | FetchedAt | Language

  /** The Python name of each field, the key `asdict` gives it. */
  function FieldName(f: Field): string {
    match f
    case Title => "title"
    case Url => "url"
    case Source => "source"
    case Description => "description"
    case Author => "author"
    case Tags => "tags"
    case Category => "category"
    case Score => "score"
    case CommentsCount => "comments_count"
    case ReadingTimeMin => "reading_time_min"
    case PublishedAt => "published_at"
    case FetchedAt => "fetched_at"
    case Language => "language"
  }

  /** A string that names no field. */
  type OtherName = s: string | forall f :: FieldName(f) != s witness ""

  /** A key of an article dictionary: the name of a field, or any other string. */
  datatype Key = FieldKey(field: Field) | Other(name: OtherName)

  /** The string a key stands for. */
  function KeyName(k: Key): string {
    match k
    case FieldKey(f) => FieldName(f)
    case Other(name) => name
  }

  lemma FieldNameInjective(f: Field, g: Field)
    requires FieldName(f) == FieldName(g)
    ensures f == g
  {
  }

  /** Distinct keys stand for distinct strings, so a dictionary over keys is a
      dictionary over strings. */
  lemma KeyNameInjective(k: Key, l: Key)
    requires KeyName(k) == KeyName(l)
    ensures k == l
  {
    if k.FieldKey? && l.FieldKey? {
      FieldNameInjective(k.field, l.field);
    }
  }

  /** An article dictionary, as `asdict` writes it and `from_dict` reads it. */
  type Dict = map<Key, JsonValue>

  /** The fields without a default: the constructor's positional parameters. */
  const RequiredFields: seq<Field> := [Title, Url, Source]

  /** `Article(title, url, source)` built at time `now`: every other field takes its
      dataclass default. */
  function NewArticle(title: string, url: string, source: string, now: string): Article {
    Article(title, url, source, "", "", [], "general", 0, 0, 0, "", now, "en")
  }

  const AllFields: set<Field> := {
    Title, Url, Source, Description, Author, Tags, Category,
    Score, CommentsCount, ReadingTimeMin, PublishedAt, FetchedAt, Language}

  /** The value `asdict` stores for one field. */
  function FieldValue(a: Article, f: Field): JsonValue {
    match f
    case Title => JStr(a.title)
    case Url => JStr(a.url)
    case Source => JStr(a.source)
    case Description => JStr(a.description)
    case Author => JStr(a.author)
    case Tags => StrArray(a.tags)
    case Category => JStr(a.category)
    case Score => JInt(a.score)
    case CommentsCount => JInt(a.commentsCount)
    case ReadingTimeMin => JInt(a.readingTimeMin)
    case PublishedAt => JStr(a.publishedAt)
    case FetchedAt => JStr(a.fetchedAt)
    case Language => JStr(a.language)
  }

  /** `dataclasses.asdict(a)`: one entry per field, keyed by the field's name. */
  function ToDict(a: Article): (d: Dict)
    ensures forall k :: k in d ==> k.FieldKey?
  {
    map f | f in AllFields :: FieldKey(f) := FieldValue(a, f)
  }

  /** Why building an article from a dictionary fails. */
  datatype DictError =
    /** `TypeError`: these positional parameters have no value, in declaration order. */
    | MissingArguments(names: seq<string>)
    /** A field holds a value of another type than the field's. */
    | IllTyped

  datatype Result<T> = Ok(value: T) | Err(error: DictError)

  datatype Option<T> = None | Some(value: T)

  /** The value type each field expects. */
  predicate FitsField(f: Field, v: JsonValue) {
    match f
    case Score | CommentsCount | ReadingTimeMin => v.JInt?
    case Tags => v.JArr? && forall i :: 0 <= i < |v.items| ==> v.items[i].JStr?
    case _ => v.JStr?
  }

  /** The names of the fields in `fields` that `data` lacks, in order. */
  function Missing(data: Dict, fields: seq<Field>): (r: seq<string>)
    ensures |r| <= |fields|
    ensures r == [] <==> forall f :: f in fields ==> FieldKey(f) in data
  {
    if fields == [] then []
    else
      (if FieldKey(fields[0]) in data then [] else [FieldName(fields[0])])
      + Missing(data, fields[1..])
  }

  /** Every field present in `data` holds a value of its field's type. */
  predicate WellTyped(data: Dict) {
    forall f :: FieldKey(f) in data ==> FitsField(f, data[FieldKey(f)])
  }

  function StrOr(data: Dict, f: Field, default: string): string {
    if FieldKey(f) in data && data[FieldKey(f)].JStr? then data[FieldKey(f)].s else default
  }

  function IntOr(data: Dict, f: Field, default: int): int {
    if FieldKey(f) in data && data[FieldKey(f)].JInt? then data[FieldKey(f)].i else default
  }

  function StrsOr(data: Dict, f: Field): seq<string> {
    if FieldKey(f) in data && data[FieldKey(f)].JArr? then
      var items := data[FieldKey(f)].items;
      seq(|items|, i requires 0 <= i < |items| => if items[i].JStr? then items[i].s else "")
    else []
  }

  /** The dictionary without the keys that are not field names. */
  function KnownOnly(data: Dict): (known: Dict)
    ensures forall k :: k in known <==> k in data && k.FieldKey?
    ensures forall k :: k in known ==> known[k] == data[k]
  {
    map k | k in data && k.FieldKey? :: data[k]
  }

  /** `Article.from_dict(data)`: the keys that name fields become keyword arguments
      of the constructor (every lookup below is of a field, so the other keys are
      never read); `now` is the clock reading `fetched_at` defaults to. */
  function FromDict(data: Dict, now: string): Result<Article> {
    var missing := Missing(data, RequiredFields);
    if missing != [] then Err(MissingArguments(missing))
    else if !WellTyped(data) then Err(IllTyped)
    else
      Ok(Article(
        StrOr(data, Title, ""), StrOr(data, Url, ""), StrOr(data, Source, ""),
        StrOr(data, Description, ""), StrOr(data, Author, ""),
        StrsOr(data, Tags), StrOr(data, Category, "general"),
        IntOr(data, Score, 0), IntOr(data, CommentsCount, 0),
        IntOr(data, ReadingTimeMin, 0), StrOr(data, PublishedAt, ""),
        StrOr(data, FetchedAt, now), StrOr(data, Language, "en")))
  }

  lemma {:induction false} MissingOnKnown(data: Dict, fields: seq<Field>)
    ensures Missing(KnownOnly(data), fields) == Missing(data, fields)
  {
    if fields != [] {
      MissingOnKnown(data, fields[1..]);
    }
  }

  /** Keys that are not field names never change the outcome. */
  lemma FromDictIgnoresUnknownKeys(data: Dict, now: string)
    ensures FromDict(data, now) == FromDict(KnownOnly(data), now)
  {
    MissingOnKnown(data, RequiredFields);
  }

  /** The value `from_dict` gives one field present in a well-typed dictionary is the
      dictionary's own value for it. */
  lemma FromDictPresentField(data: Dict, now: string, f: Field)
    requires Missing(data, RequiredFields) == [] && WellTyped(data)
    requires FieldKey(f) in data
    ensures FromDict(data, now).Ok?
    ensures FieldValue(FromDict(data, now).value, f) == data[FieldKey(f)]
  {
    assert FitsField(f, data[FieldKey(f)]);
    if f == Tags {
      var v := data[FieldKey(Tags)];
      var w := StrArray(StrsOr(data, Tags));
      assert forall i | 0 <= i < |v.items| :: w.items[i] == v.items[i];
      assert w.items == v.items;
    }
  }

  /** A well-typed dictionary with every required field builds an article: each field
      the dictionary holds takes the dictionary's value (so `from_dict` inverts the
      `asdict` projection), and each optional field it lacks takes the dataclass
      default, the one `Article(title, url, source)` gives. */
  lemma FromDictFieldValues(data: Dict, now: string)
    requires Missing(data, RequiredFields) == [] && WellTyped(data)
    ensures FromDict(data, now).Ok?
    ensures forall f :: FieldKey(f) in data ==>
      FieldValue(FromDict(data, now).value, f) == data[FieldKey(f)]
    ensures forall f :: f !in RequiredFields && FieldKey(f) !in data ==>
      FieldValue(FromDict(data, now).value, f) == FieldValue(NewArticle("", "", "", now), f)
  {
    forall f | FieldKey(f) in data
      ensures FieldValue(FromDict(data, now).value, f) == data[FieldKey(f)]
    {
      FromDictPresentField(data, now, f);
    }
    forall f | f !in RequiredFields && FieldKey(f) !in data
      ensures FieldValue(FromDict(data, now).value, f) == FieldValue(NewArticle("", "", "", now), f)
    {
      FromDictAbsentField(data, now, f);
    }
  }

  /** The value `from_dict` gives one optional field a well-typed dictionary lacks is
      that field's dataclass default. */
  lemma FromDictAbsentField(data: Dict, now: string, f: Field)
    requires Missing(data, RequiredFields) == [] && WellTyped(data)
    requires f !in RequiredFields && FieldKey(f) !in data
    ensures FromDict(data, now).Ok?
    ensures FieldValue(FromDict(data, now).value, f) == FieldValue(NewArticle("", "", "", now), f)
  {
    if f == Tags {
      assert StrArray([]).items == [];
    }
  }

  lemma StrArrayInjective(ss: seq<string>, ts: seq<string>)
    requires StrArray(ss) == StrArray(ts)
    ensures ss == ts
  {
    assert forall i | 0 <= i < |ss| :: StrArray(ss).items[i] == StrArray(ts).items[i];
  }

  /** Two articles with the same `asdict` value for every field are equal. */
  lemma FieldValuesDetermine(a: Article, b: Article)
    requires forall f :: FieldValue(a, f) == FieldValue(b, f)
    ensures a == b
  {
    assert FieldValue(a, Tags) == FieldValue(b, Tags);
    StrArrayInjective(a.tags, b.tags);
    assert FieldValue(a, Title) == FieldValue(b, Title);
    assert FieldValue(a, Url) == FieldValue(b, Url);
    assert FieldValue(a, Source) == FieldValue(b, Source);
    assert FieldValue(a, Description) == FieldValue(b, Description);
    assert FieldValue(a, Author) == FieldValue(b, Author);
    assert FieldValue(a, Category) == FieldValue(b, Category);
    assert FieldValue(a, Score) == FieldValue(b, Score);
    assert FieldValue(a, CommentsCount) == FieldValue(b, CommentsCount);
    assert FieldValue(a, ReadingTimeMin) == FieldValue(b, ReadingTimeMin);
    assert FieldValue(a, PublishedAt) == FieldValue(b, PublishedAt);
    assert FieldValue(a, FetchedAt) == FieldValue(b, FetchedAt);
    assert FieldValue(a, Language) == FieldValue(b, Language);
  }

  /** The dictionary of the three required fields. */
  function RequiredOnly(title: string, url: string, source: string): Dict {
    map[FieldKey(Title) := JStr(title), FieldKey(Url) := JStr(url), FieldKey(Source) := JStr(source)]
  }

  lemma RequiredOnlyFacts(title: string, url: string, source: string)
    ensures var d := RequiredOnly(title, url, source);
      && Missing(d, RequiredFields) == [] && WellTyped(d)
      && (forall f | FieldKey(f) in d :: f == Title || f == Url || f == Source)
      && StrOr(d, Title, "") == title && StrOr(d, Url, "") == url && StrOr(d, Source, "") == source
  {
    var d := RequiredOnly(title, url, source);
    forall f | FieldKey(f) in d
      ensures f == Title || f == Url || f == Source
    {
    }
  }

  /** A dictionary holding only the three required fields gives every other field
      its default. */
  lemma FromDictDefaults(title: string, url: string, source: string, now: string)
    ensures FromDict(RequiredOnly(title, url, source), now) == Ok(NewArticle(title, url, source, now))
  {
    var d := RequiredOnly(title, url, source);
    RequiredOnlyFacts(title, url, source);
    forall f
      ensures FieldValue(FromDict(d, now).value, f) == FieldValue(NewArticle(title, url, source, now), f)
    {
      RequiredOnlyField(title, url, source, now, f);
    }
    FieldValuesDetermine(FromDict(d, now).value, NewArticle(title, url, source, now));
  }

  lemma RequiredOnlyField(title: string, url: string, source: string, now: string, f: Field)
    ensures FromDict(RequiredOnly(title, url, source), now).Ok?
    ensures FieldValue(FromDict(RequiredOnly(title, url, source), now).value, f)
         == FieldValue(NewArticle(title, url, source, now), f)
  {
    var d := RequiredOnly(title, url, source);
    RequiredOnlyFacts(title, url, source);
    if f == Title || f == Url || f == Source {
      FromDictPresentField(d, now, f);
    } else {
      assert FieldKey(f) !in d;
      FromDictAbsentField(d, now, f);
    }
  }

  /** Leaving out a field that has no default fails, and the error names exactly the
      absent ones, in declaration order. */
  lemma FromDictMissingRequired(data: Dict, now: string)
    requires FieldKey(Title) !in data || FieldKey(Url) !in data || FieldKey(Source) !in data
    ensures FromDict(data, now).Err?
    ensures FromDict(data, now).error.MissingArguments?
    ensures FromDict(data, now).error.names
         == (if FieldKey(Title) in data then [] else ["title"])
          + (if FieldKey(Url) in data then [] else ["url"])
          + (if FieldKey(Source) in data then [] else ["source"])
  {
    var rest := RequiredFields[1..];
    assert rest == [Url, Source] && rest[1..] == [Source] && rest[1..][1..] == [];
    assert Missing(data, RequiredFields)
        == (if FieldKey(Title) in data then [] else ["title"]) + Missing(data, rest);
    assert Missing(data, rest)
        == (if FieldKey(Url) in data then [] else ["url"]) + Missing(data, rest[1..]);
  }

  lemma ToDictWellTyped(a: Article)
    ensures WellTyped(ToDict(a))
  {
    var d := ToDict(a);
    forall f | FieldKey(f) in d
      ensures FitsField(f, d[FieldKey(f)])
    {
      assert d[FieldKey(f)] == FieldValue(a, f);
    }
  }

  lemma ToDictTags(a: Article)
    ensures StrsOr(ToDict(a), Tags) == a.tags
  {
    assert FieldKey(Tags) in ToDict(a);
  }

  /** `Article.from_dict(a.to_dict())` rebuilds `a` field for field. */
  lemma {:induction false} FromDictToDict(a: Article, now: string)
    ensures FromDict(ToDict(a), now) == Ok(a)
  {
    var d := ToDict(a);
    ToDictWellTyped(a);
    ToDictTags(a);
    assert Missing(d, RequiredFields) == [];
    ToDictFields(a);
  }

  lemma ToDictFields(a: Article)
    ensures StrOr(ToDict(a), Title, "") == a.title
    ensures StrOr(ToDict(a), Url, "") == a.url
    ensures StrOr(ToDict(a), Source, "") == a.source
    ensures StrOr(ToDict(a), Description, "") == a.description
    ensures StrOr(ToDict(a), Author, "") == a.author
    ensures StrOr(ToDict(a), Category, "general") == a.category
    ensures IntOr(ToDict(a), Score, 0) == a.score
    ensures IntOr(ToDict(a), CommentsCount, 0) == a.commentsCount
    ensures IntOr(ToDict(a), ReadingTimeMin, 0) == a.readingTimeMin
    ensures StrOr(ToDict(a), PublishedAt, "") == a.publishedAt
    ensures forall now :: StrOr(ToDict(a), FetchedAt, now) == a.fetchedAt
    ensures StrOr(ToDict(a), Language, "en") == a.language
  {
  }

  /** A feed scraper: the Python class name and its `name` and `base_url` class
      attributes. */
  datatype Scraper = Scraper(className: string, name: string, baseUrl: string)

  /** `repr(scraper)`: `<ClassName source='name'>`. */
  function Repr(s: Scraper): (r: string)
    ensures |r| == |s.className| + |s.name| + 12
    ensures r[0] == '<' && r[|r| - 1] == '>'
  {
    "<" + s.className + " source='" + s.name + "'>"
  }

  /** A class name without a space can be read back from the repr together with the
      source name, so two scrapers with distinct class or source names never share a
      repr. */
  lemma {:induction false} ReprDeterminesNames(s1: Scraper, s2: Scraper)
    requires ' ' !in s1.className && ' ' !in s2.className
    requires Repr(s1) == Repr(s2)
    ensures s1.className == s2.className && s1.name == s2.name
  {
    var r := Repr(s1);
    var c1, c2 := s1.className, s2.className;
    assert r[1 + |c1|] == ' ';
    assert Repr(s2)[1 + |c2|] == ' ';
    if |c1| != |c2| {
      assert false;
    }
    assert c1 == r[1..1 + |c1|] == c2;
    assert |s1.name| == |s2.name|;
    assert s1.name == r[10 + |c1|..10 + |c1| + |s1.name|] == s2.name;
  }

  datatype FetchError = NotImplemented(message: string)

  /** What `fetch()` does: return articles or raise. */
  datatype FetchOutcome = Fetched(articles: seq<Article>) | Raised(error: FetchError)

  /** `BaseScraper.fetch`: the base class has no feed of its own and always raises
      `NotImplementedError`, naming the scraper. */
  function Fetch(s: Scraper): (r: FetchOutcome)
    ensures r.Raised? && r.error.NotImplemented?
    ensures StartsWith(r.error.message, s.name)
  {
    Raised(NotImplemented(s.name + " scraper must implement fetch()"))
  }
}
