/** The digest entry the curator produces, and the fixed per-category tables
    (`CATEGORY_EMOJI`, `_CAT_LABELS`, `_CAT_ORDER` in scraper/curator.py). */
module Digest {
  import opened Json
  import opened Base

  /** A back-reference from an entry to one article. */
  datatype SourceRef = SourceRef(title: string, url: string, source: string)

  /** `{"title": a.title, "url": a.url, "source": a.source}` */
  function RefOf(a: Article): SourceRef {
    SourceRef(a.title, a.url, a.source)
  }

  /** One digest entry. The text fields and the category hold whatever the producer
      wrote: the fallback always writes strings, while the generative service may
      write any JSON value there and it is passed through unchecked. */
  datatype Entry = Entry(
    titleEn: JsonValue,
    titlePt: JsonValue,
    bodyEn: JsonValue,
    bodyPt: JsonValue,
    category: JsonValue,
    emoji: string,
    sources: seq<SourceRef>)

  /** The glyph for a category the emoji table does not know. */
  const DefaultEmoji: string := "\U{1F4CC}"

  /** `CATEGORY_EMOJI` */
  const CategoryEmoji: map<string, string> := map[
    "ai" := "\U{1F916}",
    "web" := "\U{1F310}",
    "devops" := "\U{2601}\U{FE0F}",
    "languages" := "\U{1F4BB}",
    "frameworks" := "\U{1F9E9}",
    "security" := "\U{1F512}",
    "career" := "\U{1F680}",
    "general" := "\U{1F4CC}"]

  /** `CATEGORY_EMOJI.get(cat, "📌")` for a hashable category value: only a string
      can be a key of the table. */
  function EmojiFor(cat: JsonValue): string {
    if cat.JStr? && cat.s in CategoryEmoji then CategoryEmoji[cat.s] else DefaultEmoji
  }

  /** `_CAT_LABELS`: the English and Portuguese display label of each category. */
  const CatLabels: map<string, (string, string)> := map[
    "ai" := ("AI & Machine Learning", "IA & Machine Learning"),
    "web" := ("Web Development", "Desenvolvimento Web"),
    "devops" := ("DevOps & Cloud", "DevOps & Nuvem"),
    "languages" := ("Programming Languages", "Linguagens de Programa\U{e7}\U{e3}o"),
    "frameworks" := ("Frameworks & Tools", "Frameworks & Ferramentas"),
    "security" := ("Security", "Seguran\U{e7}a"),
    "career" := ("Career & Community", "Carreira & Comunidade"),
    "general" := ("General Tech", "Tecnologia em Geral")]

  /** `_CAT_ORDER`: the order in which the fallback walks the categories. */
  const CatOrder: seq<string> :=
    ["ai", "web", "devops", "languages", "frameworks", "security", "career", "general"]
}
