# keep-up-daily scraper core, modelled in Dafny

keep-up-daily gathers developer news from several feeds into a daily bilingual
(English and Brazilian Portuguese) digest. This project models the core of its
scraper:

- the normalised `Article` record, its dictionary form and the base feed
  scraper (`scraper/sources/base.py`), in `base.dfy`;
- the keyword categoriser (`scraper/categorizer.py`), in `categorizer.dfy`;
- URL-based deduplication (`_deduplicate` in `scraper/main.py`), in `dedup.dfy`;
- the digest creator (`scraper/curator.py`):
  - the tables, in `digest.dfy`;
  - the templated fallback digest, in `fallback.dfy`;
  - token lookup, the condensed view of the articles, extracting JSON from the
    service's reply, resolving source ids and the routing between the service
    and the fallback, in `curator.dfy`.

Two support modules hold the Python semantics the core relies on:

- `text.dfy`: `str.strip`, `rstrip("/")`, `lower`, `title`, `join`, `rfind`,
  slicing, and the `{:,}` number format;
- `json.dfy`: JSON values, with Python's `isinstance(x, int)` holding for booleans.

Each operation that is a loop in the source is a `method` with a loop. Its
postcondition ties the result to a specification function, and lemmas prove
the source's promises about that function. The categoriser updates a list of
articles in place, which is modelled as an array.

## Model

| member | source | states |
|---|---|---|
| Text.StripSpec | scraper/curator.py:54 | `strip()` gives a piece of the text with no white space at either end, and the text is that piece with only white space before and after it |
| Text.LStripSpec | scraper/curator.py:292 | Stripping on the left removes exactly a run of leading white space: the result is a suffix that does not start with white space |
| Text.RStripSpec | scraper/curator.py:289 | Stripping on the right removes exactly a run of trailing white space: the result is a prefix that does not end with white space |
| Base.ToDict | scraper/sources/base.py:32-33 | `asdict` writes only field names as keys |
| Base.FromDictToDict | scraper/sources/base.py:32-38 | `from_dict(to_dict(a))` rebuilds `a` field for field |
| Base.FromDictIgnoresUnknownKeys | scraper/sources/base.py:35-38 | Keys that name no field never change the result of `from_dict` |
| Base.KeyNameInjective | scraper/sources/base.py:35-38 | Distinct dictionary keys stand for distinct strings: a field's key is never confused with another key |
| Base.FromDictFieldValues | scraper/sources/base.py:9-38 | For a well-typed dictionary with every required field, each field it holds keeps the dictionary's value in the built article (the `asdict` value), and each optional field it lacks takes the dataclass default |
| Base.FromDictDefaults | scraper/sources/base.py:9-27 | A dictionary with only title, url and source gives the dataclass defaults for every other field, with `fetched_at` taken from the clock |
| Base.FromDictMissingRequired | scraper/sources/base.py:35-38 | Leaving out a field without a default fails, and the error names exactly the absent ones in declaration order |
| Base.Repr | scraper/sources/base.py:54-55 | The repr is `<`, the class name, ` source='`, the name, `'>`: its length and its brackets |
| Base.ReprDeterminesNames | scraper/sources/base.py:54-55 | Two scrapers with the same repr have the same class name and source name (given class names without spaces) |
| Base.Fetch | scraper/sources/base.py:47-52 | The base `fetch` always raises `NotImplementedError`, and the message starts with the scraper's name |
| Categorizer.BuildTextIsConcatenation | scraper/categorizer.py:14-22 | The search text is the lower-cased title, description and space-joined tags, separated by spaces |
| Categorizer.ScoreOrderIndependent | scraper/categorizer.py:34-41 | A category's score does not depend on the order of its keywords |
| Categorizer.StandaloneShortKeyword | scraper/categorizer.py:36-38 | A keyword of at most three characters that stands as a whole word earns 2 points, in whatever letter case the word is written |
| Categorizer.ShortKeywordIgnoresCase | scraper/categorizer.py:36-38 | The keyword `AI` earns 2 in the search text `new ai chips` |
| Categorizer.ShortKeywordInsideWord | scraper/categorizer.py:36-41 | A short keyword found only inside a longer word (`go` in `algorithm`) earns nothing, and as a word of its own it earns 2 |
| Categorizer.CategorizeIsFirstMaximum | scraper/categorizer.py:25-47 | When every category scores 0 the default is returned; otherwise the key of the first category with the highest score, which may itself be the default |
| Categorizer.CategorizeInTaxonomy | scraper/categorizer.py:25-47 | The chosen category is the default or a key of the taxonomy |
| Categorizer.CategorizeArticle | scraper/categorizer.py:25-47 | The nested scoring loops compute the first-maximum choice over the built search text |
| Categorizer.CategorizeAllIdempotent | scraper/categorizer.py:50-60 | Categorising a categorised batch again changes nothing |
| Categorizer.CategorizeArticles | scraper/categorizer.py:50-60 | Every article of the list has its category overwritten in place, no other field changes, and the same list is returned |
| Dedup.DedupKeepsKeys | scraper/main.py:29-37 | Every URL key of the input survives, and no other |
| Dedup.DedupDistinct | scraper/main.py:29-37 | No two kept articles share a URL key |
| Dedup.DedupCount | scraper/main.py:29-37 | Exactly one article is kept per distinct URL key |
| Dedup.DedupKeepsFirsts | scraper/main.py:29-37 | The kept articles are, in input order, the first article seen with each key |
| Dedup.DedupIdempotent | scraper/main.py:29-37 | Deduplicating twice changes nothing more |
| Dedup.UrlKeyNormalises | scraper/main.py:33 | URLs that differ by a trailing slash or by letter case share a key |
| Dedup.Deduplicate | scraper/main.py:29-37 | The loop with its set of seen keys computes the deduplicated list |
| Fallback.Group | scraper/curator.py:328-330 | A category's group holds only input articles of that category |
| Fallback.GroupSize | scraper/curator.py:328-330 | A group holds exactly as many articles as carry its category |
| Fallback.SortByScoreDesc | scraper/curator.py:333-334 | Sorting a group permutes it |
| Fallback.SortByScoreDescSorted | scraper/curator.py:333-334 | The sorted group is ordered by score, highest first |
| Fallback.SortByScoreDescStable | scraper/curator.py:333-334 | The sort is stable: articles sharing a score keep their input order |
| Fallback.FallbackSize | scraper/curator.py:336-343 | The digest has, for each category of `_CAT_ORDER`, the cap or the number of its articles, whichever is smaller |
| Fallback.FallbackPicksOrdered | scraper/curator.py:336-340 | Every pick is an input article with a category of `_CAT_ORDER`; picks come category by category in that order, highest score first within a category |
| Fallback.FallbackTakesTop | scraper/curator.py:333-340 | Within a category, picked and unpicked articles together are the category's articles, and no unpicked article scores more than a picked one |
| Fallback.FallbackKeepsInputOrder | scraper/curator.py:333-340 | Among articles of one category with equal scores, the picked ones are the earliest in the input |
| Fallback.FallbackEmptyIff | scraper/curator.py:321-440 | The fallback digest is empty exactly when the cap is 0 or no article carries a category of `_CAT_ORDER` |
| Fallback.FallbackEntriesFollowPicks | scraper/curator.py:342-435 | One entry per pick, in pick order: both titles are the stripped title, the category is the article's, and the only source is the article |
| Fallback.FallbackParagraphs | scraper/curator.py:348-421 | Both bodies have three paragraphs when the article has tags or an author, and two otherwise; the lead is the stripped description when there is one |
| Fallback.FallbackSignals | scraper/curator.py:375-414 | The closing line has one fragment per non-zero points or comments count, and then the source label |
| Fallback.FallbackBodiesNameSource | scraper/curator.py:353-421 | Both bodies name the article's source as `via **label**` |
| Fallback.FallbackSourcesAreArticles | scraper/curator.py:423 | Every source the fallback digest lists is one of the input articles |
| Fallback.GroupByCategory | scraper/curator.py:328-330 | The grouping loop builds, for every category, its group in input order |
| Fallback.SortGroups | scraper/curator.py:333-334 | The sorting loop replaces every group by its stable sort and leaves the categories alone |
| Fallback.CollectPicks | scraper/curator.py:336-340 | The picking loop collects the first `perCat` articles of each sorted group, walking the category order |
| Fallback.WriteEntries | scraper/curator.py:342-435 | The entry-building loop writes one templated entry per pick, in order |
| Fallback.FallbackDigest | scraper/curator.py:321-440 | `_fallback_digest` computes the entries of the picks, in order |
| Curator.TokenFromIsFirstSet | scraper/curator.py:48-58 | The token is empty exactly when every variable is unset or blank; otherwise it is the stripped value of the first variable that is not |
| Curator.GetToken | scraper/curator.py:51-58 | The loop over the variables returns the first non-blank stripped value, or the empty string |
| Curator.Condense | scraper/curator.py:95-110 | One condensed record per article |
| Curator.CondenseFaithful | scraper/curator.py:95-110 | Each record's id is its article's position; the description is cut to its first 500 characters and the tags to the first six; the other fields are copied |
| Curator.DropOpeningFence | scraper/curator.py:292 | Removing the opening fence drops exactly the three backquotes, `json` when the text goes on with it, and the white space after them: the rest is a suffix that does not start with white space |
| Curator.DropClosingFence | scraper/curator.py:293 | The text is unchanged exactly when it has no closing fence (three backquotes followed only by white space); otherwise it is cut at such a fence, or at the newline just before it |
| Curator.FenceIsLast | scraper/curator.py:293 | A fence followed only by white space has no other such fence after it, so the pattern matches at one place at most |
| Curator.FindFence | scraper/curator.py:293 | The search finds the closing fence, or shows that there is none |
| Curator.CutAfterLastBracket | scraper/curator.py:295-297 | Cutting after the last `]` keeps a prefix that ends with `]` whenever the text has one, no `]` is left after the cut, and a text without `]` is kept whole |
| Curator.PreprocessIsInfix | scraper/curator.py:287-297 | The text handed to `json.loads` is a contiguous piece of the stripped reply; it is a prefix of the unfenced text, ends with `]` when that text has one, and leaves no `]` behind |
| Curator.PreprocessBareArray | scraper/curator.py:287-297 | A bare array is passed on unchanged |
| Curator.PreprocessDropsTrailingProse | scraper/curator.py:287-297 | Prose after the array is cut off, as long as it holds no `]`, including white space at its end |
| Curator.PreprocessDropsFences | scraper/curator.py:289-297 | A reply wrapped in a Markdown fence, with or without the `json` tag, gives back the array inside |
| Curator.RefsOf | scraper/curator.py:266-272 | There are never more sources than ids |
| Curator.RefsOfAreArticles | scraper/curator.py:266-272 | Every resolved source is one of the articles |
| Curator.ResolveSourceIds | scraper/curator.py:266-272 | The loop over a list of ids computes the resolved sources |
| Curator.RefsOfValidIds | scraper/curator.py:267-272 | A list of in-range integer ids, booleans included, resolves to those articles, in order |
| Curator.RefsOfAppend | scraper/curator.py:267-272 | Ids resolve one at a time: the sources of two lists in a row are the sources of the first followed by those of the second |
| Curator.RefsOfInvalidIds | scraper/curator.py:267-268 | Ids that are not integers, or are out of range, contribute nothing |
| Curator.RefsOfBoolId | scraper/curator.py:268 | `true` counts as the integer 1, so it names the second article |
| Curator.EnrichAllOrNothing | scraper/curator.py:259-284 | Enrichment succeeds exactly when every element does, and then gives one entry per element, in order |
| Curator.EnrichOneFails | scraper/curator.py:264-280 | An element makes enrichment raise exactly when it is not an object, its category is a list or an object (unhashable), or its `source_ids` is null, a boolean or a number (not iterable) |
| Curator.EnrichOneDefaults | scraper/curator.py:265-281 | An empty object gives category "general" with its emoji, empty texts and no sources |
| Curator.EnrichEntry | scraper/curator.py:264-283 | The loop body for one element builds its entry, or reports that it raises |
| Curator.EnrichEntries | scraper/curator.py:259-284 | The loop over the elements and their ids computes the enrichment, or reports that it raises |
| Curator.CallAi | scraper/curator.py:203-256 | `_call_ai` returns the enriched reply, and [] when the request, the parse or the enrichment fails or the reply is not a list |
| Curator.AiDigestSourcesAreArticles | scraper/curator.py:237-240 | Every source an entry of the service's digest lists is one of the articles |
| Curator.CreateDigest | scraper/curator.py:64-89 | The digest comes from the service when a token is set, the service is enabled and it produced entries; otherwise it is the fallback digest |
| Curator.CurateWithoutService | scraper/curator.py:70-77 | Without a token, or with the service disabled, the service is never asked and the fallback digest is returned |
| Curator.CurateServiceDown | scraper/curator.py:79-84 | A service that always fails leaves the fallback digest |
| Curator.CurateEmpty | scraper/curator.py:64-89 | The digest is empty only when the cap is 0 or no article carries a category of `_CAT_ORDER` |
| Curator.CurateSourcesAreArticles | scraper/curator.py:64-89 | Whichever way the digest is produced, every source it lists is one of the articles it was made from |

## Left out

- Text: letter case and the `\b` word boundary are modelled for ASCII letters, digits and `_` only. Python's full Unicode case mapping and `\w` class are not modelled.
- Base.FromDict: rejects a value whose type differs from its field's type (`IllTyped`). Python's dataclass stores such a value unchecked, so the model is stricter there.
- Base: dictionary keys are either a field name or `Other` holding a string that names no field (Base.KeyNameInjective), never a raw string.
- Base: the clock that `fetched_at` defaults to is the parameter `now`.
- The concrete scrapers (`fetch` of each feed) and `output.py` are not part of this model. Neither is `run` in `scraper/main.py`, apart from `_deduplicate`.
- Curator.CallAi: the HTTP request, the prompt text, the timeout and the reply's JSON envelope are not modelled. They are the `Service` parameter, which returns the reply content or `None` for any exception. The content is taken to be a string.
- Curator.CallAi: `json.loads` is the `Parser` parameter.
- Curator: logging and the category counts `_call_ai` builds for the prompt are not modelled. They do not affect any result.
- Categorizer.CategorizeArticles: the category distribution it counts and logs after categorising is not modelled. It affects no result.
- Configuration is passed in as parameters:
  - `CATEGORIES` becomes the taxonomy;
  - `DEFAULT_CATEGORY` becomes `default`;
  - `AI_CONFIG["enabled"]` becomes `enabled`;
  - `FALLBACK_PER_CAT` becomes `perCat`.
- Fallback: `perCat` is a natural number. A negative `FALLBACK_PER_CAT`, which Python's slice `[:n]` would read as "all but the last n", is not modelled.
- Configuration that does not affect the model: `MODEL`, `TEMPERATURE`, `MAX_ENTRIES` and `TIMEOUT` only shape the request. `MAX_ENTRIES` appears only in the prompt text; nothing caps the number of entries the service returns.
- Curator: the process environment is a map from names to values.
- Fallback.SortByScoreDesc: Python's `list.sort` is specified by its stable result (insertion in input order). TimSort itself is not modelled.
- Fallback.CollectPicks: the inner loop that appends the picks of one category one at a time is written as one concatenation.
- Fallback.SortGroups: the groups are values in a map, not lists sorted in place.
- Categorizer.CategorizeArticles: articles are values in an array. The model does not capture aliasing: the same `Article` object reachable from elsewhere, and seeing the update, is not modelled.
- The fallback digest of a non-empty input can be empty: this happens when the cap is 0 or no article has a category of `_CAT_ORDER`, since only those categories are walked. The model follows the code (Fallback.FallbackEmptyIff).
