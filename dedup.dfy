/** Dropping repeated articles before categorisation (`_deduplicate` in
    scraper/main.py): two articles are the same when their URLs agree once trailing
    slashes are dropped and letters are lowered; the first one seen is kept. */
module Dedup {
  import opened Text
  import opened Base

  /** `a.url.rstrip("/").lower()` */
  function UrlKey(url: string): string {
    Lower(RStripChar(url, '/'))
  }

  /** The keys of the articles of `s`. */
  function KeysOf(s: seq<Article>): set<string> {
    set i | 0 <= i < |s| :: UrlKey(s[i].url)
  }

  /** `_deduplicate(articles)`: each article whose key no earlier article has, in
      order. */
  function Dedup(s: seq<Article>): seq<Article> {
    if s == [] then []
    else
      var n := |s| - 1;
      if UrlKey(s[n].url) in KeysOf(s[..n]) then Dedup(s[..n]) else Dedup(s[..n]) + [s[n]]
  }

  lemma KeysOfSnoc(s: seq<Article>, a: Article)
    ensures KeysOf(s + [a]) == KeysOf(s) + {UrlKey(a.url)}
  {
    var t := s + [a];
    forall k | k in KeysOf(t)
      ensures k in KeysOf(s) + {UrlKey(a.url)}
    {
      var i :| 0 <= i < |t| && k == UrlKey(t[i].url);
      if i < |s| {
        assert t[i] == s[i];
      }
    }
    forall k | k in KeysOf(s)
      ensures k in KeysOf(t)
    {
      var i :| 0 <= i < |s| && k == UrlKey(s[i].url);
      assert t[i] == s[i];
    }
    assert UrlKey(t[|s|].url) in KeysOf(t);
  }

  /** The article at `i` is the first with its key. */
  predicate IsFirst(s: seq<Article>, i: int)
    requires 0 <= i < |s|
  {
    forall j | 0 <= j < i :: UrlKey(s[j].url) != UrlKey(s[i].url)
  }

  /** `idx` picks out of `s`, in increasing order, exactly the articles of `d`, each
      of them the first with its key. */
  predicate FirstsAt(s: seq<Article>, d: seq<Article>, idx: seq<int>) {
    && |idx| == |d|
    && (forall k | 0 <= k < |idx| :: 0 <= idx[k] < |s| && d[k] == s[idx[k]] && IsFirst(s, idx[k]))
    && (forall k1, k2 | 0 <= k1 < k2 < |idx| :: idx[k1] < idx[k2])
  }

  /** Every key of the input survives, and no other. */
  lemma {:induction false} DedupKeepsKeys(s: seq<Article>)
    ensures KeysOf(Dedup(s)) == KeysOf(s)
  {
    if s != [] {
      var n := |s| - 1;
      DedupKeepsKeys(s[..n]);
      assert s == s[..n] + [s[n]];
      KeysOfSnoc(s[..n], s[n]);
      if UrlKey(s[n].url) !in KeysOf(s[..n]) {
        KeysOfSnoc(Dedup(s[..n]), s[n]);
      }
    }
  }

  predicate DistinctKeys(s: seq<Article>) {
    forall i, j | 0 <= i < j < |s| :: UrlKey(s[i].url) != UrlKey(s[j].url)
  }

  /** No two kept articles share a key. */
  lemma {:induction false} DedupDistinct(s: seq<Article>)
    ensures DistinctKeys(Dedup(s))
  {
    if s != [] {
      var n := |s| - 1;
      var d := Dedup(s[..n]);
      DedupDistinct(s[..n]);
      if UrlKey(s[n].url) !in KeysOf(s[..n]) {
        DedupKeepsKeys(s[..n]);
        forall i | 0 <= i < |d|
          ensures UrlKey(d[i].url) != UrlKey(s[n].url)
        {
          assert UrlKey(d[i].url) in KeysOf(d);
        }
        var e := d + [s[n]];
        assert forall i | 0 <= i < |d| :: e[i] == d[i];
      }
    }
  }

  lemma DistinctKeysPrefix(s: seq<Article>, n: nat)
    requires n <= |s| && DistinctKeys(s)
    ensures DistinctKeys(s[..n])
  {
    assert forall i | 0 <= i < n :: s[..n][i] == s[i];
  }

  /** In a sequence with distinct keys, the last key is new. */
  lemma LastKeyIsNew(s: seq<Article>)
    requires s != [] && DistinctKeys(s)
    ensures UrlKey(s[|s| - 1].url) !in KeysOf(s[..|s| - 1])
  {
    var n := |s| - 1;
    forall i | 0 <= i < n
      ensures UrlKey(s[..n][i].url) != UrlKey(s[n].url)
    {
      assert s[..n][i] == s[i];
    }
  }

  lemma {:induction false} DistinctKeysCount(s: seq<Article>)
    requires DistinctKeys(s)
    ensures |KeysOf(s)| == |s|
  {
    if s != [] {
      var n := |s| - 1;
      var p := s[..n];
      DistinctKeysPrefix(s, n);
      DistinctKeysCount(p);
      assert s == p + [s[n]];
      KeysOfSnoc(p, s[n]);
      LastKeyIsNew(s);
    }
  }

  /** One article is kept per distinct key. */
  lemma DedupCount(s: seq<Article>)
    ensures |Dedup(s)| == |KeysOf(s)|
  {
    DedupDistinct(s);
    DedupKeepsKeys(s);
    DistinctKeysCount(Dedup(s));
  }

  lemma IsFirstInPrefix(s: seq<Article>, n: nat, i: nat)
    requires i < n <= |s| && IsFirst(s[..n], i)
    ensures IsFirst(s, i)
  {
    assert forall j | 0 <= j <= i :: s[..n][j] == s[j];
  }

  /** Indices of first occurrences in a prefix stay so in the whole sequence. */
  lemma FirstsAtLift(s: seq<Article>, n: nat, d: seq<Article>, idx: seq<int>)
    requires n <= |s| && FirstsAt(s[..n], d, idx)
    ensures FirstsAt(s, d, idx)
    ensures forall k | 0 <= k < |idx| :: idx[k] < n
  {
    forall k | 0 <= k < |idx|
      ensures 0 <= idx[k] < |s| && d[k] == s[idx[k]] && IsFirst(s, idx[k])
    {
      assert s[..n][idx[k]] == s[idx[k]];
      IsFirstInPrefix(s, n, idx[k]);
    }
  }

  lemma FirstsAtSnoc(s: seq<Article>, d: seq<Article>, idx: seq<int>, n: nat)
    requires FirstsAt(s, d, idx) && n < |s| && IsFirst(s, n)
    requires forall k | 0 <= k < |idx| :: idx[k] < n
    ensures FirstsAt(s, d + [s[n]], idx + [n])
  {
    var d2, idx2 := d + [s[n]], idx + [n];
    assert forall k | 0 <= k < |idx| :: d2[k] == d[k] && idx2[k] == idx[k];
  }

  /** The kept articles are the first of each key, in input order. */
  lemma {:induction false} DedupKeepsFirsts(s: seq<Article>)
    ensures exists idx :: FirstsAt(s, Dedup(s), idx)
  {
    if s == [] {
      assert FirstsAt(s, Dedup(s), []);
    } else {
      var n := |s| - 1;
      var p := s[..n];
      DedupKeepsFirsts(p);
      var idx :| FirstsAt(p, Dedup(p), idx);
      FirstsAtLift(s, n, Dedup(p), idx);
      if UrlKey(s[n].url) in KeysOf(p) {
        assert FirstsAt(s, Dedup(s), idx);
      } else {
        assert IsFirst(s, n) by {
          forall j | 0 <= j < n
            ensures UrlKey(s[j].url) != UrlKey(s[n].url)
          {
            assert s[j] == p[j];
            assert UrlKey(p[j].url) in KeysOf(p);
          }
        }
        FirstsAtSnoc(s, Dedup(p), idx, n);
        assert FirstsAt(s, Dedup(s), idx + [n]);
      }
    }
  }

  /** A sequence whose keys are all distinct is left as it is. */
  lemma {:induction false} DedupDistinctUnchanged(s: seq<Article>)
    requires DistinctKeys(s)
    ensures Dedup(s) == s
  {
    if s != [] {
      var n := |s| - 1;
      DistinctKeysPrefix(s, n);
      DedupDistinctUnchanged(s[..n]);
      LastKeyIsNew(s);
      assert s == s[..n] + [s[n]];
    }
  }

  /** Deduplicating twice changes nothing more. */
  lemma DedupIdempotent(s: seq<Article>)
    ensures Dedup(Dedup(s)) == Dedup(s)
  {
    DedupDistinct(s);
    DedupDistinctUnchanged(Dedup(s));
  }

  /** `rstrip("/")` and `lower()` commute, since `/` is no letter. */
  lemma {:induction false} RStripSlashLower(url: string)
    ensures RStripChar(Lower(url), '/') == Lower(RStripChar(url, '/'))
  {
    if |url| > 0 && url[|url| - 1] == '/' {
      var n := |url| - 1;
      assert Lower(url)[..n] == Lower(url[..n]);
      RStripSlashLower(url[..n]);
    } else if |url| > 0 {
      assert Lower(url)[|url| - 1] == LowerChar(url[|url| - 1]);
    }
  }

  /** URLs that differ only in trailing slashes or in letter case share a key. */
  lemma UrlKeyNormalises(url: string)
    ensures UrlKey(url + "/") == UrlKey(url)
    ensures UrlKey(Lower(url)) == UrlKey(url)
  {
    assert (url + "/")[..|url|] == url;
    RStripSlashLower(url);
    LowerIdempotent(RStripChar(url, '/'));
  }

  /** `_deduplicate(articles)`: keep a set of the keys seen and append each article
      whose key is new. */
  method Deduplicate(articles: seq<Article>) returns (unique: seq<Article>)
    ensures unique == Dedup(articles)
  {
    var seen: set<string> := {};
    unique := [];
    for i := 0 to |articles|
      invariant seen == KeysOf(articles[..i])
      invariant unique == Dedup(articles[..i])
    {
      var a := articles[i];
      var key := UrlKey(a.url);
      assert articles[..i + 1][..i] == articles[..i];
      assert articles[..i + 1] == articles[..i] + [a];
      KeysOfSnoc(articles[..i], a);
      if key !in seen {
        seen := seen + {key};
        unique := unique + [a];
      }
    }
    assert articles[..|articles|] == articles;
  }
}
