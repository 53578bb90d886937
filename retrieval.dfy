/** `full_search` in back/retriever.py: the exact lookup by problem number,
    the semantic search over up to four query variants with an optional
    section filter, the de-duplication into the `found` dictionary, the
    similarity threshold with its top-five fallback, exact matches first, and
    the final rerank. The vector store and the reranking scores are
    parameters. */
module Retrieval {
  import opened Wrappers
  import opened Text
  import opened Ranking
  import opened QueryText
  import opened Search
  import opened Rerank

  /** The fields of the question analysis that `full_search` and the answer
      stream read. */
  datatype Analysis = Analysis(formalQuery: string, keywordQuery: string, section: string, keywordsFa: seq<string>)

  /** The vector store: how many chunks it holds, what `col.get` returns for
      a problem number and what `col.query` returns for a query, an optional
      section filter and a number of results, each `None` where the call
      (or the embedding of the query) raises. */
  datatype Store = Store(
    count: nat,
    byNumber: nat -> Option<seq<Chunk>>,
    query: (string, Option<string>, nat) -> Option<seq<Chunk>>)

  /** The keys of SECTION_PROBLEM_MAP; only membership is used. */
  const SectionNames: seq<string> := [
    "احکام تقلید",
    "احکام طهارت",
    "نجاسات",
    "مطهرات",
    "وضو",
    "غسل",
    "احکام میت",
    "تیمم",
    "احکام نماز",
    "احکام روزه",
    "احکام خمس",
    "احکام زکات",
    "احکام حج",
    "احکام خرید و فروش",
    "احکام شرکت",
    "احکام صلح",
    "احکام اجاره",
    "احکام جعاله",
    "احکام مزارعه",
    "احکام مساقات",
    "احکام حجر و بلوغ",
    "احکام وکالت",
    "احکام قرض",
    "احکام حواله",
    "احکام رهن",
    "احکام ضامن شدن",
    "احکام نکاح",
    "احکام شیر دادن",
    "احکام طلاق",
    "احکام غصب",
    "احکام ارث",
    "احکام خوردنیها",
    "احکام نذر و عهد",
    "احکام قسم خوردن",
    "احکام وقف",
    "احکام وصیت",
    "امر به معروف و نهی از منکر"
  ]

  /** Keys of the `found` dictionary: `exact_{n}`, the prefix key
      `sem_{source}_{problem_number}_{text[:15]}`, and the per-chunk key
      `(source, chunk_index)` that the corrected de-duplication uses. */
  datatype DedupKey =
    | ExactKey(n: nat)
    | PrefixKey(source: string, problemNumber: int, prefix: string)
    | ChunkKey(source: string, chunkIndex: int)

  /** One entry of `found`. */
  datatype Slot = Slot(key: DedupKey, chunk: Chunk)

  function KeysOf(found: seq<Slot>): (ks: seq<DedupKey>)
    ensures |ks| == |found|
    ensures forall i :: 0 <= i < |found| ==> ks[i] == found[i].key
  {
    seq(|found|, i requires 0 <= i < |found| => found[i].key)
  }

  function Values(found: seq<Slot>): (cs: seq<Chunk>)
    ensures |cs| == |found|
    ensures forall i :: 0 <= i < |found| ==> cs[i] == found[i].chunk
  {
    seq(|found|, i requires 0 <= i < |found| => found[i].chunk)
  }

  ghost predicate SlotKeysDistinct(found: seq<Slot>)
  {
    forall i, j :: 0 <= i < j < |found| ==> found[i].key != found[j].key
  }

  /** Where key `k` is, if it is there. */
  function SlotIndex(found: seq<Slot>, k: DedupKey): (i: Option<nat>)
    ensures i.Some? ==> i.value < |found| && found[i.value].key == k
    ensures i.None? ==> k !in KeysOf(found)
  {
    if found == [] then None
    else if found[|found| - 1].key == k then Some(|found| - 1)
    else SlotIndex(found[..|found| - 1], k)
  }

  /** `found[k] = v`: a new key goes last, a known key keeps its place. */
  function Put(found: seq<Slot>, s: Slot): seq<Slot>
  {
    match SlotIndex(found, s.key)
    case None => found + [s]
    case Some(i) => found[i := s]
  }

  // ------------------------------------------------------------ exact lookup

  /** `extract_problem_number(original) or extract_problem_number(normalized)`
      as `if prob_num:` reads it: a number 0 counts as no number. */
  function ProblemNumber(original: string, normalized: string): (n: Option<nat>)
    ensures n.Some? ==> n.value != 0
    ensures n.Some? ==> n == ExtractProblemNumber(original) || n == ExtractProblemNumber(normalized)
    ensures n.None? ==>
      (ExtractProblemNumber(original) == None || ExtractProblemNumber(original) == Some(0)) &&
      (ExtractProblemNumber(normalized) == None || ExtractProblemNumber(normalized) == Some(0))
  {
    var a := ExtractProblemNumber(original);
    if a.Some? && a.value != 0 then a
    else
      var b := ExtractProblemNumber(normalized);
      if b.Some? && b.value != 0 then b else None
  }

  /** `found` after `for c in search_by_number(n): found[f"exact_{n}"] = c`
      on an empty dictionary: every hit goes under the one key, so only the
      last survives. */
  function ExactSlots(n: nat, hits: seq<Chunk>): seq<Slot>
  {
    if hits == [] then [] else [Slot(ExactKey(n), hits[|hits| - 1])]
  }

  function Exacts(original: string, normalized: string, store: Store): seq<Slot>
  {
    match ProblemNumber(original, normalized)
    case None => []
    case Some(n) => ExactSlots(n, SearchByNumber(store.byNumber(n)))
  }

  // ---------------------------------------------------------------- queries

  function NonEmpty(xs: seq<string>): (r: seq<string>)
    ensures |r| <= |xs|
    ensures forall x :: x in r <==> x in xs && x != []
  {
    if xs == [] then []
    else NonEmpty(xs[..|xs| - 1]) + (if xs[|xs| - 1] != [] then [xs[|xs| - 1]] else [])
  }

  /** `list(dict.fromkeys(filter(None, [...])))[:4]`. */
  function Queries(original: string, normalized: string, a: Analysis): seq<string>
  {
    Distinct(NonEmpty([original] + (if normalized != original then [normalized] else []) + [a.formalQuery, a.keywordQuery]))
  }

  /** At most four queries, none empty, none repeated, and exactly the
      non-empty ones among the original question, the normalised one, the
      formal rewrite and the keyword query. */
  lemma QueriesCorrect(original: string, normalized: string, a: Analysis)
    ensures var qs := Queries(original, normalized, a);
      && |qs| <= 4
      && (forall i, j :: 0 <= i < j < |qs| ==> qs[i] != qs[j])
      && (forall q :: q in qs <==>
            q != [] && (q == original || q == normalized || q == a.formalQuery || q == a.keywordQuery))
  {
    var xs := [original] + (if normalized != original then [normalized] else []) + [a.formalQuery, a.keywordQuery];
    DistinctCorrect(NonEmpty(xs));
    DistinctLength(NonEmpty(xs));
    assert forall q :: q in xs <==> (q == original || q == normalized || q == a.formalQuery || q == a.keywordQuery);
  }

  // -------------------------------------------------------- semantic search

  /** `section if section in SECTION_PROBLEM_MAP else None`. */
  function SectionFilter(a: Analysis): (f: Option<string>)
    ensures f.Some? <==> a.section in SectionNames
    ensures f.Some? ==> f.value == a.section
  {
    if a.section in SectionNames then Some(a.section) else None
  }

  /** The store answering queries under one filter, asked for
      `min(n, col.count())` results. */
  function Answer(store: Store, filter: Option<string>, n: nat): string -> Option<seq<Chunk>>
  {
    q => store.query(q, filter, if n < store.count then n else store.count)
  }

  /** The semantic candidates: the filtered search, extended by the
      unfiltered one when the filter left fewer than three. */
  function SemanticCandidates(queries: seq<string>, a: Analysis, store: Store): seq<Chunk>
  {
    var f := SectionFilter(a);
    var s := SemanticSearch(queries, store.count, Answer(store, f, 12));
    if f.Some? && |s| < 3 then s + SemanticSearch(queries, store.count, Answer(store, None, 12)) else s
  }

  // ---------------------------------------------------------- de-duplication

  /** The key `full_search` writes: `sem_{source}_{problem_number}_{text[:15]}`. */
  function PrefixKeyOf(c: Chunk): DedupKey
  {
    PrefixKey(c.source, c.problemNumber, Take(c.text, 15))
  }

  /** The key that tells stored chunks apart, as `search_semantic` does. */
  function ChunkKeyOf(c: Chunk): DedupKey
  {
    ChunkKey(c.source, c.chunkIndex)
  }

  /** `for c in cs: if key(c) not in found: found[key(c)] = c`. */
  function Collect(found: seq<Slot>, cs: seq<Chunk>, key: Chunk -> DedupKey): seq<Slot>
  {
    if cs == [] then found
    else
      var f := Collect(found, cs[..|cs| - 1], key);
      var c := cs[|cs| - 1];
      if key(c) in KeysOf(f) then f else f + [Slot(key(c), c)]
  }

  /** The loop keeps what `found` held, adds entries only at the end, each
      under its own chunk's key, adds the key of every chunk, and keeps keys
      unique. */
  lemma {:induction false} CollectCorrect(found: seq<Slot>, cs: seq<Chunk>, key: Chunk -> DedupKey)
    ensures var r := Collect(found, cs, key);
      && |found| <= |r| && r[..|found|] == found
      && (forall c :: c in cs ==> key(c) in KeysOf(r))
      && (forall i :: |found| <= i < |r| ==> r[i].key == key(r[i].chunk) && r[i].chunk in cs)
      && (SlotKeysDistinct(found) ==> SlotKeysDistinct(r))
    decreases |cs|
  {
    if cs != [] {
      var init := cs[..|cs| - 1];
      CollectCorrect(found, init, key);
      var f := Collect(found, init, key);
      var c := cs[|cs| - 1];
      assert forall x :: x in init ==> x in cs;
      assert cs == init + [c];
      if key(c) !in KeysOf(f) {
        SlotAdded(found, f, Slot(key(c), c));
      }
    }
  }

  /** Adding a slot under a new key keeps the old entries and keys and the
      keys' uniqueness. */
  lemma SlotAdded(found: seq<Slot>, f: seq<Slot>, s: Slot)
    requires |found| <= |f| && s.key !in KeysOf(f)
    ensures (f + [s])[..|found|] == f[..|found|]
    ensures forall k :: k in KeysOf(f) ==> k in KeysOf(f + [s])
    ensures s.key in KeysOf(f + [s])
    ensures SlotKeysDistinct(f) ==> SlotKeysDistinct(f + [s])
  {
    var r := f + [s];
    forall k | k in KeysOf(f) ensures k in KeysOf(r) {
      var i :| 0 <= i < |f| && KeysOf(f)[i] == k;
      assert KeysOf(r)[i] == k;
    }
    assert KeysOf(r)[|f|] == s.key;
    if SlotKeysDistinct(f) {
      forall i, j | 0 <= i < j < |r| ensures r[i].key != r[j].key {
        if j == |f| {
          assert KeysOf(f)[i] == r[i].key;
        }
      }
    }
  }

  /** The `found` dictionary that `full_search` builds, with the given key
      for semantic candidates. */
  function Found(original: string, normalized: string, a: Analysis, store: Store, key: Chunk -> DedupKey): seq<Slot>
  {
    Collect(Exacts(original, normalized, store), SemanticCandidates(Queries(original, normalized, a), a, store), key)
  }

  // ------------------------------------------------------------- selection

  predicate Passes(c: Chunk)
  {
    c.similarity >= Threshold
  }

  predicate IsExact(c: Chunk)
  {
    c.matchType == Exact
  }

  predicate NotExact(c: Chunk)
  {
    c.matchType != Exact
  }

  /** `[c for c in cs if p(c)]`. */
  function Where(cs: seq<Chunk>, p: Chunk -> bool): (r: seq<Chunk>)
    ensures |r| <= |cs|
  {
    if cs == [] then []
    else Where(cs[..|cs| - 1], p) + (if p(cs[|cs| - 1]) then [cs[|cs| - 1]] else [])
  }

  /** The filter keeps exactly the elements that satisfy `p`. */
  lemma {:induction false} WhereMembers(cs: seq<Chunk>, p: Chunk -> bool)
    ensures forall x :: x in Where(cs, p) <==> x in cs && p(x)
    decreases |cs|
  {
    if cs != [] {
      var n := |cs| - 1;
      WhereMembers(cs[..n], p);
      assert cs == cs[..n] + [cs[n]];
    }
  }

  /** The chunks passing the threshold, or the five most similar when none does. */
  function Kept(chunks: seq<Chunk>): seq<Chunk>
  {
    var pass := Where(chunks, Passes);
    if pass != [] then pass else Take(SortDesc(chunks, Similarity), 5)
  }

  /** What `full_search` returns for the candidate chunks: exact matches
      first followed by at most four reranked others, otherwise at most
      eight reranked chunks. */
  function Select(chunks: seq<Chunk>, scores: Option<seq<int>>): seq<Chunk>
  {
    if chunks == [] then [] else Arrange(Kept(chunks), scores)
  }

  /** The exact matches followed by the reranked others, or the reranked
      kept chunks when there is no exact match. */
  function Arrange(filtered: seq<Chunk>, scores: Option<seq<int>>): seq<Chunk>
  {
    var exact := Where(filtered, IsExact);
    if exact != [] then exact + Others(filtered, scores)
    else Take(SmartRerank(Take(filtered, 12), scores), 8)
  }

  /** At most four reranked chunks of the first eight that are not exact. */
  function Others(filtered: seq<Chunk>, scores: Option<seq<int>>): seq<Chunk>
  {
    Take(SmartRerank(Take(Where(filtered, NotExact), 8), scores), 4)
  }

  lemma {:induction false} WhereAppend(a: seq<Chunk>, b: seq<Chunk>, p: Chunk -> bool)
    ensures Where(a + b, p) == Where(a, p) + Where(b, p)
    decreases |b|
  {
    if b == [] {
      assert a + b == a;
    } else {
      var n := |b| - 1;
      WhereAppend(a, b[..n], p);
      assert (a + b)[..|a + b| - 1] == a + b[..n];
    }
  }

  /** The filter keeps each element as often as it occurs, or drops it. */
  lemma {:induction false} WhereMultiset(a: seq<Chunk>, p: Chunk -> bool)
    ensures forall x :: multiset(Where(a, p))[x] == if p(x) then multiset(a)[x] else 0
    decreases |a|
  {
    if a != [] {
      var n := |a| - 1;
      WhereMultiset(a[..n], p);
      assert a == a[..n] + [a[n]];
    }
  }

  /** Filtering a smaller collection keeps no more. */
  lemma WhereMonotone(a: seq<Chunk>, b: seq<Chunk>, p: Chunk -> bool)
    requires multiset(a) <= multiset(b)
    ensures multiset(Where(a, p)) <= multiset(Where(b, p))
    ensures |Where(a, p)| <= |Where(b, p)|
  {
    WhereMultiset(a, p);
    WhereMultiset(b, p);
    var ma := multiset(Where(a, p));
    var mb := multiset(Where(b, p));
    assert ma <= mb;
    assert mb == ma + (mb - ma);
  }

  /** A prefix of a non-increasing sequence is non-increasing, is part of
      it, and whatever the sequence holds past the prefix is no more similar
      than the prefix's last element. */
  lemma SortedPrefix(s: seq<Chunk>, m: nat)
    requires NonIncreasing(s, Similarity) && m <= |s|
    ensures NonIncreasing(s[..m], Similarity)
    ensures multiset(s[..m]) <= multiset(s)
    ensures m > 0 ==> forall y :: y in multiset(s) - multiset(s[..m]) ==> y.similarity <= s[m - 1].similarity
  {
    assert s == s[..m] + s[m..];
    assert multiset(s) == multiset(s[..m]) + multiset(s[m..]);
    forall y | y in multiset(s) - multiset(s[..m]) ensures m > 0 ==> y.similarity <= s[m - 1].similarity {
      assert y in multiset(s[m..]);
      var t :| 0 <= t < |s[m..]| && s[m..][t] == y;
      assert s[m + t] == y;
    }
  }

  /** The five most similar chunks, in order, with nothing left out more
      similar than the last one kept. */
  lemma TopFive(chunks: seq<Chunk>)
    ensures var k := Take(SortDesc(chunks, Similarity), 5);
      && |k| == (if |chunks| < 5 then |chunks| else 5)
      && multiset(k) <= multiset(chunks)
      && NonIncreasing(k, Similarity)
      && (chunks != [] ==> forall y :: y in multiset(chunks) - multiset(k) ==> y.similarity <= k[|k| - 1].similarity)
  {
    var s := SortDesc(chunks, Similarity);
    SortDescCorrect(chunks, Similarity);
    var k := Take(s, 5);
    SortedPrefix(s, |k|);
  }

  /** The threshold filter: never empty for a non-empty input, drawn from
      the input; when some chunk passes, exactly the passing chunks; when
      none does, the five most similar, in order, with nothing left out
      more similar than the last kept. */
  lemma KeptCorrect(chunks: seq<Chunk>)
    ensures var k := Kept(chunks);
      && (chunks != [] ==> k != [])
      && multiset(k) <= multiset(chunks)
      && (forall x :: x in k ==> x in chunks)
      && ((exists c :: c in chunks && Passes(c)) ==> forall x :: x in chunks ==> (x in k <==> Passes(x)))
      && ((forall c :: c in chunks ==> !Passes(c)) ==>
            && |k| == (if |chunks| < 5 then |chunks| else 5)
            && NonIncreasing(k, Similarity)
            && (chunks != [] ==> forall y :: y in multiset(chunks) - multiset(k) ==> y.similarity <= k[|k| - 1].similarity))
  {
    var k := Kept(chunks);
    WhereMembers(chunks, Passes);
    if Where(chunks, Passes) != [] {
      WhereMultiset(chunks, Passes);
    } else {
      TopFive(chunks);
      forall x | x in k ensures x in chunks {
        assert x in multiset(k);
      }
    }
  }

  /** The reranked others that follow an exact match. */
  lemma RerankedOthers(filtered: seq<Chunk>, scores: Option<seq<int>>)
    ensures var t := Others(filtered, scores);
      && |t| <= 4
      && forall x :: x in t ==> x in filtered && !IsExact(x)
  {
    var rest := Take(Where(filtered, NotExact), 8);
    var sr := SmartRerank(rest, scores);
    SmartRerankCorrect(rest, scores);
    WhereMembers(filtered, NotExact);
    forall x | x in Take(sr, 4) ensures x in filtered && !IsExact(x) {
      assert x in multiset(sr);
      assert x in rest;
    }
  }

  /** The kept chunks are drawn from the candidates. */
  lemma KeptWithin(chunks: seq<Chunk>)
    ensures multiset(Kept(chunks)) <= multiset(chunks)
  {
    if Where(chunks, Passes) != [] {
      WhereMultiset(chunks, Passes);
    } else {
      TopFive(chunks);
    }
  }

  /** With an exact match among the kept chunks: that match, then at most
      four reranked chunks none of which is exact. */
  lemma SelectWithExact(chunks: seq<Chunk>, scores: Option<seq<int>>)
    requires chunks != [] && |Where(chunks, IsExact)| <= 1
    requires Where(Kept(chunks), IsExact) != []
    ensures var r := Select(chunks, scores);
      && 1 <= |r| <= 5
      && r[0] == Where(Kept(chunks), IsExact)[0]
      && (forall x :: x in r ==> x in Kept(chunks))
      && (forall i :: 1 <= i < |r| ==> !IsExact(r[i]))
  {
    var filtered := Kept(chunks);
    KeptWithin(chunks);
    var exact := Where(filtered, IsExact);
    WhereMonotone(filtered, chunks, IsExact);
    assert |exact| == 1;
    WhereMembers(filtered, IsExact);
    assert exact[0] in exact;
    var t := Others(filtered, scores);
    RerankedOthers(filtered, scores);
    assert Select(chunks, scores) == Arrange(filtered, scores) == exact + t;
    OneThenOthers(exact, t);
  }

  lemma OneThenOthers(exact: seq<Chunk>, t: seq<Chunk>)
    requires |exact| == 1
    requires forall x :: x in t ==> !IsExact(x)
    ensures forall i :: 1 <= i < |exact + t| ==> !IsExact((exact + t)[i])
  {
    forall i | 1 <= i < |exact + t| ensures !IsExact((exact + t)[i]) {
      assert (exact + t)[i] == t[i - 1] && t[i - 1] in t;
    }
  }

  /** Without an exact match among the kept chunks: at most eight reranked
      kept chunks, at least one. */
  lemma SelectWithoutExact(chunks: seq<Chunk>, scores: Option<seq<int>>)
    requires chunks != [] && Where(Kept(chunks), IsExact) == []
    ensures var r := Select(chunks, scores);
      && 1 <= |r| <= 8
      && (forall x :: x in r ==> x in Kept(chunks))
  {
    var filtered := Kept(chunks);
    KeptCorrect(chunks);
    var r := Select(chunks, scores);
    var top := Take(filtered, 12);
    var sr := SmartRerank(top, scores);
    SmartRerankCorrect(top, scores);
    forall x | x in r ensures x in filtered {
      assert x in multiset(sr);
      assert x in top;
    }
  }

  /** What `full_search` returns, given candidates among which at most one is
      an exact match: at most eight chunks, never none when there were
      candidates, all kept by the threshold filter (so all passing it when
      any candidate does); a passing exact match comes first, followed by at
      most four chunks none of which is exact. */
  lemma SelectCorrect(chunks: seq<Chunk>, scores: Option<seq<int>>)
    requires |Where(chunks, IsExact)| <= 1
    ensures var r := Select(chunks, scores);
      && |r| <= 8
      && (chunks != [] ==> r != [])
      && (forall x :: x in r ==> x in Kept(chunks))
      && ((exists c :: c in chunks && Passes(c)) ==> forall x :: x in r ==> Passes(x))
      && ((exists c :: c in chunks && IsExact(c) && Passes(c)) ==>
            r != [] && r[0] in chunks && IsExact(r[0]) && |r| <= 5 &&
            forall i :: 1 <= i < |r| ==> !IsExact(r[i]))
  {
    if chunks != [] {
      KeptCorrect(chunks);
      var exact := Where(Kept(chunks), IsExact);
      WhereMembers(Kept(chunks), IsExact);
      if exact != [] {
        SelectWithExact(chunks, scores);
        assert exact[0] in exact;
      } else {
        SelectWithoutExact(chunks, scores);
      }
    }
  }

  lemma ExactsShape(original: string, normalized: string, store: Store)
    ensures var e := Exacts(original, normalized, store);
      && |e| <= 1
      && (forall i :: 0 <= i < |e| ==> e[i].key.ExactKey? && IsExact(e[i].chunk) && e[i].chunk.similarity == ExactSimilarity)
  {
  }

  /** Everything `search_semantic` returns is marked semantic. */
  lemma CandidatesMarked(queries: seq<string>, a: Analysis, store: Store)
    ensures forall c :: c in SemanticCandidates(queries, a, store) ==> !IsExact(c)
  {
    SemanticSearchMarked(queries, store.count, Answer(store, SectionFilter(a), 12));
    SemanticSearchMarked(queries, store.count, Answer(store, None, 12));
  }

  /** Collecting chunks none of which is exact adds no exact match. */
  lemma {:induction false} CollectExacts(e: seq<Slot>, cs: seq<Chunk>, key: Chunk -> DedupKey)
    requires forall c :: c in cs ==> !IsExact(c)
    ensures Where(Values(Collect(e, cs, key)), IsExact) == Where(Values(e), IsExact)
    decreases |cs|
  {
    if cs != [] {
      var init := cs[..|cs| - 1];
      var c := cs[|cs| - 1];
      assert forall x :: x in init ==> x in cs;
      CollectExacts(e, init, key);
      var f := Collect(e, init, key);
      if key(c) !in KeysOf(f) {
        assert Values(f + [Slot(key(c), c)]) == Values(f) + [c];
        WhereAppend(Values(f), [c], IsExact);
        assert Where([c], IsExact) == Where([], IsExact);
      }
    }
  }

  /** Every chunk collected under the per-chunk key after exact entries is
      represented, by source and chunk index. */
  lemma CollectCovers(e: seq<Slot>, cs: seq<Chunk>)
    requires forall i :: 0 <= i < |e| ==> e[i].key.ExactKey?
    ensures var f := Collect(e, cs, ChunkKeyOf);
      forall c :: c in cs ==> exists i :: 0 <= i < |f| && MergeKey(f[i].chunk) == MergeKey(c)
  {
    var f := Collect(e, cs, ChunkKeyOf);
    CollectCorrect(e, cs, ChunkKeyOf);
    forall c | c in cs ensures exists i :: 0 <= i < |f| && MergeKey(f[i].chunk) == MergeKey(c) {
      var i :| 0 <= i < |f| && KeysOf(f)[i] == ChunkKeyOf(c);
      assert f[i].key == ChunkKeyOf(f[i].chunk);
    }
  }

  /** The `found` dictionary with the corrected key: at most one exact
      match, which is the last chunk the number lookup returned and comes
      first; unique keys; and every semantic candidate represented by a
      chunk with its source and chunk index. */
  lemma FoundCorrect(original: string, normalized: string, a: Analysis, store: Store)
    ensures var f := Found(original, normalized, a, store, ChunkKeyOf);
      var e := Exacts(original, normalized, store);
      && SlotKeysDistinct(f)
      && (e == [] ==> Where(Values(f), IsExact) == [])
      && (e != [] ==> f != [] && f[0] == e[0] && Where(Values(f), IsExact) == [f[0].chunk])
      && (forall c :: c in SemanticCandidates(Queries(original, normalized, a), a, store) ==>
            exists i :: 0 <= i < |f| && MergeKey(f[i].chunk) == MergeKey(c))
  {
    var e := Exacts(original, normalized, store);
    var queries := Queries(original, normalized, a);
    ExactsShape(original, normalized, store);
    CandidatesMarked(queries, a, store);
    CollectShape(e, SemanticCandidates(queries, a, store));
  }

  /** `FoundCorrect` for any lookup result `e` of at most one exact slot and
      any semantic candidates `cs`. */
  lemma CollectShape(e: seq<Slot>, cs: seq<Chunk>)
    requires |e| <= 1
    requires forall i :: 0 <= i < |e| ==> e[i].key.ExactKey? && IsExact(e[i].chunk)
    requires forall c :: c in cs ==> !IsExact(c)
    ensures var f := Collect(e, cs, ChunkKeyOf);
      && SlotKeysDistinct(f)
      && (e == [] ==> Where(Values(f), IsExact) == [])
      && (e != [] ==> f != [] && f[0] == e[0] && Where(Values(f), IsExact) == [f[0].chunk])
      && (forall c :: c in cs ==> exists i :: 0 <= i < |f| && MergeKey(f[i].chunk) == MergeKey(c))
  {
    CollectCorrect(e, cs, ChunkKeyOf);
    CollectExacts(e, cs, ChunkKeyOf);
    CollectCovers(e, cs);
    if e != [] {
      var f := Collect(e, cs, ChunkKeyOf);
      assert Values(e) == [] + [e[0].chunk];
      assert f[..1] == e;
    }
  }

  /** The `found` dictionary as written, with the prefix key: the same exact
      match first and only, unique keys, and every semantic candidate
      represented by a chunk with its source, problem number and first
      fifteen characters, which need not be the candidate's own chunk. */
  lemma FoundAsWrittenCorrect(original: string, normalized: string, a: Analysis, store: Store)
    ensures var f := Found(original, normalized, a, store, PrefixKeyOf);
      var e := Exacts(original, normalized, store);
      && SlotKeysDistinct(f)
      && (e == [] ==> Where(Values(f), IsExact) == [])
      && (e != [] ==> f != [] && f[0] == e[0] && Where(Values(f), IsExact) == [f[0].chunk])
      && (forall c :: c in SemanticCandidates(Queries(original, normalized, a), a, store) ==>
            exists i :: 0 <= i < |f| && PrefixKeyOf(f[i].chunk) == PrefixKeyOf(c))
  {
    var e := Exacts(original, normalized, store);
    var queries := Queries(original, normalized, a);
    ExactsShape(original, normalized, store);
    CandidatesMarked(queries, a, store);
    CollectShapeWith(e, SemanticCandidates(queries, a, store), PrefixKeyOf);
  }

  /** `CollectShape` for any key that never collides with the exact key,
      with candidates represented up to that key. */
  lemma CollectShapeWith(e: seq<Slot>, cs: seq<Chunk>, key: Chunk -> DedupKey)
    requires |e| <= 1
    requires forall i :: 0 <= i < |e| ==> e[i].key.ExactKey? && IsExact(e[i].chunk)
    requires forall c :: c in cs ==> !IsExact(c)
    requires forall c :: !key(c).ExactKey?
    ensures var f := Collect(e, cs, key);
      && SlotKeysDistinct(f)
      && (e == [] ==> Where(Values(f), IsExact) == [])
      && (e != [] ==> f != [] && f[0] == e[0] && Where(Values(f), IsExact) == [f[0].chunk])
      && (forall c :: c in cs ==> exists i :: 0 <= i < |f| && key(f[i].chunk) == key(c))
  {
    var f := Collect(e, cs, key);
    CollectCorrect(e, cs, key);
    assert Where(Values(f), IsExact) == Where(Values(e), IsExact) by {
      CollectExacts(e, cs, key);
    }
    CollectCoversWith(e, cs, key);
    if e != [] {
      assert Values(e) == [] + [e[0].chunk];
      assert f[..1] == e;
    }
  }

  /** Every chunk collected after exact entries, under a key that never
      collides with theirs, is represented up to that key. */
  lemma CollectCoversWith(e: seq<Slot>, cs: seq<Chunk>, key: Chunk -> DedupKey)
    requires forall i :: 0 <= i < |e| ==> e[i].key.ExactKey?
    requires forall c :: !key(c).ExactKey?
    ensures var f := Collect(e, cs, key);
      forall c :: c in cs ==> exists i :: 0 <= i < |f| && key(f[i].chunk) == key(c)
  {
    var f := Collect(e, cs, key);
    CollectCorrect(e, cs, key);
    assert forall k :: 0 <= k < |e| ==> f[k].key.ExactKey? by {
      forall k | 0 <= k < |e| ensures f[k].key.ExactKey? {
        assert f[k] == f[..|e|][k];
      }
    }
    forall c | c in cs ensures exists i :: 0 <= i < |f| && key(f[i].chunk) == key(c) {
      var i :| 0 <= i < |f| && KeysOf(f)[i] == key(c);
      assert f[i].key == key(f[i].chunk);
    }
  }

  /** The exact lookup loop of `full_search`. */
  method ExactLookup(n: nat, hits: seq<Chunk>) returns (found: seq<Slot>)
    ensures found == ExactSlots(n, hits)
  {
    found := [];
    var i := 0;
    while i < |hits|
      invariant 0 <= i <= |hits|
      invariant found == ExactSlots(n, hits[..i])
    {
      assert hits[..i + 1][..i] == hits[..i];
      found := Put(found, Slot(ExactKey(n), hits[i]));
      i := i + 1;
    }
    assert hits[..i] == hits;
  }

  /** The de-duplication loop of `full_search`, with the per-chunk key. */
  method CollectSemantic(start: seq<Slot>, semantic: seq<Chunk>) returns (found: seq<Slot>)
    ensures found == Collect(start, semantic, ChunkKeyOf)
  {
    found := start;
    var j := 0;
    while j < |semantic|
      invariant 0 <= j <= |semantic|
      invariant found == Collect(start, semantic[..j], ChunkKeyOf)
    {
      assert semantic[..j + 1][..j] == semantic[..j];
      var c := semantic[j];
      if ChunkKeyOf(c) !in KeysOf(found) {
        found := found + [Slot(ChunkKeyOf(c), c)];
      }
      j := j + 1;
    }
    assert semantic[..j] == semantic;
  }

  /** `full_search`. */
  method FullSearch(original: string, normalized: string, a: Analysis, store: Store, scores: Option<seq<int>>)
    returns (r: seq<Chunk>)
    ensures r == Select(Values(Found(original, normalized, a, store, ChunkKeyOf)), scores)
  {
    var found: seq<Slot> := [];
    var pn := ProblemNumber(original, normalized);
    if pn.Some? {
      found := ExactLookup(pn.value, SearchByNumber(store.byNumber(pn.value)));
    }
    assert found == Exacts(original, normalized, store);
    var queries := Queries(original, normalized, a);
    var filter := SectionFilter(a);
    var semantic := SearchSemanticHits(queries, store.count, Answer(store, filter, 12));
    if filter.Some? && |semantic| < 3 {
      var all := SearchSemanticHits(queries, store.count, Answer(store, None, 12));
      semantic := semantic + all;
    }
    assert semantic == SemanticCandidates(queries, a, store);
    found := CollectSemantic(found, semantic);
    if found == [] {
      return [];
    }
    r := Select(Values(found), scores);
  }

  /** `full_search` returns at most eight chunks, and at least one whenever
      the lookup or the search found anything; all of them are candidates,
      and all pass the similarity threshold when any candidate does; when the
      problem number is found in the store its last chunk comes first,
      followed by at most four semantic chunks, and otherwise no exact match
      appears. */
  lemma FullSearchCorrect(original: string, normalized: string, a: Analysis, store: Store, scores: Option<seq<int>>)
    ensures var f := Found(original, normalized, a, store, ChunkKeyOf);
      var e := Exacts(original, normalized, store);
      var r := Select(Values(f), scores);
      && |r| <= 8
      && (f != [] ==> r != [])
      && (forall x :: x in r ==> x in Values(f))
      && ((exists c :: c in Values(f) && Passes(c)) ==> forall x :: x in r ==> Passes(x))
      && (e != [] ==> r != [] && r[0] == e[0].chunk && |r| <= 5 && forall i :: 1 <= i < |r| ==> !IsExact(r[i]))
      && (e == [] ==> forall x :: x in r ==> !IsExact(x))
  {
    FoundCorrect(original, normalized, a, store);
    ExactsShape(original, normalized, store);
    SelectShape(Found(original, normalized, a, store, ChunkKeyOf), Exacts(original, normalized, store), scores);
  }

  /** `FullSearchCorrect` for any found slots `f` whose exact matches are
      those of the lookup result `e`. */
  lemma SelectShape(f: seq<Slot>, e: seq<Slot>, scores: Option<seq<int>>)
    requires |e| <= 1
    requires forall i :: 0 <= i < |e| ==> IsExact(e[i].chunk) && e[i].chunk.similarity == ExactSimilarity
    requires e == [] ==> Where(Values(f), IsExact) == []
    requires e != [] ==> f != [] && f[0] == e[0] && Where(Values(f), IsExact) == [f[0].chunk]
    ensures var r := Select(Values(f), scores);
      && |r| <= 8
      && (f != [] ==> r != [])
      && (forall x :: x in r ==> x in Values(f))
      && ((exists c :: c in Values(f) && Passes(c)) ==> forall x :: x in r ==> Passes(x))
      && (e != [] ==> r != [] && r[0] == e[0].chunk && |r| <= 5 && forall i :: 1 <= i < |r| ==> !IsExact(r[i]))
      && (e == [] ==> forall x :: x in r ==> !IsExact(x))
  {
    var chunks := Values(f);
    SelectCorrect(chunks, scores);
    KeptCorrect(chunks);
    WhereMembers(chunks, IsExact);
    var r := Select(chunks, scores);
    if e != [] {
      assert chunks[0] == e[0].chunk;
      assert chunks[0] in chunks && IsExact(chunks[0]) && Passes(chunks[0]);
      assert r[0] in Where(chunks, IsExact);
    } else {
      forall x | x in r ensures !IsExact(x) {
        assert IsExact(x) ==> x in Where(chunks, IsExact);
      }
    }
  }

  /** The prefix key merges two different stored chunks: two explanatory
      paragraphs of one document, both with problem number -1, whose section
      paths start with the same two letters share the first fifteen
      characters "توضیح | بخش: اح", so only the first is kept. The per-chunk
      key keeps both. */
  lemma PrefixKeyDropsChunk()
    ensures var c1 := Chunk("توضیح | بخش: احکام نماز\nالف", -1, "احکام نماز", "", "احکام نماز", "risale.docx", 3, 400, Semantic);
      var c2 := Chunk("توضیح | بخش: احکام روزه\nب", -1, "احکام روزه", "", "احکام روزه", "risale.docx", 7, 300, Semantic);
      && MergeKey(c1) != MergeKey(c2)
      && Values(Collect([], [c1, c2], PrefixKeyOf)) == [c1]
      && Values(Collect([], [c1, c2], ChunkKeyOf)) == [c1, c2]
  {
    var c1 := Chunk("توضیح | بخش: احکام نماز\nالف", -1, "احکام نماز", "", "احکام نماز", "risale.docx", 3, 400, Semantic);
    var c2 := Chunk("توضیح | بخش: احکام روزه\nب", -1, "احکام روزه", "", "احکام روزه", "risale.docx", 7, 300, Semantic);
    var both := [c1, c2];
    var one := [c1];
    assert both[..1] == one;
    assert one[..0] == [];
    assert Collect([], one[..0], PrefixKeyOf) == [];
    assert Collect([], one[..0], ChunkKeyOf) == [];
    assert Take(c1.text, 15) == Take(c2.text, 15);
    var f1 := Collect([], one, PrefixKeyOf);
    assert f1 == [Slot(PrefixKeyOf(c1), c1)];
    assert KeysOf(f1)[0] == PrefixKeyOf(c2);
    var g1 := Collect([], one, ChunkKeyOf);
    assert g1 == [Slot(ChunkKeyOf(c1), c1)];
    assert ChunkKeyOf(c2) !in KeysOf(g1);
  }
}
