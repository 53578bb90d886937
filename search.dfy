/** Retrieval in back/retriever.py: the exact lookup by problem number and the
    multi-query semantic search that merges the hits of several query
    variants. The vector store is a parameter: for each query it returns the
    hits, or `None` where the embedding or the store call raises. */
module Search {
  import opened Wrappers
  import opened Text
  import opened Ranking

  datatype MatchType = Exact | Semantic

  /** A retrieved chunk and its metadata. `similarity` is `round(1 - distance, 3)`
      in thousandths: 1000 is an exact match. */
  datatype Chunk = Chunk(
    text: string,
    problemNumber: int,
    section: string,
    subsection: string,
    sectionPath: string,
    source: string,
    chunkIndex: int,
    similarity: int,
    matchType: MatchType)

  /** SIMILARITY_THRESHOLD = 0.13. */
  const Threshold: int := 130
  /** The top-two gap above which `smart_rerank` does not rerank (0.15). */
  const RerankGap: int := 150
  const ExactSimilarity: int := 1000

  function Similarity(c: Chunk): int
  {
    c.similarity
  }

  /** `search_by_number`: the stored chunks carrying that number, each marked
      exact with similarity 1.0; `[]` when the store raises. */
  function SearchByNumber(stored: Option<seq<Chunk>>): (r: seq<Chunk>)
    ensures stored.None? ==> r == []
    ensures stored.Some? ==> |r| == |stored.value|
    ensures forall i :: 0 <= i < |r| ==>
      && r[i].similarity == ExactSimilarity && r[i].matchType == Exact
      && r[i].text == stored.value[i].text && r[i].source == stored.value[i].source
      && r[i].problemNumber == stored.value[i].problemNumber
      && r[i].(similarity := stored.value[i].similarity, matchType := stored.value[i].matchType) == stored.value[i]
  {
    match stored
    case None => []
    case Some(cs) => seq(|cs|, i requires 0 <= i < |cs| => cs[i].(similarity := ExactSimilarity, matchType := Exact))
  }

  /** What `col.get(where={"problem_number": n})` promises: every chunk it
      returns carries the number `n`. */
  ghost predicate NumberedBy(stored: Option<seq<Chunk>>, n: int)
  {
    stored.Some? ==> forall c :: c in stored.value ==> c.problemNumber == n
  }

  /** From a store that answers the lookup faithfully, every result of
      `search_by_number(n)` is a chunk of problem `n`, marked exact and
      above any threshold; nothing else is in it. */
  lemma SearchByNumberHits(n: int, stored: Option<seq<Chunk>>)
    requires NumberedBy(stored, n)
    ensures var r := SearchByNumber(stored);
      && |r| == (if stored.Some? then |stored.value| else 0)
      && forall c :: c in r ==> c.problemNumber == n && c.matchType == Exact && c.similarity == ExactSimilarity > Threshold
  {
    var r := SearchByNumber(stored);
    forall c | c in r ensures c.problemNumber == n {
      var i :| 0 <= i < |r| && r[i] == c;
      assert stored.value[i] in stored.value;
    }
  }

  // --------------------------------------------------------------- merging

  /** The merge key `f"{source}_{chunk_index}"`: one entry per stored chunk. */
  function MergeKey(c: Chunk): (string, int)
  {
    (c.source, c.chunkIndex)
  }

  /** Where the entry with key `k` is, if there is one. */
  function FindKey(found: seq<Chunk>, k: (string, int)): (i: Option<nat>)
    ensures i.Some? ==> i.value < |found| && MergeKey(found[i.value]) == k
    ensures i.None? ==> forall j :: 0 <= j < |found| ==> MergeKey(found[j]) != k
  {
    if found == [] then None
    else if MergeKey(found[|found| - 1]) == k then Some(|found| - 1)
    else FindKey(found[..|found| - 1], k)
  }

  /** One hit: a new key is appended at the end of the dictionary; a known
      key takes the hit only when its similarity is strictly higher, and
      keeps its place. */
  function Upsert(found: seq<Chunk>, h: Chunk): seq<Chunk>
  {
    match FindKey(found, MergeKey(h))
    case None => found + [h]
    case Some(i) => if found[i].similarity < h.similarity then found[i := h] else found
  }

  /** The dictionary `found` after all `hits`, in order. */
  function Merge(hits: seq<Chunk>): seq<Chunk>
  {
    if hits == [] then [] else Upsert(Merge(hits[..|hits| - 1]), hits[|hits| - 1])
  }

  /** The merge keys of the hits, in order. */
  function Keys(hits: seq<Chunk>): (ks: seq<(string, int)>)
    ensures |ks| == |hits|
    ensures forall i :: 0 <= i < |hits| ==> ks[i] == MergeKey(hits[i])
  {
    if hits == [] then [] else Keys(hits[..|hits| - 1]) + [MergeKey(hits[|hits| - 1])]
  }

  /** The hit the merge keeps for key `k`: the most similar hit with that
      key, the first of them when several tie (an independent statement of
      what `found` ends up holding). */
  function Best(hits: seq<Chunk>, k: (string, int)): (b: Chunk)
    requires k in Keys(hits)
    ensures MergeKey(b) == k
    decreases |hits|
  {
    var n := |hits| - 1;
    var init := hits[..n];
    if k !in Keys(init) then hits[n]
    else if MergeKey(hits[n]) == k && Best(init, k).similarity < hits[n].similarity then hits[n]
    else Best(init, k)
  }

  /** `Best(hits, k)` is a hit with key `k` whose similarity no hit with that
      key exceeds, and every earlier hit with the key is strictly less
      similar. */
  lemma {:induction false} BestSpec(hits: seq<Chunk>, k: (string, int)) returns (p: nat)
    requires k in Keys(hits)
    ensures p < |hits| && hits[p] == Best(hits, k)
    ensures forall q :: 0 <= q < |hits| && MergeKey(hits[q]) == k ==> hits[q].similarity <= hits[p].similarity
    ensures forall q :: 0 <= q < p && MergeKey(hits[q]) == k ==> hits[q].similarity < hits[p].similarity
    decreases |hits|
  {
    var n := |hits| - 1;
    var init := hits[..n];
    assert forall q :: 0 <= q < n ==> hits[q] == init[q];
    if k !in Keys(init) {
      p := n;
      forall q | 0 <= q < n ensures MergeKey(hits[q]) != k {
        assert Keys(init)[q] == MergeKey(init[q]);
      }
    } else {
      var p0 := BestSpec(init, k);
      if MergeKey(hits[n]) == k && Best(init, k).similarity < hits[n].similarity {
        p := n;
      } else {
        p := p0;
      }
    }
  }

  ghost predicate KeysDistinct(r: seq<Chunk>)
  {
    forall i, j :: 0 <= i < j < |r| ==> MergeKey(r[i]) != MergeKey(r[j])
  }

  /** Position `i` of the merge holds the best hit of the `i`-th distinct key. */
  ghost predicate MergedAsBest(m: seq<Chunk>, hits: seq<Chunk>)
  {
    var d := Distinct(Keys(hits));
    |m| == |d| && forall i :: 0 <= i < |m| ==> d[i] in Keys(hits) && m[i] == Best(hits, d[i])
  }

  /** A hit with a key not merged yet is appended as that key's best hit. */
  lemma MergeStepNew(init: seq<Chunk>, h: Chunk)
    requires MergedAsBest(Merge(init), init)
    requires FindKey(Merge(init), MergeKey(h)).None?
    ensures MergedAsBest(Merge(init + [h]), init + [h])
  {
    var hits := init + [h];
    var n := |init|;
    assert hits[..n] == init;
    var k := MergeKey(h);
    var m0 := Merge(init);
    var d0 := Distinct(Keys(init));
    assert Keys(hits)[..n] == Keys(init);
    DistinctCorrect(Keys(init));
    assert k !in d0;
    var d := Distinct(Keys(hits));
    assert d == d0 + [k];
    assert Merge(hits) == m0 + [h];
    forall i | 0 <= i < |d| ensures d[i] in Keys(hits) && Merge(hits)[i] == Best(hits, d[i]) {
      if i < |d0| {
        assert d[i] == d0[i] && d0[i] in Keys(init) && d0[i] != k;
      } else {
        assert d[i] == k && k !in Keys(init);
      }
    }
  }

  /** A hit with a merged key replaces that key's entry exactly when it is
      more similar, which is what makes the entry the key's best hit. */
  lemma MergeStepKnown(init: seq<Chunk>, h: Chunk, j: nat)
    requires MergedAsBest(Merge(init), init)
    requires FindKey(Merge(init), MergeKey(h)) == Some(j)
    ensures MergedAsBest(Merge(init + [h]), init + [h])
  {
    var hits := init + [h];
    var n := |init|;
    assert hits[..n] == init;
    var m0 := Merge(init);
    var d0 := Distinct(Keys(init));
    assert Keys(hits)[..n] == Keys(init);
    DistinctCorrect(Keys(init));
    assert MergeKey(m0[j]) == d0[j];
    var d := Distinct(Keys(hits));
    assert d == d0;
    var r := Merge(hits);
    forall i | 0 <= i < |d| ensures d[i] in Keys(hits) && r[i] == Best(hits, d[i]) {
      assert d0[i] in Keys(init);
      if i != j {
        assert d0[i] != d0[j];
      }
    }
  }

  /** The merge holds one entry per key, in the order in which the keys were
      first seen, and the entry for a key is its best hit. */
  lemma {:induction false} MergeCorrect(hits: seq<Chunk>)
    ensures MergedAsBest(Merge(hits), hits)
    decreases |hits|
  {
    if hits != [] {
      var init, h := hits[..|hits| - 1], hits[|hits| - 1];
      assert hits == init + [h];
      MergeCorrect(init);
      MergeStep(init, h);
    }
  }

  /** One more hit keeps the merge correct. */
  lemma MergeStep(init: seq<Chunk>, h: Chunk)
    requires MergedAsBest(Merge(init), init)
    ensures MergedAsBest(Merge(init + [h]), init + [h])
  {
    match FindKey(Merge(init), MergeKey(h))
    case None => MergeStepNew(init, h);
    case Some(j) => MergeStepKnown(init, h, j);
  }

  lemma MergedKeysDistinct(hits: seq<Chunk>)
    ensures KeysDistinct(Merge(hits))
  {
    MergeCorrect(hits);
    DistinctCorrect(Keys(hits));
  }

  // ------------------------------------------------------ search_semantic

  /** `not query or not query.strip()`. */
  predicate Blank(q: string)
  {
    Strip(q) == []
  }

  /** The hits one query contributes, marked semantic. */
  function QueryHits(q: string, answer: string -> Option<seq<Chunk>>): seq<Chunk>
  {
    if Blank(q) then []
    else match answer(q)
      case None => []
      case Some(hs) => MarkSemantic(hs)
  }

  function MarkSemantic(hs: seq<Chunk>): (r: seq<Chunk>)
    ensures |r| == |hs|
    ensures forall i :: 0 <= i < |r| ==> r[i] == hs[i].(matchType := Semantic)
  {
    seq(|hs|, i requires 0 <= i < |hs| => hs[i].(matchType := Semantic))
  }

  /** All hits, query after query. */
  function AllHits(queries: seq<string>, answer: string -> Option<seq<Chunk>>): seq<Chunk>
  {
    if queries == [] then []
    else AllHits(queries[..|queries| - 1], answer) + QueryHits(queries[|queries| - 1], answer)
  }

  /** Some non-blank query raises. */
  predicate Raises(queries: seq<string>, answer: string -> Option<seq<Chunk>>)
  {
    exists i :: 0 <= i < |queries| && !Blank(queries[i]) && answer(queries[i]).None?
  }

  /** What `search_semantic` returns. */
  function SemanticSearch(queries: seq<string>, count: nat, answer: string -> Option<seq<Chunk>>): seq<Chunk>
  {
    if count == 0 || Raises(queries, answer) then []
    else SortDesc(Merge(AllHits(queries, answer)), Similarity)
  }

  lemma AllHitsStep(queries: seq<string>, i: nat, answer: string -> Option<seq<Chunk>>)
    requires i < |queries|
    ensures AllHits(queries[..i + 1], answer) == AllHits(queries[..i], answer) + QueryHits(queries[i], answer)
  {
    assert queries[..i + 1][..i] == queries[..i];
  }

  lemma RaisesStep(queries: seq<string>, i: nat, answer: string -> Option<seq<Chunk>>)
    requires i < |queries| && !Raises(queries[..i], answer)
    requires Blank(queries[i]) || answer(queries[i]).Some?
    ensures !Raises(queries[..i + 1], answer)
  {
    forall k | 0 <= k < i + 1 ensures Blank(queries[k]) || answer(queries[k]).Some? {
      if k < i {
        assert queries[..i][k] == queries[k];
      }
    }
  }

  lemma MergeAppend(xs: seq<Chunk>, y: Chunk)
    ensures Merge(xs + [y]) == Upsert(Merge(xs), y)
  {
    assert (xs + [y])[..|xs|] == xs;
  }

  /** The inner loop of `search_semantic`: the hits of one query merged, in
      order, into `found`. */
  method MergeInto(found: seq<Chunk>, ghost before: seq<Chunk>, hs: seq<Chunk>) returns (f: seq<Chunk>)
    requires found == Merge(before)
    ensures f == Merge(before + hs)
  {
    f := found;
    var j := 0;
    assert before + hs[..0] == before;
    while j < |hs|
      invariant 0 <= j <= |hs|
      invariant f == Merge(before + hs[..j])
    {
      MergeAppend(before + hs[..j], hs[j]);
      assert before + hs[..j + 1] == before + hs[..j] + [hs[j]];
      f := Upsert(f, hs[j]);
      j := j + 1;
    }
    assert hs[..j] == hs;
  }

  /** One query of `search_semantic`: nothing for a blank query, a failure
      when the call raises, otherwise its hits merged into `found`. */
  method MergeQuery(found: seq<Chunk>, ghost before: seq<Chunk>, q: string, answer: string -> Option<seq<Chunk>>)
    returns (ok: bool, f: seq<Chunk>)
    requires found == Merge(before)
    ensures ok == (Blank(q) || answer(q).Some?)
    ensures ok ==> f == Merge(before + QueryHits(q, answer))
  {
    if Blank(q) {
      assert before + QueryHits(q, answer) == before;
      return true, found;
    }
    var res := answer(q);
    if res.None? {
      return false, [];
    }
    ok := true;
    f := MergeInto(found, before, MarkSemantic(res.value));
  }

  /** The query loop of `search_semantic`: fails as soon as a non-blank
      query raises, otherwise merges the hits of every non-blank query. */
  method MergeQueries(queries: seq<string>, answer: string -> Option<seq<Chunk>>)
    returns (ok: bool, found: seq<Chunk>)
    ensures ok == !Raises(queries, answer)
    ensures ok ==> found == Merge(AllHits(queries, answer))
  {
    found := [];
    var i := 0;
    while i < |queries|
      invariant 0 <= i <= |queries|
      invariant !Raises(queries[..i], answer)
      invariant found == Merge(AllHits(queries[..i], answer))
    {
      AllHitsStep(queries, i, answer);
      ok, found := MergeQuery(found, AllHits(queries[..i], answer), queries[i], answer);
      if !ok {
        return;
      }
      RaisesStep(queries, i, answer);
      i := i + 1;
    }
    assert queries[..i] == queries;
    ok := true;
  }

  /** `search_semantic`: `[]` for an empty collection or when a call raises;
      otherwise the merged hits sorted by non-increasing similarity. */
  method SearchSemanticHits(queries: seq<string>, count: nat, answer: string -> Option<seq<Chunk>>)
    returns (r: seq<Chunk>)
    ensures r == SemanticSearch(queries, count, answer)
  {
    if count == 0 {
      return [];
    }
    var ok, found := MergeQueries(queries, answer);
    if !ok {
      return [];
    }
    r := SortDesc(found, Similarity);
  }

  /** Reordering a list whose keys are distinct keeps them distinct. */
  lemma PermutedKeysDistinct(m: seq<Chunk>, r: seq<Chunk>)
    requires KeysDistinct(m) && multiset(m) == multiset(r)
    ensures KeysDistinct(r)
  {
    assert NoDuplicates(m) by {
      forall i, j | 0 <= i < j < |m| ensures m[i] != m[j] {
        assert MergeKey(m[i]) != MergeKey(m[j]);
      }
    }
    PermutationNoDuplicates(m, r);
    forall i, j | 0 <= i < j < |r| ensures MergeKey(r[i]) != MergeKey(r[j]) {
      assert r[i] in multiset(m) && r[j] in multiset(m);
      var a :| 0 <= a < |m| && m[a] == r[i];
      var b :| 0 <= b < |m| && m[b] == r[j];
      assert r[i] != r[j];
      assert a != b;
    }
  }

  /** The result of `search_semantic` holds each stored chunk once, as its
      best hit over all query variants, holds the best hit of every key that
      any variant returned, and is ordered by non-increasing similarity;
      `[]` for an empty collection or when a call raises. */
  lemma SemanticSearchCorrect(queries: seq<string>, count: nat, answer: string -> Option<seq<Chunk>>)
    ensures count == 0 || Raises(queries, answer) ==> SemanticSearch(queries, count, answer) == []
    ensures count > 0 && !Raises(queries, answer) ==>
      var r := SemanticSearch(queries, count, answer);
      var hits := AllHits(queries, answer);
      && NonIncreasing(r, Similarity)
      && KeysDistinct(r)
      && (forall x :: x in r ==> MergeKey(x) in Keys(hits) && x == Best(hits, MergeKey(x)))
      && (forall k :: k in Keys(hits) ==> Best(hits, k) in r)
  {
    if count > 0 && !Raises(queries, answer) {
      var hits := AllHits(queries, answer);
      var m := Merge(hits);
      MergeCorrect(hits);
      MergedKeysDistinct(hits);
      DistinctCorrect(Keys(hits));
      SortDescCorrect(m, Similarity);
      var r := SortDesc(m, Similarity);
      PermutedKeysDistinct(m, r);
      forall x | x in r ensures MergeKey(x) in Keys(hits) && x == Best(hits, MergeKey(x)) {
        assert x in multiset(m);
        var i :| 0 <= i < |m| && m[i] == x;
      }
      forall k | k in Keys(hits) ensures Best(hits, k) in r {
        var d := Distinct(Keys(hits));
        var i :| 0 <= i < |d| && d[i] == k;
        assert m[i] in multiset(r);
      }
    }
  }

  lemma {:induction false} AllHitsMarked(queries: seq<string>, answer: string -> Option<seq<Chunk>>)
    ensures forall x :: x in AllHits(queries, answer) ==> x.matchType == Semantic
    decreases |queries|
  {
    if queries != [] {
      AllHitsMarked(queries[..|queries| - 1], answer);
    }
  }

  /** Every chunk `search_semantic` returns is marked semantic. */
  lemma SemanticSearchMarked(queries: seq<string>, count: nat, answer: string -> Option<seq<Chunk>>)
    ensures forall x :: x in SemanticSearch(queries, count, answer) ==> x.matchType == Semantic
  {
    SemanticSearchCorrect(queries, count, answer);
    var hits := AllHits(queries, answer);
    AllHitsMarked(queries, answer);
    forall x | x in SemanticSearch(queries, count, answer) ensures x.matchType == Semantic {
      var p := BestSpec(hits, MergeKey(x));
      assert hits[p] in hits;
    }
  }
}
