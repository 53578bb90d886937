/** The reordering step of back/retriever.py: `rerank`, which sorts chunks by
    relevance scores a language model assigns, and `smart_rerank`, which
    decides whether to ask for them. The model's answer is a parameter: the
    parsed scores in thousandths (a score of 7.5 is 7500), or `None` when the
    call or the parsing raises. */
module Rerank {
  import opened Wrappers
  import opened Text
  import opened Ranking
  import opened Search

  /** The score a chunk gets when the answer lists fewer scores than chunks (5.0). */
  const DefaultScore: int := 5000

  /** A chunk together with the score `rerank` gives it. */
  datatype Scored = Scored(chunk: Chunk, score: int)

  function ScoreOf(p: Scored): int
  {
    p.score
  }

  /** `scores[i] if i < len(scores) else 5.0`. */
  function ScoreAt(scores: seq<int>, i: nat): (s: int)
    ensures i < |scores| ==> s == scores[i]
    ensures i >= |scores| ==> s == DefaultScore
  {
    if i < |scores| then scores[i] else DefaultScore
  }

  /** Every chunk paired with the score of its position. */
  function ScoredChunks(chunks: seq<Chunk>, scores: seq<int>): (ps: seq<Scored>)
    ensures |ps| == |chunks|
    ensures forall i :: 0 <= i < |chunks| ==> ps[i] == Scored(chunks[i], ScoreAt(scores, i))
  {
    seq(|chunks|, i requires 0 <= i < |chunks| => Scored(chunks[i], ScoreAt(scores, i)))
  }

  function Chunks(ps: seq<Scored>): (cs: seq<Chunk>)
    ensures |cs| == |ps|
    ensures forall i :: 0 <= i < |ps| ==> cs[i] == ps[i].chunk
  {
    seq(|ps|, i requires 0 <= i < |ps| => ps[i].chunk)
  }

  /** `ps` is `qs` sorted by non-increasing score, equal scores in their
      original order (Python's stable `sorted(..., reverse=True)`). */
  ghost predicate StablySorted(ps: seq<Scored>, qs: seq<Scored>)
  {
    && NonIncreasing(ps, ScoreOf)
    && multiset(ps) == multiset(qs)
    && forall v :: KeyFilter(ps, ScoreOf, v) == KeyFilter(qs, ScoreOf, v)
  }

  /** What `rerank` returns. */
  function Reranked(chunks: seq<Chunk>, scores: Option<seq<int>>): seq<Chunk>
  {
    if |chunks| <= 2 || scores.None? then chunks
    else Chunks(SortDesc(ScoredChunks(chunks, scores.value), ScoreOf))
  }

  lemma {:induction false} ChunksAppend(a: seq<Scored>, b: seq<Scored>)
    ensures Chunks(a + b) == Chunks(a) + Chunks(b)
  {
  }

  /** Reordering the pairs reorders their chunks the same way. */
  lemma {:induction false} ChunksMultiset(ps: seq<Scored>, qs: seq<Scored>)
    requires multiset(ps) == multiset(qs)
    ensures multiset(Chunks(ps)) == multiset(Chunks(qs))
    decreases |ps|
  {
    if ps == [] {
      assert |qs| == |multiset(qs)| == 0;
    } else {
      var n := |ps| - 1;
      var x := ps[n];
      assert ps == ps[..n] + [x];
      assert x in multiset(qs);
      var j :| 0 <= j < |qs| && qs[j] == x;
      assert qs == qs[..j] + [x] + qs[j + 1..];
      var rest := qs[..j] + qs[j + 1..];
      assert multiset(ps) == multiset(ps[..n]) + multiset{x};
      assert multiset(qs) == multiset(qs[..j]) + multiset{x} + multiset(qs[j + 1..]);
      assert multiset(rest) == multiset(qs[..j]) + multiset(qs[j + 1..]);
      assert multiset(ps[..n]) == multiset(ps) - multiset{x};
      assert multiset(rest) == multiset(qs) - multiset{x};
      ChunksMultiset(ps[..n], rest);
      ChunksAppend(ps[..n], [x]);
      ChunksAppend(qs[..j] + [x], qs[j + 1..]);
      ChunksAppend(qs[..j], [x]);
      ChunksAppend(qs[..j], qs[j + 1..]);
    }
  }

  /** `rerank` returns a permutation of its input. With at most two chunks,
      or when the scores could not be had, it is the input itself; otherwise
      it is the chunks of the stable sort of the (chunk, score) pairs by
      non-increasing score. */
  lemma RerankedCorrect(chunks: seq<Chunk>, scores: Option<seq<int>>)
    ensures |Reranked(chunks, scores)| == |chunks|
    ensures multiset(Reranked(chunks, scores)) == multiset(chunks)
    ensures |chunks| <= 2 || scores.None? ==> Reranked(chunks, scores) == chunks
    ensures |chunks| > 2 && scores.Some? ==>
      exists ps :: StablySorted(ps, ScoredChunks(chunks, scores.value)) && Reranked(chunks, scores) == Chunks(ps)
  {
    if |chunks| > 2 && scores.Some? {
      var qs := ScoredChunks(chunks, scores.value);
      var ps := SortDesc(qs, ScoreOf);
      SortDescCorrect(qs, ScoreOf);
      ChunksMultiset(ps, qs);
      assert Chunks(qs) == chunks;
      assert StablySorted(ps, qs);
    }
  }

  /** `rerank`: pairs each chunk with its score, position by position, then
      sorts the pairs. */
  method RerankChunks(chunks: seq<Chunk>, scores: Option<seq<int>>) returns (r: seq<Chunk>)
    ensures r == Reranked(chunks, scores)
  {
    if |chunks| <= 2 || scores.None? {
      return chunks;
    }
    var ss := scores.value;
    var scored: seq<Scored> := [];
    var i := 0;
    while i < |chunks|
      invariant 0 <= i <= |chunks|
      invariant scored == ScoredChunks(chunks[..i], ss)
    {
      var s := if i < |ss| then ss[i] else DefaultScore;
      scored := scored + [Scored(chunks[i], s)];
      i := i + 1;
    }
    assert chunks[..i] == chunks;
    r := Chunks(SortDesc(scored, ScoreOf));
  }

  /** `smart_rerank`: asks for scores only when the ranking is unclear. */
  function SmartRerank(chunks: seq<Chunk>, scores: Option<seq<int>>): seq<Chunk>
  {
    if |chunks| <= 3 then chunks
    else if chunks[0].similarity - chunks[1].similarity > RerankGap then Take(chunks, 6)
    else Reranked(Take(chunks, 8), scores)
  }

  /** At most three chunks come back unchanged; a clear leader (a gap above
      0.15 between the first two) keeps the first six in order; a gap below
      0.15 returns `rerank` of the first eight, which `RerankedCorrect`
      describes as their stable sort by score. A gap of exactly 0.15
      is decided by the float subtraction of the two similarities, which may
      land on either side, so only one of the two outcomes is promised.
      Either way the result is drawn from the input, is no longer, and is
      empty only for an empty input. */
  lemma SmartRerankCorrect(chunks: seq<Chunk>, scores: Option<seq<int>>)
    ensures var r := SmartRerank(chunks, scores);
      && (|chunks| <= 3 ==> r == chunks)
      && (|chunks| > 3 && chunks[0].similarity - chunks[1].similarity > RerankGap ==>
            r == chunks[..if |chunks| < 6 then |chunks| else 6])
      && (|chunks| > 3 && chunks[0].similarity - chunks[1].similarity < RerankGap ==>
            && |r| == (if |chunks| < 8 then |chunks| else 8)
            && r == Reranked(chunks[..|r|], scores) && multiset(r) == multiset(chunks[..|r|]))
      && (|chunks| > 3 && chunks[0].similarity - chunks[1].similarity == RerankGap ==>
            || r == chunks[..if |chunks| < 6 then |chunks| else 6]
            || (&& |r| == (if |chunks| < 8 then |chunks| else 8)
                && r == Reranked(chunks[..|r|], scores) && multiset(r) == multiset(chunks[..|r|])))
      && multiset(r) <= multiset(chunks)
      && |r| <= |chunks|
      && (r == [] <==> chunks == [])
  {
    var r := SmartRerank(chunks, scores);
    if |chunks| > 3 {
      var k := if |chunks| < 8 then |chunks| else 8;
      if chunks[0].similarity - chunks[1].similarity > RerankGap {
        var m := if |chunks| < 6 then |chunks| else 6;
        assert Take(chunks, 6) == chunks[..m];
        assert chunks == chunks[..m] + chunks[m..];
      } else {
        assert Take(chunks, 8) == chunks[..k];
        RerankedCorrect(chunks[..k], scores);
        assert chunks == chunks[..k] + chunks[k..];
      }
    }
  }
}
