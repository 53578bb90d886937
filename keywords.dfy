/** `extract_keywords` of back/ingestion.py: the words of at least three
    letters of the range آ..ی, stop words dropped, ranked by frequency. */
module Keywords {
  import opened Text
  import opened Ranking

  /** The stop words `extract_keywords` ignores. */
  const Stopwords: set<string> := {
    "است", "بود", "شود", "دارد", "براى", "برای", "این", "که",
    "با", "از", "در", "به", "را", "هم", "هر", "یک",
    "يک", "اگر", "نیست", "كند", "کند", "کرد", "نماید", "آن",
    "اين", "يا", "مى", "مي", "بايد", "ولى", "ولی", "چنانچه",
    "نيز", "بلکه", "بلكه", "مثل", "همچنين", "همچنین", "بنابر", "اگرچه",
    "هنگامى", "وقتى"
  }

  /** How many keywords a chunk keeps. */
  const MaxKeywords: nat := 15

  /** The class `[آ-ی]`: U+0622 to U+06CC. */
  predicate IsWordChar(c: char)
  {
    '\U{0622}' <= c <= '\U{06CC}'
  }

  function WordRunEnd(s: string, i: nat): (j: nat)
    requires i <= |s|
    ensures i <= j <= |s|
    ensures forall k :: i <= k < j ==> IsWordChar(s[k])
    ensures j < |s| ==> !IsWordChar(s[j])
    decreases |s| - i
  {
    if i < |s| && IsWordChar(s[i]) then WordRunEnd(s, i + 1) else i
  }

  /** `re.findall(r'[آ-ی]{3,}', s)`: every maximal run of word characters
      that is at least three long, in order. */
  function Words(s: string): seq<string>
    decreases |s|
  {
    if s == [] then []
    else if IsWordChar(s[0]) then
      var j := WordRunEnd(s, 0);
      (if j >= 3 then [s[..j]] else []) + Words(s[j..])
    else Words(s[1..])
  }

  /** `w` is a whole run of word characters of `s`, starting at `i`. */
  ghost predicate RunAt(s: string, w: string, i: int)
  {
    && OccursAt(s, w, i)
    && (forall k :: 0 <= k < |w| ==> IsWordChar(w[k]))
    && (i == 0 || !IsWordChar(s[i - 1]))
    && (i + |w| == |s| || !IsWordChar(s[i + |w|]))
  }

  /** A run of a suffix of `s` is a run of `s`, unless it starts the suffix
      right after a word character. */
  lemma RunShift(s: string, j: nat, w: string, i: nat)
    requires 0 < j <= |s| && RunAt(s[j..], w, i)
    requires i > 0 || !IsWordChar(s[j - 1])
    ensures RunAt(s, w, j + i)
  {
    assert s[j + i..j + i + |w|] == s[j..][i..i + |w|];
  }

  /** Every word found is at least three word characters long and is a
      maximal run of them in the text. */
  lemma {:induction false} WordsAreRuns(s: string)
    ensures forall w :: w in Words(s) ==> |w| >= 3 && exists i :: RunAt(s, w, i)
    decreases |s|
  {
    if s != [] {
      var j := if IsWordChar(s[0]) then WordRunEnd(s, 0) else 1;
      var t := s[j..];
      WordsAreRuns(t);
      forall w | w in Words(t) ensures exists i :: RunAt(s, w, i) {
        var i :| RunAt(t, w, i);
        if IsWordChar(s[0]) {
          assert t[i] == w[0];
        }
        RunShift(s, j, w, i);
      }
      if IsWordChar(s[0]) && j >= 3 {
        assert RunAt(s, s[..j], 0);
      }
    }
  }

  /** The words that are not stop words, in order: the ones the loop counts. */
  function Content(ws: seq<string>): seq<string>
  {
    if ws == [] then []
    else if ws[|ws| - 1] in Stopwords then Content(ws[..|ws| - 1])
    else Content(ws[..|ws| - 1]) + [ws[|ws| - 1]]
  }

  /** The counted words are exactly the words that are not stop words. */
  lemma {:induction false} ContentMembers(ws: seq<string>)
    ensures forall w :: w in Content(ws) <==> w in ws && w !in Stopwords
    decreases |ws|
  {
    if ws != [] {
      ContentMembers(ws[..|ws| - 1]);
      assert ws == ws[..|ws| - 1] + [ws[|ws| - 1]];
    }
  }

  /** A word that is not a stop word is counted as often as it occurs. */
  lemma {:induction false} ContentOccurrences(ws: seq<string>, w: string)
    requires w !in Stopwords
    ensures Occurrences(Content(ws), w) == Occurrences(ws, w)
    decreases |ws|
  {
    if ws != [] {
      var n := |ws| - 1;
      ContentOccurrences(ws[..n], w);
      assert ws == ws[..n] + [ws[n]];
    }
  }

  /** The filled `freq` dict. */
  function Tally(ws: seq<string>): map<string, nat>
  {
    map w | w in ws :: Occurrences(ws, w)
  }

  /** What `extract_keywords` returns. */
  function KeywordsOf(text: string): seq<string>
  {
    var c := Content(Words(text));
    RankByCount(Distinct(c), Tally(c), MaxKeywords)
  }

  /** Fifteen distinct words, or every distinct content word when there are
      fewer, each a run of at least three word characters of the text and no
      stop word, by non-increasing number of occurrences; no word left out
      occurs more often than one kept, and among words with the same count
      the order is that of first occurrence. */
  lemma KeywordsCorrect(text: string)
    ensures var kws := KeywordsOf(text);
      && |kws| <= MaxKeywords
      && |kws| == (var d := |Distinct(Content(Words(text)))|; if d < MaxKeywords then d else MaxKeywords)
      && NoDuplicates(kws)
      && (forall w :: w in kws ==> w in Words(text) && w !in Stopwords && |w| >= 3 && exists i :: RunAt(text, w, i))
      && (forall i, j :: 0 <= i < j < |kws| ==> Occurrences(Words(text), kws[i]) >= Occurrences(Words(text), kws[j]))
      && (forall w, u :: w in Words(text) && w !in Stopwords && w !in kws && u in kws ==>
            Occurrences(Words(text), w) <= Occurrences(Words(text), u))
      && (forall v :: KeyFilter(kws, CountKey(Tally(Content(Words(text)))), v) <=
            KeyFilter(Distinct(Content(Words(text))), CountKey(Tally(Content(Words(text)))), v))
  {
    ContentRankingShape(Words(text));
    ContentRankingOrder(Words(text));
    WordsAreRuns(text);
  }

  /** The ranking of the content words of `ws`: as many as there are, up
      to fifteen, all distinct content words, ranked no wider than the
      distinct words themselves. */
  lemma ContentRankingShape(ws: seq<string>)
    ensures var c := Content(ws);
      var kws := RankByCount(Distinct(c), Tally(c), MaxKeywords);
      && |kws| == (if |Distinct(c)| < MaxKeywords then |Distinct(c)| else MaxKeywords)
      && NoDuplicates(kws)
      && (forall w :: w in kws ==> w in ws && w !in Stopwords)
      && (forall v :: KeyFilter(kws, CountKey(Tally(c)), v) <= KeyFilter(Distinct(c), CountKey(Tally(c)), v))
  {
    var c := Content(ws);
    ContentMembers(ws);
    RankByCountCorrect(c, Distinct(c), Tally(c), MaxKeywords);
  }

  /** The ranking of the content words of `ws` orders them by their number
      of occurrences in `ws`, and leaves out no content word that occurs
      more often than one it keeps. */
  lemma ContentRankingOrder(ws: seq<string>)
    ensures var c := Content(ws);
      var kws := RankByCount(Distinct(c), Tally(c), MaxKeywords);
      && (forall i, j :: 0 <= i < j < |kws| ==> Occurrences(ws, kws[i]) >= Occurrences(ws, kws[j]))
      && (forall w, u :: w in ws && w !in Stopwords && w !in kws && u in kws ==> Occurrences(ws, w) <= Occurrences(ws, u))
  {
    var c := Content(ws);
    var kws := RankByCount(Distinct(c), Tally(c), MaxKeywords);
    ContentMembers(ws);
    forall w | w in ws && w !in Stopwords ensures Occurrences(c, w) == Occurrences(ws, w) {
      ContentOccurrences(ws, w);
    }
    RankByCountCorrect(c, Distinct(c), Tally(c), MaxKeywords);
    OrderCarries(kws, c, ws);
  }

  /** An order by counts in `c` is one by counts in `ws` when every ranked
      word is counted alike in both. */
  lemma OrderCarries(kws: seq<string>, c: seq<string>, ws: seq<string>)
    requires forall i, j :: 0 <= i < j < |kws| ==> Occurrences(c, kws[i]) >= Occurrences(c, kws[j])
    requires forall w :: w in kws ==> Occurrences(c, w) == Occurrences(ws, w)
    ensures forall i, j :: 0 <= i < j < |kws| ==> Occurrences(ws, kws[i]) >= Occurrences(ws, kws[j])
  {
    forall i, j | 0 <= i < j < |kws| ensures Occurrences(ws, kws[i]) >= Occurrences(ws, kws[j]) {
      assert kws[i] in kws && kws[j] in kws;
    }
  }

  /** `extract_keywords`: the words that pass the stop-word test are
      counted into `freq`, which is then ranked. */
  method ExtractKeywords(text: string) returns (kws: seq<string>)
    ensures kws == KeywordsOf(text)
  {
    var words := Words(text);
    var content: seq<string> := [];
    var i := 0;
    while i < |words|
      invariant 0 <= i <= |words|
      invariant content == Content(words[..i])
    {
      assert words[..i + 1][..i] == words[..i];
      if words[i] !in Stopwords {
        content := content + [words[i]];
      }
      i := i + 1;
    }
    assert words[..i] == words;
    var keys, counts := CountWords(content);
    assert counts == Tally(content);
    kws := RankByCount(keys, counts, MaxKeywords);
  }
}
