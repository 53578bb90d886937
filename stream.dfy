/** `answer_question_stream` of back/retriever.py: the generator behind the
    chat endpoint, as the sequence of events it yields. Everything it asks of
    the outside world is a parameter (`Env`): the store, the translation, the
    question analysis, whether the embedding call raises, the rerank scores,
    the tokens the language model streams back and whether the stream then
    fails, and the point at which the client's cancel flag is seen set. */
module AnswerStream {
  import opened Wrappers
  import opened Text
  import opened QueryText
  import opened Search
  import Retrieval

  /** The `label` of a source: a numbered problem or an explanatory passage. */
  datatype Caption = Numbered(n: int) | Explanatory

  function CaptionText(c: Caption): string
  {
    match c
    case Numbered(n) => "مسئله " + IntToString(n)
    case Explanatory => "توضیح"
  }

  /** One entry of the `sources` list of the final event. */
  datatype Source = Source(filename: string, page: int, similarity: int, caption: Caption, section: string)

  /** The progress messages of the `status` events. */
  datatype StatusMessage = Translating | SearchingNumber(n: nat) | Analyzing | Searching | Generating

  /** The text each progress message carries. */
  function StatusText(m: StatusMessage): string
  {
    match m
    case Translating => "در حال ترجمه سوال..."
    case SearchingNumber(n) => "جستجوی مسئله " + NatToString(n) + "..."
    case Analyzing => "در حال تحلیل سوال..."
    case Searching => "در حال جستجو در رساله..."
    case Generating => "در حال تولید پاسخ..."
  }

  /** The events the generator yields, by their `type` field. */
  datatype Event =
    | Answer(content: string)
    | Status(message: StatusMessage)
    | Done(sources: seq<Source>, keywords: seq<string>, foundInDocs: bool)
    | Error(content: string)

  /** A `done` or `error` event ends the conversation turn. */
  predicate Terminal(e: Event)
  {
    e.Done? || e.Error?
  }

  /** What the language model's stream delivers: the contents of its chunks
      (an empty content is a chunk without text), and whether it raises
      after them (or, with no tokens, at the request). */
  datatype Reply = Reply(tokens: seq<string>, fails: bool)

  /** The outside world of one call. The cancel flag is read at numbered
      checkpoints, in the order the generator reaches them; `cancelAt` is the
      first checkpoint at which it is seen set. */
  datatype Env = Env(
    store: Retrieval.Store,
    translation: Option<string>,
    analysis: Retrieval.Analysis,
    embeddingRaises: bool,
    scores: Option<seq<int>>,
    reply: Reply,
    errorText: string,
    cancelAt: nat,
    sessionId: Option<string>)

  /** Which branch of the generator a call took. */
  datatype Path = SmallTalkPath | EmptyStorePath | FastPath | NormalPath

  const NoFilesYet: string := "هنوز فایلی بارگذاری نشده."
  /** The two phrases whose presence in the answer means it was not found. */
  const NotPresent: string := "موجود نیست"
  const NotFoundPhrase: string := "یافت نشد"
  const NotInRisale: string := "این مسئله در رساله " + NotPresent + "."
  const ErrorPrefix: string := "خطا: "
  /** The result count of the fallback semantic search. */
  const FallbackCount: nat := 5
  /** The fallback keeps chunks with similarity at least 0.10. */
  const FallbackFloor: int := 100
  const MaxSources: int := 6
  const MaxKeywords: int := 5
  /** `full_answer[:300]` is what the session memory keeps. */
  const RecordedLength: int := 300

  /** The text of the answer events, concatenated. */
  function AnswerText(events: seq<Event>): string
  {
    if events == [] then ""
    else
      var e := events[|events| - 1];
      AnswerText(events[..|events| - 1]) + (if e.Answer? then e.content else "")
  }

  /** The concatenation of the streamed chunk contents. */
  function Concat(tokens: seq<string>): string
  {
    if tokens == [] then "" else Concat(tokens[..|tokens| - 1]) + tokens[|tokens| - 1]
  }

  /** No event before the last one is terminal. */
  ghost predicate TerminalOnlyLast(events: seq<Event>)
  {
    forall i :: 0 <= i < |events| - 1 ==> !Terminal(events[i])
  }

  ghost predicate NoTerminal(events: seq<Event>)
  {
    forall i :: 0 <= i < |events| ==> !Terminal(events[i])
  }

  /** The answer text of a concatenation is the concatenation of the texts. */
  lemma {:induction false} AnswerTextAppend(a: seq<Event>, b: seq<Event>)
    ensures AnswerText(a + b) == AnswerText(a) + AnswerText(b)
    decreases |b|
  {
    if b == [] {
      assert a + b == a;
    } else {
      var n := |b| - 1;
      assert (a + b)[..|a + b| - 1] == a + b[..n];
      AnswerTextAppend(a, b[..n]);
    }
  }

  /** Status events carry no answer text. */
  lemma {:induction false} AnswerTextStatuses(a: seq<Event>, b: seq<Event>)
    requires forall i :: 0 <= i < |a| ==> a[i].Status?
    ensures AnswerText(a + b) == AnswerText(b)
    decreases |a|
  {
    AnswerTextAppend(a, b);
    if a != [] {
      var n := |a| - 1;
      AnswerTextStatuses(a[..n], []);
      assert a[..n] + [] == a[..n];
    }
  }

  /** The not-found phrases that make `found_in_docs` false. */
  predicate NotFound(answer: string)
  {
    Contains(answer, NotPresent) || Contains(answer, NotFoundPhrase)
  }

  /** The token loop: before each chunk of the stream the cancel flag is read
      (checkpoint `first + k` for the `k`-th chunk); a chunk with text is
      added to the answer and yielded. */
  method StreamTokens(tokens: seq<string>, cancelAt: nat, first: nat)
    returns (events: seq<Event>, answer: string, cancelled: bool)
    ensures cancelled <==> |tokens| > 0 && cancelAt < first + |tokens|
    ensures forall i :: 0 <= i < |events| ==> events[i].Answer? && events[i].content != []
    ensures AnswerText(events) == answer
    ensures !cancelled ==> answer == Concat(tokens)
  {
    events := [];
    answer := "";
    cancelled := false;
    var k := 0;
    while k < |tokens|
      invariant 0 <= k <= |tokens|
      invariant k == 0 || first + k <= cancelAt
      invariant forall i :: 0 <= i < |events| ==> events[i].Answer? && events[i].content != []
      invariant AnswerText(events) == answer
      invariant answer == Concat(tokens[..k])
    {
      if cancelAt <= first + k {
        cancelled := true;
        return;
      }
      var t := tokens[k];
      if t != [] {
        AnswerTextAppend(events, [Answer(t)]);
        events := events + [Answer(t)];
        answer := answer + t;
      }
      assert tokens[..k + 1][..k] == tokens[..k];
      k := k + 1;
    }
    assert tokens[..k] == tokens;
  }

  /** The generation step both paths share: the "generating" status, the
      checkpoint `first` before the request, the token loop from checkpoint
      `first + 1`, and the error event when the stream raises. */
  method Generate(env: Env, first: nat) returns (events: seq<Event>, finished: bool, ghost cancelled: bool)
    ensures |events| >= 1 && events[0] == Status(Generating)
    ensures cancelled <==>
      env.cancelAt <= first || (|env.reply.tokens| > 0 && env.cancelAt < first + 1 + |env.reply.tokens|)
    ensures finished <==> !cancelled && !env.reply.fails
    ensures finished || cancelled ==> NoTerminal(events)
    ensures !finished && !cancelled ==>
      TerminalOnlyLast(events) && events[|events| - 1] == Error(ErrorPrefix + env.errorText)
    ensures finished ==> AnswerText(events) == Concat(env.reply.tokens)
  {
    events := [Status(Generating)];
    if env.cancelAt <= first {
      return events, false, true;
    }
    var toks, answer, stopped := StreamTokens(env.reply.tokens, env.cancelAt, first + 1);
    AnswerTextStatuses(events, toks);
    events := events + toks;
    if stopped {
      return events, false, true;
    }
    if env.reply.fails {
      return events + [Error(ErrorPrefix + env.errorText)], false, false;
    }
    return events, true, false;
  }

  /** The `sources` entry of the fast path. */
  function NumberedSource(c: Chunk): Source
  {
    Source(c.source, c.problemNumber, c.similarity, Numbered(c.problemNumber), c.sectionPath)
  }

  function CaptionOf(n: int): Caption
  {
    if n > 0 then Numbered(n) else Explanatory
  }

  /** The `sources` entry of the normal path: explanatory chunks (problem
      number -1, or any number that is not positive) are labelled as such. */
  function SourceOf(c: Chunk): Source
  {
    Source(c.source, c.problemNumber, c.similarity, CaptionOf(c.problemNumber), c.sectionPath)
  }

  /** The de-duplication key `f"{source}_{problem_number}"`. */
  function SourceKey(filename: string, page: int): string
  {
    filename + "_" + IntToString(page)
  }

  /** No two sources share a file and a problem number. */
  ghost predicate SourcesDistinct(sources: seq<Source>)
  {
    forall i, j :: 0 <= i < j < |sources| ==>
      (sources[i].filename, sources[i].page) != (sources[j].filename, sources[j].page)
  }

  lemma {:induction false} IntToStringNoUnderscore(i: int)
    ensures '_' !in IntToString(i)
  {
    var r := IntToString(i);
    var d := if i < 0 then NatToString(-i) else NatToString(i);
    assert forall k :: 0 <= k < |d| ==> '0' <= d[k] <= '9';
    if i < 0 {
      assert forall k :: 1 <= k < |r| ==> r[k] == d[k - 1];
    }
  }

  /** `str` of an integer starts with a minus sign exactly when it is negative. */
  lemma IntToStringSign(i: int)
    ensures IntToString(i)[0] == '-' <==> i < 0
  {
    if i >= 0 {
      assert '0' <= NatToString(i)[0] <= '9';
    }
  }

  /** `str` is one-to-one on integers. */
  lemma {:induction false} IntToStringInjective(i: int, j: int)
    requires IntToString(i) == IntToString(j)
    ensures i == j
  {
    IntToStringSign(i);
    IntToStringSign(j);
    if i < 0 {
      var s := IntToString(i);
      assert s[1..] == NatToString(-i);
      assert s[1..] == NatToString(-j);
      NatToStringInjective(-i, -j);
    } else {
      NatToStringInjective(i, j);
    }
  }

  /** Decimal digits name one natural number only. */
  lemma NatToStringInjective(m: nat, n: nat)
    requires NatToString(m) == NatToString(n)
    ensures m == n
  {
    NatToStringValue(m);
    NatToStringValue(n);
  }

  /** When two splits at a marker disagree on the tail, the longer tail holds
      the other split's marker. */
  lemma {:induction false} LongerTailHasUnderscore(s1: string, t1: string, s2: string, t2: string)
    requires s1 + "_" + t1 == s2 + "_" + t2
    ensures |t1| < |t2| ==> '_' in t2
  {
    if |t1| < |t2| {
      var a := s1 + "_" + t1;
      assert a[|s1|] == '_';
      assert a[|s1|] == t2[|s1| - |s2| - 1];
    }
  }

  /** A string with one marker followed by a marker-free tail splits in one
      way only. */
  lemma {:induction false} SplitAtLastUnderscore(s1: string, t1: string, s2: string, t2: string)
    requires '_' !in t1 && '_' !in t2
    requires s1 + "_" + t1 == s2 + "_" + t2
    ensures s1 == s2 && t1 == t2
  {
    LongerTailHasUnderscore(s1, t1, s2, t2);
    LongerTailHasUnderscore(s2, t2, s1, t1);
    var a := s1 + "_" + t1;
    assert |s1| == |s2|;
    assert s1 == a[..|s1|] == s2;
    assert t1 == a[|s1| + 1..] == t2;
  }

  /** Since `str` of an integer never contains an underscore, the joined key
      `f"{source}_{num}"` tells the pair apart exactly: two chunks get the
      same key if and only if they share file and problem number. */
  lemma SourceKeyInjective(f1: string, p1: int, f2: string, p2: int)
    ensures SourceKey(f1, p1) == SourceKey(f2, p2) <==> f1 == f2 && p1 == p2
  {
    if SourceKey(f1, p1) == SourceKey(f2, p2) {
      IntToStringNoUnderscore(p1);
      IntToStringNoUnderscore(p2);
      SplitAtLastUnderscore(f1, IntToString(p1), f2, IntToString(p2));
      IntToStringInjective(p1, p2);
    }
  }

  /** A key function that tells every (file, problem number) pair apart. */
  ghost predicate OneToOne(key: (string, int) -> string)
  {
    forall f1, p1, f2, p2 :: key(f1, p1) == key(f2, p2) ==> f1 == f2 && p1 == p2
  }

  /** The keys of a list of sources, in order. */
  function Keys(sources: seq<Source>, key: (string, int) -> string): (ks: seq<string>)
    ensures |ks| == |sources|
    ensures forall j :: 0 <= j < |sources| ==> ks[j] == key(sources[j].filename, sources[j].page)
  {
    seq(|sources|, j requires 0 <= j < |sources| => key(sources[j].filename, sources[j].page))
  }

  /** The keys of a list, as a set. */
  function Elements(xs: seq<string>): set<string>
  {
    set x | x in xs
  }

  lemma ElementsAppend(xs: seq<string>, x: string)
    ensures Elements(xs + [x]) == Elements(xs) + {x}
  {
  }

  lemma KeysAppend(sources: seq<Source>, s: Source, key: (string, int) -> string)
    ensures Keys(sources + [s], key) == Keys(sources, key) + [key(s.filename, s.page)]
  {
  }

  /** Some chunk before position `n` has the file and problem number of `c`. */
  predicate SeenBefore(chunks: seq<Chunk>, n: nat, c: Chunk)
    requires n <= |chunks|
  {
    exists j :: 0 <= j < n && chunks[j].source == c.source && chunks[j].problemNumber == c.problemNumber
  }

  /** The sources of the first `n` chunks: the source of every chunk whose
      file and problem number no earlier chunk has, in the order of the
      chunks. */
  function FirstSourcesOf(chunks: seq<Chunk>, n: nat): seq<Source>
    requires n <= |chunks|
  {
    if n == 0 then []
    else if SeenBefore(chunks, n - 1, chunks[n - 1]) then FirstSourcesOf(chunks, n - 1)
    else FirstSourcesOf(chunks, n - 1) + [SourceOf(chunks[n - 1])]
  }

  /** The sources of the normal path by definition. */
  function FirstSources(chunks: seq<Chunk>): seq<Source>
  {
    FirstSourcesOf(chunks, |chunks|)
  }

  /** The sources loop of the normal path: one entry per key, in order of
      first appearance, each made from the first chunk with its key. It is
      stated for any one-to-one key; the generator uses `SourceKey`. */
  method CollectSources(chunks: seq<Chunk>, key: (string, int) -> string) returns (sources: seq<Source>)
    requires OneToOne(key)
    ensures sources == FirstSources(chunks)
    ensures |sources| <= |chunks|
    ensures SourcesDistinct(sources)
    ensures forall c :: c in chunks ==> exists s :: s in sources && Carries(s, c)
    ensures forall s :: s in sources ==> exists c :: c in chunks && s == SourceOf(c)
    ensures chunks != [] ==> sources != [] && sources[0] == SourceOf(chunks[0])
  {
    sources := [];
    var seen: set<string> := {};
    for i := 0 to |chunks|
      invariant sources == FirstSourcesOf(chunks, i)
      invariant seen == Elements(Keys(sources, key))
    {
      var c := chunks[i];
      var k := key(c.source, c.problemNumber);
      SeenKey(chunks, i, key);
      if k !in seen {
        KeysAppend(sources, SourceOf(c), key);
        ElementsAppend(Keys(sources, key), k);
        seen := seen + {k};
        sources := sources + [SourceOf(c)];
      }
    }
    FirstSourcesCorrect(chunks);
  }

  /** Source `s` names the file and problem number of chunk `c`. */
  predicate Carries(s: Source, c: Chunk)
  {
    s.filename == c.source && s.page == c.problemNumber
  }

  /** The sources of the first `n` chunks are distinct and no more than
      the chunks, and each is made from one of them, the first from the
      first chunk. */
  lemma {:induction false} FirstSourcesFrom(chunks: seq<Chunk>, n: nat)
    requires n <= |chunks|
    ensures var fs := FirstSourcesOf(chunks, n);
      && |fs| <= n
      && SourcesDistinct(fs)
      && (forall m :: 0 <= m < |fs| ==> exists j :: 0 <= j < n && fs[m] == SourceOf(chunks[j]))
      && (n > 0 ==> fs != [] && fs[0] == SourceOf(chunks[0]))
    decreases n
  {
    if n > 0 {
      FirstSourcesFrom(chunks, n - 1);
      var prev, c := FirstSourcesOf(chunks, n - 1), chunks[n - 1];
      if !SeenBefore(chunks, n - 1, c) {
        forall m | 0 <= m < |prev|
          ensures !Carries(prev[m], c)
        {
          var j :| 0 <= j < n - 1 && prev[m] == SourceOf(chunks[j]);
        }
      }
    }
  }

  /** Every one of the first `n` chunks has a source among the first
      sources that carries its file and problem number. */
  lemma {:induction false} FirstSourcesCover(chunks: seq<Chunk>, n: nat)
    requires n <= |chunks|
    ensures var fs := FirstSourcesOf(chunks, n);
      forall j :: 0 <= j < n ==> exists m :: 0 <= m < |fs| && Carries(fs[m], chunks[j])
    decreases n
  {
    if n > 0 {
      FirstSourcesCover(chunks, n - 1);
      var prev, c := FirstSourcesOf(chunks, n - 1), chunks[n - 1];
      if SeenBefore(chunks, n - 1, c) {
        var j :| 0 <= j < n - 1 && chunks[j].source == c.source && chunks[j].problemNumber == c.problemNumber;
        var m :| 0 <= m < |prev| && Carries(prev[m], chunks[j]);
        assert FirstSourcesOf(chunks, n) == prev;
        forall i | 0 <= i < n
          ensures exists k :: 0 <= k < |prev| && Carries(prev[k], chunks[i])
        {
          if i == n - 1 {
            assert Carries(prev[m], chunks[i]);
          }
        }
      } else {
        var fs := prev + [SourceOf(c)];
        assert Carries(fs[|prev|], c);
        forall j | 0 <= j < n - 1
          ensures exists m :: 0 <= m < |fs| && Carries(fs[m], chunks[j])
        {
          var m :| 0 <= m < |prev| && Carries(prev[m], chunks[j]);
          assert fs[m] == prev[m];
        }
      }
    }
  }

  /** The two lemmas above for all the chunks, by membership. */
  lemma {:induction false} FirstSourcesCorrect(chunks: seq<Chunk>)
    ensures var fs := FirstSources(chunks);
      && |fs| <= |chunks|
      && SourcesDistinct(fs)
      && (forall c :: c in chunks ==> exists s :: s in fs && Carries(s, c))
      && (forall s :: s in fs ==> exists c :: c in chunks && s == SourceOf(c))
      && (chunks != [] ==> fs != [] && fs[0] == SourceOf(chunks[0]))
  {
    var fs := FirstSources(chunks);
    forall c | c in chunks
      ensures exists s :: s in fs && Carries(s, c)
    {
      FirstSourcesCover(chunks, |chunks|);
      var j :| 0 <= j < |chunks| && chunks[j] == c;
      var m :| 0 <= m < |fs| && Carries(fs[m], chunks[j]);
      assert fs[m] in fs;
    }
    FirstSourcesFrom(chunks, |chunks|);
    forall s | s in fs
      ensures exists c :: c in chunks && s == SourceOf(c)
    {
      var m :| 0 <= m < |fs| && fs[m] == s;
      var j :| 0 <= j < |chunks| && fs[m] == SourceOf(chunks[j]);
      assert chunks[j] in chunks;
    }
  }

  /** With a one-to-one key, the key of chunk `n` is among the keys of the
      sources so far exactly when an earlier chunk has its file and problem
      number. */
  lemma {:induction false} SeenKey(chunks: seq<Chunk>, n: nat, key: (string, int) -> string)
    requires OneToOne(key) && n < |chunks|
    ensures var c := chunks[n];
      key(c.source, c.problemNumber) in Elements(Keys(FirstSourcesOf(chunks, n), key)) <==> SeenBefore(chunks, n, c)
  {
    var c := chunks[n];
    if key(c.source, c.problemNumber) in Elements(Keys(FirstSourcesOf(chunks, n), key)) {
      SeenKeyFound(chunks, n, key);
    }
    if SeenBefore(chunks, n, c) {
      SeenKeyKnown(chunks, n, key);
    }
  }

  /** A key already among the sources belongs to an earlier chunk. */
  lemma {:induction false} SeenKeyFound(chunks: seq<Chunk>, n: nat, key: (string, int) -> string)
    requires OneToOne(key) && n < |chunks|
    requires key(chunks[n].source, chunks[n].problemNumber) in Elements(Keys(FirstSourcesOf(chunks, n), key))
    ensures SeenBefore(chunks, n, chunks[n])
  {
    var c, fs := chunks[n], FirstSourcesOf(chunks, n);
    var ks := Keys(fs, key);
    var m :| 0 <= m < |ks| && ks[m] == key(c.source, c.problemNumber);
    FirstSourcesFrom(chunks, n);
    var j :| 0 <= j < n && fs[m] == SourceOf(chunks[j]);
    assert key(chunks[j].source, chunks[j].problemNumber) == key(c.source, c.problemNumber);
    assert chunks[j].source == c.source && chunks[j].problemNumber == c.problemNumber;
  }

  /** An earlier chunk's key is among the sources. */
  lemma {:induction false} SeenKeyKnown(chunks: seq<Chunk>, n: nat, key: (string, int) -> string)
    requires n < |chunks| && SeenBefore(chunks, n, chunks[n])
    ensures key(chunks[n].source, chunks[n].problemNumber) in Elements(Keys(FirstSourcesOf(chunks, n), key))
  {
    var c, fs := chunks[n], FirstSourcesOf(chunks, n);
    var ks := Keys(fs, key);
    FirstSourcesCover(chunks, n);
    var j :| 0 <= j < n && chunks[j].source == c.source && chunks[j].problemNumber == c.problemNumber;
    var m :| 0 <= m < |fs| && Carries(fs[m], chunks[j]);
    assert ks[m] == key(c.source, c.problemNumber);
    assert ks[m] in ks;
  }

  /** The generator's key is one-to-one. */
  lemma SourceKeyOneToOne()
    ensures OneToOne(SourceKey)
  {
    forall f1, p1, f2, p2 | SourceKey(f1, p1) == SourceKey(f2, p2)
      ensures f1 == f2 && p1 == p2
    {
      SourceKeyInjective(f1, p1, f2, p2);
    }
  }

  /** What the session memory records: the question and the first 300
      characters of a non-empty answer, when a session is given. */
  function Recorded(env: Env, q: string, answer: string): (r: Option<(string, string)>)
    ensures r.Some? <==> env.sessionId.Some? && answer != []
    ensures r.Some? ==> r.value.0 == q && r.value.1 == answer[..if |answer| < RecordedLength then |answer| else RecordedLength]
  {
    if env.sessionId.Some? && answer != [] then Some((q, Take(answer, RecordedLength))) else None
  }

  /** The `sources` of the fast path: one numbered source per chunk. */
  function NumberedSources(chunks: seq<Chunk>): (ss: seq<Source>)
    ensures |ss| == |chunks|
    ensures forall i :: 0 <= i < |chunks| ==> ss[i] == NumberedSource(chunks[i])
  {
    seq(|chunks|, i requires 0 <= i < |chunks| => NumberedSource(chunks[i]))
  }

  /** The fast path, from the "generating" status on, for the chunks stored
      under the asked problem number. */
  method AnswerByNumber(q: string, chunks: seq<Chunk>, env: Env)
    returns (events: seq<Event>, recorded: Option<(string, string)>, ghost cancelled: bool)
    ensures events != [] && events[0] == Status(Generating)
    ensures TerminalOnlyLast(events)
    ensures cancelled ==> NoTerminal(events) && env.cancelAt <= |env.reply.tokens| + 1
    ensures !cancelled ==> Terminal(events[|events| - 1])
    ensures events[|events| - 1].Done? ==>
      && AnswerText(events) == Concat(env.reply.tokens)
      && events[|events| - 1] == Done(Take(NumberedSources(chunks), MaxSources), [], true)
    ensures recorded == (if events[|events| - 1].Done? then Recorded(env, q, AnswerText(events)) else None)
  {
    var finished;
    events, finished, cancelled := Generate(env, 0);
    recorded := None;
    if finished {
      var sources := NumberedSources(chunks);
      recorded := Recorded(env, q, AnswerText(events));
      AnswerTextAppend(events, [Done(Take(sources, MaxSources), [], true)]);
      events := events + [Done(Take(sources, MaxSources), [], true)];
    }
  }

  /** The chunks the normal path answers from: the full search, or when that
      finds nothing, a five-result semantic search on the question and its
      normalised form, kept above the similarity floor. The normalisation
      is pure, so doing it here rather than before the "analysing" status
      changes nothing observable. */
  method Candidates(sq: string, env: Env) returns (chunks: seq<Chunk>)
    ensures chunks == CandidateChunks(sq, env)
  {
    var normalized := NormalizeColloquial(sq);
    chunks := Retrieval.FullSearch(sq, normalized, env.analysis, env.store, env.scores);
    if chunks == [] {
      var fallback := SearchSemanticHits([sq, normalized], env.store.count, Retrieval.Answer(env.store, None, FallbackCount));
      chunks := Retrieval.Where(fallback, AboveFloor);
    }
  }

  /** The chunks of the normal path: the full search, else the fallback
      semantic search kept above the floor. */
  function CandidateChunks(sq: string, env: Env): seq<Chunk>
  {
    var normalized := Strip(CollapseMarks(ApplyFixes(sq, ColloquialFixes)));
    var full := Retrieval.Select(Retrieval.Values(Retrieval.Found(sq, normalized, env.analysis, env.store, Retrieval.ChunkKeyOf)), env.scores);
    if full != [] then full
    else Retrieval.Where(SemanticSearch([sq, normalized], env.store.count, Retrieval.Answer(env.store, None, FallbackCount)), AboveFloor)
  }

  /** The chunks of the fast path: those stored under the problem number of
      the question or of its search form, none when it names no number. */
  function NumberChunks(q: string, sq: string, env: Env): seq<Chunk>
  {
    match Retrieval.ProblemNumber(q, sq)
    case None => []
    case Some(n) => SearchByNumber(env.store.byNumber(n))
  }

  /** The `done` event of the normal path over `chunks` with answer text
      `answer`: the first six de-duplicated sources, the first five Persian
      keywords, and found unless a not-found phrase occurs; with no chunks,
      no sources and no keywords. */
  function ChunksDone(chunks: seq<Chunk>, env: Env, answer: string): Event
  {
    Done(Take(FirstSources(chunks), MaxSources),
         if chunks == [] then [] else Take(env.analysis.keywordsFa, MaxKeywords),
         !NotFound(answer))
  }

  /** The `done` event after the language step: the fast path's when the
      asked number has stored chunks, the normal path's otherwise. */
  function DoneEvent(q: string, sq: string, env: Env, answer: string): Event
  {
    var fast := NumberChunks(q, sq, env);
    if fast != [] then Done(Take(NumberedSources(fast), MaxSources), [], true)
    else ChunksDone(CandidateChunks(sq, env), env, answer)
  }

  predicate AboveFloor(c: Chunk)
  {
    c.similarity >= FallbackFloor
  }

  /** The status events of a list of messages. */
  function Statuses(ms: seq<StatusMessage>): (es: seq<Event>)
    ensures |es| == |ms|
    ensures forall i :: 0 <= i < |ms| ==> es[i] == Status(ms[i])
  {
    seq(|ms|, i requires 0 <= i < |ms| => Status(ms[i]))
  }

  /** Status events in front of a non-empty run change neither its answer
      text, nor its last event, nor where its terminal events are. */
  lemma StatusPrefix(ms: seq<StatusMessage>, b: seq<Event>)
    requires b != []
    ensures AnswerText(Statuses(ms) + b) == AnswerText(b)
    ensures (Statuses(ms) + b)[|Statuses(ms) + b| - 1] == b[|b| - 1]
    ensures TerminalOnlyLast(b) ==> TerminalOnlyLast(Statuses(ms) + b)
    ensures NoTerminal(b) ==> NoTerminal(Statuses(ms) + b)
  {
    var a := Statuses(ms);
    AnswerTextStatuses(a, b);
    assert forall i :: |a| <= i < |a + b| ==> (a + b)[i] == b[i - |a|];
  }

  lemma ContainsMiddle(a: string, p: string, b: string)
    ensures Contains(a + p + b, p)
  {
    ContainsIff(a + p + b, p);
    assert (a + p + b)[|a|..|a| + |p|] == p;
    assert OccursAt(a + p + b, p, |a|);
  }

  /** The reply when no chunk was found: its text contains a not-found
      phrase. */
  lemma NotInRisaleReply()
    ensures AnswerText([Answer(NotInRisale), Done([], [], false)]) == NotInRisale
    ensures NotFound(NotInRisale)
  {
    AnswerTextAppend([Answer(NotInRisale)], [Done([], [], false)]);
    assert [Answer(NotInRisale)] + [Done([], [], false)] == [Answer(NotInRisale), Done([], [], false)];
    assert [Answer(NotInRisale)][..0] == [];
    assert [Done([], [], false)][..0] == [];
    ContainsMiddle("این مسئله در رساله ", NotPresent, ".");
  }

  /** The normal path once the chunks are known: the not-found reply, or
      generation followed by the `done` event with the de-duplicated
      sources. */
  method AnswerFromChunks(q: string, chunks: seq<Chunk>, env: Env)
    returns (events: seq<Event>, recorded: Option<(string, string)>, ghost cancelled: bool)
    ensures events != [] && TerminalOnlyLast(events)
    ensures cancelled ==> NoTerminal(events) && env.cancelAt <= |env.reply.tokens| + 2
    ensures !cancelled ==> Terminal(events[|events| - 1])
    ensures chunks == [] ==> events == [Answer(NotInRisale), Done([], [], false)]
    ensures events[|events| - 1].Done? ==>
      var d := events[|events| - 1];
      && (d.foundInDocs <==> !NotFound(AnswerText(events)))
      && SourcesDistinct(d.sources) && |d.sources| <= MaxSources
      && d.keywords == (if chunks == [] then [] else Take(env.analysis.keywordsFa, MaxKeywords))
      && (d.sources != [] <==> chunks != [])
      && (chunks != [] ==> AnswerText(events) == Concat(env.reply.tokens))
    ensures events[|events| - 1].Done? ==> events[|events| - 1] == ChunksDone(chunks, env, AnswerText(events))
    ensures recorded == (if events[|events| - 1].Done? && chunks != [] then Recorded(env, q, AnswerText(events)) else None)
  {
    recorded := None;
    if chunks == [] {
      NotInRisaleReply();
      assert Take(FirstSources(chunks), MaxSources) == [];
      return [Answer(NotInRisale), Done([], [], false)], None, false;
    }
    var finished;
    events, finished, cancelled := Generate(env, 1);
    if finished {
      var answer := AnswerText(events);
      SourceKeyOneToOne();
      var sources := CollectSources(chunks, SourceKey);
      var done := Done(Take(sources, MaxSources), Take(env.analysis.keywordsFa, MaxKeywords), !NotFound(answer));
      recorded := Recorded(env, q, answer);
      AnswerTextAppend(events, [done]);
      assert AnswerText([done]) == [] by {
        assert [done][..0] == [];
      }
      assert Take(sources, MaxSources) != [] by {
        assert sources[0] in Take(sources, MaxSources);
      }
      events := events + [done];
      assert AnswerText(events) == answer + [] == answer;
    }
  }

  /** The normal path, from the "analysing" status on. */
  method AnswerBySearch(q: string, sq: string, env: Env)
    returns (events: seq<Event>, raised: bool, recorded: Option<(string, string)>, ghost cancelled: bool)
    ensures events != [] && TerminalOnlyLast(events)
    ensures raised || cancelled ==> NoTerminal(events)
    ensures !raised && !cancelled ==> Terminal(events[|events| - 1])
    ensures raised ==> env.embeddingRaises
    ensures cancelled ==> env.cancelAt <= |env.reply.tokens| + 2
    ensures events[|events| - 1].Done? ==>
      var d := events[|events| - 1];
      && (d.foundInDocs <==> !NotFound(AnswerText(events)))
      && SourcesDistinct(d.sources) && |d.sources| <= MaxSources
      && d.keywords == (if d.sources == [] then [] else Take(env.analysis.keywordsFa, MaxKeywords))
      && (d.sources != [] ==> AnswerText(events) == Concat(env.reply.tokens))
    ensures events[|events| - 1].Done? ==>
      events[|events| - 1] == ChunksDone(CandidateChunks(sq, env), env, AnswerText(events))
    ensures recorded ==
      if events[|events| - 1].Done? && CandidateChunks(sq, env) != [] then Recorded(env, q, AnswerText(events)) else None
  {
    raised, cancelled, recorded := false, false, None;
    if env.embeddingRaises {
      return Statuses([Analyzing]), true, None, false;
    }
    if env.cancelAt <= 0 {
      return Statuses([Analyzing, Searching]), false, None, true;
    }
    var chunks := Candidates(sq, env);
    var rest;
    rest, recorded, cancelled := AnswerFromChunks(q, chunks, env);
    StatusPrefix([Analyzing, Searching], rest);
    events := Statuses([Analyzing, Searching]) + rest;
  }

  /** Everything after the language step: the fast path when the question
      names a problem number stored in the collection, the normal path
      otherwise. */
  method AnswerFromDocuments(q: string, sq: string, env: Env)
    returns (events: seq<Event>, raised: bool, recorded: Option<(string, string)>, ghost path: Path, ghost cancelled: bool)
    ensures events != [] && TerminalOnlyLast(events)
    ensures Terminal(events[|events| - 1]) || raised || cancelled
    ensures raised || cancelled ==> NoTerminal(events)
    ensures path == FastPath || path == NormalPath
    ensures raised ==> path == NormalPath && env.embeddingRaises
    ensures cancelled ==> env.cancelAt <= |env.reply.tokens| + 2
    ensures path == FastPath ==> Retrieval.ProblemNumber(q, sq).Some?
    ensures path == FastPath <==> NumberChunks(q, sq, env) != []
    ensures events[|events| - 1].Done? ==> events[|events| - 1] == DoneEvent(q, sq, env, AnswerText(events))
    ensures recorded ==
      if events[|events| - 1].Done? && (path == FastPath || CandidateChunks(sq, env) != [])
      then Recorded(env, q, AnswerText(events)) else None
    ensures events[|events| - 1].Done? ==> |events[|events| - 1].sources| <= MaxSources
    ensures path == FastPath && events[|events| - 1].Done? ==>
      events[|events| - 1].foundInDocs && AnswerText(events) == Concat(env.reply.tokens)
    ensures path == NormalPath && events[|events| - 1].Done? ==>
      var d := events[|events| - 1];
      && (d.foundInDocs <==> !NotFound(AnswerText(events)))
      && SourcesDistinct(d.sources)
      && (d.sources != [] ==> AnswerText(events) == Concat(env.reply.tokens))
  {
    var pn := Retrieval.ProblemNumber(q, sq);
    var prefix: seq<StatusMessage> := [];
    if pn.Some? {
      prefix := [SearchingNumber(pn.value)];
      var chunks := SearchByNumber(env.store.byNumber(pn.value));
      if chunks != [] {
        var rest;
        rest, recorded, cancelled := AnswerByNumber(q, chunks, env);
        StatusPrefix(prefix, rest);
        assert NumberChunks(q, sq, env) == chunks;
        return Statuses(prefix) + rest, false, recorded, FastPath, cancelled;
      }
    }
    assert NumberChunks(q, sq, env) == [];
    var rest;
    rest, raised, recorded, cancelled := AnswerBySearch(q, sq, env);
    StatusPrefix(prefix, rest);
    events, path := Statuses(prefix) + rest, NormalPath;
  }

  /** `answer_question_stream`. */
  method AnswerQuestionStream(question: string, env: Env)
    returns (events: seq<Event>, raised: bool, recorded: Option<(string, string)>, ghost path: Path, ghost cancelled: bool)
    ensures events != []
    ensures TerminalOnlyLast(events)
    ensures Terminal(events[|events| - 1]) || raised || cancelled
    ensures raised || cancelled ==> NoTerminal(events)
    ensures raised ==> path == NormalPath && env.embeddingRaises
    ensures cancelled ==> (path == FastPath || path == NormalPath) && env.cancelAt <= |env.reply.tokens| + 2
    ensures path == SmallTalkPath <==> IsSmallTalk(Strip(question)).Some?
    ensures path == SmallTalkPath ==>
      events == [Answer(IsSmallTalk(Strip(question)).value), Done([], [], true)] && recorded == None
    ensures path == EmptyStorePath <==> IsSmallTalk(Strip(question)).None? && env.store.count == 0
    ensures path == EmptyStorePath ==> events == [Answer(NoFilesYet), Done([], [], false)] && recorded == None
    ensures path == FastPath ==> Retrieval.ProblemNumber(Strip(question), SearchQuestion(question, env)).Some?
    ensures events[|events| - 1].Done? ==> |events[|events| - 1].sources| <= MaxSources
    ensures path == FastPath && events[|events| - 1].Done? ==>
      events[|events| - 1].foundInDocs && AnswerText(events) == Concat(env.reply.tokens)
    ensures path == NormalPath && events[|events| - 1].Done? ==>
      var d := events[|events| - 1];
      && (d.foundInDocs <==> !NotFound(AnswerText(events)))
      && SourcesDistinct(d.sources)
      && (d.sources != [] ==> AnswerText(events) == Concat(env.reply.tokens))
    ensures recorded.Some? ==>
      && (path == FastPath || path == NormalPath) && events[|events| - 1].Done?
      && recorded == Recorded(env, Strip(question), AnswerText(events))
    ensures var q, sq := Strip(question), SearchQuestion(question, env);
      && (path == FastPath <==> IsSmallTalk(q).None? && env.store.count != 0 && NumberChunks(q, sq, env) != [])
      && ((path == FastPath || path == NormalPath) && events[|events| - 1].Done? ==>
            events[|events| - 1] == DoneEvent(q, sq, env, AnswerText(events)))
      && (recorded ==
            if (path == FastPath || path == NormalPath) && events[|events| - 1].Done?
               && (path == FastPath || CandidateChunks(sq, env) != [])
            then Recorded(env, q, AnswerText(events)) else None)
  {
    var st := IsSmallTalk(Strip(question));
    if st.Some? {
      return [Answer(st.value), Done([], [], true)], false, None, SmallTalkPath, false;
    }
    events, raised, recorded, path, cancelled := AnswerFromStore(question, env);
  }

  /** `answer_question_stream` once the question is known not to be small
      talk: the empty-store reply, the language step and the documents. */
  method AnswerFromStore(question: string, env: Env)
    returns (events: seq<Event>, raised: bool, recorded: Option<(string, string)>, ghost path: Path, ghost cancelled: bool)
    ensures events != []
    ensures TerminalOnlyLast(events)
    ensures Terminal(events[|events| - 1]) || raised || cancelled
    ensures raised || cancelled ==> NoTerminal(events)
    ensures raised ==> path == NormalPath && env.embeddingRaises
    ensures cancelled ==> (path == FastPath || path == NormalPath) && env.cancelAt <= |env.reply.tokens| + 2
    ensures path != SmallTalkPath
    ensures path == EmptyStorePath <==> env.store.count == 0
    ensures path == EmptyStorePath ==> events == [Answer(NoFilesYet), Done([], [], false)] && recorded == None
    ensures path == FastPath ==> Retrieval.ProblemNumber(Strip(question), SearchQuestion(question, env)).Some?
    ensures events[|events| - 1].Done? ==> |events[|events| - 1].sources| <= MaxSources
    ensures path == FastPath && events[|events| - 1].Done? ==>
      events[|events| - 1].foundInDocs && AnswerText(events) == Concat(env.reply.tokens)
    ensures path == NormalPath && events[|events| - 1].Done? ==>
      var d := events[|events| - 1];
      && (d.foundInDocs <==> !NotFound(AnswerText(events)))
      && SourcesDistinct(d.sources)
      && (d.sources != [] ==> AnswerText(events) == Concat(env.reply.tokens))
    ensures recorded.Some? ==>
      && (path == FastPath || path == NormalPath) && events[|events| - 1].Done?
      && recorded == Recorded(env, Strip(question), AnswerText(events))
    ensures var q, sq := Strip(question), SearchQuestion(question, env);
      && (path == FastPath <==> env.store.count != 0 && NumberChunks(q, sq, env) != [])
      && ((path == FastPath || path == NormalPath) && events[|events| - 1].Done? ==>
            events[|events| - 1] == DoneEvent(q, sq, env, AnswerText(events)))
      && (recorded ==
            if (path == FastPath || path == NormalPath) && events[|events| - 1].Done?
               && (path == FastPath || CandidateChunks(sq, env) != [])
            then Recorded(env, q, AnswerText(events)) else None)
  {
    var q := Strip(question);
    if env.store.count == 0 {
      return [Answer(NoFilesYet), Done([], [], false)], false, None, EmptyStorePath, false;
    }
    var prefix: seq<StatusMessage> := [];
    var sq := q;
    if DetectLanguage(q) != "fa" {
      prefix := [Translating];
      sq := if env.translation.Some? then Strip(env.translation.value) else q;
    }
    assert sq == SearchQuestion(question, env);
    var rest;
    rest, raised, recorded, path, cancelled := AnswerFromDocuments(q, sq, env);
    StatusPrefix(prefix, rest);
    events := Statuses(prefix) + rest;
  }

  /** The question the searches use: the translation for a question not in
      Persian, falling back to the question itself when translation fails. */
  function SearchQuestion(question: string, env: Env): string
  {
    var q := Strip(question);
    if DetectLanguage(q) == "fa" || env.translation.None? then q else Strip(env.translation.value)
  }
}
