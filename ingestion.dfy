/** The document side of back/ingestion.py: the problem number of a paragraph,
    the chunks cut from a Word document (a sequence of styled paragraphs, as
    python-docx reads them) and from a PDF (a sequence of page texts, as
    PyMuPDF reads them), and the ids and batches with which `ingest_file`
    stores them. */
module Ingestion {
  import opened Wrappers
  import opened Text
  import opened Normalization
  import opened Keywords
  import QueryText

  // --------------------------------------------------- problem numbers

  /** The three spellings of "problem" the patterns accept. */
  const ArticleWords: seq<string> := ["مسئله", "مسأله", "مساله"]

  /** `[:\-–—]` and `[-\.–—]`. */
  const HeadSeparators: string := ":-\U{2013}\U{2014}"
  const LineSeparators: string := "-.\U{2013}\U{2014}"

  /** `^(?:مسئله|مسأله|مساله)\s*[:\-–—]?\s*(\d+)`: none of the words is a
      prefix of another, and the optional separator is not a space or a
      digit, so greedy matching never has to give characters back. */
  function HeadNumber(t: string): Option<nat>
  {
    match QueryText.AltAt(t, 0, ArticleWords)
    case None => None
    case Some(e) =>
      var k := SkipSpaces(t, e);
      var k2 := if k < |t| && t[k] in HeadSeparators then SkipSpaces(t, k + 1) else k;
      QueryText.DigitsAt(t, k2)
  }

  /** `^(\d+)\s*[-\.–—]\s`. */
  function LeadNumber(t: string): Option<nat>
  {
    var j := DigitRunEnd(t, 0);
    var k := SkipSpaces(t, j);
    if j > 0 && k + 1 < |t| && t[k] in LineSeparators && IsSpace(t[k + 1])
    then Some(DigitsValue(t[0..j])) else None
  }

  /** `(?:مسئله|مسأله|مساله)\s+(\d+)` tried at position `i`. */
  function InlineAt(t: string, i: nat): Option<nat>
    requires i <= |t|
  {
    match QueryText.AltAt(t, i, ArticleWords)
    case None => None
    case Some(e) =>
      var k := SkipSpaces(t, e);
      if k > e then QueryText.DigitsAt(t, k) else None
  }

  function InlineMatches(t: string): (ms: seq<Option<nat>>)
    ensures |ms| == |t| + 1
    ensures forall j :: 0 <= j <= |t| ==> ms[j] == InlineAt(t, j)
  {
    seq(|t| + 1, j requires 0 <= j <= |t| => InlineAt(t, j))
  }

  /** `re.search` with the third pattern: its leftmost match. */
  function InlineNumber(t: string): Option<nat>
  {
    QueryText.Leftmost(InlineMatches(t), 0)
  }

  /** `extract_actual_problem_number`. */
  function ActualProblemNumber(text: string, fallback: int): int
  {
    var t := Strip(text);
    if HeadNumber(t).Some? then HeadNumber(t).value
    else if LeadNumber(t).Some? then LeadNumber(t).value
    else if InlineNumber(t).Some? then InlineNumber(t).value
    else fallback
  }

  /** The number comes from the first pattern that matches the stripped
      text, the third one at its leftmost match; the fallback counter is
      returned exactly when no pattern matches anywhere. */
  lemma ActualProblemNumberSpec(text: string, fallback: int)
    ensures var t := Strip(text); var r := ActualProblemNumber(text, fallback);
      && (HeadNumber(t).Some? ==> r == HeadNumber(t).value)
      && (HeadNumber(t).None? && LeadNumber(t).Some? ==> r == LeadNumber(t).value)
      && (HeadNumber(t).None? && LeadNumber(t).None? && (forall j :: 0 <= j <= |t| ==> InlineAt(t, j).None?) ==>
            r == fallback)
      && (HeadNumber(t).None? && LeadNumber(t).None? && (exists j :: 0 <= j <= |t| && InlineAt(t, j).Some?) ==>
            exists j :: 0 <= j <= |t| && InlineAt(t, j).Some? && r == InlineAt(t, j).value &&
              forall j' :: 0 <= j' < j ==> InlineAt(t, j').None?)
  {
    var t := Strip(text);
    var ms := InlineMatches(t);
    QueryText.LeftmostNone(ms, 0);
    if InlineNumber(t).Some? {
      var j := QueryText.LeftmostFirst(ms, 0);
      assert InlineNumber(t) == InlineAt(t, j);
    } else {
      assert forall j :: 0 <= j <= |t| ==> ms[j] == None;
    }
  }

  lemma StripUnchanged(t: string)
    requires t != [] && !IsSpace(t[0]) && !IsSpace(t[|t| - 1])
    ensures Strip(t) == t
  {
    assert SkipSpaces(t, 0) == 0;
    assert TrimEnd(t, 0, |t|) == |t|;
  }

  lemma ArticleWordAt(t: string)
    requires StartsWith(t, ArticleWords[0])
    ensures QueryText.AltAt(t, 0, ArticleWords) == Some(5)
  {
    assert ArticleWords[0] == QueryText.ProblemWords[0];
    QueryText.LowerProblemWord(t);
  }

  /** A digit string that runs to the end of `t` is read whole. */
  lemma DigitsToEnd(t: string, k: nat, d: string)
    requires k <= |t| && t[k..] == d && d != [] && forall j :: 0 <= j < |d| ==> '0' <= d[j] <= '9'
    ensures QueryText.DigitsAt(t, k) == Some(DigitsValue(d))
  {
    assert forall j :: k <= j < |t| ==> t[j] == d[j - k];
    QueryText.DigitRunToEnd(t, k);
    assert t[k..|t|] == d && |t| > k;
  }

  lemma HeadNumberOf(n: nat)
    ensures HeadNumber("مسئله " + NatToString(n)) == Some(n)
  {
    var d := NatToString(n);
    var t := "مسئله " + d;
    NatToStringValue(n);
    assert t[..5] == ArticleWords[0];
    ArticleWordAt(t);
    assert t[5] == ' ' && IsDigit(t[6]);
    assert SkipSpaces(t, 5) == 6;
    DigitsToEnd(t, 6, d);
  }

  /** A paragraph that starts with the word "مسئله", a space and a number
      is given that number. */
  lemma HeadNumberRoundTrip(n: nat)
    ensures ActualProblemNumber("مسئله " + NatToString(n), 0) == n
  {
    var d := NatToString(n);
    var t := "مسئله " + d;
    assert t[|t| - 1] == d[|d| - 1];
    StripUnchanged(t);
    HeadNumberOf(n);
  }

  lemma {:induction false} DigitRunPrefix(d: string, x: string, i: nat)
    requires i <= |d| && AllDigits(d) && x != [] && !IsDigit(x[0])
    ensures DigitRunEnd(d + x, i) == |d|
    decreases |d| - i
  {
    if i < |d| {
      DigitRunPrefix(d, x, i + 1);
    }
  }

  lemma NoHeadNumber(t: string)
    requires t != [] && IsDigit(t[0])
    ensures HeadNumber(t) == None
  {
    assert forall k :: 0 <= k < 3 ==> |ArticleWords[k]| == 5 && !IsDigit(ArticleWords[k][0]);
    if |t| >= 5 {
      assert Lower(t[0..5])[0] == t[0];
    }
    assert QueryText.AltAt(t, 0, ArticleWords[3..]) == None;
    assert QueryText.AltAt(t, 0, ArticleWords[2..]) == None;
    assert QueryText.AltAt(t, 0, ArticleWords[1..]) == None;
  }

  lemma LeadNumberOf(n: nat, rest: string)
    ensures LeadNumber(NatToString(n) + "- " + rest) == Some(n)
  {
    var d := NatToString(n);
    var t := d + "- " + rest;
    NatToStringValue(n);
    assert t == d + ("- " + rest);
    DigitRunPrefix(d, "- " + rest, 0);
    assert t[|d|] == '-' && t[|d| + 1] == ' ';
    assert SkipSpaces(t, |d|) == |d|;
    assert t[0..|d|] == d;
  }

  /** A paragraph that starts with a number, a dash and a space is given
      that number (when it does not end in white space, which `strip()`
      would take away together with the space the pattern needs). */
  lemma LeadNumberRoundTrip(n: nat, rest: string)
    requires rest != [] && !IsSpace(rest[|rest| - 1])
    ensures ActualProblemNumber(NatToString(n) + "- " + rest, 0) == n
  {
    var d := NatToString(n);
    var t := d + "- " + rest;
    assert '0' <= t[0] <= '9';
    assert t[|t| - 1] == rest[|rest| - 1];
    StripUnchanged(t);
    NoHeadNumber(t);
    LeadNumberOf(n, rest);
  }

  // -------------------------------------------------------------- chunks

  /** `chunk_type`. */
  datatype Kind = Masaleh | Note | Pdf

  /** One chunk dict as the extractors build it. */
  datatype Record = Record(
    text: string,
    rawText: string,
    source: string,
    problemNumber: int,
    section: string,
    subsection: string,
    sub2: string,
    sectionPath: string,
    keywords: string,
    kind: Kind)

  /** A paragraph of a Word document: its style name and its text. */
  datatype Paragraph = Paragraph(style: string, text: string)

  /** The heading texts `h1`..`h4` the Word extractor carries along. */
  datatype Levels = Levels(h1: string, h2: string, h3: string, h4: string)

  /** The style of the numbered problems. */
  const ProblemStyle: string := "مساله ها"

  /** A note paragraph is kept only when it is longer than this. */
  const NoteMinLength: nat := 40

  /** How much of the previous problem is quoted. */
  const PreviewLength: nat := 100

  /** What the extractor makes of a style name: a heading level from 1 to 4
      (Heading 5 counts as 4), the problem style, `Normal`, or any other. */
  datatype Style = Heading(level: nat) | ProblemStyled | NormalStyled | OtherStyle

  function Classify(style: string): (c: Style)
    ensures c.Heading? ==> 1 <= c.level <= 4
  {
    if style == "Heading 1" then Heading(1)
    else if style == "Heading 2" then Heading(2)
    else if style == "Heading 3" then Heading(3)
    else if style == "Heading 4" || style == "Heading 5" then Heading(4)
    else if style == ProblemStyle then ProblemStyled
    else if style == "Normal" then NormalStyled
    else OtherStyle
  }

  /** A heading of level `r` with text `t`: the deeper levels are cleared. */
  function Enter(lv: Levels, r: nat, t: string): Levels
    requires 1 <= r <= 4
  {
    if r == 1 then Levels(t, "", "", "")
    else if r == 2 then Levels(lv.h1, t, "", "")
    else if r == 3 then Levels(lv.h1, lv.h2, t, "")
    else Levels(lv.h1, lv.h2, lv.h3, t)
  }

  /** `filter(None, parts)`: the non-empty parts, in order. */
  function Present(parts: seq<string>): (r: seq<string>)
    ensures forall k :: 0 <= k < |r| ==> r[k] != ""
    ensures forall x :: x in r <==> x in parts && x != ""
  {
    if parts == [] then []
    else (if parts[0] != "" then [parts[0]] else []) + Present(parts[1..])
  }

  /** `section_path`: the non-empty levels joined by " > ". */
  function SectionPath(lv: Levels): string
  {
    Join(" > ", Present([lv.h1, lv.h2, lv.h3, lv.h4]))
  }

  /** The searchable text of a problem: its number, the section, a preview
      of the previous chunk when that one is a problem too, and the text. */
  function ProblemText(n: int, path: string, prev: seq<Record>, text: string): string
  {
    var sectionContext := if path != "" then "بخش: " + path + "\n" else "";
    var prevContext :=
      if prev != [] && prev[|prev| - 1].kind == Masaleh
      then "مسئله قبلی: " + Take(prev[|prev| - 1].rawText, PreviewLength) + "...\n"
      else "";
    "مسئله " + IntToString(n) + " | " + sectionContext + prevContext + "متن مسئله: " + text
  }

  /** The chunk of a problem paragraph, the `counter`-th of the document. */
  function ProblemRecord(source: string, lv: Levels, counter: nat, prev: seq<Record>, text: string, kws: seq<string>): Record
  {
    var n := ActualProblemNumber(text, counter);
    Record(ProblemText(n, SectionPath(lv), prev, text), text, source, n,
      lv.h1, lv.h2, lv.h3, SectionPath(lv), Join(",", kws), Masaleh)
  }

  /** The chunk of a long `Normal` paragraph. */
  function NoteRecord(source: string, lv: Levels, text: string, kws: seq<string>): Record
  {
    Record("توضیح | بخش: " + SectionPath(lv) + "\n" + text, text, source, -1,
      lv.h1, lv.h2, lv.h3, SectionPath(lv), Join(",", kws), Note)
  }

  /** What the Word extractor carries from one paragraph to the next. */
  datatype WordState = WordState(levels: Levels, counter: nat, chunks: seq<Record>)

  /** The text of a paragraph after `strip()` and `normalize`. */
  function Cleaned(p: Paragraph): string
  {
    Normalized(Strip(p.text))
  }

  /** A non-empty cleaned paragraph `text` of style `style` in state `st`. */
  function StyleStep(source: string, st: WordState, style: Style, text: string): WordState
    requires style.Heading? ==> 1 <= style.level <= 4
  {
    match style
    case Heading(r) => st.(levels := Enter(st.levels, r, text))
    case ProblemStyled =>
      WordState(st.levels, st.counter + 1,
        st.chunks + [ProblemRecord(source, st.levels, st.counter + 1, st.chunks, text, KeywordsOf(text))])
    case NormalStyled =>
      if |text| > NoteMinLength
      then st.(chunks := st.chunks + [NoteRecord(source, st.levels, text, KeywordsOf(text))])
      else st
    case OtherStyle => st
  }

  /** One turn of the paragraph loop of `extract_word`: empty paragraphs
      are skipped. */
  function WordStep(source: string, st: WordState, p: Paragraph): WordState
  {
    if Cleaned(p) == "" then st else StyleStep(source, st, Classify(p.style), Cleaned(p))
  }

  /** The state after the paragraphs `paras`, in order. */
  function WordScan(source: string, paras: seq<Paragraph>): WordState
  {
    if paras == [] then WordState(Levels("", "", "", ""), 0, [])
    else WordStep(source, WordScan(source, paras[..|paras| - 1]), paras[|paras| - 1])
  }

  /** `normalize(para.text.strip())`. */
  method CleanText(p: Paragraph) returns (text: string)
    ensures text == Cleaned(p)
  {
    text := Normalize(Strip(p.text));
  }

  /** The chunk of the `counter`-th problem paragraph, with its keywords. */
  method ProblemChunk(source: string, levels: Levels, counter: nat, chunks: seq<Record>, text: string)
    returns (r: Record)
    ensures r == ProblemRecord(source, levels, counter, chunks, text, KeywordsOf(text))
  {
    var kws := ExtractKeywords(text);
    r := ProblemRecord(source, levels, counter, chunks, text, kws);
  }

  /** The chunk of a long note paragraph, with its keywords. */
  method NoteChunk(source: string, levels: Levels, text: string) returns (r: Record)
    ensures r == NoteRecord(source, levels, text, KeywordsOf(text))
  {
    var kws := ExtractKeywords(text);
    r := NoteRecord(source, levels, text, kws);
  }

  /** The style tests of the loop body on a non-empty paragraph text. */
  method StyleTurn(source: string, levels: Levels, counter: nat, chunks: seq<Record>, style: Style, text: string)
    returns (levels': Levels, counter': nat, chunks': seq<Record>)
    requires style.Heading? ==> 1 <= style.level <= 4
    ensures levels' == StyleStep(source, WordState(levels, counter, chunks), style, text).levels
    ensures counter' == StyleStep(source, WordState(levels, counter, chunks), style, text).counter
    ensures chunks' == StyleStep(source, WordState(levels, counter, chunks), style, text).chunks
  {
    var h1, h2, h3, h4 := levels.h1, levels.h2, levels.h3, levels.h4;
    counter', chunks' := counter, chunks;
    match style {
      case Heading(r) =>
        if r == 1 {
          h1, h2, h3, h4 := text, "", "", "";
        } else if r == 2 {
          h2, h3, h4 := text, "", "";
        } else if r == 3 {
          h3, h4 := text, "";
        } else {
          h4 := text;
        }
      case ProblemStyled =>
        counter' := counter + 1;
        var c := ProblemChunk(source, levels, counter', chunks, text);
        chunks' := chunks + [c];
      case NormalStyled =>
        if |text| > NoteMinLength {
          var c := NoteChunk(source, levels, text);
          chunks' := chunks + [c];
        }
      case OtherStyle =>
    }
    levels' := Levels(h1, h2, h3, h4);
  }

  /** One paragraph of `extract_word`: a heading moves the levels, a
      problem paragraph counts and adds a chunk, a long note adds one. */
  method WordTurn(source: string, levels: Levels, counter: nat, chunks: seq<Record>, p: Paragraph)
    returns (levels': Levels, counter': nat, chunks': seq<Record>)
    ensures levels' == WordStep(source, WordState(levels, counter, chunks), p).levels
    ensures counter' == WordStep(source, WordState(levels, counter, chunks), p).counter
    ensures chunks' == WordStep(source, WordState(levels, counter, chunks), p).chunks
  {
    var text := CleanText(p);
    if text == "" {
      levels', counter', chunks' := levels, counter, chunks;
    } else {
      levels', counter', chunks' := StyleTurn(source, levels, counter, chunks, Classify(p.style), text);
    }
  }

  /** `extract_word` over the paragraphs of the document named `source`. */
  method ExtractWord(source: string, paras: seq<Paragraph>) returns (chunks: seq<Record>)
    ensures chunks == WordScan(source, paras).chunks
  {
    chunks := [];
    var levels := Levels("", "", "", "");
    var counter: nat := 0;
    var i := 0;
    while i < |paras|
      invariant 0 <= i <= |paras|
      invariant WordScan(source, paras[..i]) == WordState(levels, counter, chunks)
    {
      assert paras[..i + 1][..i] == paras[..i];
      levels, counter, chunks := WordTurn(source, levels, counter, chunks, paras[i]);
      i := i + 1;
    }
    assert paras[..i] == paras;
  }

  /** The reference reading of the heading levels: level `k` holds the text
      of the latest heading of level at most `k` when that heading is of
      level `k` itself, and is empty when it is shallower (which cleared
      it) or when there is none. */
  function LevelText(paras: seq<Paragraph>, k: nat): string
  {
    if paras == [] then ""
    else
      var p := paras[|paras| - 1];
      var c := Classify(p.style);
      if Cleaned(p) != "" && c.Heading? && c.level <= k
      then (if c.level == k then Cleaned(p) else "")
      else LevelText(paras[..|paras| - 1], k)
  }

  /** A heading clears every deeper level and keeps the shallower ones:
      after any paragraphs, `h1`..`h4` are the reference levels. */
  lemma {:induction false} WordLevels(source: string, paras: seq<Paragraph>)
    ensures WordScan(source, paras).levels ==
      Levels(LevelText(paras, 1), LevelText(paras, 2), LevelText(paras, 3), LevelText(paras, 4))
    decreases |paras|
  {
    if paras != [] {
      WordLevels(source, paras[..|paras| - 1]);
    }
  }

  /** The paragraphs that give a chunk. */
  predicate Emits(p: Paragraph)
  {
    Cleaned(p) != "" &&
    (Classify(p.style).ProblemStyled? || (Classify(p.style).NormalStyled? && |Cleaned(p)| > NoteMinLength))
  }

  function EmitCount(paras: seq<Paragraph>): nat
  {
    if paras == [] then 0
    else EmitCount(paras[..|paras| - 1]) + (if Emits(paras[|paras| - 1]) then 1 else 0)
  }

  /** The problem paragraphs (those with text). */
  function ProblemCount(paras: seq<Paragraph>): nat
  {
    if paras == [] then 0
    else
      var p := paras[|paras| - 1];
      ProblemCount(paras[..|paras| - 1]) + (if Cleaned(p) != "" && Classify(p.style).ProblemStyled? then 1 else 0)
  }

  function KindCount(chunks: seq<Record>, kind: Kind): nat
  {
    if chunks == [] then 0
    else KindCount(chunks[..|chunks| - 1], kind) + (if chunks[|chunks| - 1].kind == kind then 1 else 0)
  }

  /** A chunk is sound when it names its document, has text, and is a
      problem chunk or a note longer than 40 characters numbered -1. */
  predicate SoundChunk(source: string, c: Record)
  {
    && c.source == source && c.rawText != []
    && (c.kind == Masaleh || (c.kind == Note && c.problemNumber == -1 && |c.rawText| > NoteMinLength))
  }

  lemma WordStepEffect(source: string, st: WordState, p: Paragraph)
    ensures var st' := WordStep(source, st, p);
      && (!Emits(p) ==> st'.chunks == st.chunks)
      && (Emits(p) ==>
            && |st'.chunks| == |st.chunks| + 1 && st'.chunks[..|st.chunks|] == st.chunks
            && SoundChunk(source, st'.chunks[|st.chunks|])
            && (st'.chunks[|st.chunks|].kind == Masaleh <==> Classify(p.style).ProblemStyled?))
      && st'.counter == st.counter + (if Cleaned(p) != "" && Classify(p.style).ProblemStyled? then 1 else 0)
  {
  }

  /** One chunk per problem paragraph and per note paragraph longer than
      40 characters, nothing for the rest; the counter counts the problem
      paragraphs, so it equals the number of problem chunks; note chunks
      have problem number -1; every chunk names its document. */
  lemma {:induction false} WordCounts(source: string, paras: seq<Paragraph>)
    ensures var st := WordScan(source, paras);
      && |st.chunks| == EmitCount(paras) <= |paras|
      && st.counter == ProblemCount(paras) == KindCount(st.chunks, Masaleh)
      && forall c :: c in st.chunks ==> SoundChunk(source, c)
    decreases |paras|
  {
    if paras != [] {
      var init := paras[..|paras| - 1];
      WordCounts(source, init);
      var st0 := WordScan(source, init);
      WordStepEffect(source, st0, paras[|paras| - 1]);
    }
  }
}
