/** `extract_pdf` of back/ingestion.py over the page texts PyMuPDF reads:
    every long paragraph of every page becomes one chunk, numbered from 1. */
module PdfExtraction {
  import opened Text
  import opened Normalization
  import opened Keywords
  import opened Ingestion

  /** A paragraph is kept only when its stripped text is longer than this. */
  const MinParagraph: nat := 30

  /** The paragraph separator of a page. */
  const ParagraphBreak: string := "\n\n"

  /** `[p.strip() for p in parts if len(p.strip()) > 30]`. */
  function Long(parts: seq<string>): seq<string>
  {
    if parts == [] then []
    else
      var p := Strip(parts[|parts| - 1]);
      Long(parts[..|parts| - 1]) + (if |p| > MinParagraph then [p] else [])
  }

  /** The paragraphs of one page, after `normalize`. */
  function PageParagraphs(page: string): seq<string>
  {
    Long(Split(Normalized(page), ParagraphBreak))
  }

  /** A kept paragraph together with the index of its page. */
  datatype PdfPara = PdfPara(page: nat, text: string)

  function Tagged(page: nat, ps: seq<string>): (r: seq<PdfPara>)
    ensures |r| == |ps|
    ensures forall k :: 0 <= k < |ps| ==> r[k] == PdfPara(page, ps[k])
  {
    seq(|ps|, k requires 0 <= k < |ps| => PdfPara(page, ps[k]))
  }

  /** Every kept paragraph of the document, page by page, in order. */
  function PdfParagraphs(pages: seq<string>): seq<PdfPara>
  {
    if pages == [] then []
    else PdfParagraphs(pages[..|pages| - 1]) + Tagged(|pages| - 1, PageParagraphs(pages[|pages| - 1]))
  }

  /** `صفحه {page_num+1}`. */
  function PageLabel(page: nat): string
  {
    "صفحه " + NatToString(page + 1)
  }

  /** The chunk of the `counter`-th kept paragraph of the document. */
  function PdfRecord(source: string, pp: PdfPara, counter: nat): Record
  {
    Record("مسئله " + NatToString(counter) + " | " + PageLabel(pp.page) + "\n" + pp.text,
      pp.text, source, counter, PageLabel(pp.page), "", "", PageLabel(pp.page),
      Join(",", KeywordsOf(pp.text)), Pdf)
  }

  /** The chunks `extract_pdf` returns for paragraphs `pps`, the first of
      them numbered `from + 1`. */
  ghost predicate PdfChunks(source: string, chunks: seq<Record>, pps: seq<PdfPara>, from: nat)
  {
    && |chunks| == |pps|
    && forall k :: 0 <= k < |pps| ==> chunks[k] == PdfRecord(source, pps[k], from + k + 1)
  }

  /** A paragraph `extract_pdf` keeps: stripped and longer than 30. */
  predicate Kept(p: string)
  {
    |p| > MinParagraph && !IsSpace(p[0]) && !IsSpace(p[|p| - 1])
  }

  lemma {:induction false} LongKept(parts: seq<string>)
    ensures forall k :: 0 <= k < |Long(parts)| ==> Kept(Long(parts)[k])
    decreases |parts|
  {
    if parts != [] {
      LongKept(parts[..|parts| - 1]);
    }
  }

  lemma PageKept(page: string)
    ensures forall k :: 0 <= k < |PageParagraphs(page)| ==> Kept(PageParagraphs(page)[k])
  {
    LongKept(Split(Normalized(page), ParagraphBreak));
  }

  /** Kept paragraphs from pages before `pages`, with indices in order. */
  ghost predicate Shaped(pps: seq<PdfPara>, pages: nat)
  {
    && (forall k :: 0 <= k < |pps| ==> Kept(pps[k].text) && pps[k].page < pages)
    && (forall k, l :: 0 <= k <= l < |pps| ==> pps[k].page <= pps[l].page)
  }

  lemma ShapedAppend(front: seq<PdfPara>, n: nat, ps: seq<string>)
    requires Shaped(front, n)
    requires forall k :: 0 <= k < |ps| ==> Kept(ps[k])
    ensures Shaped(front + Tagged(n, ps), n + 1)
  {
    var back := Tagged(n, ps);
    var pps := front + back;
    forall k | 0 <= k < |pps| ensures Kept(pps[k].text) && pps[k].page < n + 1 {
      if k >= |front| {
        assert pps[k] == back[k - |front|];
      }
    }
    forall k, l | 0 <= k <= l < |pps| ensures pps[k].page <= pps[l].page {
      if l >= |front| {
        assert pps[l] == back[l - |front|];
        if k >= |front| {
          assert pps[k] == back[k - |front|];
        }
      }
    }
  }

  /** Every kept paragraph is stripped and longer than 30 characters and
      comes from a page of the document; the page indices never decrease. */
  lemma {:induction false} PdfParagraphsShape(pages: seq<string>)
    ensures Shaped(PdfParagraphs(pages), |pages|)
    decreases |pages|
  {
    if pages != [] {
      var n := |pages| - 1;
      PdfParagraphsShape(pages[..n]);
      PageKept(pages[n]);
      ShapedAppend(PdfParagraphs(pages[..n]), n, PageParagraphs(pages[n]));
    }
  }

  /** The chunk of one kept paragraph, with its keywords. */
  method PdfChunk(source: string, page: nat, para: string, counter: nat) returns (r: Record)
    ensures r == PdfRecord(source, PdfPara(page, para), counter)
  {
    var kws := ExtractKeywords(para);
    r := Record("مسئله " + NatToString(counter) + " | " + PageLabel(page) + "\n" + para,
      para, source, counter, PageLabel(page), "", "", PageLabel(page), Join(",", kws), Pdf);
  }

  lemma LongStep(parts: seq<string>, j: nat)
    requires j < |parts|
    ensures Long(parts[..j + 1]) ==
      Long(parts[..j]) + (if |Strip(parts[j])| > MinParagraph then [Strip(parts[j])] else [])
  {
    assert parts[..j + 1][..j] == parts[..j];
  }

  /** A part longer than 30 once stripped adds its chunk. */
  lemma PageStepKept(source: string, page: nat, parts: seq<string>, j: nat, counter: nat, out: seq<Record>, c: Record)
    requires j < |parts| && |Strip(parts[j])| > MinParagraph
    requires PdfChunks(source, out, Tagged(page, Long(parts[..j])), counter)
    requires c == PdfRecord(source, PdfPara(page, Strip(parts[j])), counter + |out| + 1)
    ensures PdfChunks(source, out + [c], Tagged(page, Long(parts[..j + 1])), counter)
  {
    LongStep(parts, j);
    PdfChunksSnoc(source, out, page, Long(parts[..j]), counter, Strip(parts[j]), c);
  }

  /** A shorter part adds nothing. */
  lemma PageStepSkipped(source: string, page: nat, parts: seq<string>, j: nat, counter: nat, out: seq<Record>)
    requires j < |parts| && |Strip(parts[j])| <= MinParagraph
    requires PdfChunks(source, out, Tagged(page, Long(parts[..j])), counter)
    ensures PdfChunks(source, out, Tagged(page, Long(parts[..j + 1])), counter)
  {
    LongStep(parts, j);
  }

  lemma PdfChunksSnoc(source: string, out: seq<Record>, page: nat, ps: seq<string>, counter: nat, p: string, r: Record)
    requires PdfChunks(source, out, Tagged(page, ps), counter)
    requires r == PdfRecord(source, PdfPara(page, p), counter + |out| + 1)
    ensures PdfChunks(source, out + [r], Tagged(page, ps + [p]), counter)
  {
  }

  /** The inner loop of `extract_pdf` over the parts of page `page`: the
      counter continues from `counter`. */
  method PageChunks(source: string, page: nat, parts: seq<string>, counter: nat) returns (out: seq<Record>)
    ensures PdfChunks(source, out, Tagged(page, Long(parts)), counter)
  {
    out := [];
    var j := 0;
    while j < |parts|
      invariant 0 <= j <= |parts|
      invariant PdfChunks(source, out, Tagged(page, Long(parts[..j])), counter)
    {
      var para := Strip(parts[j]);
      if |para| > MinParagraph {
        var c := PdfChunk(source, page, para, counter + |out| + 1);
        PageStepKept(source, page, parts, j, counter, out, c);
        out := out + [c];
      } else {
        PageStepSkipped(source, page, parts, j, counter, out);
      }
      j := j + 1;
    }
    assert parts[..j] == parts;
  }

  lemma PdfChunksAppend(source: string, a: seq<Record>, pa: seq<PdfPara>, b: seq<Record>, pb: seq<PdfPara>)
    requires PdfChunks(source, a, pa, 0) && PdfChunks(source, b, pb, |pa|)
    ensures PdfChunks(source, a + b, pa + pb, 0)
  {
  }

  /** The chunks of the kept paragraphs `pps`, numbered from 1. */
  function PdfRecords(source: string, pps: seq<PdfPara>): (r: seq<Record>)
    ensures PdfChunks(source, r, pps, 0)
  {
    seq(|pps|, k requires 0 <= k < |pps| => PdfRecord(source, pps[k], k + 1))
  }

  /** `extract_pdf` over the page texts of the document named `source`. */
  method ExtractPdf(source: string, pages: seq<string>) returns (chunks: seq<Record>)
    ensures chunks == PdfRecords(source, PdfParagraphs(pages))
  {
    chunks := [];
    var i := 0;
    while i < |pages|
      invariant 0 <= i <= |pages|
      invariant PdfChunks(source, chunks, PdfParagraphs(pages[..i]), 0)
    {
      assert pages[..i + 1][..i] == pages[..i];
      var text := Normalize(pages[i]);
      var out := PageChunks(source, i, Split(text, ParagraphBreak), |chunks|);
      PdfChunksAppend(source, chunks, PdfParagraphs(pages[..i]), out, Tagged(i, PageParagraphs(pages[i])));
      chunks := chunks + out;
      i := i + 1;
    }
    assert pages[..i] == pages;
    assert PdfChunks(source, PdfRecords(source, PdfParagraphs(pages)), PdfParagraphs(pages), 0);
  }

  /** The chunks are numbered 1, 2, 3, ... in order, all of kind `pdf`;
      each carries a stripped paragraph longer than 30 characters from a page
      of the document, labelled with that page, and the pages never go back. */
  lemma PdfChunksShape(source: string, pages: seq<string>)
    ensures var pps := PdfParagraphs(pages); var chunks := PdfRecords(source, pps);
      && |chunks| == |pps|
      && (forall k :: 0 <= k < |chunks| ==>
            && chunks[k].problemNumber == k + 1
            && chunks[k].kind == Pdf
            && chunks[k].source == source
            && chunks[k].rawText == pps[k].text
            && Kept(chunks[k].rawText)
            && pps[k].page < |pages|
            && chunks[k].section == chunks[k].sectionPath == PageLabel(pps[k].page))
      && (forall k, l :: 0 <= k <= l < |pps| ==> pps[k].page <= pps[l].page)
  {
    PdfParagraphsShape(pages);
  }
}
