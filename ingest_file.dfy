/** The storage layout of `ingest_file` in back/ingestion.py: which extractor
    a file name selects, the id and metadata of every chunk, and the batches
    of twenty in which they are added to the collection. */
module IngestFile {
  import opened Wrappers
  import opened Text
  import opened Ingestion
  import opened PdfExtraction

  /** How many chunks are embedded and added at a time. */
  const BatchSize: nat := 20

  /** The value of `page` in every metadata record. */
  const StoredPage: nat := 1

  datatype Format = PdfFile | WordFile

  /** Why `ingest_file` raises `ValueError`. */
  datatype Refusal = Unsupported | NoContent

  predicate EndsWith(s: string, suffix: string)
  {
    |suffix| <= |s| && s[|s| - |suffix|..] == suffix
  }

  /** The extractor chosen by the lowered file name's extension. */
  function FormatOf(filename: string): (f: Option<Format>)
    ensures f == Some(PdfFile) <==> EndsWith(Lower(filename), ".pdf")
    ensures f == Some(WordFile) <==>
      !EndsWith(Lower(filename), ".pdf") && (EndsWith(Lower(filename), ".docx") || EndsWith(Lower(filename), ".doc"))
  {
    var name := Lower(filename);
    if EndsWith(name, ".pdf") then Some(PdfFile)
    else if EndsWith(name, ".docx") || EndsWith(name, ".doc") then Some(WordFile)
    else None
  }

  /** The chunks the chosen extractor returns; the document's contents as
      python-docx and PyMuPDF read them are parameters. */
  ghost function Extracted(format: Format, source: string, paras: seq<Paragraph>, pages: seq<string>): seq<Record>
  {
    match format
    case PdfFile => PdfRecords(source, PdfParagraphs(pages))
    case WordFile => WordScan(source, paras).chunks
  }

  /** `f"{filename}_{i}"`. */
  function ChunkId(filename: string, i: nat): string
  {
    filename + "_" + NatToString(i)
  }

  /** Chunks of one file have pairwise different ids. */
  lemma ChunkIdInjective(filename: string, i: nat, j: nat)
    requires ChunkId(filename, i) == ChunkId(filename, j)
    ensures i == j
  {
    var p := filename + "_";
    assert ChunkId(filename, i)[|p|..] == NatToString(i);
    assert ChunkId(filename, j)[|p|..] == NatToString(j);
    NatToStringValue(i);
    NatToStringValue(j);
  }

  /** The metadata dict of one stored chunk (without `ingested_at`). */
  datatype Meta = Meta(
    source: string,
    page: nat,
    chunkIndex: nat,
    problemNumber: int,
    section: string,
    subsection: string,
    sub2: string,
    sectionPath: string,
    keywords: string,
    kind: Kind)

  /** One stored chunk: its id, its document text and its metadata. */
  datatype Entry = Entry(id: string, document: string, meta: Meta)

  function MetaOf(c: Record, i: nat): Meta
  {
    Meta(c.source, StoredPage, i, c.problemNumber, c.section, c.subsection, c.sub2,
      c.sectionPath, c.keywords, c.kind)
  }

  /** `ids`, `documents` and `metadatas`, position by position. */
  function Entries(filename: string, chunks: seq<Record>): (es: seq<Entry>)
    ensures |es| == |chunks|
  {
    seq(|chunks|, i requires 0 <= i < |chunks| => Entry(ChunkId(filename, i), chunks[i].text, MetaOf(chunks[i], i)))
  }

  /** Entry `i` holds chunk `i` under id `{filename}_{i}` with
      `chunk_index` `i`, and no two entries share an id. */
  lemma EntriesLayout(filename: string, chunks: seq<Record>)
    ensures var es := Entries(filename, chunks);
      && (forall i :: 0 <= i < |es| ==>
            && es[i].id == ChunkId(filename, i)
            && es[i].meta.chunkIndex == i
            && es[i].meta.page == StoredPage
            && es[i].document == chunks[i].text
            && es[i].meta.problemNumber == chunks[i].problemNumber)
      && (forall i, j :: 0 <= i < j < |es| ==> es[i].id != es[j].id)
  {
    var es := Entries(filename, chunks);
    forall i, j | 0 <= i < j < |es| ensures es[i].id != es[j].id {
      if es[i].id == es[j].id {
        ChunkIdInjective(filename, i, j);
      }
    }
  }

  function Flatten(bs: seq<seq<Entry>>): seq<Entry>
  {
    if bs == [] then [] else Flatten(bs[..|bs| - 1]) + bs[|bs| - 1]
  }

  /** The batches of the loop: full ones, then a shorter last one. */
  ghost predicate BatchShape(bs: seq<seq<Entry>>)
  {
    && (forall k :: 0 <= k < |bs| ==> 1 <= |bs[k]| <= BatchSize)
    && (forall k :: 0 <= k < |bs| - 1 ==> |bs[k]| == BatchSize)
  }

  /** The `collection.add` calls of the batch loop, in order. */
  method Batches(entries: seq<Entry>) returns (bs: seq<seq<Entry>>)
    ensures Flatten(bs) == entries
    ensures BatchShape(bs)
    ensures |bs| == (|entries| + BatchSize - 1) / BatchSize
    ensures forall k :: 0 <= k < |bs| ==> k * BatchSize + |bs[k]| <= |entries| && bs[k] == entries[k * BatchSize..k * BatchSize + |bs[k]|]
  {
    bs := [];
    var i := 0;
    while i < |entries|
      invariant Batched(entries, i, bs)
      decreases |entries| - i
    {
      var j := if i + BatchSize < |entries| then i + BatchSize else |entries|;
      BatchStep(entries, i, j, bs);
      bs := bs + [entries[i..j]];
      i := j;
    }
    assert entries[..i] == entries;
  }

  /** What the batch loop keeps once the first `i` entries are in batches. */
  ghost predicate Batched(entries: seq<Entry>, i: nat, bs: seq<seq<Entry>>)
  {
    && i <= |entries|
    && (i == |bs| * BatchSize || i == |entries|)
    && |bs| == (i + BatchSize - 1) / BatchSize
    && Flatten(bs) == entries[..i]
    && BatchShape(bs)
    && (i < |entries| ==> forall k :: 0 <= k < |bs| ==> |bs[k]| == BatchSize)
    && (forall k :: 0 <= k < |bs| ==> k * BatchSize + |bs[k]| <= i && bs[k] == entries[k * BatchSize..k * BatchSize + |bs[k]|])
  }

  /** One pass of the batch loop: the next batch runs from `i` to `j`. */
  lemma BatchStep(entries: seq<Entry>, i: nat, j: nat, bs: seq<seq<Entry>>)
    requires Batched(entries, i, bs) && i < |entries|
    requires j == if i + BatchSize < |entries| then i + BatchSize else |entries|
    ensures Batched(entries, j, bs + [entries[i..j]])
  {
    var b := entries[i..j];
    assert entries[..j] == entries[..i] + b;
    assert |bs| * BatchSize == i;
    var nbs := bs + [b];
    assert nbs[..|bs|] == bs;
    assert Flatten(nbs) == entries[..j];
    assert |nbs| == (j + BatchSize - 1) / BatchSize;
    assert forall k :: 0 <= k < |bs| ==> nbs[k] == bs[k];
  }

  /** What a successful `ingest_file` did and returned. */
  datatype Ingested = Ingested(batches: seq<seq<Entry>>, chunksAdded: nat, pagesProcessed: nat)

  datatype Outcome = Refused(reason: Refusal) | Stored(ingested: Ingested)

  /** `ingest_file(file_path, filename)` for the document named `source`
      whose paragraphs (for Word) or page texts (for PDF) are given. */
  method Ingest(filename: string, source: string, paras: seq<Paragraph>, pages: seq<string>) returns (r: Outcome)
    ensures FormatOf(filename).None? ==> r == Refused(Unsupported)
    ensures FormatOf(filename).Some? && Extracted(FormatOf(filename).value, source, paras, pages) == [] ==>
      r == Refused(NoContent)
    ensures FormatOf(filename).Some? && Extracted(FormatOf(filename).value, source, paras, pages) != [] ==>
      var chunks := Extracted(FormatOf(filename).value, source, paras, pages);
      && r.Stored?
      && Flatten(r.ingested.batches) == Entries(filename, chunks)
      && BatchShape(r.ingested.batches)
      && r.ingested.chunksAdded == r.ingested.pagesProcessed == |chunks|
  {
    var format := FormatOf(filename);
    if format.None? {
      return Refused(Unsupported);
    }
    var chunks;
    if format.value == PdfFile {
      chunks := ExtractPdf(source, pages);
    } else {
      chunks := ExtractWord(source, paras);
    }
    if chunks == [] {
      return Refused(NoContent);
    }
    var entries := Entries(filename, chunks);
    var bs := Batches(entries);
    r := Stored(Ingested(bs, |entries|, |chunks|));
  }
}
