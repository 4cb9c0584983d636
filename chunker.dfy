/**
 * The text chunker: `splitText` cuts a page into fixed-width windows that overlap by
 * `chunkOverlap` characters, and `splitDocumentsToChunks` applies it page by page.
 */
module Chunker {
  import opened Documents

  /** The engine's configuration (`this.chunkSize`, `this.chunkOverlap`). */
  const DefaultChunkSize: nat := 500
  const DefaultChunkOverlap: nat := 50

  function Min(a: int, b: int): int { if a < b then a else b }

  /** The windows `splitText` emits once its offset has reached `i`. */
  function WindowsFrom(text: string, size: nat, overlap: nat, i: nat): seq<string>
    requires overlap < size
    decreases |text| - i
  {
    if i >= |text| then []
    else
      var end := Min(i + size, |text|);
      [text[i..end]] + (if end >= |text| then [] else WindowsFrom(text, size, overlap, i + (size - overlap)))
  }

  /** Everything `splitText(text, size, overlap)` returns. */
  function Windows(text: string, size: nat, overlap: nat): seq<string>
    requires overlap < size
  {
    WindowsFrom(text, size, overlap, 0)
  }

  /** `splitText`: a while loop that pushes `text.slice(i, end)` and advances `i` by `size - overlap`. */
  method SplitText(text: string, chunkSize: nat, chunkOverlap: nat) returns (chunks: seq<string>)
    requires chunkOverlap < chunkSize
    ensures chunks == Windows(text, chunkSize, chunkOverlap)
    ensures text == [] ==> chunks == []
    ensures 0 < |text| <= chunkSize ==> chunks == [text]
  {
    chunks := [];
    var i: nat := 0;
    var textLength := |text|;
    while i < textLength
      invariant Windows(text, chunkSize, chunkOverlap) == chunks + WindowsFrom(text, chunkSize, chunkOverlap, i)
      decreases textLength - i
    {
      var end := Min(i + chunkSize, textLength);
      WindowsFromUnfold(text, chunkSize, chunkOverlap, i);
      ghost var rest := if end >= textLength then [] else WindowsFrom(text, chunkSize, chunkOverlap, i + (chunkSize - chunkOverlap));
      WindowsAssoc(chunks, [text[i..end]], rest);
      chunks := chunks + [text[i..end]];
      if end >= textLength {
        assert chunks + [] == chunks;
        break;
      }
      i := i + (chunkSize - chunkOverlap);
    }
    assert text[0..|text|] == text;
  }

  lemma WindowsFromUnfold(text: string, size: nat, overlap: nat, i: nat)
    requires overlap < size && i < |text|
    ensures var end := Min(i + size, |text|);
            WindowsFrom(text, size, overlap, i) ==
              [text[i..end]] + (if end >= |text| then [] else WindowsFrom(text, size, overlap, i + (size - overlap)))
  {
  }

  lemma WindowsAssoc(a: seq<string>, b: seq<string>, c: seq<string>)
    ensures a + (b + c) == (a + b) + c
  {
  }

  /** Where chunk `j` starts: `j * (chunkSize - chunkOverlap)`. */
  function ChunkStart(j: nat, size: nat, overlap: nat): nat
    requires overlap < size
  {
    j * (size - overlap)
  }

  /** The offset `splitText` has reached after `j` further steps of `step` from `i`. */
  function Offset(i: nat, j: nat, step: nat): nat
    decreases j
  {
    if j == 0 then i else Offset(i + step, j - 1, step)
  }

  lemma {:induction false} OffsetIsLinear(i: nat, j: nat, step: nat)
    ensures Offset(i, j, step) == i + j * step
    decreases j
  {
    if j > 0 {
      OffsetIsLinear(i + step, j - 1, step);
      assert j * step == (j - 1) * step + step;
    }
  }

  /** Window `j` of `w` is the slice of `text` from `start`; it is full unless it is the last, and the last reaches the end. */
  predicate WindowAt(text: string, size: nat, w: seq<string>, j: nat, start: nat)
    requires j < |w|
  {
    && start < |text|
    && w[j] == text[start..Min(start + size, |text|)]
    && (j < |w| - 1 ==> start + size < |text| && |w[j]| == size)
    && (j == |w| - 1 ==> start + size >= |text|)
  }

  /** Window `j` from offset `i` starts `j` steps further on. */
  lemma {:induction false} WindowsFromShape(text: string, size: nat, overlap: nat, i: nat, j: nat)
    requires overlap < size
    requires j < |WindowsFrom(text, size, overlap, i)|
    ensures WindowAt(text, size, WindowsFrom(text, size, overlap, i), j, Offset(i, j, size - overlap))
    decreases |text| - i
  {
    var step := size - overlap;
    var w := WindowsFrom(text, size, overlap, i);
    WindowsFromHead(text, size, overlap, i);
    if j > 0 {
      var rest := WindowsFrom(text, size, overlap, i + step);
      WindowsFromShape(text, size, overlap, i + step, j - 1);
      WindowAtStep(text, size, w[0], rest, j, Offset(i + step, j - 1, step));
    }
  }

  lemma WindowAtStep(text: string, size: nat, head: string, rest: seq<string>, j: nat, start: nat)
    requires 0 < j <= |rest| && WindowAt(text, size, rest, j - 1, start)
    ensures WindowAt(text, size, [head] + rest, j, start)
  {
    assert ([head] + rest)[j] == rest[j - 1];
  }

  /** The first window from offset `i`, and whether more follow. */
  lemma WindowsFromHead(text: string, size: nat, overlap: nat, i: nat)
    requires overlap < size && i < |text|
    ensures var w := WindowsFrom(text, size, overlap, i);
            && w != []
            && w[0] == text[i..Min(i + size, |text|)]
            && (|w| > 1 ==> i + size < |text|)
            && (i + size < |text| ==> w == [w[0]] + WindowsFrom(text, size, overlap, i + (size - overlap)))
  {
  }

  /** The fixed shape of `splitText`'s output: chunk `j` starts at `j * (size - overlap)`. */
  lemma SplitTextShape(text: string, size: nat, overlap: nat, j: nat)
    requires overlap < size
    requires j < |Windows(text, size, overlap)|
    ensures var w := Windows(text, size, overlap);
            var start := ChunkStart(j, size, overlap);
            && start < |text|
            && w[j] == text[start..Min(start + size, |text|)]
            && (j < |w| - 1 ==> |w[j]| == size)
            && (j == |w| - 1 ==> start + |w[j]| == |text|)
  {
    WindowsFromShape(text, size, overlap, 0, j);
    OffsetIsLinear(0, j, size - overlap);
  }

  /** Each window after the first with its first `overlap` characters dropped, concatenated. */
  function DropOverlaps(ws: seq<string>, overlap: nat): string {
    if ws == [] then []
    else (if overlap <= |ws[0]| then ws[0][overlap..] else []) + DropOverlaps(ws[1..], overlap)
  }

  /** The first window followed by every later window minus its overlap. */
  function Reassemble(ws: seq<string>, overlap: nat): string {
    if ws == [] then [] else ws[0] + DropOverlaps(ws[1..], overlap)
  }

  /** Dropping the overlaps of a run of windows is its reassembly minus the first `overlap` characters. */
  lemma DropOverlapsOfReassembled(ws: seq<string>, overlap: nat)
    requires ws != [] && overlap <= |ws[0]|
    ensures DropOverlaps(ws, overlap) == Reassemble(ws, overlap)[overlap..]
  {
    var tail := DropOverlaps(ws[1..], overlap);
    assert (ws[0] + tail)[overlap..] == ws[0][overlap..] + tail;
  }

  lemma WindowsFromStep(text: string, size: nat, overlap: nat, i: nat)
    requires overlap < size && i + size < |text|
    ensures WindowsFrom(text, size, overlap, i) == [text[i..i + size]] + WindowsFrom(text, size, overlap, i + (size - overlap))
    ensures WindowsFrom(text, size, overlap, i + (size - overlap)) != []
    ensures |WindowsFrom(text, size, overlap, i + (size - overlap))[0]| >= overlap
  {
    var next := i + (size - overlap);
    assert WindowsFrom(text, size, overlap, next)[0] == text[next..Min(next + size, |text|)];
  }

  /** A window in front of a run whose reassembly is `tail` reassembles to it followed by `tail` minus the overlap. */
  lemma ReassembleStep(w: string, rest: seq<string>, overlap: nat, tail: string)
    requires rest != [] && overlap <= |rest[0]| && Reassemble(rest, overlap) == tail
    ensures Reassemble([w] + rest, overlap) == w + tail[overlap..]
  {
    assert ([w] + rest)[0] == w && ([w] + rest)[1..] == rest;
    DropOverlapsOfReassembled(rest, overlap);
  }

  lemma SliceDrop(s: string, j: nat, k: nat)
    requires j + k <= |s|
    ensures s[j..][k..] == s[j + k..]
  {
  }

  lemma SliceSplit(s: string, i: nat, j: nat)
    requires i <= j <= |s|
    ensures s[i..j] + s[j..] == s[i..]
  {
  }

  lemma {:induction false} ReassembleWindowsFrom(text: string, size: nat, overlap: nat, i: nat)
    requires overlap < size && i <= |text|
    ensures Reassemble(WindowsFrom(text, size, overlap, i), overlap) == text[i..]
    decreases |text| - i, 1
  {
    if i < |text| {
      if i + size < |text| {
        ReassembleFrom(text, size, overlap, i);
      } else {
        ReassembleLast(text, size, overlap, i);
      }
    }
  }

  /** The inductive step: a full window, then the windows from `i + size - overlap`. */
  lemma {:induction false} ReassembleFrom(text: string, size: nat, overlap: nat, i: nat)
    requires overlap < size && i + size < |text|
    ensures Reassemble(WindowsFrom(text, size, overlap, i), overlap) == text[i..]
    decreases |text| - i, 0
  {
    var step := size - overlap;
    WindowsFromStep(text, size, overlap, i);
    ReassembleWindowsFrom(text, size, overlap, i + step);
    ReassembleFullWindow(text, size, overlap, i, WindowsFrom(text, size, overlap, i), WindowsFrom(text, size, overlap, i + step));
  }

  /** A full window `text[i..i + size]` in front of a run that reassembles to `text[i + size - overlap..]` reassembles to `text[i..]`. */
  lemma ReassembleFullWindow(text: string, size: nat, overlap: nat, i: nat, ws: seq<string>, rest: seq<string>)
    requires overlap < size && i + size < |text|
    requires ws == [text[i..i + size]] + rest
    requires rest != [] && overlap <= |rest[0]|
    requires Reassemble(rest, overlap) == text[i + (size - overlap)..]
    ensures Reassemble(ws, overlap) == text[i..]
  {
    ReassembleStep(text[i..i + size], rest, overlap, text[i + (size - overlap)..]);
    SliceDrop(text, i + (size - overlap), overlap);
    SliceSplit(text, i, i + size);
  }

  lemma ReassembleLast(text: string, size: nat, overlap: nat, i: nat)
    requires overlap < size && i < |text| <= i + size
    ensures Reassemble(WindowsFrom(text, size, overlap, i), overlap) == text[i..]
  {
    assert Min(i + size, |text|) == |text| && text[i..|text|] == text[i..];
    assert WindowsFrom(text, size, overlap, i) == [text[i..]];
  }

  /** Removing the overlaps from `splitText`'s output rebuilds the page text exactly. */
  lemma SplitTextReconstructs(text: string, size: nat, overlap: nat)
    requires overlap < size
    ensures Reassemble(Windows(text, size, overlap), overlap) == text
  {
    ReassembleWindowsFrom(text, size, overlap, 0);
  }

  /** With the default 500/50 configuration a page of 1200 characters gives exactly three chunks. */
  lemma TwelveHundredCharactersGiveThreeChunks(text: string)
    requires |text| == 1200
    ensures |Windows(text, DefaultChunkSize, DefaultChunkOverlap)| == 3
  {
    assert |WindowsFrom(text, 500, 50, 900)| == 1;
    assert |WindowsFrom(text, 500, 50, 450)| == 2;
  }

  /**
   * The chunks of one page: its windows tagged with the page metadata and their position in
   * the page. The contract is the definition of this `map`; `SplitDocumentsToChunks` uses it.
   */
  function PageChunks(doc: PageDoc, size: nat, overlap: nat): (r: seq<Chunk>)
    requires overlap < size
    ensures |r| == |Windows(doc.content, size, overlap)|
    ensures forall j :: 0 <= j < |r| ==>
      r[j] == Chunk(Windows(doc.content, size, overlap)[j], doc.meta, j)
  {
    var w := Windows(doc.content, size, overlap);
    seq(|w|, j requires 0 <= j < |w| => Chunk(w[j], doc.meta, j))
  }

  /** The page-by-page concatenation of every page's chunks. */
  function ChunksOf(docs: seq<PageDoc>, size: nat, overlap: nat): seq<Chunk>
    requires overlap < size
  {
    if docs == [] then [] else ChunksOf(docs[..|docs| - 1], size, overlap) + PageChunks(docs[|docs| - 1], size, overlap)
  }

  /** `splitDocumentsToChunks`: for each page, split it and push every piece with `chunkIndex: idx`. */
  method SplitDocumentsToChunks(documents: seq<PageDoc>, chunkSize: nat, chunkOverlap: nat) returns (chunks: seq<Chunk>)
    requires chunkOverlap < chunkSize
    ensures chunks == ChunksOf(documents, chunkSize, chunkOverlap)
  {
    chunks := [];
    for d := 0 to |documents|
      invariant chunks == ChunksOf(documents[..d], chunkSize, chunkOverlap)
    {
      var doc := documents[d];
      var splitChunks := SplitText(doc.content, chunkSize, chunkOverlap);
      ghost var before := chunks;
      ghost var pieces := PageChunks(doc, chunkSize, chunkOverlap);
      for idx := 0 to |splitChunks|
        invariant chunks == before + pieces[..idx]
      {
        PrefixStep(before, pieces, idx);
        chunks := chunks + [Chunk(splitChunks[idx], doc.meta, idx)];
      }
      assert pieces[..|pieces|] == pieces;
      ChunksOfStep(documents, d, chunkSize, chunkOverlap);
    }
    assert documents[..|documents|] == documents;
  }

  lemma PrefixStep(before: seq<Chunk>, xs: seq<Chunk>, idx: nat)
    requires idx < |xs|
    ensures before + xs[..idx + 1] == (before + xs[..idx]) + [xs[idx]]
  {
    assert xs[..idx + 1] == xs[..idx] + [xs[idx]];
  }

  lemma ChunksOfStep(docs: seq<PageDoc>, d: nat, size: nat, overlap: nat)
    requires overlap < size && d < |docs|
    ensures ChunksOf(docs[..d + 1], size, overlap) == ChunksOf(docs[..d], size, overlap) + PageChunks(docs[d], size, overlap)
  {
    assert docs[..d + 1][..d] == docs[..d];
  }

  /** Every chunk is window `chunkIndex` of some page, carrying that page's metadata unchanged. */
  lemma {:induction false} ChunkComesFromItsPage(docs: seq<PageDoc>, size: nat, overlap: nat, p: nat) returns (d: nat)
    requires overlap < size
    requires p < |ChunksOf(docs, size, overlap)|
    ensures d < |docs|
    ensures var c := ChunksOf(docs, size, overlap)[p];
            && c.meta == docs[d].meta
            && c.chunkIndex < |Windows(docs[d].content, size, overlap)|
            && c.content == Windows(docs[d].content, size, overlap)[c.chunkIndex]
  {
    var n := |docs| - 1;
    var front := ChunksOf(docs[..n], size, overlap);
    if p < |front| {
      d := ChunkComesFromItsPage(docs[..n], size, overlap, p);
    } else {
      d := n;
    }
  }

  /** The chunks of the first `k` pages open the chunks of all pages. */
  lemma {:induction false} ChunksOfPrefix(docs: seq<PageDoc>, size: nat, overlap: nat, k: nat)
    requires overlap < size && k <= |docs|
    ensures |ChunksOf(docs[..k], size, overlap)| <= |ChunksOf(docs, size, overlap)|
    ensures ChunksOf(docs, size, overlap)[..|ChunksOf(docs[..k], size, overlap)|] == ChunksOf(docs[..k], size, overlap)
    decreases |docs| - k
  {
    if k == |docs| {
      assert docs[..k] == docs;
    } else {
      var front := ChunksOf(docs[..k], size, overlap);
      var longer := ChunksOf(docs[..k + 1], size, overlap);
      ChunksOfPrefix(docs, size, overlap, k + 1);
      ChunksOfStep(docs, k, size, overlap);
      assert longer[..|front|] == front;
    }
  }

  /**
   * The numbering restarts on every page: chunk `j` of page `d` comes right after the chunks
   * of the pages before it, has `chunkIndex == j` and carries page `d`'s metadata. In
   * particular the first chunk of every page has index 0.
   */
  lemma ChunkIndexRestartsPerPage(docs: seq<PageDoc>, size: nat, overlap: nat, d: nat, j: nat)
    requires overlap < size && d < |docs| && j < |Windows(docs[d].content, size, overlap)|
    ensures |ChunksOf(docs[..d], size, overlap)| + j < |ChunksOf(docs, size, overlap)|
    ensures ChunksOf(docs, size, overlap)[|ChunksOf(docs[..d], size, overlap)| + j]
            == Chunk(Windows(docs[d].content, size, overlap)[j], docs[d].meta, j)
  {
    var off := |ChunksOf(docs[..d], size, overlap)|;
    var upTo := ChunksOf(docs[..d + 1], size, overlap);
    ChunksOfPrefix(docs, size, overlap, d + 1);
    ChunksOfStep(docs, d, size, overlap);
    assert upTo[off + j] == PageChunks(docs[d], size, overlap)[j];
    assert ChunksOf(docs, size, overlap)[off + j] == upTo[off + j];
  }

  /** The numbering of a two-page upload: a 1200-character first page gives chunk indexes 0, 1, 2, and the second page starts again at 0. */
  lemma TwoPageUploadNumbering(page1: PageDoc, page2: PageDoc)
    requires |page1.content| == 1200 && |page2.content| > 0
    ensures var cs := ChunksOf([page1, page2], DefaultChunkSize, DefaultChunkOverlap);
            && |cs| > 3
            && cs[0].chunkIndex == 0 && cs[1].chunkIndex == 1 && cs[2].chunkIndex == 2
            && cs[3].chunkIndex == 0 && cs[3].meta == page2.meta
  {
    TwelveHundredCharactersGiveThreeChunks(page1.content);
    assert [page1, page2][..1] == [page1];
    assert [page1][..0] == [];
    var c1 := PageChunks(page1, DefaultChunkSize, DefaultChunkOverlap);
    var c2 := PageChunks(page2, DefaultChunkSize, DefaultChunkOverlap);
    assert ChunksOf([page1], DefaultChunkSize, DefaultChunkOverlap) == c1;
    assert ChunksOf([page1, page2], DefaultChunkSize, DefaultChunkOverlap) == c1 + c2;
    assert |c2| > 0;
  }
}
