/**
 * Context assembly for the chat prompt: `extractFormKeywords` collects the lines that
 * mention a form, `formatSourceLine` renders one citation line per retrieved chunk, and
 * `buildContext` joins the cited, length-limited chunk texts into one context string.
 */
module Context {
  import opened Text
  import opened Documents

  /** The eight words that mark a line as naming a form. */
  const FormKeywords: seq<string> := ["별지", "서식", "신청서", "동의서", "양식", "정정신청서", "변경신고서", "등록신청서"]

  /** Length limits: a form reference, a source preview, a context block body. */
  const FormLength: nat := 60
  const PreviewLength: nat := 80
  const BlockLength: nat := 1200

  /** The context returned when retrieval finds nothing. */
  const NoDocuments: string := "검색된 문서가 없습니다."

  /** The file name shown when a chunk has none. */
  const DefaultFileName: string := "문서"

  /** `formKeywords.some(keyword => line.includes(keyword))`, keyword by keyword from the `j`-th. */
  predicate MentionsFormFrom(line: string, j: nat)
    decreases |FormKeywords| - j
  {
    j < |FormKeywords| && (Contains(line, FormKeywords[j]) || MentionsFormFrom(line, j + 1))
  }

  /** Whether the line contains one of the form keywords. */
  predicate MentionsForm(line: string) {
    MentionsFormFrom(line, 0)
  }

  lemma {:induction false} MentionsFormFromMeans(line: string, j: nat)
    ensures MentionsFormFrom(line, j) <==> exists k :: j <= k < |FormKeywords| && Contains(line, FormKeywords[k])
    decreases |FormKeywords| - j
  {
    if j < |FormKeywords| {
      MentionsFormFromMeans(line, j + 1);
    }
  }

  /** A line mentions a form exactly when it contains one of the eight keywords. */
  lemma MentionsFormMeans(line: string)
    ensures MentionsForm(line) <==> exists k :: 0 <= k < |FormKeywords| && Contains(line, FormKeywords[k])
  {
    MentionsFormFromMeans(line, 0);
  }

  /** What one trimmed line contributes before deduplication: the line cut to 60 characters plus "...", when it mentions a form. */
  function FormOf(t: string): seq<string> {
    if MentionsForm(t) then [Ellipsize(t, FormLength)] else []
  }

  /** The form references of the trimmed lines `ts`, in order, with repetitions. */
  function FormCandidates(ts: seq<string>): seq<string> {
    if ts == [] then [] else FormCandidates(ts[..|ts| - 1]) + FormOf(ts[|ts| - 1])
  }

  /** Every line of every document: `doc.content.split('\n')`, document by document. */
  function LinesOf(docs: seq<ScoredChunk>): seq<string> {
    if docs == [] then [] else LinesOf(docs[..|docs| - 1]) + Split(docs[|docs| - 1].entry.chunk.content, '\n')
  }

  /** `line.trim()` for every line. */
  function TrimAll(lines: seq<string>): (r: seq<string>)
    ensures |r| == |lines|
    ensures forall i :: 0 <= i < |lines| ==> r[i] == Trim(lines[i])
  {
    seq(|lines|, i requires 0 <= i < |lines| => Trim(lines[i]))
  }

  /** `xs` with every repetition of an earlier element dropped. */
  function Dedup(xs: seq<string>): seq<string> {
    if xs == [] then []
    else
      var d := Dedup(xs[..|xs| - 1]);
      if xs[|xs| - 1] in d then d else d + [xs[|xs| - 1]]
  }

  /** What `extractFormKeywords(docs)` returns. */
  function Forms(docs: seq<ScoredChunk>): seq<string> {
    Dedup(FormCandidates(TrimAll(LinesOf(docs))))
  }

  /** `extractFormKeywords`: a loop over documents and, inside it, over their lines, pushing each new form reference. */
  method ExtractFormKeywords(docs: seq<ScoredChunk>) returns (foundForms: seq<string>)
    ensures foundForms == Forms(docs)
  {
    foundForms := [];
    for d := 0 to |docs|
      invariant foundForms == Dedup(FormCandidates(TrimAll(LinesOf(docs[..d]))))
    {
      var lines := Split(docs[d].entry.chunk.content, '\n');
      foundForms := ScanLines(foundForms, TrimAll(LinesOf(docs[..d])), lines);
      LinesOfStep(docs, d);
    }
    assert docs[..|docs|] == docs;
  }

  /** The inner loop of `extractFormKeywords` over the lines of one document. */
  method ScanLines(found: seq<string>, ghost before: seq<string>, lines: seq<string>) returns (foundForms: seq<string>)
    requires found == Dedup(FormCandidates(before))
    ensures foundForms == Dedup(FormCandidates(before + TrimAll(lines)))
  {
    foundForms := found;
    assert before + TrimAll(lines[..0]) == before;
    for j := 0 to |lines|
      invariant foundForms == Dedup(FormCandidates(before + TrimAll(lines[..j])))
    {
      var trimmedLine := Trim(lines[j]);
      TrimAllStep(before, lines, j);
      FormStep(before + TrimAll(lines[..j]), trimmedLine);
      if MentionsForm(trimmedLine) {
        var form := Ellipsize(trimmedLine, FormLength);
        if form !in foundForms {
          foundForms := foundForms + [form];
        }
      }
    }
    assert lines[..|lines|] == lines;
  }

  lemma TrimAllStep(before: seq<string>, lines: seq<string>, j: nat)
    requires j < |lines|
    ensures before + TrimAll(lines[..j + 1]) == (before + TrimAll(lines[..j])) + [Trim(lines[j])]
  {
    assert TrimAll(lines[..j + 1]) == TrimAll(lines[..j]) + [Trim(lines[j])];
  }

  /** `found` after reading the trimmed line `t`: its form reference is appended when `t` names a form and the reference is new. */
  function AddForm(found: seq<string>, t: string): seq<string> {
    if MentionsForm(t) && Ellipsize(t, FormLength) !in found then found + [Ellipsize(t, FormLength)] else found
  }

  lemma FormStep(seen: seq<string>, t: string)
    ensures Dedup(FormCandidates(seen + [t])) == AddForm(Dedup(FormCandidates(seen)), t)
  {
    var xs := seen + [t];
    assert xs[..|xs| - 1] == seen;
    var cands := FormCandidates(seen);
    if MentionsForm(t) {
      var ys := cands + [Ellipsize(t, FormLength)];
      assert ys[..|ys| - 1] == cands;
    } else {
      assert cands + [] == cands;
    }
  }

  lemma LinesOfStep(docs: seq<ScoredChunk>, d: nat)
    requires d < |docs|
    ensures TrimAll(LinesOf(docs[..d + 1])) == TrimAll(LinesOf(docs[..d])) + TrimAll(Split(docs[d].entry.chunk.content, '\n'))
  {
    assert docs[..d + 1][..d] == docs[..d];
  }

  /** Deduplication keeps exactly the values of its input. */
  lemma {:induction false} DedupMembership(xs: seq<string>, x: string)
    ensures x in Dedup(xs) <==> x in xs
  {
    if xs != [] {
      var front := xs[..|xs| - 1];
      DedupMembership(front, x);
      assert xs == front + [xs[|xs| - 1]];
    }
  }

  /** Deduplication leaves no value twice. */
  lemma {:induction false} DedupNoDuplicates(xs: seq<string>)
    ensures forall i, j :: 0 <= i < j < |Dedup(xs)| ==> Dedup(xs)[i] != Dedup(xs)[j]
  {
    if xs != [] {
      var front := xs[..|xs| - 1];
      var last := xs[|xs| - 1];
      var df := Dedup(front);
      DedupNoDuplicates(front);
      if last !in df {
        var d := df + [last];
        forall i, j | 0 <= i < j < |d| ensures d[i] != d[j] {
          if j == |df| {
            assert d[i] == df[i] && df[i] in df;
          } else {
            assert d[i] == df[i] && d[j] == df[j];
          }
        }
      }
    }
  }

  /** Where `x` first occurs in `xs`. */
  function FirstIndex(xs: seq<string>, x: string): (r: nat)
    requires x in xs
    ensures r < |xs| && xs[r] == x
    ensures forall k :: 0 <= k < r ==> xs[k] != x
  {
    var front := xs[..|xs| - 1];
    if x in front then FirstIndex(front, x) else |xs| - 1
  }

  /** Deduplication keeps first-seen order: earlier results first occur earlier in the input. */
  lemma {:induction false} DedupFirstSeenOrder(xs: seq<string>)
    ensures forall i :: 0 <= i < |Dedup(xs)| ==> Dedup(xs)[i] in xs
    ensures forall i, j :: 0 <= i < j < |Dedup(xs)| ==> FirstIndex(xs, Dedup(xs)[i]) < FirstIndex(xs, Dedup(xs)[j])
  {
    if xs != [] {
      var front := xs[..|xs| - 1];
      var last := xs[|xs| - 1];
      var df := Dedup(front);
      var d := Dedup(xs);
      DedupFirstSeenOrder(front);
      assert forall i :: 0 <= i < |df| ==> df[i] in front && df[i] in xs;
      assert forall i :: 0 <= i < |df| ==> FirstIndex(xs, df[i]) == FirstIndex(front, df[i]);
      if last in df {
        assert d == df;
      } else {
        DedupMembership(front, last);
        assert d == df + [last];
        assert FirstIndex(xs, last) == |xs| - 1;
        forall i, j | 0 <= i < j < |d| ensures d[i] in xs && d[j] in xs && FirstIndex(xs, d[i]) < FirstIndex(xs, d[j]) {
          assert d[i] == df[i];
          if j < |df| {
            assert d[j] == df[j];
          }
        }
      }
    }
  }

  /** The candidates are exactly the cut-down trimmed lines that mention a form. */
  lemma {:induction false} FormCandidatesMembership(ts: seq<string>, f: string)
    ensures f in FormCandidates(ts) <==>
      exists i :: 0 <= i < |ts| && MentionsForm(ts[i]) && f == Ellipsize(ts[i], FormLength)
  {
    if ts != [] {
      var m := |ts| - 1;
      var front := ts[..m];
      FormCandidatesMembership(front, f);
      assert FormCandidates(ts) == FormCandidates(front) + FormOf(ts[m]);
      if f in FormCandidates(ts) {
        if f in FormCandidates(front) {
          var i :| 0 <= i < |front| && MentionsForm(front[i]) && f == Ellipsize(front[i], FormLength);
          assert front[i] == ts[i];
        } else {
          assert f in FormOf(ts[m]);
        }
      }
      if exists i :: 0 <= i < |ts| && MentionsForm(ts[i]) && f == Ellipsize(ts[i], FormLength) {
        var i :| 0 <= i < |ts| && MentionsForm(ts[i]) && f == Ellipsize(ts[i], FormLength);
        if i < m {
          assert front[i] == ts[i];
        } else {
          assert f in FormOf(ts[m]);
        }
      }
    }
  }

  /**
   * Every form reference comes from a trimmed line that mentions one of the keywords, cut
   * to 60 characters plus "..." when longer, and every such line is represented.
   */
  lemma FormsComeFromFormLines(docs: seq<ScoredChunk>, f: string)
    ensures var ts := TrimAll(LinesOf(docs));
            f in Forms(docs) <==>
              exists i :: 0 <= i < |ts| && MentionsForm(ts[i]) && f == Ellipsize(ts[i], FormLength)
  {
    var ts := TrimAll(LinesOf(docs));
    DedupMembership(FormCandidates(ts), f);
    assert f in Forms(docs) <==> f in FormCandidates(ts);
    FormCandidatesMembership(ts, f);
  }

  /** No form reference is reported twice, and each is at most 63 characters long. */
  lemma FormsAreDistinctAndShort(docs: seq<ScoredChunk>)
    ensures forall i, j :: 0 <= i < j < |Forms(docs)| ==> Forms(docs)[i] != Forms(docs)[j]
    ensures forall i :: 0 <= i < |Forms(docs)| ==> |Forms(docs)[i]| <= FormLength + 3
  {
    var fs := Forms(docs);
    DedupNoDuplicates(FormCandidates(TrimAll(LinesOf(docs))));
    forall i | 0 <= i < |fs| ensures |fs[i]| <= FormLength + 3 {
      FormsComeFromFormLines(docs, fs[i]);
    }
  }

  /** Form references come in the order first seen across documents, then lines. */
  lemma FormsInFirstSeenOrder(docs: seq<ScoredChunk>)
    ensures forall i :: 0 <= i < |Forms(docs)| ==> Forms(docs)[i] in FormCandidates(TrimAll(LinesOf(docs)))
    ensures forall i, j :: 0 <= i < j < |Forms(docs)| ==>
      FirstIndex(FormCandidates(TrimAll(LinesOf(docs))), Forms(docs)[i])
        < FirstIndex(FormCandidates(TrimAll(LinesOf(docs))), Forms(docs)[j])
  {
    DedupFirstSeenOrder(FormCandidates(TrimAll(LinesOf(docs))));
  }

  /** Chunks without line breaks, as page ingestion produces them, are one line each. */
  lemma {:induction false} OneLinePerChunk(docs: seq<ScoredChunk>)
    requires forall k :: 0 <= k < |docs| ==> '\n' !in docs[k].entry.chunk.content
    ensures |LinesOf(docs)| == |docs|
    ensures forall k :: 0 <= k < |docs| ==> LinesOf(docs)[k] == docs[k].entry.chunk.content
  {
    if docs != [] {
      var m := |docs| - 1;
      OneLinePerChunk(docs[..m]);
      SplitWithoutSeparator(docs[m].entry.chunk.content, '\n');
    }
  }

  /** `doc.metadata.fileName || '문서'`. */
  function DisplayFileName(fileName: string): string {
    if fileName == "" then DefaultFileName else fileName
  }

  /** `doc.metadata.pageNumber || '?'`. */
  function PageLabel(pageNumber: nat): string {
    if pageNumber == 0 then "?" else NatToString(pageNumber)
  }

  /** `doc.content.trim().replace(/\n/g, ' ')`. */
  function Preview(content: string): string {
    ReplaceChar(Trim(content), '\n', ' ')
  }

  /** Everything before the quoted preview. */
  function SourceHead(meta: PageMeta): string {
    DisplayFileName(meta.fileName) + " p." + PageLabel(meta.pageNumber) + " — \""
  }

  /** `formatSourceLine`: `` `${fileName} p.${pageNumber} — "${shortPreview}"` ``. */
  function FormatSourceLine(meta: PageMeta, content: string): string {
    SourceHead(meta) + Ellipsize(Preview(content), PreviewLength) + "\""
  }

  /**
   * A source line is its head followed by the quoted preview: the trimmed content with every
   * line break turned into a space, kept whole up to 80 characters and otherwise cut to 80
   * plus "...". The line itself has no line break unless the file name has one.
   */
  lemma SourceLineParts(meta: PageMeta, content: string)
    ensures var r := FormatSourceLine(meta, content);
            var head := SourceHead(meta);
            var p := Preview(content);
            var quoted := r[|head|..|r| - 1];
            && |head| < |r| && r[..|head|] == head && r[|r| - 1] == '"'
            && |p| == |Trim(content)|
            && (forall i :: 0 <= i < |p| ==> p[i] == (if Trim(content)[i] == '\n' then ' ' else Trim(content)[i]))
            && (|p| <= PreviewLength ==> quoted == p)
            && (|p| > PreviewLength ==> quoted == p[..PreviewLength] + "...")
            && '\n' !in quoted
            && ('\n' !in meta.fileName ==> '\n' !in r)
  {
    var r := FormatSourceLine(meta, content);
    var head := SourceHead(meta);
    var short := Ellipsize(Preview(content), PreviewLength);
    assert r == head + short + "\"";
    assert r[|head|..|r| - 1] == short;
    PreviewHasNoNewline(content);
    EllipsizeHasNoNewline(Preview(content), PreviewLength);
    if '\n' !in meta.fileName {
      HeadHasNoNewline(meta);
    }
  }

  lemma PreviewHasNoNewline(content: string)
    ensures '\n' !in Preview(content)
  {
    var p := Preview(content);
    assert forall i :: 0 <= i < |p| ==> p[i] != '\n';
  }

  lemma EllipsizeHasNoNewline(s: string, n: nat)
    requires '\n' !in s
    ensures '\n' !in Ellipsize(s, n)
  {
    if |s| > n {
      assert Ellipsize(s, n) == s[..n] + "...";
      assert '\n' !in s[..n];
    }
  }

  lemma HeadHasNoNewline(meta: PageMeta)
    requires '\n' !in meta.fileName
    ensures '\n' !in SourceHead(meta)
  {
    var pageText := PageLabel(meta.pageNumber);
    assert forall i :: 0 <= i < |pageText| ==> pageText[i] != '\n';
    assert '\n' !in DisplayFileName(meta.fileName);
  }

  /** A missing file name shows as "문서", whatever the page number. */
  lemma SourceLineFileNameDefault(meta: PageMeta, content: string)
    requires meta.fileName == ""
    ensures FormatSourceLine(meta, content)[..|"문서 p."|] == "문서 p."
  {
    var r := FormatSourceLine(meta, content);
    assert r == "문서 p." + (PageLabel(meta.pageNumber) + " — \"" + Ellipsize(Preview(content), PreviewLength) + "\"");
  }

  /** A missing page number shows as "?", whatever the file name. */
  lemma SourceLinePageDefault(meta: PageMeta, content: string)
    requires meta.pageNumber == 0
    ensures var head := DisplayFileName(meta.fileName) + " p.? — \"";
            FormatSourceLine(meta, content)[..|head|] == head
  {
    var head := DisplayFileName(meta.fileName) + " p.? — \"";
    assert SourceHead(meta) == head;
  }

  /** `doc.metadata.sourceInfo || this.formatSourceLine(doc)`. */
  function BlockLabel(d: ScoredChunk): string {
    var c := d.entry.chunk;
    if c.meta.sourceInfo != "" then c.meta.sourceInfo else FormatSourceLine(c.meta, c.content)
  }

  /** The body of a context block: the trimmed content, cut to 1200 characters plus "..." when longer. */
  function BlockBody(content: string): string {
    Ellipsize(Trim(content), BlockLength)
  }

  /** One context block: `` `[출처: ${sourceInfo}]\n${content}` ``. */
  function ContextBlock(d: ScoredChunk): string {
    "[출처: " + BlockLabel(d) + "]\n" + BlockBody(d.entry.chunk.content)
  }

  /**
   * A block whose label has no line break splits at its first line break into the
   * `[출처: …]` header and the body; the body is the trimmed content when it has at most
   * 1200 characters and its first 1200 characters plus "..." otherwise.
   */
  lemma ContextBlockSplits(d: ScoredChunk)
    requires '\n' !in BlockLabel(d)
    ensures var b := ContextBlock(d);
            var t := Trim(d.entry.chunk.content);
            var i := FindChar(b, '\n');
            && i < |b|
            && b[..i] == "[출처: " + BlockLabel(d) + "]"
            && (|t| <= BlockLength ==> b[i + 1..] == t)
            && (|t| > BlockLength ==> b[i + 1..] == t[..BlockLength] + "...")
  {
    var b := ContextBlock(d);
    var header := "[출처: " + BlockLabel(d) + "]";
    assert b == header + "\n" + BlockBody(d.entry.chunk.content);
    assert forall k :: 0 <= k < |header| ==> b[k] == header[k] && header[k] != '\n';
    assert b[|header|] == '\n';
    FindCharAt(b, '\n', |header|);
  }

  /** `FindChar` returns an index holding `c` with no `c` before it. */
  lemma {:induction false} FindCharAt(s: string, c: char, i: nat)
    requires i < |s| && s[i] == c && forall k :: 0 <= k < i ==> s[k] != c
    ensures FindChar(s, c) == i
  {
    if i > 0 {
      FindCharAt(s[1..], c, i - 1);
    }
  }

  /** What `buildContext` returns. */
  datatype ContextResult = ContextResult(context: string, sources: seq<string>, forms: seq<string>)

  /**
   * `relevantDocs.map(doc => this.formatSourceLine(doc))`. The contract is the definition
   * of this `map`; the lines themselves are described by `SourceLineParts`.
   */
  function SourceLines(docs: seq<ScoredChunk>): (r: seq<string>)
    ensures |r| == |docs|
    ensures forall i :: 0 <= i < |docs| ==> r[i] == FormatSourceLine(docs[i].entry.chunk.meta, docs[i].entry.chunk.content)
  {
    seq(|docs|, i requires 0 <= i < |docs| => FormatSourceLine(docs[i].entry.chunk.meta, docs[i].entry.chunk.content))
  }

  /**
   * The context blocks of the retrieved chunks, in rank order. The contract is the
   * definition of this `map`; `BlockAtOffset` and `BlocksSeparated` place them in the context.
   */
  function Blocks(docs: seq<ScoredChunk>): (r: seq<string>)
    ensures |r| == |docs|
    ensures forall i :: 0 <= i < |docs| ==> r[i] == ContextBlock(docs[i])
  {
    seq(|docs|, i requires 0 <= i < |docs| => ContextBlock(docs[i]))
  }

  /**
   * The result of `buildContext` once the relevant chunks are known: the no-documents
   * sentence with empty lists when there are none, otherwise the blocks joined by a blank
   * line, one source line per chunk in rank order, and the extracted forms.
   */
  function AssembleContext(docs: seq<ScoredChunk>): (r: ContextResult)
    ensures docs == [] ==> r == ContextResult(NoDocuments, [], [])
    ensures docs != [] ==> r.context == ContextText(docs) && r.sources == SourceLines(docs) && r.forms == Forms(docs)
  {
    if docs == [] then ContextResult(NoDocuments, [], [])
    else ContextResult(ContextText(docs), SourceLines(docs), Forms(docs))
  }

  /** The context string of a non-empty retrieval: its blocks in rank order, joined by a blank line. */
  function ContextText(docs: seq<ScoredChunk>): string {
    Join(Blocks(docs), "\n\n")
  }

  /** Joining blocks with blank lines keeps the first block at the front. */
  lemma {:induction false} JoinBlocks(blocks: seq<string>)
    requires |blocks| >= 1
    ensures |blocks[0]| <= |Join(blocks, "\n\n")| && Join(blocks, "\n\n")[..|blocks[0]|] == blocks[0]
  {
    if |blocks| >= 2 {
      var tail := "\n\n" + Join(blocks[1..], "\n\n");
      assert blocks[0] + "\n\n" + Join(blocks[1..], "\n\n") == blocks[0] + tail;
      assert (blocks[0] + tail)[..|blocks[0]|] == blocks[0];
    }
  }

  /** The context of two or more chunks is the best block, a blank line, then the context of the rest. */
  lemma ContextUnfolds(docs: seq<ScoredChunk>)
    requires |docs| >= 2
    ensures AssembleContext(docs).context == ContextBlock(docs[0]) + "\n\n" + AssembleContext(docs[1..]).context
  {
    assert Blocks(docs)[1..] == Blocks(docs[1..]);
  }

  /** Where block `i` starts in the context: every block before it, each followed by a blank line. */
  function BlockOffset(docs: seq<ScoredChunk>, i: nat): nat
    requires i <= |docs|
  {
    JoinOffset(Blocks(docs), "\n\n", i)
  }

  /** Every retrieved chunk's block appears whole in the context, at the offset of its rank. */
  lemma BlockAtOffset(docs: seq<ScoredChunk>, i: nat)
    requires i < |docs|
    ensures BlockOffset(docs, i) + |ContextBlock(docs[i])| <= |ContextText(docs)|
    ensures ContextText(docs)[BlockOffset(docs, i)..BlockOffset(docs, i) + |ContextBlock(docs[i])|] == ContextBlock(docs[i])
  {
    JoinPieceAt(ContextText(docs), Blocks(docs), "\n\n", i, ContextBlock(docs[i]), BlockOffset(docs, i));
  }

  /**
   * Between the blocks of consecutive ranks there is exactly one blank line, and the last
   * block ends the context: with `BlockAtOffset`, nothing is dropped, reordered or added.
   */
  lemma BlocksSeparated(docs: seq<ScoredChunk>, i: nat)
    requires i < |docs|
    ensures i + 1 < |docs| ==>
              BlockOffset(docs, i) + |ContextBlock(docs[i])| <= BlockOffset(docs, i + 1) <= |ContextText(docs)| &&
              ContextText(docs)[BlockOffset(docs, i) + |ContextBlock(docs[i])|..BlockOffset(docs, i + 1)] == "\n\n"
    ensures i + 1 == |docs| ==> BlockOffset(docs, i) + |ContextBlock(docs[i])| == |ContextText(docs)|
  {
    var next := if i + 1 < |docs| then BlockOffset(docs, i + 1) else 0;
    JoinAfterPieceAt(ContextText(docs), Blocks(docs), "\n\n", i, ContextBlock(docs[i]), BlockOffset(docs, i), next);
  }

  /** A non-empty context opens with the block of the best-ranked chunk. */
  lemma ContextStartsWithBestBlock(docs: seq<ScoredChunk>)
    requires docs != []
    ensures var c := AssembleContext(docs).context;
            var b := ContextBlock(docs[0]);
            |b| <= |c| && c[..|b|] == b && (|docs| == 1 ==> c == b)
  {
    JoinBlocks(Blocks(docs));
  }
}
