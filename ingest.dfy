/**
 * Page ingestion in `loadPDFDocument`: the text items of each page are joined with spaces,
 * whitespace runs are collapsed and the result trimmed; empty pages are dropped and each
 * kept page gets its `sourceInfo` label. The PDF parser itself is not modelled: its output,
 * the text items of every page in page order, is the input.
 */
module Ingest {
  import opened Text
  import opened Documents

  /** The extracted text of one page: `items.join(' ').replace(/\s+/g, ' ').trim()`. */
  function PageText(items: seq<string>): string {
    Trim(CollapseWhitespace(Join(items, " ")))
  }

  /** Page text is normalized, keeps every non-whitespace character in order, and is empty exactly when the page held only whitespace. */
  lemma PageTextNormalizes(items: seq<string>)
    ensures var t := PageText(items);
            && Normalized(t)
            && '\n' !in t
            && NonWhitespace(t) == NonWhitespace(Join(items, " "))
            && (t == [] <==> forall i :: 0 <= i < |Join(items, " ")| ==> IsWhitespace(Join(items, " ")[i]))
  {
    var raw := Join(items, " ");
    var c := CollapseWhitespace(raw);
    var t := Trim(c);
    CollapseWhitespaceIsCollapsed(raw);
    CollapseWhitespaceKeepsText(raw);
    TrimCollapsedIsNormalized(c);
    CollapsedHasNoNewline(t);
    TrimProperties(c);
    NonWhitespaceEmpty(raw);
    NonWhitespaceEmpty(t);
  }

  /**
   * Words stay apart: a page whose text items are whitespace-free words reads as those
   * words separated by exactly one space, so ["a", "b"] gives "a b".
   */
  lemma PageTextOfWords(items: seq<string>)
    requires forall k :: 0 <= k < |items| ==> IsWord(items[k])
    ensures PageText(items) == Join(items, " ")
  {
    var joined := Join(items, " ");
    assert CollapseWhitespace(joined) == joined by {
      JoinWordsCollapse(items);
    }
    assert Trim(joined) == joined by {
      JoinWordsCollapse(items);
      TrimmedIsFixed(joined);
    }
  }

  /** `` `${fileName.replace('.pdf', '')} ${pageNum}p` ``: only the first ".pdf" is removed, wherever it stands. */
  function SourceInfo(fileName: string, pageNumber: nat): string
  {
    ReplaceFirst(fileName, ".pdf", "") + " " + NatToString(pageNumber) + "p"
  }

  /**
   * The label of page `n` of `base.pdf…`, where no ".pdf" starts before the end of `base`: that first
   * ".pdf" is removed and any later one kept, so "report.v2.pdf.pdf" labels its pages
   * "report.v2.pdf 1p", "report.v2.pdf 2p", …
   */
  lemma SourceInfoRemovesFirstPdf(base: string, rest: string, n: nat)
    requires forall j :: 0 <= j < |base| ==> !OccursAt(base + ".pdf" + rest, ".pdf", j)
    ensures SourceInfo(base + ".pdf" + rest, n) == base + rest + " " + NatToString(n) + "p"
  {
    var s := base + ".pdf" + rest;
    assert OccursAt(s, ".pdf", |base|) by {
      assert s[|base|..|base| + 4] == ".pdf";
    }
    var i := IndexOf(s, ".pdf");
    assert i == |base|;
    assert s[..i] == base && s[i + 4..] == rest;
  }

  /** The page record kept for page `pageNumber` with extracted text `text`, if that text is not empty. */
  function PageDocFor(fileName: string, pageNumber: nat, text: string): seq<PageDoc> {
    if |text| > 0 then [PageDoc(text, PageMeta(fileName, pageNumber, SourceInfo(fileName, pageNumber)))] else []
  }

  /** The page records kept from the extracted texts of pages 1..|texts|, in page order. */
  function KeptPages(fileName: string, texts: seq<string>): seq<PageDoc> {
    if texts == [] then []
    else KeptPages(fileName, texts[..|texts| - 1]) + PageDocFor(fileName, |texts|, texts[|texts| - 1])
  }

  /** The extracted text of every page. */
  function PageTexts(pages: seq<seq<string>>): (r: seq<string>)
    ensures |r| == |pages|
    ensures forall i :: 0 <= i < |pages| ==> r[i] == PageText(pages[i])
  {
    seq(|pages|, i requires 0 <= i < |pages| => PageText(pages[i]))
  }

  /** The page records of pages 1..|pages|. */
  function PageDocs(fileName: string, pages: seq<seq<string>>): seq<PageDoc> {
    KeptPages(fileName, PageTexts(pages))
  }

  /** The page loop of `loadPDFDocument`: for `pageNum` from 1 to `numPages`, keep the page when its text is non-empty. */
  method ExtractPages(fileName: string, pages: seq<seq<string>>) returns (documents: seq<PageDoc>)
    ensures documents == PageDocs(fileName, pages)
  {
    documents := [];
    var pageNum := 1;
    ghost var texts := PageTexts(pages);
    while pageNum <= |pages|
      invariant 1 <= pageNum <= |pages| + 1
      invariant documents == KeptPages(fileName, texts[..pageNum - 1])
    {
      var pageText := PageText(pages[pageNum - 1]);
      KeptPagesPrefixStep(fileName, texts, pageNum);
      if |pageText| > 0 {
        documents := documents + [PageDoc(pageText, PageMeta(fileName, pageNum, SourceInfo(fileName, pageNum)))];
      }
      pageNum := pageNum + 1;
    }
    assert texts[..|pages|] == texts;
  }

  lemma KeptPagesPrefixStep(fileName: string, texts: seq<string>, n: nat)
    requires 1 <= n <= |texts|
    ensures KeptPages(fileName, texts[..n]) == KeptPages(fileName, texts[..n - 1]) + PageDocFor(fileName, n, texts[n - 1])
  {
    assert texts[..n][..n - 1] == texts[..n - 1];
  }

  /** What every kept page looks like: the non-empty text of the page its number names, the upload's file name and its label. */
  predicate WellFormedPage(fileName: string, texts: seq<string>, d: PageDoc) {
    && 1 <= d.meta.pageNumber <= |texts|
    && d.content == texts[d.meta.pageNumber - 1]
    && d.content != []
    && d.meta.fileName == fileName
    && d.meta.sourceInfo == SourceInfo(fileName, d.meta.pageNumber)
  }

  lemma {:induction false} KeptPagesSplit(fileName: string, texts: seq<string>)
    requires texts != []
    ensures var m := |texts| - 1;
            && KeptPages(fileName, texts) == KeptPages(fileName, texts[..m]) + PageDocFor(fileName, |texts|, texts[m])
            && |PageDocFor(fileName, |texts|, texts[m])| <= 1
            && (texts[m] != [] ==> PageDocFor(fileName, |texts|, texts[m])[0].meta.pageNumber == |texts|)
  {
  }

  /** Every kept page is the non-empty text of the page its number names, labelled with the upload's file name. */
  lemma {:induction false} KeptPagesWellFormed(fileName: string, texts: seq<string>)
    ensures forall k :: 0 <= k < |KeptPages(fileName, texts)| ==> WellFormedPage(fileName, texts, KeptPages(fileName, texts)[k])
  {
    if texts != [] {
      var m := |texts| - 1;
      var front := texts[..m];
      KeptPagesWellFormed(fileName, front);
      var fs := KeptPages(fileName, front);
      var ds := KeptPages(fileName, texts);
      KeptPagesSplit(fileName, texts);
      forall k | 0 <= k < |ds|
        ensures WellFormedPage(fileName, texts, ds[k])
      {
        if k < |fs| {
          assert ds[k] == fs[k];
          assert WellFormedPage(fileName, front, fs[k]);
          assert texts[ds[k].meta.pageNumber - 1] == front[ds[k].meta.pageNumber - 1];
        }
      }
    }
  }

  lemma {:induction false} KeptPagesNumbersInRange(fileName: string, texts: seq<string>)
    ensures forall k :: 0 <= k < |KeptPages(fileName, texts)| ==> 1 <= KeptPages(fileName, texts)[k].meta.pageNumber <= |texts|
  {
    KeptPagesWellFormed(fileName, texts);
  }

  /** Kept pages come in strictly increasing page order. */
  lemma {:induction false} KeptPagesIncreasing(fileName: string, texts: seq<string>)
    ensures forall k, l :: 0 <= k < l < |KeptPages(fileName, texts)| ==>
      KeptPages(fileName, texts)[k].meta.pageNumber < KeptPages(fileName, texts)[l].meta.pageNumber
  {
    if texts != [] {
      var m := |texts| - 1;
      var front := texts[..m];
      KeptPagesIncreasing(fileName, front);
      KeptPagesNumbersInRange(fileName, front);
      KeptPagesSplit(fileName, texts);
      var fs := KeptPages(fileName, front);
      var ds := KeptPages(fileName, texts);
      forall k, l | 0 <= k < l < |ds| ensures ds[k].meta.pageNumber < ds[l].meta.pageNumber {
        assert ds[k] == fs[k];
        if l < |fs| {
          assert ds[l] == fs[l];
        }
      }
    }
  }

  /** A page whose text is non-empty is kept: the record at `k` carries its number and text. */
  lemma {:induction false} KeptPagesKeepNonEmpty(fileName: string, texts: seq<string>, n: nat) returns (k: nat)
    requires n < |texts| && texts[n] != []
    ensures var ds := KeptPages(fileName, texts);
            k < |ds| && ds[k].meta.pageNumber == n + 1 && ds[k].content == texts[n]
  {
    var m := |texts| - 1;
    var front := texts[..m];
    var fs := KeptPages(fileName, front);
    var ds := KeptPages(fileName, texts);
    KeptPagesSplit(fileName, texts);
    if n < m {
      assert front[n] == texts[n];
      k := KeptPagesKeepNonEmpty(fileName, front, n);
      assert ds[k] == fs[k];
    } else {
      var last := PageDocFor(fileName, |texts|, texts[m]);
      assert ds == fs + last && |last| == 1;
      k := |fs|;
      assert ds[k] == last[0];
    }
  }

  /** A page whose text is empty contributes nothing: no record carries its number. */
  lemma {:induction false} KeptPagesDropEmpty(fileName: string, texts: seq<string>, n: nat)
    requires n < |texts| && texts[n] == []
    ensures var ds := KeptPages(fileName, texts);
            forall k :: 0 <= k < |ds| ==> ds[k].meta.pageNumber != n + 1
  {
    var m := |texts| - 1;
    var front := texts[..m];
    var fs := KeptPages(fileName, front);
    var ds := KeptPages(fileName, texts);
    KeptPagesSplit(fileName, texts);
    KeptPagesNumbersInRange(fileName, front);
    if n < m {
      KeptPagesDropEmpty(fileName, front, n);
    }
    forall k | 0 <= k < |ds| ensures ds[k].meta.pageNumber != n + 1 {
      if k < |fs| {
        assert ds[k] == fs[k];
      }
    }
  }

  /** A kept page's text has no line break. */
  lemma {:induction false} PageHasNoLineBreak(fileName: string, pages: seq<seq<string>>, d: nat)
    requires d < |PageDocs(fileName, pages)|
    ensures '\n' !in PageDocs(fileName, pages)[d].content
  {
    PageDocsExactlyNonEmptyPages(fileName, pages);
  }

  /**
   * The pages `loadPDFDocument` keeps: exactly the pages with non-empty extracted text,
   * in increasing page order, each with its own normalized text and label.
   */
  lemma PageDocsExactlyNonEmptyPages(fileName: string, pages: seq<seq<string>>)
    ensures var ds := PageDocs(fileName, pages);
            && (forall k :: 0 <= k < |ds| ==> WellFormedPage(fileName, PageTexts(pages), ds[k]))
            && (forall k :: 0 <= k < |ds| ==> Normalized(ds[k].content) && '\n' !in ds[k].content)
            && (forall k, l :: 0 <= k < l < |ds| ==> ds[k].meta.pageNumber < ds[l].meta.pageNumber)
            && (forall n :: 0 <= n < |pages| ==>
                  (PageText(pages[n]) != [] <==> exists k :: 0 <= k < |ds| && ds[k].meta.pageNumber == n + 1))
  {
    PageDocsWellFormed(fileName, pages);
    PageDocsNormalized(fileName, pages);
    PageDocsIncreasing(fileName, pages);
    PageDocsKeepExactlyNonEmpty(fileName, pages);
  }

  lemma PageDocsWellFormed(fileName: string, pages: seq<seq<string>>)
    ensures forall k :: 0 <= k < |PageDocs(fileName, pages)| ==> WellFormedPage(fileName, PageTexts(pages), PageDocs(fileName, pages)[k])
  {
    KeptPagesWellFormed(fileName, PageTexts(pages));
  }

  lemma PageDocsNormalized(fileName: string, pages: seq<seq<string>>)
    ensures forall k :: 0 <= k < |PageDocs(fileName, pages)| ==>
      Normalized(PageDocs(fileName, pages)[k].content) && '\n' !in PageDocs(fileName, pages)[k].content
  {
    var ds := PageDocs(fileName, pages);
    PageDocsWellFormed(fileName, pages);
    forall k | 0 <= k < |ds| ensures Normalized(ds[k].content) && '\n' !in ds[k].content {
      PageTextNormalizes(pages[ds[k].meta.pageNumber - 1]);
    }
  }

  lemma PageDocsIncreasing(fileName: string, pages: seq<seq<string>>)
    ensures forall k, l :: 0 <= k < l < |PageDocs(fileName, pages)| ==>
      PageDocs(fileName, pages)[k].meta.pageNumber < PageDocs(fileName, pages)[l].meta.pageNumber
  {
    KeptPagesIncreasing(fileName, PageTexts(pages));
  }

  lemma PageDocsKeepExactlyNonEmpty(fileName: string, pages: seq<seq<string>>)
    ensures forall n :: 0 <= n < |pages| ==>
      (PageText(pages[n]) != [] <==> exists k :: 0 <= k < |PageDocs(fileName, pages)| && PageDocs(fileName, pages)[k].meta.pageNumber == n + 1)
  {
    var texts := PageTexts(pages);
    var ds := PageDocs(fileName, pages);
    forall n | 0 <= n < |pages|
      ensures PageText(pages[n]) != [] <==> exists k :: 0 <= k < |ds| && ds[k].meta.pageNumber == n + 1
    {
      assert texts[n] == PageText(pages[n]);
      if texts[n] != [] {
        var k := KeptPagesKeepNonEmpty(fileName, texts, n);
        assert 0 <= k < |ds| && ds[k].meta.pageNumber == n + 1;
      } else {
        KeptPagesDropEmpty(fileName, texts, n);
        assert !exists k :: 0 <= k < |ds| && ds[k].meta.pageNumber == n + 1;
      }
    }
  }
}
