/**
 The page driver, `extract_products_from_pdf`, over the texts of the pages of
 an already opened document: `pages[p]` is the text of page index `p`
 (0-based). For each index from `startPage` up to `endPage`, clamped to the
 document, it runs the series detector and the component assembler on the
 same text and keeps the page, numbered from 1, when it has a component.

 The specification `PageResults` and its lemmas take the two per-page
 analyses as parameters (`Analyses`); the driver instantiates them with
 `DetectSeries` and `ExtractComponents` (`Catalogue`).
 */
module PageDriver {
  import opened Assembler
  import opened SeriesDetector

  /** One entry of the output: the 1-based page number, its series and its
      components. */
  datatype PageResult = PageResult(page: int, series: string, components: seq<Component>)

  /** What is computed from one page's text. */
  datatype Analyses = Analyses(series: string -> string, components: string -> seq<Component>)

  /** The analyses the driver runs: the series detector and the component
      assembler with the given extractors. */
  function Catalogue(ex: Extractors): Analyses {
    Analyses(DetectSeries, text => ExtractComponents(text, ex))
  }

  /** The clamped end of the range, `min(end_page + 1, len(doc))`: one past
      the last page index the driver reads. */
  function Stop(endPage: int, pageCount: int): int {
    if endPage + 1 <= pageCount then endPage + 1 else pageCount
  }

  /** The entry belongs to a page of the document and holds the series and
      the components of that page's own text, of which there is at least one. */
  predicate Faithful(pages: seq<string>, e: PageResult, an: Analyses) {
    && 1 <= e.page <= |pages|
    && e.series == an.series(pages[e.page - 1])
    && e.components == an.components(pages[e.page - 1])
    && |e.components| > 0
  }

  /** Page index `p` yields at least one component. */
  predicate HasComponents(pages: seq<string>, p: int, an: Analyses)
    requires 0 <= p < |pages|
  {
    |an.components(pages[p])| > 0
  }

  /** Some entry carries the 1-based page number `page`. */
  predicate Listed(results: seq<PageResult>, page: int) {
    exists i :: 0 <= i < |results| && results[i].page == page
  }

  /** The entries for page indices `lo` up to `hi`, exclusive: a page with at
      least one component gives one entry, numbered from 1. */
  function PageResults(pages: seq<string>, lo: int, hi: int, an: Analyses): seq<PageResult>
    requires 0 <= lo <= hi <= |pages|
    decreases hi - lo
  {
    if hi == lo then []
    else
      var text := pages[hi - 1];
      PageResults(pages, lo, hi - 1, an)
        + if |an.components(text)| > 0 then [PageResult(hi, an.series(text), an.components(text))] else []
  }

  /** What `extract_products_from_pdf` returns: the entries of the range
      `[startPage, min(endPage + 1, |pages|))`, none when it is empty. */
  function Products(pages: seq<string>, startPage: int, endPage: int, an: Analyses): seq<PageResult>
    requires 0 <= startPage
  {
    var stop := Stop(endPage, |pages|);
    if startPage < stop then PageResults(pages, startPage, stop, an) else []
  }

  /** `extract_products_from_pdf(pdf_path, startPage, endPage)` with the
      document given as its page texts. The entries are the pages of the
      clamped range `[startPage, min(endPage + 1, |pages|))` that have at
      least one component, in ascending order, each with the series and the
      components of its own text; none is missing. */
  method ExtractProductsFromPages(pages: seq<string>, startPage: int, endPage: int, ex: Extractors)
    returns (results: seq<PageResult>)
    requires 0 <= startPage
    ensures results == Products(pages, startPage, endPage, Catalogue(ex))
    ensures forall i :: 0 <= i < |results| ==> startPage + 1 <= results[i].page <= Stop(endPage, |pages|)
    ensures forall i, j :: 0 <= i < j < |results| ==> results[i].page < results[j].page
    ensures forall i :: 0 <= i < |results| ==> Faithful(pages, results[i], Catalogue(ex))
    ensures forall p :: startPage <= p < Stop(endPage, |pages|) && HasComponents(pages, p, Catalogue(ex)) ==>
      Listed(results, p + 1)
    ensures startPage > endPage || startPage >= |pages| ==> results == []
  {
    ghost var an := Catalogue(ex);
    results := [];
    var stop := Stop(endPage, |pages|);
    var p := startPage;
    while p < stop
      invariant startPage <= p
      invariant startPage < stop ==> p <= stop && results == PageResults(pages, startPage, p, an)
      invariant startPage >= stop ==> results == []
    {
      var text := pages[p];
      var series := DetectSeries(text);
      var components := ExtractComponentsFromText(text, ex);
      assert an.series(text) == series && an.components(text) == components;
      if |components| > 0 {
        results := results + [PageResult(p + 1, series, components)];
      }
      p := p + 1;
    }
    ProductsProperties(pages, startPage, endPage, an);
  }

  /** The properties of the driver's output, for every document and range. */
  lemma ProductsProperties(pages: seq<string>, startPage: int, endPage: int, an: Analyses)
    requires 0 <= startPage
    ensures var results := Products(pages, startPage, endPage, an);
      && (forall i :: 0 <= i < |results| ==> startPage + 1 <= results[i].page <= Stop(endPage, |pages|))
      && (forall i, j :: 0 <= i < j < |results| ==> results[i].page < results[j].page)
      && (forall i :: 0 <= i < |results| ==> Faithful(pages, results[i], an))
      && (forall p :: startPage <= p < Stop(endPage, |pages|) && HasComponents(pages, p, an) ==>
            Listed(results, p + 1))
      && (startPage > endPage || startPage >= |pages| ==> results == [])
  {
    var stop := Stop(endPage, |pages|);
    if startPage < stop {
      PageResultsSound(pages, startPage, stop, an);
      PageResultsComplete(pages, startPage, stop, an);
    }
  }

  /** Every entry lies in the range, holds its own page's series and
      components, and the page numbers strictly increase. */
  lemma {:induction false} PageResultsSound(pages: seq<string>, lo: int, hi: int, an: Analyses)
    requires 0 <= lo <= hi <= |pages|
    ensures forall i :: 0 <= i < |PageResults(pages, lo, hi, an)| ==>
      var e := PageResults(pages, lo, hi, an)[i]; lo + 1 <= e.page <= hi && Faithful(pages, e, an)
    ensures forall i, j :: 0 <= i < j < |PageResults(pages, lo, hi, an)| ==>
      PageResults(pages, lo, hi, an)[i].page < PageResults(pages, lo, hi, an)[j].page
    decreases hi - lo
  {
    if hi > lo {
      PageResultsSound(pages, lo, hi - 1, an);
      var before := PageResults(pages, lo, hi - 1, an);
      var rs := PageResults(pages, lo, hi, an);
      var text := pages[hi - 1];
      assert rs == before + if |an.components(text)| > 0 then [PageResult(hi, an.series(text), an.components(text))] else [];
      forall i | 0 <= i < |rs|
        ensures lo + 1 <= rs[i].page <= hi && Faithful(pages, rs[i], an)
      {
        if i < |before| {
          assert rs[i] == before[i];
        } else {
          assert rs[i] == PageResult(hi, an.series(text), an.components(text));
        }
      }
      forall i, j | 0 <= i < j < |rs|
        ensures rs[i].page < rs[j].page
      {
        assert rs[i] == before[i];
        if j < |before| {
          assert rs[j] == before[j];
        }
      }
    }
  }

  /** Every page of the range with a component has its entry. */
  lemma {:induction false} PageResultsComplete(pages: seq<string>, lo: int, hi: int, an: Analyses)
    requires 0 <= lo <= hi <= |pages|
    ensures forall p :: lo <= p < hi && HasComponents(pages, p, an) ==> Listed(PageResults(pages, lo, hi, an), p + 1)
    decreases hi - lo
  {
    if hi > lo {
      PageResultsComplete(pages, lo, hi - 1, an);
      var before := PageResults(pages, lo, hi - 1, an);
      var rs := PageResults(pages, lo, hi, an);
      forall p | lo <= p < hi && HasComponents(pages, p, an)
        ensures Listed(rs, p + 1)
      {
        if p == hi - 1 {
          assert rs[|rs| - 1].page == p + 1;
        } else {
          var i :| 0 <= i < |before| && before[i].page == p + 1;
          assert rs[i] == before[i];
        }
      }
    }
  }
}
