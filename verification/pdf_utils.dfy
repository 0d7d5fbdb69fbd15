/**
 * `extractPagesText`: from a decoded PDF to one `{ pageNumber, text }` entry per
 * page. Decoding is not modelled; a document arrives as, for each page in order,
 * the `str` of each of its text items.
 */
module PdfUtils {
  import opened Text

  datatype PageText = PageText(pageNumber: nat, text: string)

  /** The text of one page: its items' strings joined by single spaces. */
  function PageTextOf(items: seq<string>): string
  {
    Join(items, " ")
  }

  /** The entries for `pages`, built from the front: page k (counting from 1) is entry k - 1. */
  function Assemble(pages: seq<seq<string>>): (r: seq<PageText>)
    ensures |r| == |pages|
    ensures forall k :: 0 <= k < |r| ==> r[k].pageNumber == k + 1
    decreases |pages|
  {
    if |pages| == 0 then []
    else Assemble(pages[..|pages| - 1]) + [PageText(|pages|, PageTextOf(pages[|pages| - 1]))]
  }

  /** Page k's entry depends on page k alone. */
  lemma {:induction false} AssembleEntry(pages: seq<seq<string>>, k: nat)
    requires k < |pages|
    ensures Assemble(pages)[k] == PageText(k + 1, PageTextOf(pages[k]))
    decreases |pages|
  {
    if k < |pages| - 1 {
      var front := pages[..|pages| - 1];
      AssembleEntry(front, k);
      assert front[k] == pages[k];
    }
  }

  /** Later pages only append: the entries for a prefix of the document are a prefix of its entries. */
  lemma AssemblePrefix(pages: seq<seq<string>>, n: nat)
    requires n <= |pages|
    ensures Assemble(pages[..n]) == Assemble(pages)[..n]
  {
    var a := Assemble(pages[..n]);
    var b := Assemble(pages);
    forall k | 0 <= k < n
      ensures a[k] == b[k]
    {
      AssembleEntry(pages[..n], k);
      AssembleEntry(pages, k);
      assert pages[..n][k] == pages[k];
    }
  }

  /**
   * The page loop `for (i = 1; i <= numPages; i++)`: one entry per page, numbered
   * from 1 in document order, each holding that page's item strings joined by
   * spaces, a page without items giving "".
   */
  method ExtractPagesText(pages: seq<seq<string>>) returns (result: seq<PageText>)
    ensures result == Assemble(pages)
    ensures |result| == |pages|
    ensures forall j, k :: 0 <= j < k < |result| ==> result[j].pageNumber < result[k].pageNumber
    ensures forall k :: 0 <= k < |result| ==> result[k].text == PageTextOf(pages[k])
    ensures forall k :: 0 <= k < |result| && pages[k] == [] ==> result[k].text == ""
  {
    var numPages := |pages|;
    result := [];
    var i := 1;
    while i <= numPages
      invariant 1 <= i <= numPages + 1
      invariant result == Assemble(pages[..i - 1])
    {
      var items := pages[i - 1];
      assert pages[..i][..i - 1] == pages[..i - 1];
      result := result + [PageText(i, PageTextOf(items))];
      i := i + 1;
    }
    assert pages[..numPages] == pages;
    forall k | 0 <= k < |result|
      ensures result[k].text == PageTextOf(pages[k])
    {
      AssembleEntry(pages, k);
    }
  }

  /**
   * When no item string holds a space, the page text can be split back into its
   * items: joining with " " loses nothing.
   */
  lemma PageTextSplitsBack(items: seq<string>)
    requires |items| >= 1
    requires forall m :: 0 <= m < |items| ==> ' ' !in items[m]
    ensures Split(PageTextOf(items), ' ') == items
  {
    SplitJoin(items, ' ');
  }

  /** A page's text is as long as its items together plus one space between each two. */
  lemma PageTextLength(items: seq<string>)
    requires |items| >= 1
    ensures |PageTextOf(items)| == TotalLength(items) + |items| - 1
  {
    JoinLength(items, " ");
  }
}
