/*
 * Text acquisition of the brand-guide analyser: the two extraction tools of
 * agent.py, analisar_pdf_texto (direct text) and analisar_pdf_imagem_ocr (OCR).
 *
 * The PDF library and the OCR engine are not modelled. A document is the
 * sequence of the strings its pages yield, in page order (page.get_text() for
 * the direct tool, the text Tesseract recognises on the page rendered at 300
 * DPI for the OCR tool), together with whether the path names an existing
 * file. What the tools themselves do is modelled: the early exit on a missing
 * path, the loop that appends every page followed by a blank line, and the
 * blank check that turns a whitespace-only result into an error.
 */
module TextAcquisition {

  // ---------------------------------------------------------------------------
  // Python's str.strip() and the blank check `not texto.strip()`
  // ---------------------------------------------------------------------------

  /** The characters Python's str.isspace() accepts, which str.strip() removes. */
  predicate IsSpace(c: char) {
    || c == ' '
    || '\t' <= c <= '\r'
    || '\U{1c}' <= c <= '\U{1f}'
    || c == '\U{85}' || c == '\U{a0}' || c == '\U{1680}'
    || '\U{2000}' <= c <= '\U{200a}'
    || c == '\U{2028}' || c == '\U{2029}' || c == '\U{202f}' || c == '\U{205f}' || c == '\U{3000}'
  }

  predicate AllSpace(s: string) {
    forall i :: 0 <= i < |s| ==> IsSpace(s[i])
  }

  /** `s` without its leading whitespace: the longest suffix not starting with whitespace. */
  function StripLeading(s: string): (r: string)
    ensures |r| <= |s| && r == s[|s| - |r|..]
    ensures AllSpace(s[..|s| - |r|])
    ensures r == [] || !IsSpace(r[0])
  {
    if s != [] && IsSpace(s[0]) then
      var r := StripLeading(s[1..]);
      assert s[..|s| - |r|] == [s[0]] + s[1..][..|s| - 1 - |r|];
      r
    else s
  }

  /** `s` without its trailing whitespace: the longest prefix not ending with whitespace. */
  function StripTrailing(s: string): (r: string)
    ensures |r| <= |s| && r == s[..|r|]
    ensures AllSpace(s[|r|..])
    ensures r == [] || !IsSpace(r[|r| - 1])
  {
    if s != [] && IsSpace(s[|s| - 1]) then
      var r := StripTrailing(s[..|s| - 1]);
      assert s[|r|..] == s[..|s| - 1][|r|..] + [s[|s| - 1]];
      r
    else s
  }

  /** Python's str.strip() without arguments. */
  function Strip(s: string): string {
    StripTrailing(StripLeading(s))
  }

  /** The tools' test `not texto_completo.strip()`. */
  predicate IsBlank(s: string) {
    Strip(s) == []
  }

  /** A string is blank exactly when every character of it is whitespace. */
  lemma BlankIffAllSpace(s: string)
    ensures IsBlank(s) <==> AllSpace(s)
  {
    var lead := StripLeading(s);
    var cut := |s| - |lead|;
    if IsBlank(s) {
      assert lead[0..] == lead;
      assert s[..cut] == s;
    }
  }

  lemma AllSpaceConcat(a: string, b: string)
    ensures AllSpace(a + b) <==> AllSpace(a) && AllSpace(b)
  {
    assert forall i :: 0 <= i < |a| ==> (a + b)[i] == a[i];
    assert forall i :: 0 <= i < |b| ==> (a + b)[|a| + i] == b[i];
    if AllSpace(a) && AllSpace(b) {
      forall i | 0 <= i < |a + b| ensures IsSpace((a + b)[i]) {
        if i >= |a| {
          assert (a + b)[i] == b[i - |a|];
        }
      }
    }
  }

  // ---------------------------------------------------------------------------
  // Accumulating the pages
  // ---------------------------------------------------------------------------

  /** What the tools append after every page, the last one included. */
  const PageBreak: string := "\n\n"

  /** The accumulated text after reading `pages` in order: each page followed by a blank line. */
  function Joined(pages: seq<string>): string {
    if pages == [] then "" else Joined(pages[..|pages| - 1]) + pages[|pages| - 1] + PageBreak
  }

  /** Total number of characters over all pages. */
  function TotalLength(pages: seq<string>): nat {
    if pages == [] then 0 else |pages[0]| + TotalLength(pages[1..])
  }

  /** The loop `for page in doc: texto_completo += page_text + "\n\n"` that both tools run. */
  method AccumulatePages(pages: seq<string>) returns (text: string)
    ensures text == Joined(pages)
  {
    text := "";
    for i := 0 to |pages|
      invariant text == Joined(pages[..i])
    {
      text := text + pages[i] + PageBreak;
      assert pages[..i + 1][..i] == pages[..i];
    }
    assert pages[..|pages|] == pages;
  }

  /** Reading two stretches of pages one after the other gives the two texts one after the other. */
  lemma {:induction false} JoinedAppend(a: seq<string>, b: seq<string>)
    ensures Joined(a + b) == Joined(a) + Joined(b)
    decreases |b|
  {
    if b != [] {
      var front := b[..|b| - 1];
      assert (a + b)[..|a + b| - 1] == a + front;
      assert (a + b)[|a + b| - 1] == b[|b| - 1];
      JoinedAppend(a, front);
    } else {
      assert a + b == a;
    }
  }

  /** Page order is kept: the text is page 0, a blank line, then the text of the remaining pages. */
  lemma JoinedFirstPage(pages: seq<string>)
    requires pages != []
    ensures Joined(pages) == pages[0] + PageBreak + Joined(pages[1..])
  {
    JoinedAppend([pages[0]], pages[1..]);
    assert [pages[0]] + pages[1..] == pages;
    assert [pages[0]][..0] == [];
  }

  /** A page between two stretches of pages sits between their two texts, followed by a blank line. */
  lemma JoinedAround(pre: seq<string>, page: string, post: seq<string>)
    ensures Joined(pre + [page] + post) == Joined(pre) + page + PageBreak + Joined(post)
  {
    var front := pre + [page];
    assert front[..|front| - 1] == pre;
    JoinedAppend(front, post);
  }

  /** Page i sits right after the text of the pages before it and is followed by a blank line. */
  lemma JoinedPageAt(pages: seq<string>, i: nat)
    requires i < |pages|
    ensures Joined(pages) == Joined(pages[..i]) + pages[i] + PageBreak + Joined(pages[i + 1..])
  {
    SplitAt(pages, i);
    JoinedAround(pages[..i], pages[i], pages[i + 1..]);
  }

  lemma SplitAt<T>(s: seq<T>, i: nat)
    requires i < |s|
    ensures s[..i] + [s[i]] + s[i + 1..] == s
  {
    assert s[..i] + s[i..] == s;
    assert s[i..] == [s[i]] + s[i + 1..];
  }

  /** The text is as long as all pages together plus two characters per page. */
  lemma {:induction false} JoinedLength(pages: seq<string>)
    ensures |Joined(pages)| == TotalLength(pages) + 2 * |pages|
    decreases |pages|
  {
    if pages != [] {
      JoinedFirstPage(pages);
      JoinedLength(pages[1..]);
    }
  }

  /** The text is all whitespace exactly when every page is. */
  lemma {:induction false} JoinedAllSpace(pages: seq<string>)
    ensures AllSpace(Joined(pages)) <==> forall i :: 0 <= i < |pages| ==> AllSpace(pages[i])
    decreases |pages|
  {
    if pages != [] {
      var front, last := pages[..|pages| - 1], pages[|pages| - 1];
      JoinedAllSpace(front);
      AllSpaceConcat(Joined(front) + last, PageBreak);
      AllSpaceConcat(Joined(front), last);
      assert AllSpace(PageBreak);
      assert forall i :: 0 <= i < |front| ==> front[i] == pages[i];
    }
  }

  /** The text is blank exactly when every page is blank; zero pages give blank text. */
  lemma JoinedBlankIffPagesBlank(pages: seq<string>)
    ensures IsBlank(Joined(pages)) <==> forall i :: 0 <= i < |pages| ==> IsBlank(pages[i])
  {
    JoinedAllSpace(pages);
    BlankIffAllSpace(Joined(pages));
    forall i | 0 <= i < |pages| ensures IsBlank(pages[i]) <==> AllSpace(pages[i]) {
      BlankIffAllSpace(pages[i]);
    }
  }

  // ---------------------------------------------------------------------------
  // The two tools
  // ---------------------------------------------------------------------------

  /** A tool's answer: {"texto_completo": text} or {"erro": message}. */
  datatype Extraction = FullText(text: string) | Failure(message: string)

  function NotFoundMessage(path: string): string {
    "Arquivo não encontrado: " + path
  }

  const NoTextMessage: string := "Nenhum texto foi encontrado no PDF."
  const NoOcrTextMessage: string := "O OCR não conseguiu extrair nenhum texto do PDF."

  /** Some page holds a character that is not whitespace. */
  ghost predicate SomePageHasText(pages: seq<string>) {
    exists i :: 0 <= i < |pages| && !IsBlank(pages[i])
  }

  /**
   * analisar_pdf_texto: `pages` are the texts the PDF library yields for the
   * pages of the file at `path`, used only when that file exists.
   */
  method ExtractText(path: string, fileExists: bool, pages: seq<string>) returns (r: Extraction)
    ensures !fileExists ==> r == Failure(NotFoundMessage(path))
    ensures fileExists && IsBlank(Joined(pages)) ==> r == Failure(NoTextMessage)
    ensures fileExists && !IsBlank(Joined(pages)) ==> r == FullText(Joined(pages))
    ensures r.FullText? <==> fileExists && SomePageHasText(pages)
    ensures r.FullText? ==> !IsBlank(r.text)
  {
    if !fileExists {
      return Failure(NotFoundMessage(path));
    }
    var text := AccumulatePages(pages);
    JoinedBlankIffPagesBlank(pages);
    if IsBlank(text) {
      return Failure(NoTextMessage);
    }
    return FullText(text);
  }

  /**
   * analisar_pdf_imagem_ocr: `recognised` are the texts the OCR engine reads
   * off the pages of the file at `path`, used only when that file exists.
   */
  method ExtractTextOcr(path: string, fileExists: bool, recognised: seq<string>) returns (r: Extraction)
    ensures !fileExists ==> r == Failure(NotFoundMessage(path))
    ensures fileExists && IsBlank(Joined(recognised)) ==> r == Failure(NoOcrTextMessage)
    ensures fileExists && !IsBlank(Joined(recognised)) ==> r == FullText(Joined(recognised))
    ensures r.FullText? <==> fileExists && SomePageHasText(recognised)
    ensures r.FullText? ==> !IsBlank(r.text)
  {
    if !fileExists {
      return Failure(NotFoundMessage(path));
    }
    var text := AccumulatePages(recognised);
    JoinedBlankIffPagesBlank(recognised);
    if IsBlank(text) {
      return Failure(NoOcrTextMessage);
    }
    return FullText(text);
  }
}
