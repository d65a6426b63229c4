/** The book being assembled (src/epub.rs): the ordered list of resources
    the program adds, the cover, and what `generate` hands to the epub
    builder for each resource — a file, a page named after the resource's
    chapter and position, and that page's XHTML made from a template.

    The builder itself, the zip library and the output file are not part of
    this model; `Generate` yields the sequence of builder calls instead. */
module Epub {
  import opened Common
  import opened Strings
  import opened Images

  /** What a resource carries: image bytes or a section title. */
  datatype Content = Image(bytes: Bytes) | Text(text: string)

  datatype BookContent = BookContent(
    order: int,
    chapterOrder: int,
    targetPath: string,
    content: Content,
    contentType: string)

  /** The resources in the order they were added, and the cover image
      (stored by the builder as `Images/cover.jpg`) once one was added. */
  datatype Book = Book(resources: seq<BookContent>, cover: Option<Bytes>)

  /** `Book::new`. */
  function NewBook(): (b: Book)
    ensures b.resources == [] && b.cover == None
  {
    Book([], None)
  }

  /** `add_image`: moves the page bytes out of `img` (which keeps its page
      number but is left with no bytes) into one new image resource at the
      end of the list. */
  function AddImage(b: Book, img: MangaImage, order: int, targetPath: string, chapterOrder: int)
    : (r: (Book, MangaImage))
    ensures |r.0.resources| == |b.resources| + 1 && r.0.resources[..|b.resources|] == b.resources
    ensures r.0.resources[|b.resources|] == BookContent(order, chapterOrder, targetPath, Image(img.image), "image/jpeg")
    ensures r.0.cover == b.cover
    ensures r.1.pageNo == img.pageNo && r.1.image == []
  {
    var resource := BookContent(order, chapterOrder, targetPath, Image(img.image), "image/jpeg");
    (b.(resources := b.resources + [resource]), img.(image := []))
  }

  /** The builder will later emit exactly the file and the page of an added
      image, after everything emitted for the earlier resources. */
  lemma AddImageGenerates(b: Book, img: MangaImage, order: int, targetPath: string, chapterOrder: int)
    ensures Generate(AddImage(b, img, order, targetPath, chapterOrder).0.resources) == Generate(b.resources)
              + [Resource(targetPath, img.image, "image/jpeg"), Page(PageName(chapterOrder, order), PageHtml(targetPath))]
  {
    var r := AddImage(b, img, order, targetPath, chapterOrder).0.resources;
    assert r[..|r| - 1] == b.resources;
  }

  /** `add_chapter_partition`: a section marker with order and chapter order
      -1 at the end of the list. */
  function AddChapterPartition(b: Book, title: string, targetPath: string): (r: Book)
    ensures |r.resources| == |b.resources| + 1 && r.resources[..|b.resources|] == b.resources
    ensures r.resources[|b.resources|] == BookContent(-1, -1, targetPath, Text(title), "chapter")
    ensures r.cover == b.cover
    ensures Generate(r.resources) == Generate(b.resources) + [Section(targetPath, title)]
  {
    b.(resources := b.resources + [BookContent(-1, -1, targetPath, Text(title), "chapter")])
  }

  /** `add_cover_image`: moves the bytes of `img` into the cover. */
  function AddCoverImage(b: Book, img: MangaImage): (r: (Book, MangaImage))
    ensures r.0.resources == b.resources && r.0.cover == Some(img.image)
    ensures r.1.pageNo == img.pageNo && r.1.image == []
  {
    (b.(cover := Some(img.image)), img.(image := []))
  }

  // ---------------------------------------------------------------------
  // Page names and the page template
  // ---------------------------------------------------------------------

  /** `Text/<chapter order>_<order>.xhtml`: it has one underscore, between
      the chapter order and the order. */
  function PageName(chapterOrder: int, order: int): (name: string)
    ensures Split(name, '_') == ["Text/" + IntToString(chapterOrder), IntToString(order) + ".xhtml"]
  {
    PageNameSplit(chapterOrder, order);
    "Text/" + IntToString(chapterOrder) + "_" + IntToString(order) + ".xhtml"
  }

  lemma NoUnderscoreInInt(n: int)
    ensures '_' !in IntToString(n)
  {
    var s := IntToString(n);
    assert forall i :: 0 <= i < |s| ==> s[i] != '_';
  }

  lemma PageNameSplit(co: int, o: int)
    ensures Split("Text/" + IntToString(co) + "_" + IntToString(o) + ".xhtml", '_')
         == ["Text/" + IntToString(co), IntToString(o) + ".xhtml"]
  {
    var a, b := "Text/" + IntToString(co), IntToString(o) + ".xhtml";
    NoUnderscoreInInt(co);
    NoUnderscoreInInt(o);
    assert '_' !in "Text/" && '_' !in ".xhtml";
    assert "Text/" + IntToString(co) + "_" + IntToString(o) + ".xhtml" == a + ['_'] + b;
    SplitAtSeparator(a, '_', b);
    SplitNoSeparator(b, '_');
  }

  /** Two image resources get the same page name only when both their
      chapter order and their order agree. */
  lemma PageNameInjective(co1: int, o1: int, co2: int, o2: int)
    ensures PageName(co1, o1) == PageName(co2, o2) ==> co1 == co2 && o1 == o2
  {
    if PageName(co1, o1) == PageName(co2, o2) {
      var a1, b1 := "Text/" + IntToString(co1), IntToString(o1) + ".xhtml";
      var a2, b2 := "Text/" + IntToString(co2), IntToString(o2) + ".xhtml";
      assert a1 == a2 && b1 == b2;
      assert IntToString(co1) == a1[5..] == a2[5..] == IntToString(co2);
      assert IntToString(o1) == b1[..|b1| - 6] == b2[..|b2| - 6] == IntToString(o2);
      IntToStringInjective(co1, co2);
      IntToStringInjective(o1, o2);
    }
  }

  // The XHTML wrapper of one page image, line by line; the longer lines
  // are cut between attributes.
  const XmlDeclaration: string := "<?xml version=\"1.0\" encoding=\"UTF-8\"?>\n"
  const HtmlOpen1: string := "<html xmlns=\"http://www.w3.org/1999/xhtml\""
  const HtmlOpen2: string := " xmlns:epub=\"http://www.idpf.org/2007/ops\">\n"
  const BlankLine: string := "\n"
  const HeadOpen: string := "<head>\n"
  const StyleLink: string :=
    "    <link rel=\"stylesheet\"" + " type=\"text/css\"" + " href=\"../Styles/page.css\"/>\n"
  const Viewport: string :=
    "    <meta name=\"viewport\"" + " content = \"width = 1600, height = 2400\" />\n"
  const HeadClose: string := "</head>\n"
  const BodyOpen: string := "<body>\n"
  const DivOpen: string := "    <div class=\"pagediv\">\n"
  const ImgOpen: string := "        <img src=\""
  const ImgClose: string := "\" class=\"bkgImg\">\n"
  const DivClose: string := "    </div>\n"
  const BodyClose: string := "</body>\n"
  const HtmlClose: string := "</html>"

  /** The template up to the image source, and from it to the end. */
  const PageHead: string :=
    XmlDeclaration + HtmlOpen1 + HtmlOpen2 + BlankLine + HeadOpen + StyleLink
    + Viewport + HeadClose + BlankLine + BodyOpen + DivOpen + ImgOpen
  const PageTail: string := ImgClose + DivClose + BodyClose + HtmlClose

  /** The placeholder the image path is written into. */
  const ImageSource: string := "IMAGE_SOURCE"

  const PageTemplate: string := PageHead + ImageSource + PageTail

  /** The page of an image stored at `targetPath`: the template with the
      path relative to the `Text` folder written in exactly once, where the
      placeholder stood, and nothing else changed. */
  function PageHtml(targetPath: string): (html: string)
    ensures html == PageHead + ("../" + targetPath) + PageTail
  {
    PageHtmlFilled("../" + targetPath);
    Replace(PageTemplate, ImageSource, "../" + targetPath)
  }

  // No placeholder can begin before the image source. The solver checks a
  // string constant for a character only one template line at a time.
  lemma XmlDeclarationClean() ensures 'I' !in XmlDeclaration { }
  lemma HtmlNamespaceClean() ensures 'I' !in HtmlOpen1 { }
  lemma EpubNamespaceClean() ensures 'I' !in HtmlOpen2 { }
  lemma StyleLinkClean() ensures 'I' !in StyleLink { }
  lemma ViewportClean() ensures 'I' !in Viewport { }
  lemma ShortLinesClean()
    ensures 'I' !in BlankLine + HeadOpen && 'I' !in HeadClose + BlankLine + BodyOpen && 'I' !in DivOpen + ImgOpen
  { }

  lemma NoCapitalIInHead()
    ensures 'I' !in PageHead
  {
    XmlDeclarationClean();
    HtmlNamespaceClean();
    EpubNamespaceClean();
    StyleLinkClean();
    ViewportClean();
    ShortLinesClean();
  }

  /** The `Img` of `bkgImg` starts like the placeholder but is not it, so
      the rest of the template is left alone. */
  lemma TailUnchanged(rep: string)
    ensures Replace(PageTail, ImageSource, rep) == PageTail
  {
    var pre, img, rest := "\" class=\"bkg", "Img\">\n", DivClose + BodyClose + HtmlClose;
    assert PageTail == pre + (img + rest);
    assert 'I' !in pre;
    assert 'I' !in img[1..] + rest;
    var s := img + rest;
    assert !StartsWith(s, ImageSource) by {
      assert s[1] == 'm' != ImageSource[1];
    }
    assert s[1..] == img[1..] + rest;
    ReplaceAbsent(img[1..] + rest, ImageSource, rep);
    assert [s[0]] + s[1..] == s;
    ReplaceAfterPrefix(pre, s, ImageSource, rep);
  }

  lemma PageHtmlFilled(rep: string)
    ensures Replace(PageTemplate, ImageSource, rep) == PageHead + rep + PageTail
  {
    assert |ImageSource| > 0 && ImageSource[0] == 'I';
    NoCapitalIInHead();
    TailUnchanged(rep);
    ReplaceOnce(PageHead, ImageSource, PageTail, rep);
  }

  // ---------------------------------------------------------------------
  // generate
  // ---------------------------------------------------------------------

  /** One call into the epub builder: a stored file, a text page, or a
      titled section entry. */
  datatype EpubEntry =
    | Resource(path: string, data: Bytes, mediaType: string)
    | Page(name: string, html: string)
    | Section(path: string, title: string)

  /** What `generate` emits for one resource: an image becomes its file and
      its page; a section marker becomes an empty titled page. */
  function ResourceEntries(r: BookContent): seq<EpubEntry>
  {
    match r.content
    case Image(data) =>
      [Resource(r.targetPath, data, "image/jpeg"), Page(PageName(r.chapterOrder, r.order), PageHtml(r.targetPath))]
    case Text(title) => [Section(r.targetPath, title)]
  }

  /** The loop of `generate`: the resources in the order they were added,
      each giving at least one entry, the first resource's first. */
  function Generate(resources: seq<BookContent>): (entries: seq<EpubEntry>)
    ensures |resources| <= |entries| <= 2 * |resources|
    decreases |resources|
  {
    if |resources| == 0 then []
    else Generate(resources[..|resources| - 1]) + ResourceEntries(resources[|resources| - 1])
  }

  /** Adding one resource adds its entries at the end. */
  lemma GenerateSnoc(rs: seq<BookContent>, r: BookContent)
    ensures Generate(rs + [r]) == Generate(rs) + ResourceEntries(r)
  {
    assert (rs + [r])[..|rs|] == rs;
  }

  /** Generating is compatible with adding resources: the entries of two
      batches of resources are the entries of each batch, in order. */
  lemma {:induction false} GenerateAppend(rs1: seq<BookContent>, rs2: seq<BookContent>)
    ensures Generate(rs1 + rs2) == Generate(rs1) + Generate(rs2)
    decreases |rs2|
  {
    if |rs2| > 0 {
      var front, last := rs2[..|rs2| - 1], rs2[|rs2| - 1];
      assert rs2 == front + [last];
      assert rs1 + rs2 == (rs1 + front) + [last];
      GenerateSnoc(rs1 + front, last);
      GenerateSnoc(front, last);
      GenerateAppend(rs1, front);
    } else {
      assert rs1 + rs2 == rs1;
    }
  }
}
