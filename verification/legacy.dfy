/** The older revision of the manga workflow (src/manga.rs): a manga is
    only its id and URL, the chapter request always carries an offset, and
    downloading a chapter saves its pages as numbered files instead of
    keeping them.

    The id is read as in the current revision, and the download is the
    same at-home request, address list and batch download; the image
    encoder and the file system are not part of this model. */
module LegacyManga {
  import opened Common
  import opened Strings
  import opened Query
  import opened Images
  import opened Chapters
  import Mangas

  datatype Manga = Manga(id: string, url: Url)

  /** In this revision the chapter number is always present. */
  datatype Chapter = Chapter(id: string, no: real, pages: int, title: string)

  /** `From<&str>`: the id read from the URL and the URL as given; a URL
      with fewer than four slashes makes the `unwrap` abort. */
  function FromUrl(url: Url): (m: Option<Manga>)
    ensures m.Some? <==> CountChar(url, '/') >= 4
    ensures m.Some? ==> m.value.id == Split(url, '/')[4] && m.value.url == url
  {
    match Mangas.MangaIdFromUrl(url)
    case None => None
    case Some(id) => Some(Manga(id, url))
  }

  /** `construct_manga_chapter_request_url` of this revision: the manga id,
      the language, `&limit=<n>` when a limit is given, and `&offset=<n>`
      whatever the offset. The address is the endpoint and exactly these
      parameters encoded as a query. */
  function ChapterRequestUrl(m: Manga, offset: int, chapterLimit: Option<int>): (url: Url)
    ensures url == Mangas.ChapterEndpoint + "?" + EncodeParams(Mangas.RequestParams(m.id, chapterLimit, Some(offset)))[1..]
  {
    Mangas.QueryText(m.id, chapterLimit, Some(offset));
    Mangas.ChapterEndpoint + "?"
    + ("manga=" + m.id + "&translatedLanguage[]=en"
       + Mangas.OptText("limit", chapterLimit)
       + Mangas.OptText("offset", Some(offset)))
  }

  /** The two revisions ask for the same thing, except that this one also
      sends an offset of 0. */
  lemma SameRequestAsCurrent(m: Manga, offset: int, chapterLimit: Option<int>)
    ensures offset != 0 ==>
              ChapterRequestUrl(m, offset, chapterLimit) == Mangas.ChapterRequestUrl(m.id, offset, chapterLimit)
    ensures offset == 0 ==>
              ChapterRequestUrl(m, offset, chapterLimit) == Mangas.ChapterRequestUrl(m.id, offset, chapterLimit) + "&offset=0"
  {
    if offset == 0 {
      var h := "manga=" + m.id + "&translatedLanguage[]=en" + Mangas.OptText("limit", chapterLimit);
      assert Mangas.OptText("offset", Some(0)) == "&offset=0" by {
        assert IntToString(0) == "0";
      }
      assert Mangas.ChapterEndpoint + "?" + (h + "") + "&offset=0" == Mangas.ChapterEndpoint + "?" + (h + "&offset=0");
    }
  }

  /** Read back, the request carries the manga, the language, the limit
      when one is given, and always the offset, as the last parameter. */
  lemma ChapterRequestQuery(m: Manga, offset: int, chapterLimit: Option<int>)
    requires Plain(m.id)
    ensures var ps := Mangas.QueryOf(ChapterRequestUrl(m, offset, chapterLimit), Mangas.ChapterEndpoint);
      && ps.Some?
      && Lookup(ps.value, "manga") == Some(m.id)
      && Lookup(ps.value, "translatedLanguage[]") == Some("en")
      && LookupInt(ps.value, "limit") == chapterLimit
      && LookupInt(ps.value, "offset") == Some(offset)
      && ps.value[|ps.value| - 1] == Param("offset", IntToString(offset))
  {
    Mangas.RequestParamsRead(m.id, chapterLimit, Some(offset));
    Mangas.QueryOfEncoded(Mangas.ChapterEndpoint, Mangas.RequestParams(m.id, chapterLimit, Some(offset)));
  }

  /** The name `download` saves page i under. */
  function SavedFileName(i: nat): string
  {
    "test_img/" + IntToString(i) + ".jpg"
  }

  /** Every page is saved under a name of its own. */
  lemma SavedFileNamesDistinct(i: nat, j: nat)
    ensures SavedFileName(i) == SavedFileName(j) ==> i == j
  {
    if SavedFileName(i) == SavedFileName(j) {
      var a, b := IntToString(i), IntToString(j);
      assert a == SavedFileName(i)[9..|SavedFileName(i)| - 4];
      assert b == SavedFileName(j)[9..|SavedFileName(j)| - 4];
      IntToStringInjective(i, j);
    }
  }

  /** `Chapter::download` of this revision: the pages fetched as in the
      current revision, each paired with the file name it is saved under,
      in page order. */
  method Download(c: Chapter, atHome: Url -> Option<AtHomeServerResponse>, fetch: Url -> Option<Bytes>)
    returns (saved: Option<seq<(string, Bytes)>>)
    ensures saved.Some? <==> ChapterPages(c.id, atHome, fetch).Some?
    ensures saved.Some? ==>
              var pages := ChapterPages(c.id, atHome, fetch).value;
              && |saved.value| == |pages|
              && forall i :: 0 <= i < |pages| ==> saved.value[i] == (SavedFileName(i), pages[i].image)
  {
    var pages := FetchChapterPages(c.id, atHome, fetch);
    if pages.None? {
      return None;
    }
    var imgs := pages.value;
    var files: seq<(string, Bytes)> := [];
    var i := 0;
    while i < |imgs|
      invariant 0 <= i <= |imgs|
      invariant |files| == i
      invariant forall t :: 0 <= t < i ==> files[t] == (SavedFileName(t), imgs[t].image)
    {
      files := files + [(SavedFileName(i), imgs[i].image)];
      i := i + 1;
    }
    saved := Some(files);
  }
}
