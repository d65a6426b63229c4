/** A chapter of a manga and how its pages are downloaded
    (src/manga/chapter/chapter.rs, with the at-home server response of
    src/manga/chapter/at_home.rs as plain data).

    The at-home request is the oracle `atHome` and every image download the
    oracle `fetch`; `None` from either stands for the `expect` or `unwrap`
    that would abort the program. */
module Chapters {
  import opened Common
  import opened Strings
  import opened Images
  import opened Connection

  /** Chapter number (an optional `f32`, a `real` here), page count and
      title. */
  datatype ChapterAttribute = ChapterAttribute(chapter: Option<real>, pages: int, title: string)

  datatype Chapter = Chapter(id: string, attributes: ChapterAttribute)

  /** The chapter hash and its image file names, full size and data saver. */
  datatype ChapterData = ChapterData(hash: string, data: seq<string>, dataSaver: seq<string>)

  /** What the at-home server answers for one chapter. */
  datatype AtHomeServerResponse = AtHomeServerResponse(baseUrl: Url, chapterData: ChapterData)

  /** `get_chapter_number`: a chapter without a number counts as 0. */
  function GetChapterNumber(c: Chapter): (no: real)
    ensures c.attributes.chapter.Some? ==> no == c.attributes.chapter.value
    ensures c.attributes.chapter.None? ==> no == 0.0
  {
    match c.attributes.chapter
    case Some(x) => x
    case None => 0.0
  }

  /** `generate_file_name`: `Images/<number>_ORDER.jpg`, a name with one
      `ORDER` placeholder for the page. How Rust prints an `f32` is the
      parameter `fmt`; as long as the printed number has no capital O (a
      printed float never has one), filling the placeholder with a tag gives
      `Images/<number>_<tag>.jpg`. */
  function GenerateFileName(c: Chapter, fmt: real -> string): (name: string)
    ensures 'O' !in fmt(GetChapterNumber(c)) ==>
              forall tag :: Replace(name, "ORDER", tag) == "Images/" + fmt(GetChapterNumber(c)) + "_" + tag + ".jpg"
  {
    FileNameFilled(fmt(GetChapterNumber(c)));
    "Images/" + fmt(GetChapterNumber(c)) + "_ORDER.jpg"
  }

  /** Filling the placeholder of `Images/<no>_ORDER.jpg` touches nothing else. */
  lemma FileNameFilled(no: string)
    ensures 'O' !in no ==>
              forall tag :: Replace("Images/" + no + "_ORDER.jpg", "ORDER", tag) == "Images/" + no + "_" + tag + ".jpg"
  {
    if 'O' !in no {
      forall tag
        ensures Replace("Images/" + no + "_ORDER.jpg", "ORDER", tag) == "Images/" + no + "_" + tag + ".jpg"
      {
        var pre := "Images/" + no + "_";
        assert 'O' !in "Images/" && 'O' !in ".jpg";
        assert "Images/" + no + "_ORDER.jpg" == pre + "ORDER" + ".jpg";
        ReplaceAbsent(".jpg", "ORDER", tag);
        ReplaceOnce(pre, "ORDER", ".jpg", tag);
      }
    }
  }

  /** The at-home request of `get_manga_at_home_info`. */
  function AtHomeUrl(chapterId: string): Url
  {
    "https://api.mangadex.org/at-home/server/" + chapterId
  }

  /** `base_url/data/hash/name`, the address of one page image. */
  function ImageUrl(baseUrl: Url, hash: string, name: string): Url
  {
    baseUrl + "/data/" + hash + "/" + name
  }

  /** The file name is the last path segment of its image address, so no
      two file names share an address. */
  lemma ImageUrlFileName(baseUrl: Url, hash: string, name: string)
    requires '/' !in name
    ensures var parts := Split(ImageUrl(baseUrl, hash, name), '/');
      |parts| >= 2 && parts[|parts| - 1] == name
  {
    assert ImageUrl(baseUrl, hash, name) == (baseUrl + "/data/" + hash) + ['/'] + name;
    SplitLastPiece(baseUrl + "/data/" + hash, '/', name);
  }

  /** The page addresses of a chapter before they are reversed: one per
      full-size file name, in the order the server listed them. */
  function ImageUrls(r: AtHomeServerResponse): (urls: seq<Url>)
    ensures |urls| == |r.chapterData.data|
  {
    seq(|r.chapterData.data|, k requires 0 <= k < |r.chapterData.data| =>
      ImageUrl(r.baseUrl, r.chapterData.hash, r.chapterData.data[k]))
  }

  /** What downloading the chapter with id `chapterId` should give: page k
      is numbered k and holds the bytes of the k-th listed file, and nothing
      comes back unless the server answered and every page could be
      fetched. */
  function ChapterPages(chapterId: string, atHome: Url -> Option<AtHomeServerResponse>, fetch: Url -> Option<Bytes>)
    : Option<seq<MangaImage>>
  {
    match atHome(AtHomeUrl(chapterId))
    case None => None
    case Some(r) =>
      var names := r.chapterData.data;
      if forall k :: 0 <= k < |names| ==> fetch(ImageUrl(r.baseUrl, r.chapterData.hash, names[k])).Some?
      then Some(seq(|names|, k requires 0 <= k < |names| =>
             MangaImage(k, fetch(ImageUrl(r.baseUrl, r.chapterData.hash, names[k])).value)))
      else None
  }

  /** Counted from the back, the reversed batch lists the file names in
      the server's order. */
  lemma ReversedUrlAt(r: AtHomeServerResponse, batch: seq<Url>, k: int)
    requires batch == Reverse(ImageUrls(r)) && 0 <= k < |batch|
    ensures batch[|batch| - 1 - k] == ImageUrl(r.baseUrl, r.chapterData.hash, r.chapterData.data[k])
  {
    var urls := ImageUrls(r);
    assert batch[|batch| - 1 - k] == urls[|urls| - 1 - (|batch| - 1 - k)];
  }

  /** A batch built by reversing the page addresses can be fetched
      entirely exactly when every listed file can. */
  lemma ReversedBatchFetched(r: AtHomeServerResponse, fetch: Url -> Option<Bytes>, batch: seq<Url>)
    requires batch == Reverse(ImageUrls(r))
    ensures var names := r.chapterData.data;
      (forall k :: 0 <= k < |batch| ==> fetch(batch[k]).Some?)
      <==> (forall k :: 0 <= k < |names| ==> fetch(ImageUrl(r.baseUrl, r.chapterData.hash, names[k])).Some?)
  {
    var n := |batch|;
    var names := r.chapterData.data;
    if forall k :: 0 <= k < n ==> fetch(batch[k]).Some? {
      forall k | 0 <= k < n
        ensures fetch(ImageUrl(r.baseUrl, r.chapterData.hash, names[k])).Some?
      {
        ReversedUrlAt(r, batch, k);
      }
    }
    if forall k :: 0 <= k < n ==> fetch(ImageUrl(r.baseUrl, r.chapterData.hash, names[k])).Some? {
      forall k | 0 <= k < n
        ensures fetch(batch[k]).Some?
      {
        ReversedUrlAt(r, batch, n - 1 - k);
      }
    }
  }

  /** Pages that come back in order from such a batch are the chapter's
      pages: page k holds the bytes of the k-th listed file. */
  lemma ReversedBatchPages(r: AtHomeServerResponse, fetch: Url -> Option<Bytes>, batch: seq<Url>, pages: seq<MangaImage>)
    requires batch == Reverse(ImageUrls(r))
    requires PagesInOrder(batch, pages, fetch)
    ensures forall k :: 0 <= k < |batch| ==> fetch(ImageUrl(r.baseUrl, r.chapterData.hash, r.chapterData.data[k])).Some?
    ensures pages == seq(|batch|, k requires 0 <= k < |batch| =>
      MangaImage(k, fetch(ImageUrl(r.baseUrl, r.chapterData.hash, r.chapterData.data[k])).value))
  {
    var n := |batch|;
    forall k | 0 <= k < n
      ensures fetch(ImageUrl(r.baseUrl, r.chapterData.hash, r.chapterData.data[k])) == Some(pages[k].image)
    {
      ReversedUrlAt(r, batch, k);
    }
  }

  /** The body of `download`, shared by both revisions of the program: ask
      the at-home server, build one address per file name, reverse the list
      so that popping from its back yields the first page first, and hand it
      to the batch download with concurrency 5. */
  method FetchChapterPages(chapterId: string, atHome: Url -> Option<AtHomeServerResponse>, fetch: Url -> Option<Bytes>)
    returns (images: Option<seq<MangaImage>>)
    ensures images == ChapterPages(chapterId, atHome, fetch)
  {
    var response := atHome(AtHomeUrl(chapterId));
    if response.None? {
      return None;
    }
    var r := response.value;
    var batch := Reverse(ImageUrls(r));
    var rest, spawned, waves, pages := AsyncGetImageBatch(batch, 5, fetch);
    ReversedBatchFetched(r, fetch, batch);
    if pages.Some? {
      ReversedBatchPages(r, fetch, batch, pages.value);
    }
    images := pages;
  }

  /** `Chapter::download`. */
  method Download(c: Chapter, atHome: Url -> Option<AtHomeServerResponse>, fetch: Url -> Option<Bytes>)
    returns (images: Option<seq<MangaImage>>)
    ensures images == ChapterPages(c.id, atHome, fetch)
  {
    images := FetchChapterPages(c.id, atHome, fetch);
  }
}
