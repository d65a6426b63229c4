/** The two image records that travel between the download and packaging
    stages (src/manga/chapter/manga_image.rs). */
module Images {
  import opened Common

  /** A downloaded page: the page number it was requested as and its bytes. */
  datatype MangaImage = MangaImage(pageNo: int, image: Bytes)

  /** One downloaded chapter as stored on a manga: its number (an `f32` in
      the program, a `real` here), title, the file-name template holding the
      `ORDER` placeholder, and its pages. */
  datatype ChapterImage = ChapterImage(
    chapterNo: real,
    chapterTitle: string,
    targetName: string,
    images: seq<MangaImage>)
}
