/** The manga record the API returns (src/manga/manga_data.rs), flattened to
    the English title and the list of relationships, and the lookups on it. */
module MangaInfo {

  /** One related entity: its id and its kind (`author`, `cover_art`, ...). */
  datatype MangaRelation = MangaRelation(id: string, relationType: string)

  /** `data.attributes.title.en` and `data.relationships`. */
  datatype MangaData = MangaData(titleEn: string, relationships: seq<MangaRelation>)

  /** `get_title`: the English title, whatever the relationships. */
  function GetTitle(d: MangaData): (title: string)
    ensures title == d.titleEn
  {
    d.titleEn
  }

  /** The first relationship of kind `t` is at index k. */
  predicate FirstOfType(rels: seq<MangaRelation>, t: string, k: int)
  {
    && 0 <= k < |rels|
    && rels[k].relationType == t
    && forall m :: 0 <= m < k ==> rels[m].relationType != t
  }

  /** The loop shared by `get_author_id` and `get_cover_id`: walk the
      relationships, copy the id of the first one of kind `t` and stop;
      without one the id stays empty. */
  function RelationId(rels: seq<MangaRelation>, t: string): (id: string)
    ensures (forall k :: 0 <= k < |rels| ==> rels[k].relationType != t) ==> id == ""
    ensures forall k :: FirstOfType(rels, t, k) ==> id == rels[k].id
    ensures id == "" || exists k :: 0 <= k < |rels| && rels[k].relationType == t && rels[k].id == id
    decreases |rels|
  {
    if |rels| == 0 then ""
    else if rels[0].relationType == t then rels[0].id
    else
      var id := RelationId(rels[1..], t);
      assert forall k :: FirstOfType(rels, t, k) ==> FirstOfType(rels[1..], t, k - 1);
      id
  }

  /** Relationships after the first match do not matter. */
  lemma {:induction false} RelationIdFirstWins(rels: seq<MangaRelation>, t: string, more: seq<MangaRelation>)
    requires exists k :: 0 <= k < |rels| && rels[k].relationType == t
    ensures RelationId(rels + more, t) == RelationId(rels, t)
    decreases |rels|
  {
    var all := rels + more;
    assert all[0] == rels[0];
    if rels[0].relationType != t {
      var k :| 0 <= k < |rels| && rels[k].relationType == t;
      assert rels[1..][k - 1].relationType == t;
      assert all[1..] == rels[1..] + more;
      RelationIdFirstWins(rels[1..], t, more);
      assert RelationId(all, t) == RelationId(all[1..], t);
      assert RelationId(rels, t) == RelationId(rels[1..], t);
    }
  }

  /** `get_author_id`: the id of the first author, or empty. */
  function GetAuthorId(d: MangaData): (id: string)
    ensures forall k :: FirstOfType(d.relationships, "author", k) ==> id == d.relationships[k].id
    ensures (forall k :: 0 <= k < |d.relationships| ==> d.relationships[k].relationType != "author") ==> id == ""
  {
    RelationId(d.relationships, "author")
  }

  /** `get_cover_id`: the id of the first cover art, or empty. */
  function GetCoverId(d: MangaData): (id: string)
    ensures forall k :: FirstOfType(d.relationships, "cover_art", k) ==> id == d.relationships[k].id
    ensures (forall k :: 0 <= k < |d.relationships| ==> d.relationships[k].relationType != "cover_art") ==> id == ""
  {
    RelationId(d.relationships, "cover_art")
  }
}
