/** The job's domain entities: the key of a stored file and the id of an article. */
module Domain {
  import opened Common

  /** Length of a generated file key. */
  const FileKeyLength: nat := 16

  /** Length of a generated article id. */
  const ArticleIdLength: nat := 16

  /** What the random generator can return when asked for a file key. */
  type FileKeySample = s: string | IsAlphanumericOfLength(s, FileKeyLength)
    witness "0000000000000000"

  /** What the random generator can return when asked for an article id. */
  type ArticleIdSample = s: string | IsAlphanumericOfLength(s, ArticleIdLength)
    witness "0000000000000000"

  /** A file to be stored: the key that names it and when it was created. */
  datatype FileEntity = FileEntity(key: string, createdTime: Instant)

  /** The identity of an article for this run. */
  datatype NewsEntity = NewsEntity(articleId: string)

  /**
   * Builds a file entity. A supplied key or creation time is kept; a missing key is
   * replaced by a fresh random sample and a missing time by the current clock reading.
   * The sample and the clock are parameters because they are effects.
   */
  function NewFileEntity(key: Option<string>, createdTime: Option<Instant>, now: Instant,
                         sample: FileKeySample): (f: FileEntity)
    ensures key.Some? ==> f.key == key.value
    ensures key.None? ==> IsAlphanumericOfLength(f.key, FileKeyLength)
    ensures createdTime.Some? ==> f.createdTime == createdTime.value
    ensures createdTime.None? ==> f.createdTime == now
  {
    FileEntity(
      match key case Some(k) => k case None => sample,
      match createdTime case Some(t) => t case None => now)
  }

  /**
   * Builds a news entity: a supplied id is kept as it is (nothing checks it), otherwise
   * a fresh random sample becomes the id.
   */
  function NewNewsEntity(articleId: Option<string>, sample: ArticleIdSample): (e: NewsEntity)
    ensures articleId.Some? ==> e.articleId == articleId.value
    ensures articleId.None? ==> IsAlphanumericOfLength(e.articleId, ArticleIdLength)
  {
    NewsEntity(match articleId case Some(id) => id case None => sample)
  }

  /** An article id comes out empty exactly when an empty id was supplied: generation never yields "". */
  lemma ArticleIdEmptyOnlyWhenSuppliedEmpty(articleId: Option<string>, sample: ArticleIdSample)
    ensures NewNewsEntity(articleId, sample).articleId == "" <==> articleId == Some("")
  {
    if articleId.None? {
      assert |NewNewsEntity(articleId, sample).articleId| == ArticleIdLength;
    }
  }

  /** A file key comes out empty exactly when an empty key was supplied. */
  lemma FileKeyEmptyOnlyWhenSuppliedEmpty(key: Option<string>, createdTime: Option<Instant>,
                                          now: Instant, sample: FileKeySample)
    ensures NewFileEntity(key, createdTime, now, sample).key == "" <==> key == Some("")
  {
    if key.None? {
      assert |NewFileEntity(key, createdTime, now, sample).key| == FileKeyLength;
    }
  }
}
