/**
 * The per-article task: download the article's image, if it has one, and store it
 * under a key derived from the article's id. Either call's failure is the task's failure.
 */
module SaveNews {
  import opened Common
  import opened Ports
  import Domain

  /** The extension appended to a file key to name the stored image. */
  const ImageExtension: string := ".jpg"

  /** A call the task makes to a collaborator. */
  datatype Call =
    | HttpGet(url: string)
    | UploadFile(input: UploadFileInput)

  /** The task's result and the calls it made, in order. */
  datatype TaskRun = TaskRun(result: Result<bool, Error>, calls: seq<Call>)

  /** The name an image is stored under: the file key followed by the extension. */
  function ImageKey(file: Domain.FileEntity): (key: string)
    ensures |key| == |file.key| + |ImageExtension|
    ensures key[..|file.key|] == file.key && key[|file.key|..] == ImageExtension
  {
    file.key + ImageExtension
  }

  /**
   * `perform`. The answers of the HTTP helper and of the file storage are parameters, as are
   * the random key sample and the clock reading used when the article lacks an id or a time.
   * Returns `Ok(true)` when an image was downloaded and stored, `Ok(false)` when there was none.
   */
  function Perform(article: FetchNewsArticle, keySample: Domain.FileKeySample, now: Instant,
                   getAnswer: Result<seq<Byte>, Error>, uploadAnswer: Result<(), Error>): (r: TaskRun)
    // no image: nothing is called
    ensures article.imageUrl.None? ==> r == TaskRun(Ok(false), [])
    // an image: exactly one download, of that URL, and it comes first
    ensures article.imageUrl.Some? ==>
      1 <= |r.calls| <= 2 && r.calls[0] == HttpGet(article.imageUrl.value) &&
      forall i :: 1 <= i < |r.calls| ==> r.calls[i].UploadFile?
    // a failed download is the task's error and nothing is uploaded
    ensures article.imageUrl.Some? && getAnswer.Err? ==>
      r.result == Err(getAnswer.error) && |r.calls| == 1
    // after a download, one upload of the downloaded bytes into the origin bucket
    ensures article.imageUrl.Some? && getAnswer.Ok? ==>
      |r.calls| == 2 &&
      var input := r.calls[1].input;
      && input.kind == Origin
      && input.sourceName == article.sourceName
      && input.bytes == getAnswer.value
      && (article.id.Some? ==> input.key == article.id.value + ImageExtension)
      && (article.id.None? ==> |input.key| == Domain.FileKeyLength + |ImageExtension|
                               && IsAlphanumericOfLength(input.key[..Domain.FileKeyLength], Domain.FileKeyLength)
                               && input.key[Domain.FileKeyLength..] == ImageExtension)
      && input.createdTime == (match article.publishedTime case Some(t) => t case None => now)
    // the upload's failure is the task's error
    ensures article.imageUrl.Some? && getAnswer.Ok? && uploadAnswer.Err? ==> r.result == Err(uploadAnswer.error)
    ensures r.result == Ok(true) <==> article.imageUrl.Some? && getAnswer.Ok? && uploadAnswer.Ok?
  {
    match article.imageUrl
    case None => TaskRun(Ok(false), [])
    case Some(url) =>
      var file := Domain.NewFileEntity(article.id, article.publishedTime, now, keySample);
      match getAnswer
      case Err(e) => TaskRun(Err(e), [HttpGet(url)])
      case Ok(bytes) =>
        var input := UploadFileInput(Origin, article.sourceName, ImageKey(file), bytes, file.createdTime);
        var calls := [HttpGet(url), UploadFile(input)];
        match uploadAnswer
        case Err(e) => TaskRun(Err(e), calls)
        case Ok(_) => TaskRun(Ok(true), calls)
  }

  /** Two articles with the same id store their images under the same key, whatever key sample each run drew. */
  lemma SameIdSameKey(a: FetchNewsArticle, b: FetchNewsArticle,
                      sampleA: Domain.FileKeySample, sampleB: Domain.FileKeySample, nowA: Instant, nowB: Instant,
                      bytesA: seq<Byte>, bytesB: seq<Byte>, uploadA: Result<(), Error>, uploadB: Result<(), Error>)
    requires a.imageUrl.Some? && b.imageUrl.Some? && a.id.Some? && a.id == b.id
    ensures Perform(a, sampleA, nowA, Ok(bytesA), uploadA).calls[1].input.key
         == Perform(b, sampleB, nowB, Ok(bytesB), uploadB).calls[1].input.key
  {
  }

  /** An article whose id is the empty string is stored under the bare extension: nothing checks the id. */
  lemma EmptyIdStoresBareExtension(article: FetchNewsArticle, sample: Domain.FileKeySample, now: Instant,
                                   bytes: seq<Byte>, upload: Result<(), Error>)
    requires article.imageUrl.Some? && article.id == Some("")
    ensures Perform(article, sample, now, Ok(bytes), upload).calls[1].input.key == ImageExtension
  {
  }
}
