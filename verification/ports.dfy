/** The records exchanged through the job's ports (news fetcher and file storage). */
module Ports {
  import opened Common

  /** An article as a news fetcher hands it to its handler. */
  datatype FetchNewsArticle = FetchNewsArticle(
    sourceName: string,              // code name of the provider
    id: Option<string>,              // provider-native id, unique within the provider
    link: Option<string>,
    title: Option<string>,
    shortText: Option<string>,
    longText: Option<string>,
    imageUrl: Option<string>,
    publishedTime: Option<Instant>)

  /** The buckets a file can be stored into. */
  datatype FileObjectKind = Origin

  /** One request to the file storage. */
  datatype UploadFileInput = UploadFileInput(
    kind: FileObjectKind,
    sourceName: string,
    key: string,
    bytes: seq<Byte>,
    createdTime: Instant)
}
