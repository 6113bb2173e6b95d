/**
 * The MinIO file storage: short-lived credentials obtained from the operator's security
 * token service, refreshed when they are about to expire, and a bucket check per upload.
 */
module Minio {
  import opened Common
  import opened Ports

  /** Credentials are refreshed this many seconds before they expire. */
  const ExpirationBufferSeconds: int := 60

  /** The access key, secret key and session token of a set of temporary credentials. */
  datatype Credentials = Credentials(accessKey: string, secretKey: string, sessionToken: Option<string>)

  /** An S3 client bound to an endpoint with a set of credentials. */
  datatype S3Client = S3Client(baseUrl: string, credentials: Credentials)

  /**
   * The storage: its configuration and its two mutable cells, the expiration of the
   * current credentials and the client built from them.
   */
  datatype MinioClient = MinioClient(
    tenantEndpoint: string,
    originBucketName: string,
    expiration: Option<Instant>,
    client: Option<S3Client>)

  /** The credential fields of a decoded token-service response. */
  datatype StsCredentials = StsCredentials(
    accessKeyId: string,
    secretAccessKey: string,
    expiration: string,
    sessionToken: string)

  /**
   * What the collaborators answer during one refresh: building the HTTP client for the
   * token service (which can fail only when a CA certificate is configured), the
   * token-service exchange (request, body and XML decoding together), the RFC 3339
   * parser, and building the storage client (endpoint URL parse and client
   * construction together).
   */
  datatype Refresh = Refresh(
    httpClient: Result<(), Error>,
    sts: Result<StsCredentials, Error>,
    parseRfc3339: string -> Option<Instant>,
    build: Result<(), Error>)

  /** Why a storage operation failed. */
  datatype MinioError =
    | HttpClientFailed(cause: Error)
    | StsFailed(cause: Error)
    | MalformedExpiration(text: string)
    | ClientBuildFailed(cause: Error)
    | NotInitialized
    | BucketCheckFailed(cause: Error)

  /** A request the storage sends out. */
  datatype Request =
    | AssumeRoleWithWebIdentity
    | BucketExists(client: S3Client, bucket: string)

  /** The result of an operation, the storage afterwards, and the requests sent. */
  datatype Step<+T> = Step(result: Result<T, MinioError>, state: MinioClient, requests: seq<Request>)

  /**
   * The credentials need refreshing: none were ever obtained, or they expire within the
   * buffer. The comparison is strict, so credentials expiring exactly one buffer from
   * now are still good.
   */
  function IsExpired(m: MinioClient, now: Instant): (r: bool)
    ensures m.expiration.None? ==> r
    ensures m.expiration.Some? && now <= m.expiration.value - ExpirationBufferSeconds ==> !r
    ensures m.expiration.Some? && now > m.expiration.value - ExpirationBufferSeconds ==> r
  {
    match m.expiration
    case None => true
    case Some(expiration) => expiration - ExpirationBufferSeconds < now
  }

  /** Once expired, the credentials stay expired as the clock advances. */
  lemma ExpiryIsMonotone(m: MinioClient, now: Instant, later: Instant)
    requires IsExpired(m, now) && now <= later
    ensures IsExpired(m, later)
  {
  }

  /** The boundary: exactly one buffer before expiry is still fresh, one second later is not. */
  lemma ExpiryBoundary(m: MinioClient, expiration: Instant)
    requires m.expiration == Some(expiration)
    ensures !IsExpired(m, expiration - ExpirationBufferSeconds)
    ensures IsExpired(m, expiration - ExpirationBufferSeconds + 1)
  {
  }

  /**
   * `assume_role`: asks the token service for credentials. Nothing is sent when the HTTP
   * client cannot be built. The expiration is recorded only once the response decoded and
   * its expiration parsed; the client is untouched.
   */
  function AssumeRole(m: MinioClient, refresh: Refresh): (r: Step<Credentials>)
    ensures refresh.httpClient.Err? ==> r == Step(Err(HttpClientFailed(refresh.httpClient.error)), m, [])
    ensures refresh.httpClient.Ok? ==> r.requests == [AssumeRoleWithWebIdentity]
    ensures r.result.Ok? <==>
      refresh.httpClient.Ok? && refresh.sts.Ok? && refresh.parseRfc3339(refresh.sts.value.expiration).Some?
    ensures r.result.Ok? ==>
      r.state == m.(expiration := refresh.parseRfc3339(refresh.sts.value.expiration)) &&
      r.result.value == Credentials(refresh.sts.value.accessKeyId, refresh.sts.value.secretAccessKey,
                                    Some(refresh.sts.value.sessionToken))
    ensures r.result.Err? ==> r.state == m
    ensures refresh.httpClient.Ok? && refresh.sts.Err? ==> r.result == Err(StsFailed(refresh.sts.error))
  {
    if refresh.httpClient.Err? then Step(Err(HttpClientFailed(refresh.httpClient.error)), m, [])
    else
    match refresh.sts
    case Err(e) => Step(Err(StsFailed(e)), m, [AssumeRoleWithWebIdentity])
    case Ok(creds) =>
      match refresh.parseRfc3339(creds.expiration)
      case None => Step(Err(MalformedExpiration(creds.expiration)), m, [AssumeRoleWithWebIdentity])
      case Some(expiration) =>
        Step(Ok(Credentials(creds.accessKeyId, creds.secretAccessKey, Some(creds.sessionToken))),
             m.(expiration := Some(expiration)), [AssumeRoleWithWebIdentity])
  }

  /**
   * `reload`: refreshes the credentials and rebuilds the client when they have expired.
   * The second expiry check the source makes after taking the client lock sees the same
   * answer when nothing runs concurrently (see `ExpiryIsMonotone`), so one clock reading is used.
   */
  function Reload(m: MinioClient, now: Instant, refresh: Refresh): (r: Step<()>)
    ensures !IsExpired(m, now) ==> r == Step(Ok(()), m, [])
    ensures IsExpired(m, now) ==> r.requests == AssumeRole(m, refresh).requests
    ensures r.state.tenantEndpoint == m.tenantEndpoint && r.state.originBucketName == m.originBucketName
    ensures IsExpired(m, now) && AssumeRole(m, refresh).result.Err? ==>
      r.result == Err(AssumeRole(m, refresh).result.error) && r.state == m
    ensures IsExpired(m, now) && AssumeRole(m, refresh).result.Ok? ==>
      r.state.expiration == AssumeRole(m, refresh).state.expiration &&
      (r.result.Ok? <==> refresh.build.Ok?) &&
      (refresh.build.Ok? ==> r.state.client == Some(S3Client(m.tenantEndpoint, AssumeRole(m, refresh).result.value))) &&
      (refresh.build.Err? ==> r.state.client == m.client && r.result == Err(ClientBuildFailed(refresh.build.error)))
  {
    if !IsExpired(m, now) then Step(Ok(()), m, [])
    else
      var assumed := AssumeRole(m, refresh);
      match assumed.result
      case Err(e) => Step(Err(e), assumed.state, assumed.requests)
      case Ok(credentials) =>
        match refresh.build
        case Err(e) => Step(Err(ClientBuildFailed(e)), assumed.state, assumed.requests)
        case Ok(_) =>
          Step(Ok(()), assumed.state.(client := Some(S3Client(m.tenantEndpoint, credentials))), assumed.requests)
  }

  /** The bucket a kind of file goes to. */
  function BucketName(m: MinioClient, kind: FileObjectKind): (r: string)
    ensures r == m.originBucketName
  {
    match kind case Origin => m.originBucketName
  }

  /**
   * `upload_file`: reloads, then checks that the target bucket exists with the current
   * client. The check's answer (exists or not) is discarded and no object is written.
   */
  function UploadFile(m: MinioClient, input: UploadFileInput, now: Instant, refresh: Refresh,
                      bucketAnswer: Result<bool, Error>): (r: Step<()>)
    // a failed reload is the upload's error, and no bucket is asked about
    ensures Reload(m, now, refresh).result.Err? ==>
      r == Reload(m, now, refresh).(result := Err(Reload(m, now, refresh).result.error))
    // reloaded but no client: not initialized, and no bucket is asked about
    ensures Reload(m, now, refresh).result.Ok? && Reload(m, now, refresh).state.client.None? ==>
      r.result == Err(NotInitialized) && r.requests == Reload(m, now, refresh).requests
    // otherwise exactly one bucket check on the origin bucket with the current client
    ensures Reload(m, now, refresh).result.Ok? && Reload(m, now, refresh).state.client.Some? ==>
      r.requests == Reload(m, now, refresh).requests +
                    [BucketExists(Reload(m, now, refresh).state.client.value, m.originBucketName)] &&
      (r.result.Ok? <==> bucketAnswer.Ok?)
    ensures r.state == Reload(m, now, refresh).state
  {
    var reloaded := Reload(m, now, refresh);
    match reloaded.result
    case Err(e) => Step(Err(e), reloaded.state, reloaded.requests)
    case Ok(_) =>
      match reloaded.state.client
      case None => Step(Err(NotInitialized), reloaded.state, reloaded.requests)
      case Some(client) =>
        var bucket := BucketName(reloaded.state, input.kind);
        var requests := reloaded.requests + [BucketExists(client, bucket)];
        match bucketAnswer
        case Err(e) => Step(Err(BucketCheckFailed(e)), reloaded.state, requests)
        case Ok(_) => Step(Ok(()), reloaded.state, requests)
  }

  /**
   * The half-refreshed state. A first refresh whose token exchange succeeds but whose
   * client cannot be built records the new expiration and leaves no client. Until that
   * expiration comes within the buffer, reloads succeed without doing anything and every
   * upload fails as not initialized, without asking about any bucket.
   */
  lemma MissingClientOutlivesFailedBuild(m: MinioClient, now: Instant, refresh: Refresh,
                                         later: Instant, laterRefresh: Refresh,
                                         input: UploadFileInput, bucketAnswer: Result<bool, Error>)
    requires m.client.None? && IsExpired(m, now)
    requires refresh.httpClient.Ok? && refresh.sts.Ok? && refresh.parseRfc3339(refresh.sts.value.expiration).Some?
    requires refresh.build.Err?
    requires later <= refresh.parseRfc3339(refresh.sts.value.expiration).value - ExpirationBufferSeconds
    ensures var after := Reload(m, now, refresh);
      && after.result.Err?
      && after.state.expiration == refresh.parseRfc3339(refresh.sts.value.expiration)
      && after.state.client.None?
      && Reload(after.state, later, laterRefresh) == Step(Ok(()), after.state, [])
      && UploadFile(after.state, input, later, laterRefresh, bucketAnswer) == Step(Err(NotInitialized), after.state, [])
  {
    var after := Reload(m, now, refresh);
    assert !IsExpired(after.state, later);
  }

  /**
   * The same failure after an earlier success: the old client survives the failed
   * rebuild and, until the new expiration comes within the buffer, uploads keep using it.
   */
  lemma StaleClientOutlivesFailedBuild(m: MinioClient, now: Instant, refresh: Refresh,
                                       later: Instant, laterRefresh: Refresh,
                                       input: UploadFileInput, bucketAnswer: Result<bool, Error>)
    requires m.client.Some? && IsExpired(m, now)
    requires refresh.httpClient.Ok? && refresh.sts.Ok? && refresh.parseRfc3339(refresh.sts.value.expiration).Some?
    requires refresh.build.Err?
    requires later <= refresh.parseRfc3339(refresh.sts.value.expiration).value - ExpirationBufferSeconds
    ensures var after := Reload(m, now, refresh);
      && after.state.client == m.client
      && UploadFile(after.state, input, later, laterRefresh, bucketAnswer).requests
         == [BucketExists(m.client.value, m.originBucketName)]
  {
    var after := Reload(m, now, refresh);
    assert !IsExpired(after.state, later);
  }

  /** A successful refresh leaves fresh credentials: an immediate upload goes straight to the bucket check. */
  lemma RefreshedClientIsUsed(m: MinioClient, now: Instant, refresh: Refresh, laterRefresh: Refresh,
                              input: UploadFileInput, bucketAnswer: Result<bool, Error>)
    requires IsExpired(m, now)
    requires refresh.httpClient.Ok? && refresh.sts.Ok? && refresh.parseRfc3339(refresh.sts.value.expiration).Some?
    requires refresh.build.Ok?
    requires now <= refresh.parseRfc3339(refresh.sts.value.expiration).value - ExpirationBufferSeconds
    ensures var after := Reload(m, now, refresh);
      && after.result.Ok?
      && after.state.client.Some?
      && UploadFile(after.state, input, now, laterRefresh, bucketAnswer).requests
         == [BucketExists(after.state.client.value, m.originBucketName)]
  {
    var after := Reload(m, now, refresh);
    assert !IsExpired(after.state, now);
  }
}
