/**
 * The API's authentication case: look up the stored (hashed) secret of an API key and
 * check the presented secret against it.
 */
module Authenticate {
  import opened Common

  /** What a client presents. */
  datatype AuthenticateCaseInput = AuthenticateCaseInput(apiKey: string, apiSecret: string)

  /** The three verdicts of the case. */
  datatype AuthenticateCaseOutput = NotFound | IncorrectSecret | Success

  /** A call to a collaborator. */
  datatype Call =
    | SelectClientApiSecret(apiKey: string)
    | Verify(secret: string, hashedSecret: string)

  /** The case's result and the calls it made, in order. */
  datatype CaseRun = CaseRun(result: Result<AuthenticateCaseOutput, Error>, calls: seq<Call>)

  /**
   * `execute`. The repository lookup and the hashing algorithm's check are parameters;
   * either one failing is the case's error rather than a verdict.
   */
  function Execute(input: AuthenticateCaseInput,
                   selectSecret: string -> Result<Option<string>, Error>,
                   verify: (string, string) -> Result<bool, Error>): (r: CaseRun)
    // the repository is asked first, with exactly the presented key
    ensures 1 <= |r.calls| <= 2 && r.calls[0] == SelectClientApiSecret(input.apiKey)
    // a lookup error or an unknown key: no verification
    ensures selectSecret(input.apiKey).Err? ==> r == CaseRun(Err(selectSecret(input.apiKey).error), r.calls) && |r.calls| == 1
    ensures selectSecret(input.apiKey) == Ok(None) ==> r.result == Ok(NotFound) && |r.calls| == 1
    // a stored secret: exactly one verification of the presented secret against it
    ensures selectSecret(input.apiKey).Ok? && selectSecret(input.apiKey).value.Some? ==>
      var stored := selectSecret(input.apiKey).value.value;
      && r.calls == [SelectClientApiSecret(input.apiKey), Verify(input.apiSecret, stored)]
      && (verify(input.apiSecret, stored).Err? ==> r.result == Err(verify(input.apiSecret, stored).error))
    // the verdicts
    ensures r.result == Ok(NotFound) <==> selectSecret(input.apiKey) == Ok(None)
    ensures r.result == Ok(IncorrectSecret) <==>
      selectSecret(input.apiKey).Ok? && selectSecret(input.apiKey).value.Some? &&
      verify(input.apiSecret, selectSecret(input.apiKey).value.value) == Ok(false)
    ensures r.result == Ok(Success) <==>
      selectSecret(input.apiKey).Ok? && selectSecret(input.apiKey).value.Some? &&
      verify(input.apiSecret, selectSecret(input.apiKey).value.value) == Ok(true)
  {
    var select := SelectClientApiSecret(input.apiKey);
    match selectSecret(input.apiKey)
    case Err(e) => CaseRun(Err(e), [select])
    case Ok(None) => CaseRun(Ok(NotFound), [select])
    case Ok(Some(stored)) =>
      var calls := [select, Verify(input.apiSecret, stored)];
      match verify(input.apiSecret, stored)
      case Err(e) => CaseRun(Err(e), calls)
      case Ok(false) => CaseRun(Ok(IncorrectSecret), calls)
      case Ok(true) => CaseRun(Ok(Success), calls)
  }

  /**
   * The case's unit test: a repository holding the empty secret and a hashing algorithm
   * that accepts, asked with an empty key and secret, authenticate successfully, calling
   * each collaborator once.
   */
  lemma ConfirmSuccessfulAuthentication()
    ensures var r := Execute(AuthenticateCaseInput("", ""), _ => Ok(Some("")), (_, _) => Ok(true));
      r.result == Ok(Success) && r.calls == [SelectClientApiSecret(""), Verify("", "")]
  {
  }
}
