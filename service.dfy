/** Status records of the background services, and the outcome of a
    re-encoding run, whose counts are checked. */
module Service {
  import opened Wrappers

  /** No checks. */
  datatype ServiceStatus = ServiceStatus(serviceName: string, isRunning: bool, healthStatus: string, errorMessage: Option<string>)

  /** No checks. */
  datatype IndexingStatus = IndexingStatus(
    totalDocuments: int, processedDocuments: int, failedDocuments: int, isComplete: bool, currentFile: Option<string>)

  datatype ReEncodingResult = ReEncodingResult(
    totalDocuments: int,
    reEncodedDocuments: int,
    failedDocuments: int,
    oldModel: string,
    newModel: string,
    isComplete: bool,
    estimatedTimeRemaining: Option<int>)

  datatype ReEncodingError = NegativeCount | CountsExceedTotal

  /** `ReEncodingResult(...)` with its `__post_init__`: counts first, then their sum. */
  function NewReEncodingResult(r: ReEncodingResult): (res: Result<ReEncodingResult, ReEncodingError>)
    ensures res.Success? <==> && r.totalDocuments >= 0 && r.reEncodedDocuments >= 0 && r.failedDocuments >= 0
                              && r.reEncodedDocuments + r.failedDocuments <= r.totalDocuments
    ensures res.Success? ==> res.value == r
    ensures (r.totalDocuments < 0 || r.reEncodedDocuments < 0 || r.failedDocuments < 0) ==> res == Failure(NegativeCount)
    ensures res == Failure(CountsExceedTotal) ==> r.reEncodedDocuments + r.failedDocuments > r.totalDocuments
  {
    if r.totalDocuments < 0 || r.reEncodedDocuments < 0 || r.failedDocuments < 0 then Failure(NegativeCount)
    else if r.reEncodedDocuments + r.failedDocuments > r.totalDocuments then Failure(CountsExceedTotal)
    else Success(r)
  }

  /** An accepted result never has more processed documents than the total, and neither count
      alone exceeds it. */
  lemma AcceptedCountsBounded(r: ReEncodingResult)
    requires NewReEncodingResult(r).Success?
    ensures 0 <= r.reEncodedDocuments <= r.totalDocuments && 0 <= r.failedDocuments <= r.totalDocuments
  {
  }

  /** 7 re-encoded and 3 failed of 10 is accepted; 4 and 3 of 5 is refused. */
  lemma SampleResults()
    ensures NewReEncodingResult(ReEncodingResult(10, 7, 3, "all-MiniLM-L6-v1", "all-MiniLM-L6-v2", true, None)).Success?
    ensures NewReEncodingResult(ReEncodingResult(5, 4, 3, "a", "b", false, None)) == Failure(CountsExceedTotal)
  {
  }
}
