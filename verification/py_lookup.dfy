/**
  The retry logic of Python's `get_product_info_using_selenium`. One attempt is one
  browser session; what the session does on the site is outside the model, so the
  outcome of attempt number `retryCount` for an item is given by an oracle
  `run(itemName, retryCount)`. Only an exception escaping the session as a whole is
  retried; a failure to find or open the first search result is final.
*/
module PyLookup {

  import opened Wrappers
  import opened Retry
  import opened PyExtract

  /**
    The outcome of one attempt: an exception outside the first-result block (driver
    start-up, the search box, the search button), an exception inside it before the
    product page is read, or the product page reached.
  */
  datatype Attempt = SessionFailed(msg: string) | ResultFailed(msg: string) | Opened(page: Page)

  type Oracle = (string, nat) -> Attempt

  /** What the lookup returns: the extracted dict, or a dict holding only "error". */
  datatype Reply = Product(info: Info) | ErrorOnly(error: string)

  /** `f"Selenium error: {str(e)}"`. */
  function SessionError(msg: string): string {
    "Selenium error: " + msg
  }

  /** `f"Failed to find product results: {str(e)}"`. */
  function ResultError(msg: string): string {
    "Failed to find product results: " + msg
  }

  /**
    The retry count of the attempt whose result is returned: the first one that does not
    fail as a session, or the last one allowed. Every attempt before it failed as a session.
  */
  function FinalAttempt(itemName: string, run: Oracle, from: nat): (r: nat)
    requires from <= MaxRetries
    ensures from <= r <= MaxRetries
    ensures forall j :: from <= j < r ==> run(itemName, j).SessionFailed?
    ensures r < MaxRetries ==> !run(itemName, r).SessionFailed?
    decreases MaxRetries - from
  {
    if from == MaxRetries || !run(itemName, from).SessionFailed? then from
    else FinalAttempt(itemName, run, from + 1)
  }

  /** The dict one attempt leaves behind. An extraction that raises lands in the first-result handler. */
  function AttemptReply(a: Attempt): Reply {
    match a
    case SessionFailed(msg) => ErrorOnly(SessionError(msg))
    case ResultFailed(msg) => ErrorOnly(ResultError(msg))
    case Opened(page) =>
      match Extract(page)
      case Success(info) => Product(info)
      case Failure(msg) => ErrorOnly(ResultError(msg))
  }

  /** What `get_product_info_using_selenium(itemName)` returns. */
  function LookupReply(itemName: string, run: Oracle): Reply {
    AttemptReply(run(itemName, FinalAttempt(itemName, run, 0)))
  }

  /** A lookup as a function of the item name. */
  type Lookup = string -> Reply

  /** The lookup that `run` determines. */
  function Lookups(run: Oracle): Lookup {
    name => LookupReply(name, run)
  }

  /**
    `get_product_info_using_selenium(itemName)`, its recursion on `retry_count` written
    as a bounded loop. Returns the dict, the number of sessions started and the waits
    before each retry.
  */
  method GetProductInfo(itemName: string, run: Oracle) returns (reply: Reply, attempts: nat, waits: seq<nat>)
    ensures reply == LookupReply(itemName, run)
    ensures attempts == FinalAttempt(itemName, run, 0) + 1 <= MaxRetries + 1
    ensures waits == Delays(attempts - 1)
  {
    var retryCount: nat := 0;
    var outcome := run(itemName, retryCount);
    waits := [];
    while outcome.SessionFailed? && retryCount < MaxRetries
      invariant retryCount <= MaxRetries
      invariant outcome == run(itemName, retryCount)
      invariant FinalAttempt(itemName, run, 0) == FinalAttempt(itemName, run, retryCount)
      invariant waits == Delays(retryCount)
      decreases MaxRetries - retryCount
    {
      waits := waits + [RetryDelay(retryCount)];
      retryCount := retryCount + 1;
      outcome := run(itemName, retryCount);
    }
    attempts := retryCount + 1;
    match outcome {
      case SessionFailed(msg) =>
        reply := ErrorOnly(SessionError(msg));
      case ResultFailed(msg) =>
        reply := ErrorOnly(ResultError(msg));
      case Opened(page) =>
        var extracted := ExtractProductDetails(page);
        if extracted.Success? {
          reply := Product(extracted.value);
        } else {
          reply := ErrorOnly(ResultError(extracted.error));
        }
    }
  }

  /**
    A lookup whose every session fails: exactly `max_retries + 1` sessions, waits of 5,
    10 and 15 seconds, and a dict holding only the last session's error.
  */
  lemma AlwaysSessionFailing(itemName: string, run: Oracle)
    requires forall j :: 0 <= j <= MaxRetries ==> run(itemName, j).SessionFailed?
    ensures FinalAttempt(itemName, run, 0) + 1 == 4
    ensures Delays(FinalAttempt(itemName, run, 0)) == [5, 10, 15]
    ensures LookupReply(itemName, run) == ErrorOnly(SessionError(run(itemName, 3).msg))
  {
    var r := FinalAttempt(itemName, run, 0);
    assert r == 3;
    assert Delays(3) == [5, 10, 15];
  }

  /**
    A first attempt that reaches the search results but cannot open the first one is
    not retried: one session, no wait, a dict holding only the results error.
  */
  lemma ResultFailureNotRetried(itemName: string, run: Oracle)
    requires run(itemName, 0).ResultFailed?
    ensures FinalAttempt(itemName, run, 0) == 0
    ensures LookupReply(itemName, run) == ErrorOnly(ResultError(run(itemName, 0).msg))
  {
  }

  /**
    The dict is a product exactly when the final attempt opened a page whose extraction
    succeeds, and that product is the extraction's result.
  */
  lemma ProductExactlyWhenExtracted(itemName: string, run: Oracle)
    ensures var a := run(itemName, FinalAttempt(itemName, run, 0));
            LookupReply(itemName, run).Product? <==> a.Opened? && Extract(a.page).Success?
    ensures var a := run(itemName, FinalAttempt(itemName, run, 0));
            LookupReply(itemName, run).Product? ==> LookupReply(itemName, run).info == Extract(a.page).value
  {
  }

  /** A product page with no price at all: no retry, and the IndexError's text as a results error. */
  lemma MissingPriceIsResultError(itemName: string, run: Oracle)
    requires run(itemName, 0).Opened?
    requires run(itemName, 0).page.offscreenPrice.None? && run(itemName, 0).page.priceWhole == []
    ensures LookupReply(itemName, run) == ErrorOnly(ResultError("list index out of range"))
  {
  }
}
