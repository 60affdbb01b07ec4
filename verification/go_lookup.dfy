/**
  The retry logic of Go's `getProductInfoUsingChromeDp`. One attempt is one whole
  browser run; what a run does with the site is outside the model, so the outcome of
  attempt number `retryCount` for an item is given by an oracle `run(itemName, retryCount)`.
  A failed attempt is retried after `(retryCount + 1) * 5` seconds while
  `retryCount < maxRetries`; the waits are returned instead of slept.
*/
module GoLookup {

  import opened GoExtract
  import opened Retry

  /** The outcome of one `chromedp.Run`: its error, or the values it collected. */
  datatype RunOutcome = RunFailed(err: string) | RunSucceeded(collected: Collected)

  type Oracle = (string, nat) -> RunOutcome

  /** `fmt.Sprintf("ChromeDP error: %v", err)`. */
  function RunError(err: string): string {
    "ChromeDP error: " + err
  }

  /**
    The retry count of the attempt whose result is returned: the first one that
    succeeds, or the last one allowed. Every attempt before it failed.
  */
  function FinalAttempt(itemName: string, run: Oracle, from: nat): (r: nat)
    requires from <= MaxRetries
    ensures from <= r <= MaxRetries
    ensures forall j :: from <= j < r ==> run(itemName, j).RunFailed?
    ensures r < MaxRetries ==> run(itemName, r).RunSucceeded?
    decreases MaxRetries - from
  {
    if from == MaxRetries || run(itemName, from).RunSucceeded? then from
    else FinalAttempt(itemName, run, from + 1)
  }

  /** What a lookup returns: the record of the final attempt, or a record holding only its error. */
  function LookupResult(itemName: string, run: Oracle): ProductInfo {
    match run(itemName, FinalAttempt(itemName, run, 0))
    case RunSucceeded(c) => CollectedInfo(c)
    case RunFailed(err) => Zero.(Error := RunError(err))
  }

  /** A lookup as a function of the item name. */
  type Lookup = string -> ProductInfo

  /** The lookup that `run` determines. */
  function Lookups(run: Oracle): Lookup {
    name => LookupResult(name, run)
  }

  /**
    `getProductInfoUsingChromeDp(itemName, 0)`, its recursion on `retryCount` written
    as a bounded loop. Returns the record, the number of browser runs started and the
    waits before each retry.
  */
  method GetProductInfo(itemName: string, run: Oracle) returns (info: ProductInfo, attempts: nat, waits: seq<nat>)
    ensures info == LookupResult(itemName, run)
    ensures attempts == FinalAttempt(itemName, run, 0) + 1 <= MaxRetries + 1
    ensures waits == Delays(attempts - 1)
  {
    var retryCount: nat := 0;
    var outcome := run(itemName, retryCount);
    waits := [];
    while outcome.RunFailed? && retryCount < MaxRetries
      invariant retryCount <= MaxRetries
      invariant outcome == run(itemName, retryCount)
      invariant FinalAttempt(itemName, run, 0) == FinalAttempt(itemName, run, retryCount)
      invariant waits == Delays(retryCount)
      decreases MaxRetries - retryCount
    {
      waits := waits + [RetryDelay(retryCount)];
      retryCount := retryCount + 1;
      outcome := run(itemName, retryCount);
    }
    attempts := retryCount + 1;
    if outcome.RunFailed? {
      info := Zero.(Error := RunError(outcome.err));
    } else {
      info := FromCollected(outcome.collected);
    }
  }

  /**
    A lookup that fails every time: exactly `maxRetries + 1` attempts, waits of 5, 10
    and 15 seconds, and a record whose only non-empty field is Error, the last error.
  */
  lemma AlwaysFailing(itemName: string, run: Oracle)
    requires forall j :: 0 <= j <= MaxRetries ==> run(itemName, j).RunFailed?
    ensures FinalAttempt(itemName, run, 0) + 1 == 4
    ensures Delays(FinalAttempt(itemName, run, 0)) == [5, 10, 15]
    ensures LookupResult(itemName, run) == Zero.(Error := RunError(run(itemName, 3).err))
  {
    var r := FinalAttempt(itemName, run, 0);
    assert r == 3;
    assert Delays(3) == [5, 10, 15];
  }

  /** A lookup whose first attempt succeeds never waits and carries no error. */
  lemma FirstAttemptSucceeds(itemName: string, run: Oracle)
    requires run(itemName, 0).RunSucceeded?
    ensures FinalAttempt(itemName, run, 0) == 0
    ensures LookupResult(itemName, run) == CollectedInfo(run(itemName, 0).collected)
    ensures LookupResult(itemName, run).Error == ""
  {
    CollectedInfoFields(run(itemName, 0).collected);
  }
}
