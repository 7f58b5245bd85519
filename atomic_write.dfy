/**
 * The retry policy of `atomic_write` (httpcachefs/smart_parquet/utils.py).
 * Each attempt creates the parent directory, removes a stale temporary
 * file, writes the temporary file and renames it over the target; these
 * file-system steps are not modelled. Their combined result for attempt
 * `k` is the input `outcome(k)`, and the delays slept between attempts are
 * returned in whole milliseconds.
 */
module AtomicWrite {
  import opened Options

  /** How one attempt ends: it completes, raises an `OSError` (whose `str` is `message`), or raises another `Exception`. */
  datatype Outcome =
    | Ok
    | OsErr(message: string)
    | OtherErr(message: string)

  /** How `atomic_write` ends: it returns, re-raises the last error, or raises `RuntimeError`. */
  datatype Ending =
    | Written
    | Raised(error: Outcome)
    | RuntimeFailure

  /** `p` occurs in `s` at position `i`. */
  predicate OccursAt(s: string, p: string, i: nat)
  {
    i + |p| <= |s| && s[i..i + |p|] == p
  }

  /** An occurrence in `s` past its first character is an occurrence in `s[1..]`, and back. */
  lemma OccursInTail(s: string, p: string)
    requires |s| >= 1
    ensures forall i: nat :: OccursAt(s[1..], p, i) ==> OccursAt(s, p, i + 1)
    ensures forall i: nat :: OccursAt(s, p, i) ==> i == 0 || OccursAt(s[1..], p, i - 1)
  {
    forall i: nat | OccursAt(s[1..], p, i) ensures OccursAt(s, p, i + 1) {
      assert s[1..][i..i + |p|] == s[i + 1..i + 1 + |p|];
    }
    forall i: nat | OccursAt(s, p, i) && i > 0 ensures OccursAt(s[1..], p, i - 1) {
      assert s[1..][i - 1..i - 1 + |p|] == s[i..i + |p|];
    }
  }

  /** Python's `p in s` for strings. */
  function Contains(s: string, p: string): (b: bool)
    ensures b <==> exists i: nat :: OccursAt(s, p, i)
    decreases |s|
  {
    if |p| > |s| then false
    else if s[..|p|] == p then
      assert OccursAt(s, p, 0);
      true
    else
      OccursInTail(s, p);
      Contains(s[1..], p)
  }

  const BusyMessage: string := "being used by another process"
  const DeniedMessage: string := "Permission denied"

  /** A Windows file-locking failure: an `OSError` whose message mentions a busy file or a denied permission. */
  function IsLockError(o: Outcome): (r: bool)
    ensures r <==> (o.OsErr? &&
      exists i: nat :: OccursAt(o.message, BusyMessage, i) || OccursAt(o.message, DeniedMessage, i))
  {
    o.OsErr? && (Contains(o.message, BusyMessage) || Contains(o.message, DeniedMessage))
  }

  function Pow2(k: nat): nat
  {
    if k == 0 then 1 else 2 * Pow2(k - 1)
  }

  /** The sleep before the attempt that follows attempt `k` (counted from 0): 2^k x 10 ms. */
  function BackoffMs(k: nat): nat
  {
    Pow2(k) * 10
  }

  /** The default `max_retries`. */
  const DefaultMaxRetries: int := 3

  /**
   * What a run of `atomic_write` with `maxRetries` and the given attempt
   * outcomes looks like: `attempts` attempts were made, no more than
   * `maxRetries`; every attempt but the last failed with a lock error while
   * another attempt was still allowed; the run stopped early only on success
   * or on an error that is not retried; one backoff was slept before each
   * retry; and the ending reflects the last attempt.
   */
  ghost predicate IsRun(outcome: nat -> Outcome, maxRetries: int, ending: Ending, attempts: nat, waits: seq<nat>)
  {
    (maxRetries <= 0 ==> attempts == 0 && ending == RuntimeFailure) &&
    (maxRetries > 0 ==> 1 <= attempts <= maxRetries) &&
    (forall k: nat :: k + 1 < attempts ==> IsLockError(outcome(k))) &&
    (attempts > 0 && attempts < maxRetries ==> !IsLockError(outcome(attempts - 1))) &&
    |waits| == (if attempts == 0 then 0 else attempts - 1) &&
    (forall k :: 0 <= k < |waits| ==> waits[k] == BackoffMs(k)) &&
    (attempts > 0 && outcome(attempts - 1).Ok? ==> ending == Written) &&
    (attempts > 0 && !outcome(attempts - 1).Ok? ==> ending == Raised(outcome(attempts - 1)))
  }

  /**
   * `atomic_write(path, content, max_retries)`: its attempts, its sleeps and
   * how it ends.
   */
  method Write(outcome: nat -> Outcome, maxRetries: int) returns (ending: Ending, attempts: nat, waits: seq<nat>)
    ensures IsRun(outcome, maxRetries, ending, attempts, waits)
  {
    var lastError: Option<Outcome> := None;
    attempts, waits := 0, [];
    var n: nat := if maxRetries < 0 then 0 else maxRetries;
    for attempt := 0 to n
      invariant attempts == attempt
      invariant 0 < attempt ==> attempt < n
      invariant attempt > 0 ==> lastError == Some(outcome(attempt - 1))
      invariant attempt == 0 ==> lastError == None
      invariant forall k: nat :: k < attempt ==> IsLockError(outcome(k))
      invariant |waits| == attempt
      invariant forall k :: 0 <= k < |waits| ==> waits[k] == BackoffMs(k)
    {
      attempts := attempts + 1;
      var o := outcome(attempt);
      if o.Ok? {
        ending := Written;
        return;
      }
      lastError := Some(o);
      if o.OsErr? {
        var isLockError := Contains(o.message, BusyMessage) || Contains(o.message, DeniedMessage);
        if isLockError && attempt < maxRetries - 1 {
          waits := waits + [BackoffMs(attempt)];
          continue;
        } else {
          break;
        }
      } else {
        break;
      }
    }
    ending := if lastError.Some? then Raised(lastError.value) else RuntimeFailure;
  }

  /** `IsRun` leaves no freedom: the outcomes and `maxRetries` fix the whole run. */
  lemma RunIsDetermined(outcome: nat -> Outcome, maxRetries: int,
                        e1: Ending, a1: nat, w1: seq<nat>, e2: Ending, a2: nat, w2: seq<nat>)
    requires IsRun(outcome, maxRetries, e1, a1, w1)
    requires IsRun(outcome, maxRetries, e2, a2, w2)
    ensures e1 == e2 && a1 == a2 && w1 == w2
  {
  }

  function Sum(xs: seq<nat>): nat
  {
    if xs == [] then 0 else Sum(xs[..|xs| - 1]) + xs[|xs| - 1]
  }

  /** The backoffs of a run add up to (2^r - 1) x 10 ms for r retries. */
  lemma {:induction false} TotalBackoff(waits: seq<nat>)
    requires forall k :: 0 <= k < |waits| ==> waits[k] == BackoffMs(k)
    ensures Sum(waits) == (Pow2(|waits|) - 1) * 10
  {
    if waits != [] {
      var init := waits[..|waits| - 1];
      assert forall k :: 0 <= k < |init| ==> init[k] == waits[k];
      TotalBackoff(init);
    }
  }

  /** With the default of three attempts a write sleeps 10 ms and then 20 ms at most, 30 ms in all. */
  lemma DefaultBackoffs(outcome: nat -> Outcome, ending: Ending, attempts: nat, waits: seq<nat>)
    requires IsRun(outcome, DefaultMaxRetries, ending, attempts, waits)
    ensures waits == [] || waits == [10] || waits == [10, 20]
    ensures Sum(waits) <= 30
  {
    TotalBackoff(waits);
    assert Pow2(1) == 2 && Pow2(2) == 4;
  }

  /** Every attempt hits a lock: all `maxRetries` attempts run and the last error is raised. */
  lemma PersistentLockExhaustsRetries(outcome: nat -> Outcome, maxRetries: int,
                                      ending: Ending, attempts: nat, waits: seq<nat>)
    requires IsRun(outcome, maxRetries, ending, attempts, waits)
    requires maxRetries > 0
    requires forall k: nat :: IsLockError(outcome(k))
    ensures attempts == maxRetries && |waits| == maxRetries - 1
    ensures ending == Raised(outcome(maxRetries - 1))
  {
  }

  /** A client: one lock conflict, then success. */
  method ExampleRetryThenSucceed()
  {
    var message := "[Errno 13] " + DeniedMessage + ": 'a.tmp'";
    var outcome := (k: nat) => if k == 0 then OsErr(message) else Ok;
    assert Contains(message, DeniedMessage) by {
      assert message[11..28] == DeniedMessage;
      assert OccursAt(message, DeniedMessage, 11);
    }
    var ending, attempts, waits := Write(outcome, DefaultMaxRetries);
    assert IsLockError(outcome(0)) && !IsLockError(outcome(1));
    assert BackoffMs(0) == 10;
    assert attempts == 2 && ending == Written && waits == [10];
  }

  /** A client: an error that is not a lock conflict is raised after one attempt. */
  method ExampleOtherErrorNotRetried()
  {
    var outcome := (k: nat) => OtherErr("disk full");
    var ending, attempts, waits := Write(outcome, DefaultMaxRetries);
    assert !IsLockError(outcome(0));
    assert attempts == 1 && ending == Raised(OtherErr("disk full")) && waits == [];
  }

  /** A client: no attempts allowed. */
  method ExampleNoAttempts()
  {
    var ending, attempts, waits := Write((k: nat) => Ok, 0);
    assert attempts == 0 && ending == RuntimeFailure;
  }
}
