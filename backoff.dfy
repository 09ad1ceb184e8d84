/** The retry executor (`attemptWithBackoff`, src/index.ts): up to three
    calls of a fallible operation with a linear delay between them. The
    operation is given by the outcome of each successive call; the sleeps are
    returned as the list of delays, in milliseconds, in the order taken. */
module Backoff {
  import opened Text

  const Attempts: nat := 3
  const BaseDelay: nat := 500

  /** What one call of the operation does: resolve, or reject with an error
      whose string form (as a template literal prints it) is `err`. */
  datatype Outcome = Resolved | Rejected(err: string)

  /** The message of the error thrown once every attempt has failed. */
  function ExhaustedMessage(labelText: string, lastErr: string): string
  {
    "Failed after 3 attempts while " + labelText + ". Last error: " + lastErr
  }

  /** The delay slept after failed attempt `i` (counting from 0). */
  function DelayAfter(i: nat): nat
  {
    BaseDelay * (i + 1)
  }

  /** `attemptWithBackoff(fn, timeoutMs, label)`: `fn(i)` is the outcome of
      the `i`-th call. Returns right after the first call that resolves;
      otherwise sleeps after every failed call but the last and finally
      fails with a message that names the label and the last error. */
  method AttemptWithBackoff(fn: nat -> Outcome, labelText: string)
    returns (result: Result<(), string>, calls: nat, delays: seq<nat>)
    ensures 1 <= calls <= Attempts
    ensures forall i :: 0 <= i < calls - 1 ==> fn(i).Rejected?
    ensures result.Ok? <==> fn(calls - 1).Resolved?
    ensures result.Err? ==> calls == Attempts && result.error == ExhaustedMessage(labelText, fn(Attempts - 1).err)
    ensures |delays| == (if result.Ok? then calls - 1 else Attempts - 1)
    ensures forall j :: 0 <= j < |delays| ==> fn(j).Rejected? && delays[j] == DelayAfter(j)
    ensures delays <= [500, 1000]
  {
    var lastErr := "";
    calls, delays := 0, [];
    for i := 0 to Attempts
      invariant calls == i
      invariant forall j :: 0 <= j < i ==> fn(j).Rejected?
      invariant |delays| == (if i < Attempts then i else Attempts - 1)
      invariant forall j :: 0 <= j < |delays| ==> delays[j] == DelayAfter(j)
      invariant i > 0 ==> lastErr == fn(i - 1).err
    {
      calls := calls + 1;
      var outcome := fn(i);
      if outcome.Resolved? {
        result := Ok(());
        return;
      }
      lastErr := outcome.err;
      if i < Attempts - 1 {
        delays := delays + [DelayAfter(i)];
      }
    }
    result := Err(ExhaustedMessage(labelText, lastErr));
  }
}
