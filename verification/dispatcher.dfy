/** `Notifier.notify`: delivery of one notification to the D-Bus notification service,
    retrying while the service is unknown and sleeping for a growing back-off between
    tries. The D-Bus calls are replaced by a supplied sequence of their outcomes and
    every `time.sleep` by an emitted delay. */
module Dispatcher {

  /** `BACK_OFF`: the back-off of a fresh notifier and after every sent notification. */
  const InitialBackOff: real := 0.0
  /** `BACK_OFF_PROGRESSION`. */
  const Progression: real := 1.5
  /** `BACK_OFF_CUTOFF`, in seconds. */
  const Cutoff: real := 300.0
  /** The text whose presence in a D-Bus error marks the service as unknown. */
  const ServiceUnknownMarker: string := "ServiceUnknown"

  /** What one try produced: the `Notify` call returned, or it raised a D-Bus error with
      the given text; after a "service unknown" error `reconnects` says whether the
      reconnection that follows succeeded (it raises a D-Bus error otherwise). */
  datatype CallOutcome = Accepted | Rejected(error: string, reconnects: bool)

  /** How a delivery ended: sent; dropped after a D-Bus error; still retrying when the
      supplied outcomes ran out; or skipped in test mode. */
  datatype Verdict = Sent | Dropped | Pending | Skipped

  /** The dispatcher state kept by a notifier: its test-mode flag and its back-off. */
  datatype State = State(test: bool, backOff: real)

  /** The result of one `notify`: the verdict, the sleeps in order, the state after,
      and how many outcomes (D-Bus calls) it used. */
  datatype Delivery = Delivery(verdict: Verdict, sleeps: seq<real>, after: State, consumed: nat)

  /** `part in text` on strings. */
  predicate Contains(text: string, part: string) {
    exists i :: 0 <= i <= |text| && part <= text[i..]
  }

  predicate IsServiceUnknown(error: string) {
    Contains(error, ServiceUnknownMarker)
  }

  /** An outcome after which `notify` sleeps, reconnects and tries again. */
  predicate IsRetry(o: CallOutcome) {
    o.Rejected? && IsServiceUnknown(o.error) && o.reconnects
  }

  function Min(a: real, b: real): real {
    if a <= b then a else b
  }

  /** The back-off values a notifier can hold: zero, or between one second and the cutoff. */
  predicate ValidBackOff(b: real) {
    b == 0.0 || 1.0 <= b <= Cutoff
  }

  /** The back-off after one more "service unknown" failure. */
  function NextBackOff(b: real): (n: real)
    ensures n <= Cutoff
    ensures ValidBackOff(b) ==> ValidBackOff(n) && n >= 1.0 && b <= n
    ensures ValidBackOff(b) && b < Cutoff ==> b < n
  {
    if b == 0.0 then 1.0 else Min(b * Progression, Cutoff)
  }

  /** The back-off after `k` failures in a row, starting from `b`. */
  function Grown(b: real, k: nat): real
    decreases k
  {
    if k == 0 then b else Grown(NextBackOff(b), k - 1)
  }

  /** The `n` sleeps of `n` failures in a row, starting from back-off `b`: each failure
      sleeps for the back-off it found. */
  function Sleeps(b: real, n: nat): (s: seq<real>)
    ensures |s| == n
    ensures forall i :: 0 <= i < n ==> s[i] == Grown(b, i)
    decreases n
  {
    if n == 0 then [] else [b] + Sleeps(NextBackOff(b), n - 1)
  }

  /** `notify(title, body)` against a sequence of call outcomes. Test mode returns
      before any call; otherwise each try uses one outcome. */
  function Notify(s: State, outcomes: seq<CallOutcome>): (d: Delivery)
    ensures d.after.test == s.test
    ensures s.test ==> d == Delivery(Skipped, [], s, 0)
    ensures !s.test ==> d.verdict != Skipped && (d.verdict == Pending || d.consumed >= 1)
    ensures d.consumed <= |outcomes|
    decreases |outcomes|
  {
    if s.test then Delivery(Skipped, [], s, 0)
    else if |outcomes| == 0 then Delivery(Pending, [], s, 0)
    else
      match outcomes[0]
      case Accepted => Delivery(Sent, [], s.(backOff := InitialBackOff), 1)
      case Rejected(error, reconnects) =>
        if !IsServiceUnknown(error) then Delivery(Dropped, [], s, 1)
        else
          var grown := s.(backOff := NextBackOff(s.backOff));
          if !reconnects then Delivery(Dropped, [s.backOff], grown, 1)
          else
            var d := Notify(grown, outcomes[1..]);
            d.(sleeps := [s.backOff] + d.sleeps, consumed := d.consumed + 1)
  }

  /** The sleeps of a delivery are the back-offs of successive failures, starting from
      the notifier's back-off; a sent notification resets the back-off, any other ending
      leaves it where the failures grew it. */
  lemma {:induction false} NotifyBackOff(s: State, outcomes: seq<CallOutcome>)
    ensures var d := Notify(s, outcomes);
      && d.sleeps == Sleeps(s.backOff, |d.sleeps|)
      && d.after.backOff == if d.verdict == Sent then InitialBackOff else Grown(s.backOff, |d.sleeps|)
    decreases |outcomes|
  {
    if !s.test && |outcomes| > 0 && IsRetry(outcomes[0]) {
      NotifyBackOff(s.(backOff := NextBackOff(s.backOff)), outcomes[1..]);
    }
  }

  /** Which outcomes a delivery uses: every outcome but the last it uses is a retry, it
      is still pending exactly when all supplied outcomes are retries, it is sent exactly
      when the first other outcome is `Accepted`, and there is one sleep per "service
      unknown" failure. */
  lemma {:induction false} NotifyConsumes(s: State, outcomes: seq<CallOutcome>)
    requires !s.test
    ensures var d := Notify(s, outcomes);
      && (forall i :: 0 <= i < d.consumed - 1 ==> IsRetry(outcomes[i]))
      && (d.verdict == Pending <==> forall i :: 0 <= i < |outcomes| ==> IsRetry(outcomes[i]))
      && (d.verdict == Pending ==> d.consumed == |outcomes| == |d.sleeps|)
      && (d.verdict == Sent ==> outcomes[d.consumed - 1] == Accepted && |d.sleeps| == d.consumed - 1)
      && (d.verdict == Dropped ==>
            && outcomes[d.consumed - 1].Rejected? && !IsRetry(outcomes[d.consumed - 1])
            && |d.sleeps| == if IsServiceUnknown(outcomes[d.consumed - 1].error) then d.consumed
                             else d.consumed - 1)
    decreases |outcomes|
  {
    if |outcomes| > 0 && IsRetry(outcomes[0]) {
      var rest := outcomes[1..];
      NotifyConsumes(s.(backOff := NextBackOff(s.backOff)), rest);
      var d := Notify(s.(backOff := NextBackOff(s.backOff)), rest);
      forall i | 1 <= i < |outcomes|
        ensures outcomes[i] == rest[i - 1]
      {
      }
    }
  }

  /** One more failure grows the back-off once more. */
  lemma {:induction false} GrownStep(b: real, k: nat)
    ensures Grown(b, k + 1) == NextBackOff(Grown(b, k))
    decreases k
  {
    if k > 0 {
      GrownStep(NextBackOff(b), k - 1);
    }
  }

  /** A valid back-off stays valid however many failures follow. */
  lemma {:induction false} GrownValid(b: real, k: nat)
    requires ValidBackOff(b)
    ensures ValidBackOff(Grown(b, k))
    decreases k
  {
    if k > 0 {
      GrownValid(NextBackOff(b), k - 1);
    }
  }

  function Power(x: real, n: nat): real
    decreases n
  {
    if n == 0 then 1.0 else x * Power(x, n - 1)
  }

  lemma {:induction false} PowerAtLeastOne(n: nat)
    ensures Power(Progression, n) >= 1.0
    decreases n
  {
    if n > 0 {
      PowerAtLeastOne(n - 1);
    }
  }

  /** The closed form of the delay before try `k + 1` from a fresh notifier: none before
      the first retry, then 1.5 to the power `k - 1` seconds, never more than the cutoff. */
  function FreshDelay(k: nat): real {
    if k == 0 then 0.0 else Min(Power(Progression, k - 1), Cutoff)
  }

  /** From a fresh notifier, failure `k` finds the back-off `FreshDelay(k)`: the sleeps
      run 0, 1, 1.5, 2.25, ... up to 300 seconds. */
  lemma {:induction false} FreshBackOff(k: nat)
    ensures Grown(InitialBackOff, k) == FreshDelay(k)
    decreases k
  {
    if k > 0 {
      FreshBackOff(k - 1);
      GrownStep(InitialBackOff, k - 1);
      if k > 1 {
        var p := Power(Progression, k - 2);
        PowerAtLeastOne(k - 2);
        assert Power(Progression, k - 1) == Progression * p;
        if p > Cutoff {
          assert Progression * p > Cutoff;
        }
      }
    }
  }

  /** The sleeps of any delivery from a fresh notifier follow the closed form. */
  lemma FreshSleeps(test: bool, outcomes: seq<CallOutcome>)
    ensures var d := Notify(State(test, InitialBackOff), outcomes);
      forall i :: 0 <= i < |d.sleeps| ==> d.sleeps[i] == FreshDelay(i)
  {
    NotifyBackOff(State(test, InitialBackOff), outcomes);
    forall i | 0 <= i < |Notify(State(test, InitialBackOff), outcomes).sleeps|
      ensures Grown(InitialBackOff, i) == FreshDelay(i)
    {
      FreshBackOff(i);
    }
  }

  /** The back-off never leaves [0, 300]: every sleep and the back-off left behind are
      valid when the notifier's back-off was. */
  lemma NotifyKeepsBackOffValid(s: State, outcomes: seq<CallOutcome>)
    requires ValidBackOff(s.backOff)
    ensures var d := Notify(s, outcomes);
      && ValidBackOff(d.after.backOff)
      && forall i :: 0 <= i < |d.sleeps| ==> ValidBackOff(d.sleeps[i]) && 0.0 <= d.sleeps[i] <= Cutoff
  {
    var d := Notify(s, outcomes);
    NotifyBackOff(s, outcomes);
    GrownValid(s.backOff, |d.sleeps|);
    forall i | 0 <= i < |d.sleeps|
      ensures ValidBackOff(d.sleeps[i])
    {
      GrownValid(s.backOff, i);
    }
  }

  /** A D-Bus error other than "service unknown" drops the notification without a retry
      or a sleep, and leaves the back-off as it was. */
  lemma OtherErrorDrops(s: State, outcomes: seq<CallOutcome>)
    requires !s.test && |outcomes| > 0
    requires outcomes[0].Rejected? && !IsServiceUnknown(outcomes[0].error)
    ensures Notify(s, outcomes) == Delivery(Dropped, [], s, 1)
  {
  }

  /** Three "service unknown" failures, each followed by a successful reconnection, then
      a delivery: the notifier sleeps 0, 1 and 1.5 seconds and ends with back-off 0. */
  lemma ThreeFailuresThenSent(error: string, rest: seq<CallOutcome>)
    requires IsServiceUnknown(error)
    ensures var unknown := Rejected(error, true);
      var d := Notify(State(false, InitialBackOff), [unknown, unknown, unknown, Accepted] + rest);
      && d.verdict == Sent
      && d.sleeps == [0.0, 1.0, 1.5]
      && d.after.backOff == 0.0
      && d.consumed == 4
  {
    var unknown := Rejected(error, true);
    var outcomes := [unknown, unknown, unknown, Accepted] + rest;
    var d3 := Notify(State(false, 2.25), outcomes[3..]);
    assert outcomes[3..][0] == Accepted;
    assert d3 == Delivery(Sent, [], State(false, 0.0), 1);
    var d2 := Notify(State(false, 1.5), outcomes[2..]);
    assert outcomes[2..][0] == unknown && outcomes[2..][1..] == outcomes[3..];
    assert d2 == Delivery(Sent, [1.5], State(false, 0.0), 2);
    var d1 := Notify(State(false, 1.0), outcomes[1..]);
    assert outcomes[1..][0] == unknown && outcomes[1..][1..] == outcomes[2..];
    assert d1 == Delivery(Sent, [1.0, 1.5], State(false, 0.0), 3);
  }
}
