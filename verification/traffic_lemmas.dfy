/**
  Iterated behaviour of the traffic signal: the state after any number of
  calls has a closed form, and the log of a fresh signal is
  red, yellow, green, yellow, green, ... with red never logged again.
 */
module TrafficLemmas {
  import opened Traffic

  /**
    From any state, the state after `n >= 1` calls only depends on the parity
    of `n` and on whether the start is yellow: red and green behave alike,
    since both hand over to yellow.
   */
  lemma {:induction false} RunClosedForm(t: TrafficSignal, n: nat)
    ensures n == 0 ==> Run(t, n).0 == t
    ensures n > 0 ==>
              Run(t, n).0.state == (if (n % 2 == 1) == (t.state != Yellow) then Yellow else Green)
    decreases n
  {
    if n > 1 {
      RunClosedForm(ChangeSignal(t).signal, n - 1);
    }
  }

  /**
    After `n` calls from a freshly constructed signal the state is red only
    when `n` is zero, yellow when `n` is odd and green when `n` is even.
   */
  lemma FreshSignalClosedForm(n: nat)
    ensures Run(Init(), n).0.state == StateAfter(n)
    ensures n >= 1 ==> Run(Init(), n).0.state != Red
  {
    RunClosedForm(Init(), n);
  }

  /** The `k`-th logged line is the line of the state left by the `k`-th call. */
  lemma {:induction false} RunLog(t: TrafficSignal, n: nat)
    ensures forall k :: 0 <= k < n ==> Run(t, n).1[k] == MessageOf(Run(t, k).0.state)
    decreases n
  {
    if n > 0 {
      var s := ChangeSignal(t);
      RunLog(s.signal, n - 1);
      forall k | 0 <= k < n
        ensures Run(t, n).1[k] == MessageOf(Run(t, k).0.state)
      {
        if k > 0 {
          assert Run(t, k).0 == Run(s.signal, k - 1).0;
        }
      }
    }
  }

  /**
    The log of a fresh signal: the `k`-th line is that of the closed-form
    state after `k` calls, so only the first call logs red.
   */
  lemma FreshSignalLog(n: nat)
    ensures forall k :: 0 <= k < n ==> Run(Init(), n).1[k] == MessageOf(StateAfter(k))
    ensures forall k :: 1 <= k < n ==> Run(Init(), n).1[k] != RedStop
  {
    RunLog(Init(), n);
    forall k | 0 <= k < n
      ensures Run(Init(), n).1[k] == MessageOf(StateAfter(k))
    {
      FreshSignalClosedForm(k);
    }
  }

  /**
    The five calls of the usage example log red, yellow, green, yellow,
    green: the fifth line is the green one, not the red one its comment
    announces.
   */
  lemma UsageExampleLog()
    ensures Run(Init(), 5).1 == [RedStop, YellowGetReady, GreenGo, YellowGetReady, GreenGo]
    ensures Run(Init(), 5).1[4] != RedStop
  {
  }
}
