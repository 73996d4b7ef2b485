/**
  The traffic signal of the State-pattern example: a context holding one of
  three signal states, and a single operation, `ChangeSignal`, whose effect is
  decided by the handler of the current state.

  The handler objects, their back-references to the context and the getters
  that hand them out are replaced by the `Signal` tag; the console line a
  handler prints is returned as a `Message`.
 */
module Traffic {

  /** The three concrete states. */
  datatype Signal = Red | Yellow | Green

  /** The line a handler logs when `changeSignal` is called on it. */
  datatype Message = RedStop | YellowGetReady | GreenGo

  /** The context: the signal that is current. */
  datatype TrafficSignal = TrafficSignal(state: Signal)

  /** The outcome of one call: the new context and the line that was logged. */
  datatype Step = Step(signal: TrafficSignal, message: Message)

  /** A freshly constructed traffic signal starts at red. */
  function Init(): (t: TrafficSignal)
    ensures t.state == Red
  {
    TrafficSignal(Red)
  }

  /**
    Installs `s` as the current state unconditionally: the state held before
    plays no part in the result.
   */
  function SetState(t: TrafficSignal, s: Signal): (r: TrafficSignal)
    ensures r == TrafficSignal(s)
  {
    t.(state := s)
  }

  /** The line the handler of `s` logs before it switches state. */
  function MessageOf(s: Signal): (m: Message)
  {
    match s
    case Red => RedStop
    case Yellow => YellowGetReady
    case Green => GreenGo
  }

  /**
    One call of `changeSignal`: the current handler logs its own line and
    installs its successor. Red and green both hand over to yellow, yellow
    hands over to green, so no call of `changeSignal` enters red.
   */
  function ChangeSignal(t: TrafficSignal): (r: Step)
    ensures r.message == MessageOf(t.state)
    ensures r.signal.state != Red
    ensures r.signal.state == Green <==> t.state == Yellow
  {
    match t.state
    case Red => Step(SetState(t, Yellow), RedStop)
    case Yellow => Step(SetState(t, Green), YellowGetReady)
    case Green => Step(SetState(t, Yellow), GreenGo)
  }

  /**
    `n` successive calls of `changeSignal`: the final context and the lines
    logged, in call order.
   */
  function Run(t: TrafficSignal, n: nat): (r: (TrafficSignal, seq<Message>))
    ensures |r.1| == n
    ensures n > 0 ==> r.0.state != Red
    decreases n
  {
    if n == 0 then (t, [])
    else
      var s := ChangeSignal(t);
      var rest := Run(s.signal, n - 1);
      (rest.0, [s.message] + rest.1)
  }

  /** The closed form of the state after `n` calls from a fresh signal. */
  function StateAfter(n: nat): (s: Signal)
  {
    if n == 0 then Red else if n % 2 == 1 then Yellow else Green
  }
}
