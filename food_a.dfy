/** The food-A consumer (`consumer-02-foodA.py`): a window of the last twenty
    food-A temperatures, and a stall alert when the newest and oldest of a
    full window differ by less than one degree. */
module FoodA {
  import opened Wire
  import opened SlidingWindow
  import opened Message

  /** `deque(maxlen=20)`. */
  const Capacity: nat := 20

  /** A span below this many degrees across a full window is a stall. */
  const MinSpan: real := 1.0

  function Abs(x: real): real { if x < 0.0 then -x else x }

  /** `temperature_change`, which the callback assigns only when the window
      holds at least 20 values; `None` stands for the unassigned local. */
  function TemperatureChange(w: seq<real>): Option<real>
  {
    if |w| >= Capacity then Some(w[|w| - 1] - w[0]) else None
  }

  /** The stall condition on a window for which `temperature_change` is
      assigned. */
  predicate Stalled(w: seq<real>)
    requires |w| >= Capacity
  {
    Abs(TemperatureChange(w).value) < MinSpan
  }

  /** `foodA_callback` on the window `w` and one body. */
  function Step(w: seq<real>, body: string, parse: Parser, emailRaises: bool): (o: Outcome)
    ensures |w| <= Capacity ==> |o.window| <= Capacity
    ensures |o.sent| <= 1
  {
    match Decode(body, parse)
    case Malformed(f) => Outcome(w, [], Some(f))
    case Absent => Outcome(w, [], None)
    case Reading(ts, t) =>
      var w' := Newest(w + [t], Capacity);
      if |w'| < Capacity then
        Outcome(w', [], Some(UnboundLocalError))
      else if Stalled(w') then
        Outcome(w', [FoodAAlert(ts)], if emailRaises then Some(EmailError) else None)
      else
        Outcome(w', [], None)
  }

  /** With a full window the alert fires exactly when the newest and the
      oldest value differ by strictly less than one degree, in either
      direction. */
  lemma StallIff(w: seq<real>)
    requires |w| == Capacity
    ensures Stalled(w) <==> -MinSpan < w[Capacity - 1] - w[0] < MinSpan
  {
  }

  /** Concrete full windows: first 150 and last 150.5 fires, first 150 and
      last 160 does not, and a span of exactly 1 does not. */
  lemma StallExamples(middle: seq<real>)
    requires |middle| == Capacity - 2
    ensures Stalled([150.0] + middle + [150.5])
    ensures !Stalled([150.0] + middle + [160.0])
    ensures !Stalled([150.0] + middle + [151.0])
    ensures Stalled([150.0] + middle + [149.25])
  {
  }

  /** A `No Reading` body leaves the window alone, sends nothing, and is
      acknowledged. */
  lemma NoReadingSkipped(w: seq<real>, body: string, parse: Parser, emailRaises: bool)
    requires |Split(body)| > 1 && Split(body)[1] == NoReading
    ensures Step(w, body, parse, emailRaises) == Outcome(w, [], None)
  {
  }

  /** A body with no comma, or whose second field `float` rejects, leaves the
      window alone, sends nothing, and is not acknowledged. */
  lemma MalformedNotAcked(w: seq<real>, body: string, parse: Parser, emailRaises: bool)
    requires |Split(body)| < 2 || (Split(body)[1] != NoReading && parse(Split(body)[1]).None?)
    ensures var o := Step(w, body, parse, emailRaises);
      o.window == w && o.sent == [] && !o.Acked() &&
      o.fault == Some(if |Split(body)| < 2 then IndexError else ValueError)
  {
  }

  /** Until the append fills the window, every numeric reading is appended
      and then raises UnboundLocalError: no email, no acknowledgement. */
  lemma ShortWindowRaises(w: seq<real>, body: string, parse: Parser, emailRaises: bool)
    requires |w| < Capacity - 1
    requires Decode(body, parse).Reading?
    ensures Step(w, body, parse, emailRaises) ==
      Outcome(w + [Decode(body, parse).temp], [], Some(UnboundLocalError))
  {
  }

  /** Once the window is full, a numeric reading is appended; the email is
      sent, once, exactly when the new window is stalled, whatever earlier
      messages did; the delivery is acknowledged unless that call raised. */
  lemma FullWindowStep(w: seq<real>, body: string, parse: Parser, emailRaises: bool)
    requires |w| >= Capacity - 1
    requires Decode(body, parse).Reading?
    ensures var o := Step(w, body, parse, emailRaises);
      var w' := Newest(w + [Decode(body, parse).temp], Capacity);
      |w'| == Capacity && o.window == w' &&
      o.sent == (if Stalled(w') then [FoodAAlert(Split(body)[0])] else []) &&
      (o.Acked() <==> !(Stalled(w') && emailRaises))
  {
  }

  /** The delivery is acknowledged exactly when it is `No Reading`, or it
      parses, the window is full after the append, and no email call raised. */
  lemma AckedIff(w: seq<real>, body: string, parse: Parser, emailRaises: bool)
    ensures Step(w, body, parse, emailRaises).Acked() <==>
      Decode(body, parse) == Absent ||
      (Decode(body, parse).Reading? && |w| >= Capacity - 1 &&
       !(Stalled(Newest(w + [Decode(body, parse).temp], Capacity)) && emailRaises))
  {
  }

  /** The module-level state of the food-A process: its one window. */
  class FoodAWorker {
    const window: Window

    ghost predicate Valid()
      reads this, window
    {
      window.Valid() && window.capacity == Capacity
    }

    /** `foodA_DEQUE = deque(maxlen=20)`. */
    constructor ()
      ensures Valid() && fresh(window) && window.items == []
    {
      window := new Window(Capacity);
    }

    /** `foodA_callback`: handles one body, appending to the window in place;
        returns the email calls made and whether `basic_ack` was reached. */
    method Callback(body: string, parse: Parser, emailRaises: bool) returns (sent: seq<Email>, acked: bool)
      requires Valid()
      modifies window
      ensures Valid()
      ensures var o := Step(old(window.items), body, parse, emailRaises);
        window.items == o.window && sent == o.sent && acked == o.Acked()
    {
      sent, acked := [], false;
      var fields := Split(body);
      if |fields| < 2 {
        return;  // IndexError
      }
      if fields[1] != NoReading {
        var temp := parse(fields[1]);
        if temp.None? {
          return;  // ValueError
        }
        var timestamp := fields[0];
        window.Append(temp.value);
        var change := TemperatureChange(window.items);
        if change.None? {
          return;  // UnboundLocalError
        }
        if Abs(change.value) < MinSpan {
          sent := [FoodAAlert(timestamp)];
          if emailRaises {
            return;  // the email call raised
          }
        }
      }
      acked := true;
    }
  }
}
