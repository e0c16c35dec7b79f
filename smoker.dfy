/** The smoker consumer (`consumer-01-smoker.py`): a window of the last five
    smoker temperatures, and an alert whenever some older temperature in it
    exceeds the newest by more than 15 degrees. */
module Smoker {
  import opened Wire
  import opened SlidingWindow
  import opened Message

  /** `deque(maxlen=5)`. */
  const Capacity: nat := 5

  /** The tolerated change, in degrees. */
  const Tolerance: real := 15.0

  /** `temperature_change`: each older value minus the newest, when the
      window holds at least two values, and `[]` otherwise. */
  function TemperatureChange(w: seq<real>): seq<real>
  {
    if |w| > 1 then seq(|w| - 1, i requires 0 <= i < |w| - 1 => w[i] - w[|w| - 1]) else []
  }

  /** `any(value > t for value in s)`. */
  predicate AnyExceeds(s: seq<real>, t: real)
    decreases |s|
  {
    s != [] && (s[0] > t || AnyExceeds(s[1..], t))
  }

  /** The alert condition the callback checks after the append. */
  predicate RaisesAlert(w: seq<real>)
  {
    AnyExceeds(TemperatureChange(w), Tolerance)
  }

  /** `smoker_callback` on the window `w` and one body. */
  function Step(w: seq<real>, body: string, parse: Parser, emailRaises: bool): (o: Outcome)
    ensures |w| <= Capacity ==> |o.window| <= Capacity
    ensures |o.sent| <= 1
    ensures o.fault.Some? ==> o.fault.value != UnboundLocalError
  {
    match Decode(body, parse)
    case Malformed(f) => Outcome(w, [], Some(f))
    case Absent => Outcome(w, [], None)
    case Reading(ts, t) =>
      var w' := Newest(w + [t], Capacity);
      if RaisesAlert(w') then
        Outcome(w', [SmokerAlert(ts)], if emailRaises then Some(EmailError) else None)
      else
        Outcome(w', [], None)
  }

  /** `any` is an existential over the list. */
  lemma {:induction false} AnyExceedsIff(s: seq<real>, t: real)
    ensures AnyExceeds(s, t) <==> exists i :: 0 <= i < |s| && s[i] > t
    decreases |s|
  {
    if s != [] {
      AnyExceedsIff(s[1..], t);
      if exists i :: 0 <= i < |s| && s[i] > t {
        var i :| 0 <= i < |s| && s[i] > t;
        if i > 0 {
          assert s[1..][i - 1] > t;
        }
      }
      if exists j :: 0 <= j < |s[1..]| && s[1..][j] > t {
        var j :| 0 <= j < |s[1..]| && s[1..][j] > t;
        assert s[j + 1] > t;
      }
    }
  }

  /** The alert fires exactly when some older value in the window exceeds the
      newest by strictly more than the tolerance: only a drop can fire. */
  lemma AlertIffDrop(w: seq<real>)
    ensures RaisesAlert(w) <==> exists i :: 0 <= i < |w| - 1 && w[i] - w[|w| - 1] > Tolerance
  {
    var c := TemperatureChange(w);
    AnyExceedsIff(c, Tolerance);
    if |w| > 1 {
      assert forall i :: 0 <= i < |w| - 1 ==> c[i] == w[i] - w[|w| - 1];
    }
  }

  /** A window of fewer than two values has no changes and never alerts. */
  lemma ShortWindowNoAlert(w: seq<real>)
    requires |w| < 2
    ensures TemperatureChange(w) == [] && !RaisesAlert(w)
  {
  }

  /** A window whose newest value is no lower than any older value minus 15
      never alerts: rises never fire, and neither does a drop of exactly 15. */
  lemma RiseNeverAlerts(w: seq<real>)
    requires forall i :: 0 <= i < |w| - 1 ==> w[i] <= w[|w| - 1] + Tolerance
    ensures !RaisesAlert(w)
  {
    AlertIffDrop(w);
  }

  /** Concrete windows: a rise of 18 does not fire, a drop of 18 does, a drop
      of exactly 15 does not, and a drop of 15.5 does. */
  lemma AlertExamples()
    ensures !RaisesAlert([100.0, 101.0, 118.0])
    ensures !RaisesAlert([100.0, 105.0, 110.0])
    ensures RaisesAlert([118.0, 101.0, 100.0])
    ensures !RaisesAlert([115.0, 100.0])
    ensures RaisesAlert([115.5, 120.0, 100.0])
  {
    AlertIffDrop([100.0, 101.0, 118.0]);
    AlertIffDrop([100.0, 105.0, 110.0]);
    AlertIffDrop([118.0, 101.0, 100.0]);
    AlertIffDrop([115.0, 100.0]);
    AlertIffDrop([115.5, 120.0, 100.0]);
  }

  /** A `No Reading` body leaves the window alone, sends nothing, and is
      acknowledged. */
  lemma NoReadingSkipped(w: seq<real>, body: string, parse: Parser, emailRaises: bool)
    requires |Split(body)| > 1 && Split(body)[1] == NoReading
    ensures Step(w, body, parse, emailRaises) == Outcome(w, [], None)
  {
  }

  /** A body with no comma, or whose second field `float` rejects, leaves the
      window alone, sends nothing, and is not acknowledged. */
  lemma MalformedNotAcked(w: seq<real>, body: string, parse: Parser, emailRaises: bool)
    requires |Split(body)| < 2 || (Split(body)[1] != NoReading && parse(Split(body)[1]).None?)
    ensures var o := Step(w, body, parse, emailRaises);
      o.window == w && o.sent == [] && !o.Acked() &&
      o.fault == Some(if |Split(body)| < 2 then IndexError else ValueError)
  {
  }

  /** A numeric reading is appended; the email is sent, once, exactly when the
      new window qualifies, with field 0 verbatim as its timestamp, whatever
      earlier messages did; the delivery is acknowledged unless that email
      call raised. */
  lemma ReadingStep(w: seq<real>, body: string, parse: Parser, emailRaises: bool)
    requires Decode(body, parse).Reading?
    ensures var o := Step(w, body, parse, emailRaises);
      var w' := Newest(w + [Decode(body, parse).temp], Capacity);
      o.window == w' &&
      o.sent == (if RaisesAlert(w') then [SmokerAlert(Split(body)[0])] else []) &&
      (o.Acked() <==> !(RaisesAlert(w') && emailRaises)) &&
      (!o.Acked() ==> o.fault == Some(EmailError))
  {
  }

  /** The delivery is acknowledged exactly when it is `No Reading`, or it
      parses and either no alert is due or the email call returns. */
  lemma AckedIff(w: seq<real>, body: string, parse: Parser, emailRaises: bool)
    ensures Step(w, body, parse, emailRaises).Acked() <==>
      Decode(body, parse) == Absent ||
      (Decode(body, parse).Reading? &&
       !(RaisesAlert(Newest(w + [Decode(body, parse).temp], Capacity)) && emailRaises))
  {
  }

  /** The module-level state of the smoker process: its one window. */
  class SmokerWorker {
    const window: Window

    ghost predicate Valid()
      reads this, window
    {
      window.Valid() && window.capacity == Capacity
    }

    /** `SMOKER_DEQUE = deque(maxlen=5)`. */
    constructor ()
      ensures Valid() && fresh(window) && window.items == []
    {
      window := new Window(Capacity);
    }

    /** `smoker_callback`: handles one body, appending to the window in place;
        returns the email calls made and whether `basic_ack` was reached. */
    method Callback(body: string, parse: Parser, emailRaises: bool) returns (sent: seq<Email>, acked: bool)
      requires Valid()
      modifies window
      ensures Valid()
      ensures var o := Step(old(window.items), body, parse, emailRaises);
        window.items == o.window && sent == o.sent && acked == o.Acked()
    {
      sent, acked := [], false;
      var fields := Split(body);
      if |fields| < 2 {
        return;  // IndexError
      }
      if fields[1] != NoReading {
        var temp := parse(fields[1]);
        if temp.None? {
          return;  // ValueError
        }
        var timestamp := fields[0];
        window.Append(temp.value);
        if RaisesAlert(window.items) {
          sent := [SmokerAlert(timestamp)];
          if emailRaises {
            return;  // the email call raised
          }
        }
      }
      acked := true;
    }
  }
}
