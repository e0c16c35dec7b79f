/** The delivery discipline each consumer's `main` sets up: `basic_qos
    (prefetch_count=1)` and `basic_consume(..., auto_ack=False)`. With at
    most one unacknowledged message in flight (the prefetch limit of AMQP
    0-9-1), a callback that does not reach `basic_ack` leaves its delivery
    outstanding, and the broker delivers nothing more to that worker. */
module Consumption {
  import opened Wire
  import opened SlidingWindow
  import opened Message
  import Smoker
  import FoodA

  /** A registered callback: the window before, one delivery, the outcome. */
  type Callback = (seq<real>, Delivery) -> Outcome

  /** `smoker_callback`, given the behaviour of `float`. */
  function SmokerCallback(parse: Parser): Callback
  {
    (w: seq<real>, d: Delivery) => Smoker.Step(w, d.body, parse, d.emailRaises)
  }

  /** `foodA_callback`, given the behaviour of `float`. */
  function FoodACallback(parse: Parser): Callback
  {
    (w: seq<real>, d: Delivery) => FoodA.Step(w, d.body, parse, d.emailRaises)
  }

  /** What a worker has done after the broker offered it a queue's messages:
      its window, the email calls made, how many messages it was handed, and
      whether the last of them is still unacknowledged. */
  datatype Run = Run(window: seq<real>, sent: seq<Email>, delivered: nat, stuck: bool)

  /** Deliver `ds` in order, one at a time, until a callback returns without
      acknowledging. */
  function Consume(callback: Callback, w: seq<real>, ds: seq<Delivery>): (r: Run)
    ensures r.delivered <= |ds|
    ensures r.stuck ==> 0 < r.delivered
    ensures !r.stuck ==> r.delivered == |ds|
    decreases |ds|
  {
    if ds == [] then Run(w, [], 0, false)
    else
      var o := callback(w, ds[0]);
      if !o.Acked() then Run(o.window, o.sent, 1, true)
      else
        var rest := Consume(callback, o.window, ds[1..]);
        Run(rest.window, o.sent + rest.sent, 1 + rest.delivered, rest.stuck)
  }

  /** Once a worker is stuck, later messages change nothing: they are never
      delivered to it. */
  lemma {:induction false} StuckIgnoresLater(callback: Callback, w: seq<real>, ds: seq<Delivery>,
                                             later: seq<Delivery>)
    requires Consume(callback, w, ds).stuck
    ensures Consume(callback, w, ds + later) == Consume(callback, w, ds)
    decreases |ds|
  {
    assert (ds + later)[0] == ds[0];
    var o := callback(w, ds[0]);
    if o.Acked() {
      assert (ds + later)[1..] == ds[1..] + later;
      StuckIgnoresLater(callback, o.window, ds[1..], later);
    }
  }

  /** An acknowledged first delivery is followed by the rest of the run. */
  lemma ConsumeAcked(callback: Callback, w: seq<real>, ds: seq<Delivery>)
    requires ds != [] && callback(w, ds[0]).Acked()
    ensures var o := callback(w, ds[0]);
      var rest := Consume(callback, o.window, ds[1..]);
      Consume(callback, w, ds) == Run(rest.window, o.sent + rest.sent, 1 + rest.delivered, rest.stuck)
  {
  }

  /** Every delivery in `ds` is a numeric reading whose email call, if
      any, returns. For simplicity the flag is required to be clear on every
      delivery, although it has no effect on one that sends no email. */
  predicate AllReadings(ds: seq<Delivery>, parse: Parser)
    decreases |ds|
  {
    ds != [] ==> Decode(ds[0].body, parse).Reading? && !ds[0].emailRaises && AllReadings(ds[1..], parse)
  }

  /** The values that a list of numeric deliveries carries, in order. */
  function Temps(ds: seq<Delivery>, parse: Parser): (ts: seq<real>)
    requires AllReadings(ds, parse)
    ensures |ts| == |ds|
    decreases |ds|
  {
    if ds == [] then [] else [Decode(ds[0].body, parse).temp] + Temps(ds[1..], parse)
  }

  /** A callback that, on a window of `least` to `cap` values, acknowledges
      every numeric reading whose email call returns and appends it to a
      window bounded by `cap`. */
  ghost predicate AppendsReadings(callback: Callback, least: nat, cap: nat, parse: Parser)
  {
    forall w: seq<real>, d: Delivery ::
      least <= |w| <= cap && Decode(d.body, parse).Reading? && !d.emailRaises ==>
        callback(w, d).Acked() && callback(w, d).window == Newest(w + [Decode(d.body, parse).temp], cap)
  }

  /** Such a callback fed only numeric readings never gets stuck, and its
      window ends as if each value had been appended to the deque in turn. */
  lemma {:induction false} WindowFollowsAppends(callback: Callback, least: nat, cap: nat, w: seq<real>,
                                                ds: seq<Delivery>, parse: Parser)
    requires least <= |w| <= cap
    requires AppendsReadings(callback, least, cap, parse)
    requires AllReadings(ds, parse)
    ensures var r := Consume(callback, w, ds);
      !r.stuck && r.window == PushAll(w, cap, Temps(ds, parse))
    decreases |ds|
  {
    if ds != [] {
      var t := Decode(ds[0].body, parse).temp;
      ConsumeAcked(callback, w, ds);
      WindowFollowsAppends(callback, least, cap, Newest(w + [t], cap), ds[1..], parse);
      assert Temps(ds, parse)[1..] == Temps(ds[1..], parse);
    }
  }

  /** A smoker worker fed only numeric readings, with every email call
      returning, never gets stuck, and its window ends as the newest five of
      all values it has seen, in arrival order. */
  lemma SmokerWindowKeepsNewest(w: seq<real>, ds: seq<Delivery>, parse: Parser)
    requires |w| <= Smoker.Capacity
    requires AllReadings(ds, parse)
    ensures var r := Consume(SmokerCallback(parse), w, ds);
      !r.stuck && r.window == Newest(w + Temps(ds, parse), Smoker.Capacity)
  {
    var callback := SmokerCallback(parse);
    forall w': seq<real>, d: Delivery |
      |w'| <= Smoker.Capacity && Decode(d.body, parse).Reading? && !d.emailRaises
      ensures callback(w', d).Acked() &&
              callback(w', d).window == Newest(w' + [Decode(d.body, parse).temp], Smoker.Capacity)
    {
      Smoker.ReadingStep(w', d.body, parse, d.emailRaises);
    }
    WindowFollowsAppends(callback, 0, Smoker.Capacity, w, ds, parse);
    PushAllKeepsNewest(w, Smoker.Capacity, Temps(ds, parse));
  }

  /** Once its window holds at least 19 values, a food-A worker fed only
      numeric readings, with every email call returning, never gets stuck,
      and its window ends as the newest twenty of all values it has seen. */
  lemma FoodAWindowKeepsNewest(w: seq<real>, ds: seq<Delivery>, parse: Parser)
    requires FoodA.Capacity - 1 <= |w| <= FoodA.Capacity
    requires AllReadings(ds, parse)
    ensures var r := Consume(FoodACallback(parse), w, ds);
      !r.stuck && r.window == Newest(w + Temps(ds, parse), FoodA.Capacity)
  {
    var callback := FoodACallback(parse);
    forall w': seq<real>, d: Delivery |
      FoodA.Capacity - 1 <= |w'| <= FoodA.Capacity && Decode(d.body, parse).Reading? && !d.emailRaises
      ensures callback(w', d).Acked() &&
              callback(w', d).window == Newest(w' + [Decode(d.body, parse).temp], FoodA.Capacity)
    {
      FoodA.FullWindowStep(w', d.body, parse, d.emailRaises);
    }
    WindowFollowsAppends(callback, FoodA.Capacity - 1, FoodA.Capacity, w, ds, parse);
    PushAllKeepsNewest(w, FoodA.Capacity, Temps(ds, parse));
  }

  /** A food-A worker whose window holds fewer than 19 values sends no email,
      however many messages are offered: it gets stuck at the first numeric
      reading (or malformed body), having appended at most that one value. */
  lemma {:induction false} FoodANeverAlertsBeforeFull(w: seq<real>, ds: seq<Delivery>, parse: Parser)
    requires |w| < FoodA.Capacity - 1
    ensures var r := Consume(FoodACallback(parse), w, ds);
      r.sent == [] && w <= r.window && |r.window| <= |w| + 1
    decreases |ds|
  {
    if ds != [] {
      var d := Decode(ds[0].body, parse);
      if d.Reading? {
        FoodA.ShortWindowRaises(w, ds[0].body, parse, ds[0].emailRaises);
      } else if d == Absent {
        FoodA.NoReadingSkipped(w, ds[0].body, parse, ds[0].emailRaises);
        FoodANeverAlertsBeforeFull(w, ds[1..], parse);
      } else {
        FoodA.MalformedNotAcked(w, ds[0].body, parse, ds[0].emailRaises);
      }
    }
  }

  /** A fresh food-A worker whose first numeric reading is message `k`
      (everything before it `No Reading`) is handed exactly `k + 1` messages,
      is stuck from then on, holds just that reading, and never emails. */
  lemma {:induction false} FoodAStallsAtFirstReading(ds: seq<Delivery>, k: nat, parse: Parser)
    requires k < |ds|
    requires forall i :: 0 <= i < k ==> Decode(ds[i].body, parse) == Absent
    requires Decode(ds[k].body, parse).Reading?
    ensures Consume(FoodACallback(parse), [], ds) ==
      Run([Decode(ds[k].body, parse).temp], [], k + 1, true)
    decreases k
  {
    if k == 0 {
      FoodA.ShortWindowRaises([], ds[0].body, parse, ds[0].emailRaises);
    } else {
      FoodA.NoReadingSkipped([], ds[0].body, parse, ds[0].emailRaises);
      FoodAStallsAtFirstReading(ds[1..], k - 1, parse);
    }
  }

  /** Two deliveries whose callbacks each send one email, the first one being
      acknowledged, send both. */
  lemma ConsumeTwo(callback: Callback, w: seq<real>, d1: Delivery, d2: Delivery, e1: Email, e2: Email)
    requires callback(w, d1).Acked() && callback(w, d1).sent == [e1]
    requires callback(callback(w, d1).window, d2).sent == [e2]
    ensures Consume(callback, w, [d1, d2]).sent == [e1, e2]
  {
    var o1 := callback(w, d1);
    ConsumeAcked(callback, w, [d1, d2]);
    assert [d1, d2][1..] == [d2];
    var r2 := Consume(callback, o1.window, [d2]);
    assert r2.sent == [e2] by {
      var o2 := callback(o1.window, d2);
      if o2.Acked() {
        ConsumeAcked(callback, o1.window, [d2]);
        assert [d2][1..] == [];
        assert o2.sent + [] == o2.sent;
      }
    }
    assert [e1] + [e2] == [e1, e2];
  }

  /** There is no re-arm or deduplication: two smoker readings in a row that
      each qualify both send an email. */
  lemma SmokerAlertsEveryTime(w: seq<real>, d1: Delivery, d2: Delivery, parse: Parser)
    requires Decode(d1.body, parse).Reading? && Decode(d2.body, parse).Reading?
    requires !d1.emailRaises
    requires var w1 := Newest(w + [Decode(d1.body, parse).temp], Smoker.Capacity);
      exists i :: 0 <= i < |w1| - 1 && w1[i] - w1[|w1| - 1] > Smoker.Tolerance
    requires var w1 := Newest(w + [Decode(d1.body, parse).temp], Smoker.Capacity);
      var w2 := Newest(w1 + [Decode(d2.body, parse).temp], Smoker.Capacity);
      exists i :: 0 <= i < |w2| - 1 && w2[i] - w2[|w2| - 1] > Smoker.Tolerance
    ensures Consume(SmokerCallback(parse), w, [d1, d2]).sent ==
      [SmokerAlert(Split(d1.body)[0]), SmokerAlert(Split(d2.body)[0])]
  {
    var w1 := Newest(w + [Decode(d1.body, parse).temp], Smoker.Capacity);
    Smoker.AlertIffDrop(w1);
    Smoker.AlertIffDrop(Newest(w1 + [Decode(d2.body, parse).temp], Smoker.Capacity));
    Smoker.ReadingStep(w, d1.body, parse, d1.emailRaises);
    Smoker.ReadingStep(w1, d2.body, parse, d2.emailRaises);
    ConsumeTwo(SmokerCallback(parse), w, d1, d2,
               SmokerAlert(Split(d1.body)[0]), SmokerAlert(Split(d2.body)[0]));
  }

  /** Likewise for food A: while the stall persists, every numeric reading on
      a full window sends another email. */
  lemma FoodAAlertsEveryTime(w: seq<real>, d1: Delivery, d2: Delivery, parse: Parser)
    requires |w| == FoodA.Capacity
    requires Decode(d1.body, parse).Reading? && Decode(d2.body, parse).Reading?
    requires !d1.emailRaises
    requires FoodA.Stalled(Newest(w + [Decode(d1.body, parse).temp], FoodA.Capacity))
    requires FoodA.Stalled(Newest(Newest(w + [Decode(d1.body, parse).temp], FoodA.Capacity)
                                  + [Decode(d2.body, parse).temp], FoodA.Capacity))
    ensures Consume(FoodACallback(parse), w, [d1, d2]).sent ==
      [FoodAAlert(Split(d1.body)[0]), FoodAAlert(Split(d2.body)[0])]
  {
    var w1 := Newest(w + [Decode(d1.body, parse).temp], FoodA.Capacity);
    FoodA.FullWindowStep(w, d1.body, parse, d1.emailRaises);
    FoodA.FullWindowStep(w1, d2.body, parse, d2.emailRaises);
    ConsumeTwo(FoodACallback(parse), w, d1, d2,
               FoodAAlert(Split(d1.body)[0]), FoodAAlert(Split(d2.body)[0]));
  }
}
