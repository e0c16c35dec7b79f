/** The producer (`message_producer.py`, `send_message`): it clears and
    redeclares three durable queues, skips the CSV header, and turns every
    later row `timestamp, smoker, foodA, foodB` into three comma-joined
    bodies published to the smoker, food-A and food-B queues in that order. */
module Producer {
  import opened Wire
  import opened Message

  /** The three queue names passed to `send_message`. */
  datatype Queues = Queues(smoker: string, foodA: string, foodB: string)

  /** One call the producer makes on its channel, in the order made. */
  datatype ChannelOp =
    | QueueDelete(queue: string)
    | QueueDeclare(queue: string, durable: bool)
    | Publish(queue: string, body: string)

  /** How `send_message` ends: all rows sent, no header row (`next(reader)`
      raises), or a row that does not unpack into four fields. Neither
      exception is the caught connection error, so both abort the run. */
  datatype SendOutcome = Finished | HeaderMissing | RowUnpackFailed(row: nat)

  /** An empty field is replaced by `No Reading`; anything else is kept. */
  function Substitute(field: string): (r: string)
    ensures r != []
    ensures field != [] ==> r == field
    ensures field == [] ==> r == NoReading
  {
    if field == [] then NoReading else field
  }

  /** `",".join((time_stamp, value))`. */
  function Encode(timestamp: string, value: string): (body: string)
    ensures body == timestamp + [Comma] + value
  {
    assert [timestamp, value][1..] == [value];
    assert Join([value]) == value;
    Join([timestamp, value])
  }

  /** The three publishes for one four-field row. */
  function RowMessages(q: Queues, row: seq<string>): (ops: seq<ChannelOp>)
    requires |row| == 4
    ensures |ops| == 3
    ensures ops[0] == Publish(q.smoker, row[0] + [Comma] + Substitute(row[1]))
    ensures ops[1] == Publish(q.foodA, row[0] + [Comma] + Substitute(row[2]))
    ensures ops[2] == Publish(q.foodB, row[0] + [Comma] + Substitute(row[3]))
  {
    [Publish(q.smoker, Encode(row[0], Substitute(row[1]))),
     Publish(q.foodA, Encode(row[0], Substitute(row[2]))),
     Publish(q.foodB, Encode(row[0], Substitute(row[3])))]
  }

  /** The three deletes followed by the three durable declares. */
  function Setup(q: Queues): seq<ChannelOp>
  {
    [QueueDelete(q.smoker), QueueDelete(q.foodA), QueueDelete(q.foodB),
     QueueDeclare(q.smoker, true), QueueDeclare(q.foodA, true), QueueDeclare(q.foodB, true)]
  }

  /** Every row has the four fields the unpack needs. */
  predicate WellFormed(rows: seq<seq<string>>)
  {
    forall i :: 0 <= i < |rows| ==> |rows[i]| == 4
  }

  /** The publishes for a list of well-formed rows, in file order. */
  function Published(q: Queues, rows: seq<seq<string>>): (ops: seq<ChannelOp>)
    requires WellFormed(rows)
    ensures |ops| == 3 * |rows|
    decreases |rows|
  {
    if rows == [] then []
    else Published(q, rows[..|rows| - 1]) + RowMessages(q, rows[|rows| - 1])
  }

  /** `send_message` on the rows `csv.reader` yields, header included:
      returns the channel calls made and how the run ended. */
  method SendMessage(q: Queues, rows: seq<seq<string>>) returns (ops: seq<ChannelOp>, outcome: SendOutcome)
    ensures outcome == HeaderMissing <==> rows == []
    ensures outcome == HeaderMissing ==> ops == Setup(q)
    ensures outcome == Finished ==> WellFormed(rows[1..]) && ops == Setup(q) + Published(q, rows[1..])
    ensures outcome.RowUnpackFailed? ==>
      var k := outcome.row;
      1 <= k < |rows| && |rows[k]| != 4 && WellFormed(rows[1..k]) &&
      ops == Setup(q) + Published(q, rows[1..k])
  {
    ops := Setup(q);
    if rows == [] {
      return ops, HeaderMissing;
    }
    var i := 1;
    while i < |rows|
      invariant 1 <= i <= |rows|
      invariant WellFormed(rows[1..i])
      invariant ops == Setup(q) + Published(q, rows[1..i])
    {
      var row := rows[i];
      if |row| != 4 {
        return ops, RowUnpackFailed(i);
      }
      var timestamp, smokerTemp, foodA, foodB := row[0], row[1], row[2], row[3];
      if smokerTemp == [] {
        smokerTemp := NoReading;
      }
      if foodA == [] {
        foodA := NoReading;
      }
      if foodB == [] {
        foodB := NoReading;
      }
      var message1 := Publish(q.smoker, Encode(timestamp, smokerTemp));
      var message2 := Publish(q.foodA, Encode(timestamp, foodA));
      var message3 := Publish(q.foodB, Encode(timestamp, foodB));
      var messages := [message1, message2, message3];
      assert messages == RowMessages(q, row);
      PublishedExtend(q, rows, i);
      ops := ops + messages;
      i := i + 1;
    }
    assert rows[1..i] == rows[1..];
    outcome := Finished;
  }

  /** The publishes for rows `1..i+1` extend those for rows `1..i` by row
      `i`'s three messages, and so does the whole channel log. */
  lemma PublishedExtend(q: Queues, rows: seq<seq<string>>, i: nat)
    requires 1 <= i < |rows|
    requires WellFormed(rows[1..i]) && |rows[i]| == 4
    ensures WellFormed(rows[1..i + 1])
    ensures Published(q, rows[1..i + 1]) == Published(q, rows[1..i]) + RowMessages(q, rows[i])
    ensures Setup(q) + Published(q, rows[1..i + 1]) == Setup(q) + Published(q, rows[1..i]) + RowMessages(q, rows[i])
  {
    var longer := rows[1..i + 1];
    assert longer[..i - 1] == rows[1..i];
    assert longer[i - 1] == rows[i];
    assert WellFormed(longer) by {
      forall j | 0 <= j < |longer| ensures |longer[j]| == 4 {
        if j < i - 1 {
          assert longer[j] == rows[1..i][j];
        }
      }
    }
  }

  /** Row `r` of the data (the row after `r` others) yields publishes
      `3r`, `3r+1`, `3r+2`: smoker, food A, food B, each body being the
      timestamp, a comma, and the substituted field. */
  lemma {:induction false} PublishedAt(q: Queues, rows: seq<seq<string>>, r: nat)
    requires WellFormed(rows)
    requires r < |rows|
    ensures Published(q, rows)[3 * r] == Publish(q.smoker, rows[r][0] + [Comma] + Substitute(rows[r][1]))
    ensures Published(q, rows)[3 * r + 1] == Publish(q.foodA, rows[r][0] + [Comma] + Substitute(rows[r][2]))
    ensures Published(q, rows)[3 * r + 2] == Publish(q.foodB, rows[r][0] + [Comma] + Substitute(rows[r][3]))
    decreases |rows|
  {
    var init := rows[..|rows| - 1];
    assert WellFormed(init) by {
      forall i | 0 <= i < |init| ensures |init[i]| == 4 {
        assert init[i] == rows[i];
      }
    }
    if r < |rows| - 1 {
      PublishedAt(q, init, r);
      assert init[r] == rows[r];
    }
  }

  /** The published body of a field reaches a consumer intact: when neither
      the timestamp nor the field contains a comma, the consumer's split gives
      exactly `[timestamp, value]` with the substituted value at index 1. */
  lemma ConsumerReadsPublishedValue(timestamp: string, field: string)
    requires Comma !in timestamp && Comma !in field
    ensures Split(Encode(timestamp, Substitute(field))) == [timestamp, Substitute(field)]
  {
    var v := Substitute(field);
    assert Comma !in NoReading;
    SplitPair(timestamp, v);
  }

  /** An empty CSV field arrives as a `No Reading` body, which both
      consumers acknowledge without touching their window. */
  lemma EmptyFieldDecodesAbsent(timestamp: string, parse: Parser)
    requires Comma !in timestamp
    ensures Decode(Encode(timestamp, Substitute([])), parse) == Absent
  {
    ConsumerReadsPublishedValue(timestamp, []);
  }

  /** A non-empty comma-free field that `float` accepts arrives as a reading
      of that value, stamped with the row's timestamp. */
  lemma ValueDecodesAsReading(timestamp: string, field: string, parse: Parser)
    requires Comma !in timestamp && Comma !in field
    requires field != [] && field != NoReading && parse(field).Some?
    ensures Decode(Encode(timestamp, Substitute(field)), parse) ==
      Reading(timestamp, parse(field).value)
  {
    ConsumerReadsPublishedValue(timestamp, field);
  }
}
