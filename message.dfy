/** What the two consumer callbacks share: reading a delivery's body, the
    exceptions that end a callback before its acknowledgement, and the
    outcome of handling one delivery. */
module Message {
  import opened Wire

  datatype Option<T> = None | Some(value: T)

  /** The exceptions a callback's `try` block can raise; each one is caught,
      logged, and skips `basic_ack`. */
  datatype Fault =
    | IndexError         // the body has no comma, so `split(",")[1]` fails
    | ValueError         // `float(...)` rejects the second field
    | UnboundLocalError  // food A reads `temperature_change` before assigning it
    | EmailError         // `createAndSendEmailAlert` raised

  /** Python's `float(...)` on a field, as a partial function: `None` where
      it raises. */
  type Parser = string -> Option<real>

  /** A body as the callback reads it. */
  datatype Decoded =
    | Malformed(fault: Fault)
    | Absent
    | Reading(timestamp: string, temp: real)

  /** One call of `createAndSendEmailAlert(subject, body)`: which alert, and
      the timestamp field it names. `Subject` and `Body` give the two strings
      passed. */
  datatype Email = SmokerAlert(timestamp: string) | FoodAAlert(timestamp: string)

  function Subject(e: Email): string
  {
    match e
    case SmokerAlert(ts) => "Smoker Temperature Alert at " + ts
    case FoodAAlert(ts) => "FoodA Temperature Alert at " + ts
  }

  /** The opening words of each body, up to the timestamp. */
  const SmokerBodyLead: string :=
    "Smoker Temperature Alerted That It Has Changed More than 15 Degrees in the last 2.5 minutes at "
  const FoodABodyLead: string :=
    "Food A Temperature Alerted That It Has Changed Less than 1 Degree in the last 10 minutes at "

  function Body(e: Email): string
  {
    match e
    case SmokerAlert(ts) => SmokerBodyLead + ts + "."
    case FoodAAlert(ts) => FoodABodyLead + ts + " indicating a stall."
  }

  /** The body carries the timestamp verbatim right after its opening
      words. */
  lemma BodyCarriesTimestamp(e: Email)
    ensures var lead := if e.SmokerAlert? then SmokerBodyLead else FoodABodyLead;
      |lead| + |e.timestamp| <= |Body(e)| &&
      Body(e)[|lead|..|lead| + |e.timestamp|] == e.timestamp
  {
    match e
    case SmokerAlert(ts) => Middle(SmokerBodyLead, ts, ".");
    case FoodAAlert(ts) => Middle(FoodABodyLead, ts, " indicating a stall.");
  }

  lemma Middle(p: string, m: string, q: string)
    ensures |p| + |m| <= |p + m + q|
    ensures (p + m + q)[|p|..|p| + |m|] == m
  {
  }

  /** The subject ends with the timestamp, verbatim. */
  lemma SubjectEndsWithTimestamp(e: Email)
    ensures |e.timestamp| <= |Subject(e)|
    ensures Subject(e)[|Subject(e)| - |e.timestamp|..] == e.timestamp
  {
  }

  /** The result of one callback: the window afterwards, the email calls it
      made, and the exception that ended it, if any. */
  datatype Outcome = Outcome(window: seq<real>, sent: seq<Email>, fault: Option<Fault>)
  {
    /** `basic_ack` is reached exactly when the `try` block ran to its end. */
    predicate Acked() { fault.None? }
  }

  /** One delivery from the broker, together with whether the email
      transport raises if the callback calls it for this delivery. */
  datatype Delivery = Delivery(body: string, emailRaises: bool)

  /** The first steps of both callbacks: split on commas, compare field 1
      with `No Reading`, else convert it with `float` and take field 0 as the
      timestamp. */
  function Decode(body: string, parse: Parser): Decoded
  {
    var fields := Split(body);
    if |fields| < 2 then Malformed(IndexError)
    else if fields[1] == NoReading then Absent
    else match parse(fields[1])
      case None => Malformed(ValueError)
      case Some(t) => Reading(fields[0], t)
  }

  /** How a body decodes, in terms of its comma-separated fields: no comma is
      an IndexError, field 1 equal to `No Reading` is a skipped reading, a
      field 1 that `float` rejects is a ValueError, and otherwise field 0 is
      the timestamp and field 1 the temperature. */
  lemma DecodeCases(body: string, parse: Parser)
    ensures Decode(body, parse) == Malformed(IndexError) <==> Comma !in body
    ensures Decode(body, parse) == Absent <==> Comma in body && Split(body)[1] == NoReading
    ensures Decode(body, parse) == Malformed(ValueError) <==>
      Comma in body && Split(body)[1] != NoReading && parse(Split(body)[1]).None?
    ensures Decode(body, parse).Reading? <==>
      Comma in body && Split(body)[1] != NoReading && parse(Split(body)[1]).Some?
    ensures Decode(body, parse).Reading? ==>
      Decode(body, parse).timestamp == Split(body)[0] &&
      Some(Decode(body, parse).temp) == parse(Split(body)[1])
  {
    SplitPieces(body);
  }

  /** Fields after index 1 never matter: `ts,v,...` reads like `ts,v`. */
  lemma DecodeIgnoresExtraFields(ts: string, v: string, extra: string, parse: Parser)
    requires Comma !in ts && Comma !in v
    ensures Decode(ts + [Comma] + v + [Comma] + extra, parse) == Decode(ts + [Comma] + v, parse)
  {
    var long := ts + [Comma] + v + [Comma] + extra;
    var short := ts + [Comma] + v;
    assert Split(long)[..2] == Split(short) by {
      SplitPair(ts, v);
      assert long == ts + [Comma] + (v + [Comma] + extra);
      SplitAtFirstComma(ts, v + [Comma] + extra);
      SplitAtFirstComma(v, extra);
    }
    assert Split(long)[0] == Split(short)[0] && Split(long)[1] == Split(short)[1];
  }
}
