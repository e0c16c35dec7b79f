# Smart smoker temperature pipeline — a Dafny model

The system streams temperatures from a CSV log of a smart smoker through a
message broker to two consumers:

- The producer (`message_producer.py`) turns every data row
  `timestamp, smoker, foodA, foodB` into three message bodies of the form
  `timestamp,value`. It publishes them to three durable queues. An empty
  field becomes `No Reading`.
- The smoker consumer (`consumer-01-smoker.py`) keeps the last five smoker
  temperatures in a `deque(maxlen=5)`. It emails an alert whenever some
  older temperature exceeds the newest by more than 15 degrees.
- The food-A consumer (`consumer-02-foodA.py`) keeps the last twenty food-A
  temperatures. It emails a stall alert when the newest and oldest of a full
  window differ by less than one degree.
- Each consumer acknowledges a delivery only when its callback's `try` block
  runs to the end. Each runs with a prefetch of one message and manual
  acknowledgement.

The model has one module per concern:

- `Wire` (`wire.dfy`) is the comma wire format: `str.split(",")` and
  `",".join`, with their round trips.
- `SlidingWindow` (`window.dfy`) is the bounded deque. It is a `Window` class
  whose `Append` evicts the oldest value. It also holds the specification
  `Newest(xs, n)` and the law that a run of appends keeps the newest `n`
  values in arrival order.
- `Message` (`message.dfy`) is what both callbacks share:
  - decoding a body into a reading, a skipped `No Reading`, or an exception;
  - the exceptions;
  - the email calls, with their exact subject and body text;
  - the outcome of one callback: the new window, the emails sent, and the
    exception that ended the callback, if any.
- `Smoker` (`smoker.dfy`) and `FoodA` (`food_a.dfy`) each have:
  - the trend rule;
  - the callback as a pure `Step` on the window;
  - a worker class whose `Callback` method appends to the window in place
    and is proved to agree with `Step`;
  - lemmas for every path through the callback.
- `Consumption` (`consumption.dfy`) is the delivery discipline. Messages are
  handed over one at a time, and the first delivery left unacknowledged stops
  all further deliveries. It also holds the lemmas about whole message
  streams.
- `Producer` (`producer.dfy`) is `send_message`'s row loop as a method that
  returns the channel calls it makes. It also holds the encoding and the
  round trip into the consumers' decoding.

Three inputs are outside the model and enter as parameters:

- `float(...)` is a partial function `parse: string -> Option<real>`.
- Whether the email transport raises is a flag on each delivery.
- The CSV rows are a `seq<seq<string>>`.

The model follows the code as written, including these behaviours a reader
might not expect:

- No alert is re-armed or deduplicated. Every qualifying message sends
  another email.
- The smoker computes each older value minus the newest, so only a drop
  fires.
- An exception in a callback (no comma, an unparsable value, a failed email
  call) skips the acknowledgement. Under prefetch one, that worker then
  receives nothing more.
- Food A assigns `temperature_change` only once its window holds 20 values.
  Every numeric reading before that raises `UnboundLocalError` after it has
  been appended. A fresh food-A worker is therefore stuck at its first
  numeric reading and never emails (`Consumption.FoodAStallsAtFirstReading`).

## Model

| member | source | states |
|---|---|---|
| Wire.Split | consumer-01-smoker.py:43 | splitting on commas yields one more piece than there are commas |
| Wire.SplitPieces | consumer-01-smoker.py:43-45 | a body has a second field exactly when it contains a comma; no piece contains a comma |
| Wire.SplitJoin | message_producer.py:87-89 | joining comma-free pieces with commas and splitting again gives the pieces back |
| Wire.JoinSplit | message_producer.py:87-89 | splitting a string and joining the pieces with commas gives the string back |
| Wire.SplitPair | message_producer.py:82-89 | `",".join((a, b))` is `a,b`, and for comma-free `a`, `b` it splits into exactly `[a, b]` |
| SlidingWindow.Newest | consumer-01-smoker.py:24 | the deque's contents after an append: at most `maxlen` values, each the matching one of the newest values in arrival order |
| SlidingWindow.NewestOfNewest | consumer-01-smoker.py:51 | trimming to the newest `n` before further appends loses nothing |
| SlidingWindow.PushAllKeepsNewest | consumer-01-smoker.py:51 | after any sequence of appends to a window of at most `n` values, it holds at most `n` values, and they are the last `min(k, n)` values seen, in order |
| SlidingWindow.Window.constructor | consumer-01-smoker.py:24 | a new deque with the given `maxlen` is empty |
| SlidingWindow.Window.Append | consumer-01-smoker.py:51 | `append` in place: the window becomes the newest `maxlen` of the old contents plus the new value, and stays within `maxlen` |
| Message.SubjectEndsWithTimestamp | consumer-01-smoker.py:65 | the email subject ends with field 0 verbatim |
| Message.BodyCarriesTimestamp | consumer-02-foodA.py:58 | the email body carries field 0 verbatim right after its opening words |
| Message.DecodeCases | consumer-01-smoker.py:43-49 | no comma is an IndexError; a second field of `No Reading` is skipped; a second field that `float` rejects is a ValueError; otherwise field 0 is the timestamp and field 1 the value |
| Message.DecodeIgnoresExtraFields | consumer-01-smoker.py:43-49 | fields after index 1 never change how a body is read |
| Smoker.Step | consumer-01-smoker.py:37-77 | the window stays within 5 values, at most one email is sent, and the smoker callback never raises UnboundLocalError |
| Smoker.AnyExceedsIff | consumer-01-smoker.py:59 | `any(value > 15 ...)` holds exactly when some element exceeds 15 |
| Smoker.AlertIffDrop | consumer-01-smoker.py:54-59 | the alert fires exactly when some older value minus the newest is strictly greater than 15 |
| Smoker.ShortWindowNoAlert | consumer-01-smoker.py:54-59 | with fewer than two values `temperature_change` stays `[]` and no alert fires |
| Smoker.RiseNeverAlerts | consumer-01-smoker.py:55-59 | a window whose newest value is at least every older value minus 15 never alerts: rises and a drop of exactly 15 do not fire |
| Smoker.AlertExamples | consumer-01-smoker.py:55-59 | concrete windows: a rise of 18 and a drop of exactly 15 do not fire; drops of 18 and 15.5 do |
| Smoker.NoReadingSkipped | consumer-01-smoker.py:45-73 | a `No Reading` body leaves the window unchanged, sends nothing, and is acknowledged |
| Smoker.MalformedNotAcked | consumer-01-smoker.py:43-77 | a body without a comma, or whose value `float` rejects, leaves the window unchanged, sends nothing, and is not acknowledged, with the matching exception |
| Smoker.ReadingStep | consumer-01-smoker.py:47-77 | a numeric reading is appended; exactly one email naming field 0 is sent exactly when the new window qualifies; the delivery is acknowledged unless that email call raised |
| Smoker.AckedIff | consumer-01-smoker.py:41-77 | a delivery is acknowledged exactly when it is `No Reading`, or it parses and either no alert is due or the email call returns |
| Smoker.SmokerWorker.constructor | consumer-01-smoker.py:24 | the worker starts with an empty five-value window |
| Smoker.SmokerWorker.Callback | consumer-01-smoker.py:28-77 | the imperative callback's window update, emails and acknowledgement are exactly those of `Smoker.Step` |
| FoodA.Step | consumer-02-foodA.py:34-69 | the window stays within 20 values and at most one email is sent |
| FoodA.StallIff | consumer-02-foodA.py:47-51 | on a full window the alert fires exactly when newest minus oldest lies strictly between -1 and 1 |
| FoodA.StallExamples | consumer-02-foodA.py:47-51 | concrete windows: spans of 0.5 and -0.75 fire; spans of 10 and of exactly 1 do not |
| FoodA.NoReadingSkipped | consumer-02-foodA.py:38-65 | a `No Reading` body leaves the window unchanged, sends nothing, and is acknowledged |
| FoodA.MalformedNotAcked | consumer-02-foodA.py:36-69 | a body without a comma, or whose value `float` rejects, leaves the window unchanged, sends nothing, and is not acknowledged |
| FoodA.ShortWindowRaises | consumer-02-foodA.py:44-51 | while the appended window holds fewer than 20 values, a numeric reading stays appended, raises UnboundLocalError, sends nothing and is not acknowledged |
| FoodA.FullWindowStep | consumer-02-foodA.py:44-65 | once the window fills, a numeric reading is appended, one email naming field 0 is sent exactly when the window is stalled, and the delivery is acknowledged unless that call raised |
| FoodA.AckedIff | consumer-02-foodA.py:38-65 | a delivery is acknowledged exactly when it is `No Reading`, or it parses, the window is full after the append, and no email call raised |
| FoodA.FoodAWorker.constructor | consumer-02-foodA.py:24 | the worker starts with an empty twenty-value window |
| FoodA.FoodAWorker.Callback | consumer-02-foodA.py:27-69 | the imperative callback's window update, emails and acknowledgement are exactly those of `FoodA.Step` |
| Consumption.Consume | consumer-01-smoker.py:117-122 | a worker is handed messages in order and never more than offered; a worker that is not stuck was handed all of them, and a stuck worker was handed at least one |
| Consumption.StuckIgnoresLater | consumer-01-smoker.py:117-122 | once a delivery goes unacknowledged, later messages change nothing: they are never delivered |
| Consumption.ConsumeAcked | consumer-01-smoker.py:117-122 | an acknowledged first delivery is followed by the run over the remaining messages from the new window |
| Consumption.WindowFollowsAppends | consumer-01-smoker.py:117-122 | a callback that acknowledges and appends every numeric reading, fed only such readings, never gets stuck, and its window is the fold of the appends |
| Consumption.SmokerWindowKeepsNewest | consumer-01-smoker.py:51 | a smoker worker fed numeric readings whose emails go through never gets stuck, and its window is the last `min(n, 5)` values in arrival order |
| Consumption.FoodAWindowKeepsNewest | consumer-02-foodA.py:44 | from a window of at least 19 values, a food-A worker fed such readings never gets stuck, and its window is the last 20 values in arrival order |
| Consumption.FoodANeverAlertsBeforeFull | consumer-02-foodA.py:44-51 | a food-A worker whose window holds fewer than 19 values sends no email, whatever it is offered, and appends at most one value |
| Consumption.FoodAStallsAtFirstReading | consumer-02-foodA.py:109-114 | a fresh food-A worker whose first numeric reading is message `k` is handed exactly `k + 1` messages, is stuck, holds that one reading, and never emails |
| Consumption.ConsumeTwo | consumer-01-smoker.py:117-122 | two deliveries that each send one email, the first acknowledged, send both |
| Consumption.SmokerAlertsEveryTime | consumer-01-smoker.py:59-69 | two qualifying smoker readings in a row send two emails: there is no suppression across messages |
| Consumption.FoodAAlertsEveryTime | consumer-02-foodA.py:51-61 | while a stall persists, every reading on a full window sends another email |
| Producer.Substitute | message_producer.py:72-77 | an empty field becomes `No Reading`; any other string passes through unchanged |
| Producer.Encode | message_producer.py:82-89 | each body is exactly the timestamp, a comma, and the value |
| Producer.RowMessages | message_producer.py:82-101 | a row yields three publishes: smoker to the first queue, food A to the second, food B to the third, each `timestamp,value` with empty values substituted |
| Producer.Published | message_producer.py:67-101 | well-formed data rows yield exactly three publishes each |
| Producer.PublishedExtend | message_producer.py:67-101 | one more row adds exactly its three publishes at the end |
| Producer.PublishedAt | message_producer.py:93-101 | the data row `r` yields publishes `3r`, `3r+1` and `3r+2`, in file order and queue order, with their bodies |
| Producer.SendMessage | message_producer.py:50-112 | the six queue deletes and durable declares come first; the header is skipped; an empty file aborts at `next`; a row without four fields aborts the run after exactly the earlier rows' publishes; otherwise every row is published |
| Producer.ConsumerReadsPublishedValue | message_producer.py:87 | for comma-free timestamp and field, splitting the published body gives exactly `[timestamp, value]` |
| Producer.EmptyFieldDecodesAbsent | message_producer.py:72-89 | an empty CSV field reaches a consumer as a skipped `No Reading` |
| Producer.ValueDecodesAsReading | message_producer.py:82-89 | a comma-free field that `float` accepts reaches a consumer as that reading, stamped with the row's timestamp |

## Left out

- Broker I/O is not modelled: connections, channels, `queue_declare`, `basic_qos`, `start_consuming` and the `main` exit codes. Only the prefetch-one, manual-acknowledgement delivery rule is kept, in `Consumption.Consume`.
- Redelivery of an unacknowledged message is not modelled: it happens when the channel closes.
- `createAndSendEmailAlert` lives outside these files. Its only effect modelled is whether it raises, a per-delivery flag.
- Logging is treated as having no effect. The two-argument `logger.info` calls (consumer-01-smoker.py:63, consumer-02-foodA.py:52) cause a formatting error that the logging handler reports and swallows, so control flow is unchanged.
- `float(...)` is a parameter. IEEE rounding, `nan`, `inf` and whitespace handling are not modelled, and temperatures are `real`.
- `body.decode()` runs before the `try`, so invalid UTF-8 would escape the callback. Bodies are modelled as already-decoded strings.
- The producer's `csv.reader` quoting is not modelled: rows are given as lists of fields.
- Also left out of the producer: opening the file, `time.sleep(30)`, `input()`, `webbrowser`, and the connection-failure path with its unbound `conn` in `finally`.
- The third queue (food B) has no consumer in these files, so only its publishes are modelled.
