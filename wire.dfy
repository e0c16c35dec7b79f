/** The wire format shared by the producer and the two consumers: a message
    body is a comma-joined string, and a consumer splits it on every comma
    (Python's `str.split(",")` and `",".join(...)`). */
module Wire {

  const Comma: char := ','

  /** The token the producer writes for a sensor that had no data point. */
  const NoReading: string := "No Reading"

  /** Number of commas in `s`. */
  function Commas(s: string): nat
  {
    if s == [] then 0 else (if s[0] == Comma then 1 else 0) + Commas(s[1..])
  }

  /** `s.split(",")`: the pieces between commas, one more than there are
      commas (the empty string splits into one empty piece). */
  function Split(s: string): (parts: seq<string>)
    ensures |parts| == Commas(s) + 1
    decreases |s|
  {
    if s == [] then [[]]
    else
      var rest := Split(s[1..]);
      if s[0] == Comma then [[]] + rest
      else [[s[0]] + rest[0]] + rest[1..]
  }

  /** No piece contains a comma, and there are several pieces exactly when
      the string has a comma. */
  lemma {:induction false} SplitPieces(s: string)
    ensures Comma in s <==> |Split(s)| > 1
    ensures forall i :: 0 <= i < |Split(s)| ==> Comma !in Split(s)[i]
    decreases |s|
  {
    if s != [] {
      SplitPieces(s[1..]);
      assert Comma in s <==> s[0] == Comma || Comma in s[1..] by {
        assert s == [s[0]] + s[1..];
      }
    }
  }

  /** `",".join(parts)` for a non-empty list of pieces. */
  function Join(parts: seq<string>): string
    requires |parts| > 0
    decreases |parts|
  {
    if |parts| == 1 then parts[0] else parts[0] + [Comma] + Join(parts[1..])
  }

  /** A comma-free prefix glues onto the first piece of whatever follows it. */
  lemma {:induction false} SplitPrefix(a: string, rest: string)
    requires Comma !in a
    ensures Split(a + rest) == [a + Split(rest)[0]] + Split(rest)[1..]
    decreases |a|
  {
    if a == [] {
      assert a + rest == rest;
      assert a + Split(rest)[0] == Split(rest)[0];
      assert Split(rest) == [Split(rest)[0]] + Split(rest)[1..];
    } else {
      assert (a + rest)[1..] == a[1..] + rest;
      SplitPrefix(a[1..], rest);
      assert [a[0]] + (a[1..] + Split(rest)[0]) == a + Split(rest)[0];
    }
  }

  /** Splitting `a,rest` with a comma-free `a` yields `a` followed by the
      pieces of `rest`. */
  lemma SplitAtFirstComma(a: string, rest: string)
    requires Comma !in a
    ensures Split(a + [Comma] + rest) == [a] + Split(rest)
  {
    assert a + [Comma] + rest == a + ([Comma] + rest);
    SplitPrefix(a, [Comma] + rest);
    assert ([Comma] + rest)[1..] == rest;
    assert a + [] == a;
  }

  /** A comma-free string is a single piece. */
  lemma SplitNoComma(a: string)
    requires Comma !in a
    ensures Split(a) == [a]
  {
    SplitPrefix(a, []);
    assert a + [] == a;
  }

  /** Joining comma-free pieces and splitting again gives the pieces back. */
  lemma {:induction false} SplitJoin(parts: seq<string>)
    requires |parts| > 0
    requires forall i :: 0 <= i < |parts| ==> Comma !in parts[i]
    ensures Split(Join(parts)) == parts
    decreases |parts|
  {
    if |parts| == 1 {
      SplitNoComma(parts[0]);
    } else {
      SplitJoin(parts[1..]);
      SplitAtFirstComma(parts[0], Join(parts[1..]));
      assert parts == [parts[0]] + parts[1..];
    }
  }

  /** Splitting then joining gives the original string back. */
  lemma {:induction false} JoinSplit(s: string)
    ensures Join(Split(s)) == s
    decreases |s|
  {
    if s != [] {
      var rest := Split(s[1..]);
      JoinSplit(s[1..]);
      if s[0] == Comma {
        assert Split(s)[1..] == rest;
        assert s == [Comma] + s[1..];
      } else if |rest| == 1 {
        assert s == [s[0]] + s[1..];
      } else {
        assert Split(s)[1..] == rest[1..];
        assert Join(rest) == rest[0] + [Comma] + Join(rest[1..]);
        assert s == [s[0]] + s[1..];
      }
    }
  }

  /** The two-field body `a,b` of comma-free fields splits into exactly
      `[a, b]`: the round trip between the producer's join and a consumer's
      split. */
  lemma SplitPair(a: string, b: string)
    requires Comma !in a && Comma !in b
    ensures Join([a, b]) == a + [Comma] + b
    ensures Split(a + [Comma] + b) == [a, b]
  {
    SplitAtFirstComma(a, b);
    SplitNoComma(b);
  }
}
