/** Values shared by every part of the model: PHP's nullable results and the
    two exceptions the library lets escape to its callers. */
module Common {

  /** A PHP `?T` value: `None` stands for `null`. */
  datatype Option<+T> = None | Some(value: T)

  /** The exceptions a caller of the library can observe.
      `FailedToDetermine` is FailedToDetermineAvailableMemoryException,
      `InvalidPercentage` is InvalidPercentageLimitOfAvailableMemoryException
      carrying the rejected percentage. */
  datatype Error = FailedToDetermine | InvalidPercentage(percentage: real)

  /** Either a returned value or a thrown exception. */
  datatype Result<+T> = Ok(value: T) | Err(error: Error)

  /** How often `x` occurs in `s`. */
  function Occurrences<T(==)>(s: seq<T>, x: T): nat
  {
    if |s| == 0 then 0
    else (if s[0] == x then 1 else 0) + Occurrences(s[1..], x)
  }

  lemma {:induction false} OccurrencesAppend<T>(a: seq<T>, b: seq<T>, x: T)
    ensures Occurrences(a + b, x) == Occurrences(a, x) + Occurrences(b, x)
  {
    if |a| == 0 {
      assert a + b == b;
    } else {
      assert (a + b)[1..] == a[1..] + b;
      OccurrencesAppend(a[1..], b, x);
    }
  }

  lemma {:induction false} OccurrencesAbsent<T>(s: seq<T>, x: T)
    ensures Occurrences(s, x) == 0 <==> x !in s
  {
    if |s| > 0 {
      OccurrencesAbsent(s[1..], x);
      assert s == [s[0]] + s[1..];
    }
  }
}
