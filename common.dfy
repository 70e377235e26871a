/** Shared vocabulary: the missing-value marker, results with the errors pandas raises, and small helpers. */
module Common {

  /** `None` is pandas' NaN / missing marker; `Some(v)` an observed value. */
  datatype Option<+T> = None | Some(value: T)

  /** The exceptions raised by the modelled operations. */
  datatype Error =
    | KeyError(key: string)          // a column looked up by name is absent
    | ValueError(message: string)    // explicit `raise ValueError(...)` in the toolkit
    | FormatError(text: string)     // a month label does not match '%YM%m%d'
    | TypeError(text: string)       // a month label cell that is a number, not text
    | CalendarError(message: string) // parsed fields that Python's `date` rejects (year 0, day past month end)
    | OutOfBoundsDatetime(text: string)  // parsed date outside pandas' nanosecond range
    | IndexError                     // `datasets[0]` on an empty list

  datatype Result<+T> = Ok(value: T) | Err(error: Error)

  predicate Distinct<T(==)>(s: seq<T>)
  {
    forall i, j :: 0 <= i < j < |s| ==> s[i] != s[j]
  }

  function Min(a: int, b: int): int
  {
    if a <= b then a else b
  }

  /** The column names `s` with every occurrence of `x` removed, order kept. */
  function Without(s: seq<string>, x: string): (r: seq<string>)
    ensures forall y :: y in r <==> y in s && y != x
    ensures |r| <= |s|
    ensures x !in s ==> r == s
  {
    if |s| == 0 then []
    else if s[0] == x then Without(s[1..], x)
    else [s[0]] + Without(s[1..], x)
  }

  lemma {:induction false} WithoutDistinct(s: seq<string>, x: string)
    requires Distinct(s)
    ensures Distinct(Without(s, x))
  {
    if |s| > 0 {
      assert Distinct(s[1..]) by {
        forall i, j | 0 <= i < j < |s[1..]| ensures s[1..][i] != s[1..][j] {
          assert s[1..][i] == s[i + 1] && s[1..][j] == s[j + 1];
        }
      }
      WithoutDistinct(s[1..], x);
      assert s[0] !in s[1..];
    }
  }

  /**
   * Removal works piece by piece, `Without(s + t) == Without(s) + Without(t)`, and leaves a single
   * other name in place: the names that remain keep their relative order.
   */
  lemma {:induction false} WithoutKeepsOrder(s: seq<string>, t: seq<string>, x: string)
    ensures Without(s + t, x) == Without(s, x) + Without(t, x)
    ensures forall y :: y != x ==> Without([y], x) == [y]
  {
    if |s| > 0 {
      assert (s + t)[0] == s[0] && (s + t)[1..] == s[1..] + t;
      WithoutKeepsOrder(s[1..], t, x);
    } else {
      assert s + t == t;
    }
    forall y | y != x ensures Without([y], x) == [y] {
      assert [y][1..] == [];
    }
  }
}
