/**
 * Shared vocabulary of the factor scripts: missing cells, spreadsheet cells,
 * parsed dates, the error outcomes of a script run, and the few sequence
 * operations (filtering, summing, maximum) that the table transformations use.
 */
module Tables {

  /** A value that may be missing: NaN, NaT or None in a data frame. */
  datatype Option<+T> = None | Some(value: T)
  {
    /** `fillna(default)` on one cell. */
    function GetOr(default: T): T
    {
      match this
      case Some(v) => v
      case None => default
    }
  }

  /** What makes a script stop with an exception. */
  datatype Error =
    | NoObjectsToConcatenate        // pd.concat of an empty list
    | ReadFailed(file: string)      // read_excel raised and nothing caught it
    | MissingColumn(column: string) // KeyError on a column selection
    | DateParseFailed               // to_datetime with a format and no coercion
    | IntParseFailed                // astype(int) on text that is not an integer
    | FloatParseFailed              // astype(float) on text that is not a number
    | EmptyProduct                  // unpacking zip(*product(...)) of nothing

  datatype Result<+T> = Ok(value: T) | Err(error: Error)

  /** The end of a script: a table written, an early return without writing, or an exception. */
  datatype Outcome<+T> = Written(table: seq<T>) | Stopped | Raised(error: Error)

  /** A stock code, kept as text so that leading zeros survive. */
  type Code = string

  /** A spreadsheet cell as the reader delivers it. */
  datatype Cell = Num(x: real) | Text(s: string) | Blank

  datatype Date = Date(year: int, month: int, day: int)

  /** A date that `pd.to_datetime` produced: inside the Timestamp range, month and day in range. */
  type ParsedDate = d: Date | 1677 <= d.year <= 2262 && 1 <= d.month <= 12 && 1 <= d.day <= 31
    witness Date(2000, 1, 1)

  /** Chronological order on parsed dates. */
  predicate DateLt(a: Date, b: Date)
  {
    a.year < b.year || (a.year == b.year && (a.month < b.month || (a.month == b.month && a.day < b.day)))
  }

  /** The rows of `s` that satisfy `p`, in their original order (boolean-mask selection). */
  function Filter<T>(s: seq<T>, p: T -> bool): (r: seq<T>)
    ensures |r| <= |s|
    ensures forall i :: 0 <= i < |r| ==> p(r[i])
  {
    if s == [] then []
    else
      assert s == [s[0]] + s[1..];
      var rest := Filter(s[1..], p);
      if p(s[0]) then [s[0]] + rest else rest
  }

  /** The rows kept are rows of `s`, and every row of `s` that passes is kept. */
  lemma {:induction false} FilterMembers<T>(s: seq<T>, p: T -> bool)
    ensures forall i :: 0 <= i < |Filter(s, p)| ==> Filter(s, p)[i] in s
    ensures forall i :: 0 <= i < |s| && p(s[i]) ==> s[i] in Filter(s, p)
  {
    if s != [] {
      FilterMembers(s[1..], p);
      assert forall i :: 1 <= i < |s| ==> s[i] == s[1..][i - 1];
    }
  }

  lemma {:induction false} FilterConcat<T>(a: seq<T>, b: seq<T>, p: T -> bool)
    ensures Filter(a + b, p) == Filter(a, p) + Filter(b, p)
  {
    if a == [] {
      assert a + b == b;
    } else {
      assert (a + b)[0] == a[0];
      assert (a + b)[1..] == a[1..] + b;
      FilterConcat(a[1..], b, p);
    }
  }

  /** Filtering a prefix one element longer adds that element when it passes. */
  lemma FilterSnoc<T>(s: seq<T>, x: T, p: T -> bool)
    ensures Filter(s + [x], p) == Filter(s, p) + (if p(x) then [x] else [])
  {
    FilterConcat(s, [x], p);
    assert Filter([x], p) == (if p(x) then [x] else []) by {
      assert [x][1..] == [];
    }
  }

  /** A filter that every element passes keeps the whole sequence. */
  lemma {:induction false} FilterKeepsAll<T>(s: seq<T>, p: T -> bool)
    requires forall i :: 0 <= i < |s| ==> p(s[i])
    ensures Filter(s, p) == s
  {
    if s != [] {
      FilterKeepsAll(s[1..], p);
    }
  }

  /** A filter that no element passes keeps nothing. */
  lemma {:induction false} FilterKeepsNone<T>(s: seq<T>, p: T -> bool)
    requires forall i :: 0 <= i < |s| ==> !p(s[i])
    ensures Filter(s, p) == []
  {
    if s != [] {
      FilterKeepsNone(s[1..], p);
    }
  }

  /** Filtering by a stronger condition after a weaker one is filtering by the stronger one alone. */
  lemma {:induction false} FilterFilter<T>(s: seq<T>, q: T -> bool, p: T -> bool)
    requires forall x :: p(x) ==> q(x)
    ensures Filter(Filter(s, q), p) == Filter(s, p)
  {
    if s != [] {
      FilterFilter(s[1..], q, p);
      if q(s[0]) {
        assert Filter(s, q) == [s[0]] + Filter(s[1..], q);
        assert Filter(s, q)[0] == s[0];
        assert Filter(s, q)[1..] == Filter(s[1..], q);
      }
    }
  }

  /**
   * Computes a new row from each row, dropping the rows whose result is
   * missing (a column assignment followed by `df[df[col].notnull()]`).
   */
  function FilterMap<T, U>(s: seq<T>, f: T -> Option<U>): (r: seq<U>)
    ensures |r| <= |s|
  {
    if s == [] then []
    else
      var last := f(s[|s| - 1]);
      FilterMap(s[..|s| - 1], f) + (if last.Some? then [last.value] else [])
  }

  lemma {:induction false} FilterMapConcat<T, U>(a: seq<T>, b: seq<T>, f: T -> Option<U>)
    ensures FilterMap(a + b, f) == FilterMap(a, f) + FilterMap(b, f)
  {
    if b == [] {
      assert a + b == a;
    } else {
      var b' := b[..|b| - 1];
      assert (a + b)[..|a + b| - 1] == a + b';
      assert (a + b)[|a + b| - 1] == b[|b| - 1];
      FilterMapConcat(a, b', f);
    }
  }

  /** A value is in the result exactly when some row computes it. */
  lemma {:induction false} FilterMapMembers<T, U>(s: seq<T>, f: T -> Option<U>, u: U)
    ensures u in FilterMap(s, f) <==> exists i :: 0 <= i < |s| && f(s[i]) == Some(u)
  {
    if s != [] {
      var init := s[..|s| - 1];
      FilterMapMembers(init, f, u);
      if exists i :: 0 <= i < |init| && f(init[i]) == Some(u) {
        var i :| 0 <= i < |init| && f(init[i]) == Some(u);
        assert s[i] == init[i];
      }
      if exists i :: 0 <= i < |s| && f(s[i]) == Some(u) {
        var i :| 0 <= i < |s| && f(s[i]) == Some(u);
        if i < |init| {
          assert init[i] == s[i];
        }
      }
    }
  }

  /** When every row computes a value, nothing is dropped and the order is kept. */
  lemma {:induction false} FilterMapTotal<T, U>(s: seq<T>, f: T -> Option<U>)
    requires forall i :: 0 <= i < |s| ==> f(s[i]).Some?
    ensures |FilterMap(s, f)| == |s|
    ensures forall i :: 0 <= i < |s| ==> FilterMap(s, f)[i] == f(s[i]).value
  {
    if s != [] {
      var init := s[..|s| - 1];
      assert forall i :: 0 <= i < |init| ==> init[i] == s[i];
      FilterMapTotal(init, f);
    }
  }

  /** When no row computes a value, nothing is kept. */
  lemma {:induction false} FilterMapNone<T, U>(s: seq<T>, f: T -> Option<U>)
    requires forall i :: 0 <= i < |s| ==> f(s[i]).None?
    ensures FilterMap(s, f) == []
  {
    if s != [] {
      var init := s[..|s| - 1];
      assert forall i :: 0 <= i < |init| ==> init[i] == s[i];
      FilterMapNone(init, f);
    }
  }

  /** `dropna()` on a computed column: the values that are present, in order. */
  function Present<T>(s: seq<Option<T>>): (r: seq<T>)
    ensures |r| <= |s|
  {
    if s == [] then []
    else Present(s[..|s| - 1]) + (if s[|s| - 1].Some? then [s[|s| - 1].value] else [])
  }

  /** A value is kept exactly when it is present somewhere. */
  lemma {:induction false} PresentMembers<T>(s: seq<Option<T>>, x: T)
    ensures x in Present(s) <==> Some(x) in s
  {
    if s != [] {
      var init := s[..|s| - 1];
      PresentMembers(init, x);
      assert s == init + [s[|s| - 1]];
    }
  }

  /** `a - b` on two numeric columns; missing when either is. */
  function Minus(a: Option<real>, b: Option<real>): (r: Option<real>)
    ensures r.Some? <==> a.Some? && b.Some?
    ensures r.Some? ==> r.value + b.value == a.value
  {
    if a.Some? && b.Some? then Some(a.value - b.value) else None
  }

  /** `a / b`; a zero divisor gives an infinite value, which is not a number here. */
  function Divide(a: Option<real>, b: Option<real>): (r: Option<real>)
    ensures r.Some? <==> a.Some? && b.Some? && b.value != 0.0
    ensures r.Some? ==> r.value * b.value == a.value
  {
    if a.Some? && b.Some? && b.value != 0.0 then Some(a.value / b.value) else None
  }

  /**
   * A whole column converted by `astype`: every value converts, in order, or
   * the conversion raises `e` when some value does not.
   */
  function ParseAll<T, U>(xs: seq<T>, parse: T -> Option<U>, e: Error): (r: Result<seq<U>>)
    ensures r.Ok? ==> |r.value| == |xs| && forall i :: 0 <= i < |xs| ==> parse(xs[i]) == Some(r.value[i])
    ensures r.Err? <==> exists i :: 0 <= i < |xs| && parse(xs[i]).None?
    ensures r.Err? ==> r.error == e
  {
    if xs == [] then Ok([])
    else
      var init := xs[..|xs| - 1];
      assert forall i :: 0 <= i < |init| ==> init[i] == xs[i];
      match ParseAll(init, parse, e)
      case Err(e') => Err(e')
      case Ok(ys) =>
        match parse(xs[|xs| - 1])
        case None => Err(e)
        case Some(y) => Ok(ys + [y])
  }

  /** A column computed row by row, one output row per input row. */
  function Seq<T, U>(s: seq<T>, f: T -> U): (r: seq<U>)
    ensures |r| == |s| && forall i :: 0 <= i < |s| ==> r[i] == f(s[i])
  {
    seq(|s|, i requires 0 <= i < |s| => f(s[i]))
  }

  /** A quotient is the value that multiplied by the divisor gives the dividend. */
  lemma DivisionInverse(a: real, b: real, q: real)
    requires b != 0.0
    ensures q == a / b <==> q * b == a
  {
  }

  /** Concatenation of a sequence of tables (`pd.concat` of row lists). */
  function Flatten<T>(ss: seq<seq<T>>): (r: seq<T>)
  {
    if ss == [] then [] else Flatten(ss[..|ss| - 1]) + ss[|ss| - 1]
  }

  /** `Series.sum()` over exact reals. */
  function Sum(xs: seq<real>): real
  {
    if xs == [] then 0.0 else Sum(xs[..|xs| - 1]) + xs[|xs| - 1]
  }

  lemma {:induction false} SumConcat(a: seq<real>, b: seq<real>)
    ensures Sum(a + b) == Sum(a) + Sum(b)
  {
    if b == [] {
      assert a + b == a;
    } else {
      assert (a + b)[..|a + b| - 1] == a + b[..|b| - 1];
      SumConcat(a, b[..|b| - 1]);
    }
  }

  /** `Series.max()` of a non-empty group. */
  function MaxOf(xs: seq<real>): (m: real)
    requires |xs| > 0
    ensures m in xs
    ensures forall i :: 0 <= i < |xs| ==> xs[i] <= m
  {
    if |xs| == 1 then xs[0]
    else
      var rest := MaxOf(xs[1..]);
      assert forall i :: 1 <= i < |xs| ==> xs[i] == xs[1..][i - 1];
      if xs[0] >= rest then xs[0] else rest
  }

  /** The ranks 0, 1, ..., n-1 (`np.arange(n)`). */
  function Range(n: nat): (r: seq<nat>)
    ensures |r| == n && forall i :: 0 <= i < n ==> r[i] == i
  {
    seq(n, i requires 0 <= i < n => i)
  }
}
