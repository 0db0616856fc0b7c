/** Small value types and string helpers shared by every part of the generator model:
    optional values, the failure type that replaces Java exceptions, decimal rendering of
    Java integers (`"" + n`), separator joins and repeated characters. */
module Support {

  datatype Option<+T> = None | Some(value: T)

  /** The two ways an emission step can fail. `MissingInformation` is the model's
      `sourceanalysis.MissingInformationException`; `NullReference` stands for a Java
      `NullPointerException` on a path the generator does not guard. */
  datatype Failure = MissingInformation(what: string) | NullReference(what: string)

  datatype Result<+T> = Ok(value: T) | Err(failure: Failure) {
    predicate IsFailure() { Err? }
    function PropagateFailure<U>(): Result<U>
      requires Err?
    {
      Err(failure)
    }
    function Extract(): T
      requires Ok?
    {
      value
    }
  }

  // ---------------------------------------------------------------------------
  // Decimal digits

  predicate IsDigit(c: char) { '0' <= c <= '9' }

  predicate AllDigits(s: string) { forall i :: 0 <= i < |s| ==> IsDigit(s[i]) }

  function DigitChar(d: nat): (c: char)
    requires d < 10
    ensures IsDigit(c)
    ensures c as int - '0' as int == d
  {
    ['0','1','2','3','4','5','6','7','8','9'][d]
  }

  /** Decimal text of a natural number, as Java's string concatenation writes it. */
  function NatToString(n: nat): (r: string)
    ensures |r| >= 1
    ensures AllDigits(r)
    ensures n < 10 <==> |r| == 1
    decreases n
  {
    if n < 10 then [DigitChar(n)] else NatToString(n / 10) + [DigitChar(n % 10)]
  }

  /** The value of a string of decimal digits; the inverse of NatToString. */
  function ParseDigits(s: string): nat
    requires AllDigits(s)
  {
    if |s| == 0 then 0
    else 10 * ParseDigits(s[..|s| - 1]) + (s[|s| - 1] as int - '0' as int)
  }

  lemma {:induction false} ParseNatToString(n: nat)
    ensures ParseDigits(NatToString(n)) == n
    decreases n
  {
    var s := NatToString(n);
    if n >= 10 {
      ParseNatToString(n / 10);
      assert s[..|s| - 1] == NatToString(n / 10);
    }
  }

  /** Distinct numbers have distinct decimal texts. */
  lemma NatToStringInjective(a: nat, b: nat)
    ensures NatToString(a) == NatToString(b) <==> a == b
  {
    if NatToString(a) == NatToString(b) {
      ParseNatToString(a);
      ParseNatToString(b);
    }
  }

  /** Java's `"" + n` for an `int` that may be negative. */
  function IntToString(n: int): (r: string)
    ensures |r| >= 1
    ensures n >= 0 ==> r == NatToString(n)
    ensures n < 0 <==> r[0] == '-'
  {
    if n < 0 then "-" + NatToString(-n) else NatToString(n)
  }

  // ---------------------------------------------------------------------------
  // Joins and repetitions

  /** Pieces separated by `sep`, the shape of every "write, then a separator unless
      this was the last one" loop of the generator. */
  function Join(pieces: seq<string>, sep: string): (r: string)
    ensures |pieces| == 0 ==> r == ""
    ensures |pieces| == 1 ==> r == pieces[0]
    ensures |r| == SumLengths(pieces) + (if |pieces| == 0 then 0 else (|pieces| - 1) * |sep|)
  {
    if |pieces| == 0 then ""
    else if |pieces| == 1 then pieces[0]
    else pieces[0] + sep + Join(pieces[1..], sep)
  }

  function SumLengths(pieces: seq<string>): nat
  {
    if |pieces| == 0 then 0 else |pieces[0]| + SumLengths(pieces[1..])
  }

  /** Position of the first occurrence of `c` in `s`. */
  function IndexOf(s: string, c: char): (k: Option<nat>)
    ensures k.Some? ==> k.value < |s| && s[k.value] == c && forall j :: 0 <= j < k.value ==> s[j] != c
    ensures k.None? ==> forall j :: 0 <= j < |s| ==> s[j] != c
  {
    if |s| == 0 then None
    else if s[0] == c then Some(0)
    else match IndexOf(s[1..], c)
         case None => None
         case Some(k) => Some(k + 1)
  }

  /** The pieces of `s` between occurrences of `sep`: the reading of a `Join`. */
  function Split(s: string, sep: char): (r: seq<string>)
    ensures |r| >= 1
    decreases |s|
  {
    match IndexOf(s, sep)
    case None => [s]
    case Some(k) => [s[..k]] + Split(s[k + 1..], sep)
  }

  /** Splitting a join of pieces that do not contain the separator gives the pieces. */
  lemma {:induction false} SplitJoin(pieces: seq<string>, sep: char)
    requires |pieces| >= 1
    requires forall i, j :: 0 <= i < |pieces| && 0 <= j < |pieces[i]| ==> pieces[i][j] != sep
    ensures Split(Join(pieces, [sep]), sep) == pieces
    decreases |pieces|
  {
    var p := pieces[0];
    assert forall j :: 0 <= j < |p| ==> p[j] != sep;
    if |pieces| == 1 {
      assert IndexOf(p, sep).None?;
    } else {
      var rest := Join(pieces[1..], [sep]);
      var s := p + [sep] + rest;
      assert Join(pieces, [sep]) == s;
      assert IndexOf(s, sep) == Some(|p|) by {
        FirstIndexAfter(p, sep, rest);
      }
      assert s[..|p|] == p;
      assert s[|p| + 1..] == rest;
      SplitJoin(pieces[1..], sep);
      assert pieces == [p] + pieces[1..];
    }
  }

  lemma {:induction false} FirstIndexAfter(a: string, c: char, b: string)
    requires forall j :: 0 <= j < |a| ==> a[j] != c
    ensures IndexOf(a + [c] + b, c) == Some(|a|)
    decreases |a|
  {
    var s := a + [c] + b;
    if |a| > 0 {
      assert s[0] == a[0];
      assert s[1..] == a[1..] + [c] + b;
      FirstIndexAfter(a[1..], c, b);
    }
  }

  /** `k` copies of the character `c`; a non-positive count gives nothing, like a
      `for (i = 0; i < k; ++i)` loop. */
  function Repeat(c: char, k: int): (r: string)
    ensures |r| == (if k <= 0 then 0 else k)
    ensures forall i :: 0 <= i < |r| ==> r[i] == c
    decreases k
  {
    if k <= 0 then [] else [c] + Repeat(c, k - 1)
  }

  /** Number of occurrences of `c` in `s`. */
  function Count(s: string, c: char): nat
  {
    if |s| == 0 then 0 else (if s[0] == c then 1 else 0) + Count(s[1..], c)
  }

  lemma {:induction false} CountAppend(a: string, b: string, c: char)
    ensures Count(a + b, c) == Count(a, c) + Count(b, c)
    decreases |a|
  {
    if |a| == 0 {
      assert a + b == b;
    } else {
      assert (a + b)[1..] == a[1..] + b;
      CountAppend(a[1..], b, c);
    }
  }

  lemma {:induction false} CountRepeat(c: char, d: char, k: int)
    ensures Count(Repeat(c, k), d) == (if c == d && k > 0 then k else 0)
    decreases k
  {
    if k > 0 {
      assert Repeat(c, k)[1..] == Repeat(c, k - 1);
      CountRepeat(c, d, k - 1);
    }
  }

  /** The sum of `f` over a sequence. */
  function SumOf<T>(xs: seq<T>, f: T -> int): int
  {
    if |xs| == 0 then 0 else f(xs[0]) + SumOf(xs[1..], f)
  }

  lemma {:induction false} SumOfAppend<T>(xs: seq<T>, ys: seq<T>, f: T -> int)
    ensures SumOf(xs + ys, f) == SumOf(xs, f) + SumOf(ys, f)
    decreases |xs|
  {
    if |xs| == 0 {
      assert xs + ys == ys;
    } else {
      assert (xs + ys)[1..] == xs[1..] + ys;
      SumOfAppend(xs[1..], ys, f);
    }
  }
}
