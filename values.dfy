/**
 * Filter values as the table pages show them: the `string | number` values the
 * inputs hand over, their string form (`String(v)`, `toString()`), the "no filter"
 * read-out under a column and `getClassValue`'s join of faceted min/max values.
 * Numbers are integers here; floating point is not modelled.
 */
module FilterValues {
  import opened Options

  /** A filter value: text from a text input, or a number from a numeric one. */
  datatype Val = Str(s: string) | Num(n: int)

  predicate IsDigit(c: char) {
    '0' <= c <= '9'
  }

  function DigitChar(d: nat): (c: char)
    requires d < 10
    ensures IsDigit(c)
  {
    ('0' as int + d) as char
  }

  /** Decimal digits of `n`, most significant first, without leading zeros. */
  function Digits(n: nat): (r: string)
    ensures |r| > 0
    ensures forall i :: 0 <= i < |r| ==> IsDigit(r[i])
    ensures n < 10 <==> |r| == 1
  {
    if n < 10 then [DigitChar(n)] else Digits(n / 10) + [DigitChar(n % 10)]
  }

  /** The number a string of decimal digits denotes (an independent reading of `Digits`). */
  function DigitsValue(s: string): nat
    requires forall i :: 0 <= i < |s| ==> IsDigit(s[i])
  {
    if s == [] then 0
    else
      assert IsDigit(s[|s| - 1]);
      DigitsValue(s[..|s| - 1]) * 10 + (s[|s| - 1] as int - '0' as int)
  }

  /** Reading back the digits of `n` gives `n`: the string form loses nothing. */
  lemma {:induction false} DigitsRoundTrip(n: nat)
    ensures DigitsValue(Digits(n)) == n
  {
    if n >= 10 {
      DigitsRoundTrip(n / 10);
      var s := Digits(n / 10) + [DigitChar(n % 10)];
      assert s[..|s| - 1] == Digits(n / 10);
    }
  }

  /** `String(n)` for an integer. */
  function Decimal(n: int): string {
    if n < 0 then "-" + Digits(-n) else Digits(n)
  }

  /** `String(v)`. */
  function Text(v: Val): string {
    match v
    case Str(s) => s
    case Num(n) => Decimal(n)
  }

  /** The read-out under a column: `String(v !== undefined ? v : "no filter")`. */
  function NoFilterDisplay(v: Option<Val>): string {
    match v
    case None => "no filter"
    case Some(x) => Text(x)
  }

  /**
   * The read-out says "no filter" exactly when there is no filter value, or when
   * the filter value is that very text; a number never reads "no filter".
   */
  lemma NoFilterShownWhen(v: Option<Val>)
    ensures NoFilterDisplay(v) == "no filter" <==> v == None || v == Some(Str("no filter"))
  {
    if v.Some? && v.value.Num? {
      var n := v.value.n;
      var d := Decimal(n);
      assert d[0] == '-' || IsDigit(d[0]);
      assert "no filter"[0] == 'n';
    }
  }

  /** The separator `getClassValue` puts between array elements. */
  const Separator: string := " - "

  /** `parts.join(" - ")`. */
  function Join(parts: seq<string>): string {
    if |parts| == 0 then ""
    else if |parts| == 1 then parts[0]
    else parts[0] + Separator + Join(parts[1..])
  }

  function TotalLength(parts: seq<string>): nat {
    if parts == [] then 0 else |parts[0]| + TotalLength(parts[1..])
  }

  /** A join holds every part and one separator between each two neighbours. */
  lemma {:induction false} JoinLength(parts: seq<string>)
    requires |parts| > 0
    ensures |Join(parts)| == TotalLength(parts) + 3 * (|parts| - 1)
  {
    if |parts| > 1 {
      JoinLength(parts[1..]);
    }
  }

  /** Appending a part appends the separator and the part. */
  lemma {:induction false} JoinSnoc(parts: seq<string>, x: string)
    requires |parts| > 0
    ensures Join(parts + [x]) == Join(parts) + Separator + x
  {
    if |parts| == 1 {
      assert (parts + [x])[1..] == [x];
    } else {
      assert (parts + [x])[1..] == parts[1..] + [x];
      JoinSnoc(parts[1..], x);
    }
  }

  /** What `_getFacetedMinMaxValues?.()` gives back. */
  datatype Faceted = Missing | List(items: seq<Val>) | Scalar(v: Val)

  function Texts(items: seq<Val>): (r: seq<string>)
    ensures |r| == |items|
    ensures forall i :: 0 <= i < |items| ==> r[i] == Text(items[i])
  {
    seq(|items|, i requires 0 <= i < |items| => Text(items[i]))
  }

  /** `getClassValue`: an array joined with " - ", any other defined value as text, else "". */
  function ClassValue(f: Faceted): string {
    match f
    case List(items) => Join(Texts(items))
    case Scalar(v) => Text(v)
    case Missing => ""
  }

  /** A faceted `[min, max]` pair reads "min - max". */
  lemma ClassValueOfMinMax(lo: Val, hi: Val)
    ensures ClassValue(List([lo, hi])) == Text(lo) + " - " + Text(hi)
  {
    var t := Texts([lo, hi]);
    assert t == [Text(lo), Text(hi)];
    assert t[1..] == [Text(hi)];
    assert Join(t) == Text(lo) + Separator + Join([Text(hi)]);
  }
}
