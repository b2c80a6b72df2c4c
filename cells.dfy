/** Cell values of a sheet and the text forms the diff gives them. */
module Cells {
  import opened Seqs
  import opened Outcomes

  /** A scalar cell as read from a spreadsheet: absent, text, or a whole number. */
  datatype Scalar = Missing | Text(s: string) | Int(n: int)

  /** The change marker placed between the old and the new text of a cell. */
  const Marker: string := " \U{2192} "

  /** The arrow, the middle character of the marker. */
  const Arrow: char := '\U{2192}'

  function Digit(d: nat): (c: char)
    requires d < 10
  {
    "0123456789"[d]
  }

  /** The number a text of decimal digits denotes, most significant digit first. */
  function DigitsValue(s: string): int
  {
    if s == [] then 0 else DigitsValue(s[..|s| - 1]) * 10 + (s[|s| - 1] as int - '0' as int)
  }

  /** Decimal digits of a natural number, with no leading zeros, denoting that number. */
  function NatText(n: nat): (s: string)
    ensures |s| > 0
    ensures forall i :: 0 <= i < |s| ==> '0' <= s[i] <= '9'
    ensures |s| > 1 ==> s[0] != '0'
    ensures DigitsValue(s) == n
  {
    if n < 10 then [Digit(n)]
    else
      var s := NatText(n / 10) + [Digit(n % 10)];
      assert s[..|s| - 1] == NatText(n / 10);
      s
  }

  /** Python's `str()` of a cell. An absent cell is pandas' NaN, whose text is "nan". */
  function Str(v: Scalar): (s: string)
  {
    match v
    case Missing => "nan"
    case Text(t) => t
    case Int(n) => if n < 0 then "-" + NatText(-n) else NatText(n)
  }

  /** `fillna("")`: an absent cell becomes the empty text, everything else is kept. */
  function Fill(v: Scalar): (r: Scalar)
    ensures r != Missing
    ensures v != Missing ==> r == v
  {
    if v == Missing then Text("") else v
  }

  /** The text shown in a cell whose old and new values differ. */
  function MarkerText(before: Scalar, after: Scalar): (s: string)
  {
    Str(Fill(before)) + Marker + Str(Fill(after))
  }

  /** Cuts a text at the first change marker: the text before it, which holds
      no marker start, and the text after it. */
  function SplitAtMarker(s: string): (r: Option<(string, string)>)
    ensures r.Some? ==> r.value.0 + Marker + r.value.1 == s
    ensures r.Some? ==> forall i :: 0 <= i < |r.value.0| ==> !(Marker <= s[i..])
    ensures r.None? <==> !Contains(s, Marker)
  {
    if Marker <= s then
      assert s == [] + Marker + s[|Marker|..];
      Some(([], s[|Marker|..]))
    else if s == [] then None
    else
      match SplitAtMarker(s[1..])
      case None => None
      case Some(p) =>
        assert [s[0]] + p.0 + Marker + p.1 == s;
        assert forall i :: 1 <= i <= |p.0| ==> s[i..] == s[1..][i - 1..];
        Some(([s[0]] + p.0, p.1))
  }

  /** Where the old side's text holds no arrow, cutting a marker text at its
      first marker gives back the two sides exactly. */
  lemma {:induction false} SplitMarkerText(a: string, b: string)
    requires Arrow !in a
    ensures SplitAtMarker(a + Marker + b) == Some((a, b))
  {
    var s := a + Marker + b;
    if a == [] {
      assert s == Marker + b;
      assert s[..|Marker|] == Marker;
      assert s[|Marker|..] == b;
    } else {
      assert s[1] != Arrow by {
        if |a| == 1 { assert s[1] == Marker[0]; } else { assert s[1] == a[1]; }
      }
      assert !(Marker <= s);
      SplitMarkerText(a[1..], b);
      assert s[1..] == a[1..] + Marker + b;
      assert [s[0]] + a[1..] == a;
    }
  }
}
