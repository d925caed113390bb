/** A model of `GetJRainbowNames` from LightController/Program.cs: the names
    `JRAINBOW<which>_<n>` of the addressable LEDs of one JRAINBOW header, with
    the numbers written in decimal as C# string interpolation writes them. */
module LedNames {
  import opened Options
  import opened UInts

  predicate IsDigit(ch: char)
  {
    '0' <= ch <= '9'
  }

  predicate AllDigits(s: string)
  {
    forall k :: 0 <= k < |s| ==> IsDigit(s[k])
  }

  function DigitChar(d: nat): (ch: char)
    requires d < 10
    ensures IsDigit(ch)
  {
    (('0' as int) + d) as char
  }

  function DigitValue(ch: char): (d: nat)
    requires IsDigit(ch)
    ensures d < 10 && DigitChar(d) == ch
  {
    (ch as int) - ('0' as int)
  }

  /** The decimal text of `n`: at least one digit, digits only, and no
      leading zero except in the text of zero itself. */
  function NatToString(n: nat): (s: string)
    ensures |s| > 0 && AllDigits(s)
    ensures s[0] == '0' <==> n == 0
    ensures n == 0 ==> s == "0"
    decreases n
  {
    if n < 10 then [DigitChar(n)] else NatToString(n / 10) + [DigitChar(n % 10)]
  }

  /** The value of a string of decimal digits. */
  function ParseDecimal(s: string): nat
    requires AllDigits(s)
  {
    if s == [] then 0 else 10 * ParseDecimal(s[..|s| - 1]) + DigitValue(s[|s| - 1])
  }

  /** Reading back the decimal text of `n` gives `n`. */
  lemma {:induction false} ParseNatToString(n: nat)
    ensures ParseDecimal(NatToString(n)) == n
    decreases n
  {
    var s := NatToString(n);
    if n >= 10 {
      ParseNatToString(n / 10);
      assert s[..|s| - 1] == NatToString(n / 10);
    }
  }

  const Prefix: string := "JRAINBOW"

  /** The name the source builds for LED number `n` (counting from 1) of header `which`. */
  function JRainbowName(which: u32, n: nat): string
  {
    Prefix + NatToString(which as int) + "_" + NatToString(n)
  }

  /** Position of the first `ch` in `s`, or `|s|` when there is none. */
  function IndexOf(s: string, ch: char): (i: nat)
    ensures i <= |s|
  {
    if s == [] then 0 else if s[0] == ch then 0 else 1 + IndexOf(s[1..], ch)
  }

  lemma {:induction false} IndexOfAfterDigits(a: string, b: string)
    requires AllDigits(a)
    ensures IndexOf(a + "_" + b, '_') == |a|
  {
    if a != [] {
      IndexOfAfterDigits(a[1..], b);
      assert (a + "_" + b)[1..] == a[1..] + "_" + b;
    }
  }

  /** Reads a name of the form `JRAINBOW<digits>_<digits>` back into the
      header number and the LED number; `None` for any other text. */
  function ParseName(s: string): Option<(nat, nat)>
  {
    if |s| < |Prefix| || s[..|Prefix|] != Prefix then None
    else
      var rest := s[|Prefix|..];
      var u := IndexOf(rest, '_');
      if u == 0 || u == |rest| then None
      else
        var a := rest[..u];
        var b := rest[u + 1..];
        if b == [] || !AllDigits(a) || !AllDigits(b) then None
        else Some((ParseDecimal(a), ParseDecimal(b)))
  }

  /** Every generated name reads back as the header and LED number it was built from. */
  lemma NameRoundTrip(which: u32, n: nat)
    ensures ParseName(JRainbowName(which, n)) == Some((which as int, n))
  {
    var a := NatToString(which as int);
    var b := NatToString(n);
    var s := JRainbowName(which, n);
    assert s[..|Prefix|] == Prefix;
    var rest := s[|Prefix|..];
    assert rest == a + "_" + b;
    IndexOfAfterDigits(a, b);
    assert rest[..|a|] == a;
    assert rest[|a| + 1..] == b;
    ParseNatToString(which as int);
    ParseNatToString(n);
  }

  /** Different header or LED numbers never give the same name. */
  lemma NameInjective(w1: u32, n1: nat, w2: u32, n2: nat)
    ensures JRainbowName(w1, n1) == JRainbowName(w2, n2) <==> w1 == w2 && n1 == n2
  {
    NameRoundTrip(w1, n1);
    NameRoundTrip(w2, n2);
  }

  /** `GetJRainbowNames(which, count)`: `count` names, entry `i` naming LED
      `i + 1`; all of them pairwise distinct. */
  method GetJRainbowNames(which: u32, count: u32) returns (names: seq<string>)
    ensures |names| == count as int
    ensures forall i :: 0 <= i < |names| ==> names[i] == JRainbowName(which, i + 1)
    ensures forall i :: 0 <= i < |names| ==> ParseName(names[i]) == Some((which as int, i + 1))
    ensures forall i, j :: 0 <= i < j < |names| ==> names[i] != names[j]
  {
    names := [];
    var i := 0;
    while i < count as int
      invariant 0 <= i <= count as int
      invariant |names| == i
      invariant forall k :: 0 <= k < i ==> names[k] == JRainbowName(which, k + 1)
    {
      names := names + [JRainbowName(which, i + 1)];
      i := i + 1;
    }
    forall i | 0 <= i < |names|
      ensures ParseName(names[i]) == Some((which as int, i + 1))
    {
      NameRoundTrip(which, i + 1);
    }
  }
}
