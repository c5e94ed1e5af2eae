/**
 * The decimal and ISO-date text forms the converters read and write:
 * Python's `str()` of an integer and of a date, `int()` of a string, and
 * the `YYYY-MM-DD` form pandas parses into a timestamp.
 */
module PyText {
  import opened Values

  predicate IsDigit(c: char) {
    '0' <= c <= '9'
  }

  predicate AllDigits(s: string) {
    forall i :: 0 <= i < |s| ==> IsDigit(s[i])
  }

  function DigitChar(d: int): (c: char)
    requires 0 <= d < 10
    ensures IsDigit(c) && DigitValue(c) == d
  {
    "0123456789"[d]
  }

  function DigitValue(c: char): int
    requires IsDigit(c)
  {
    (c as int) - ('0' as int)
  }

  function Pow10(k: nat): (p: nat)
    ensures p >= 1
  {
    if k == 0 then 1 else 10 * Pow10(k - 1)
  }

  /** Python's `str(n)` for a natural number: no sign, no leading zeros. */
  function ShowNat(n: nat): (s: string)
    ensures |s| >= 1 && AllDigits(s)
  {
    if n < 10 then [DigitChar(n)] else ShowNat(n / 10) + [DigitChar(n % 10)]
  }

  /** The number a string of decimal digits denotes (leading zeros allowed). */
  function ParseDigits(s: string): nat
    requires AllDigits(s)
  {
    if s == [] then 0 else ParseDigits(s[..|s| - 1]) * 10 + DigitValue(s[|s| - 1])
  }

  lemma {:induction false} ParseShowNat(n: nat)
    ensures ParseDigits(ShowNat(n)) == n
  {
    if n >= 10 {
      var s := ShowNat(n);
      assert s[..|s| - 1] == ShowNat(n / 10);
      ParseShowNat(n / 10);
    }
  }

  lemma {:induction false} ShowNatLength(n: nat, k: nat)
    requires 1 <= k && n < Pow10(k)
    ensures |ShowNat(n)| <= k
  {
    if n >= 10 {
      ShowNatLength(n / 10, k - 1);
    }
  }

  lemma {:induction false} ShowNatLengthAtLeast(n: nat, k: nat)
    requires Pow10(k) <= n
    ensures |ShowNat(n)| > k
  {
    if k > 0 {
      ShowNatLengthAtLeast(n / 10, k - 1);
    }
  }

  /** Python's `str(i)` for an integer. */
  function ShowInt(i: int): string {
    if i < 0 then "-" + ShowNat(-i) else ShowNat(i)
  }

  /**
   * Plain integer text: an optional sign followed by one or more decimal
   * digits, the form `str()` writes and every integer parser reads.
   */
  function ParseInt(s: string): Option<int> {
    if |s| >= 2 && (s[0] == '-' || s[0] == '+') && AllDigits(s[1..]) then
      var n: int := ParseDigits(s[1..]);
      Some(if s[0] == '-' then -n else n)
    else if |s| >= 1 && AllDigits(s) then
      Some(ParseDigits(s))
    else
      None
  }

  /** Reading back what `str()` wrote gives the same integer. */
  lemma ParseShowInt(i: int)
    ensures ParseInt(ShowInt(i)) == Some(i)
  {
    var s := ShowInt(i);
    if i < 0 {
      var digits := ShowNat(-i);
      assert s == "-" + digits;
      assert s[1..] == digits;
      ParseShowNat(-i);
    } else {
      var digits := ShowNat(i);
      assert s == digits;
      assert s[0] != '-' && s[0] != '+' by {
        assert IsDigit(digits[0]);
      }
      ParseShowNat(i);
    }
  }

  /**
   * The ASCII characters Python's `str.strip()` removes: tab, line feed,
   * vertical tab, form feed, carriage return, the four separators 0x1C to
   * 0x1F, and space.
   */
  predicate IsSpace(c: char) {
    '\t' <= c <= '\r' || '\U{1C}' <= c <= ' '
  }

  /** The text without its leading whitespace. */
  function TrimStart(s: string): (t: string)
    ensures |t| <= |s| && t == s[|s| - |t|..]
    ensures forall i :: 0 <= i < |s| - |t| ==> IsSpace(s[i])
    ensures t != [] ==> !IsSpace(t[0])
    decreases |s|
  {
    if s != [] && IsSpace(s[0]) then
      var t := TrimStart(s[1..]);
      assert s[1..][|s| - 1 - |t|..] == s[|s| - |t|..];
      assert forall i :: 1 <= i < |s| - |t| ==> s[i] == s[1..][i - 1];
      t
    else s
  }

  /** The text without its trailing whitespace. */
  function TrimEnd(s: string): (t: string)
    ensures |t| <= |s| && t == s[..|t|]
    ensures forall i :: |t| <= i < |s| ==> IsSpace(s[i])
    ensures t != [] ==> !IsSpace(t[|t| - 1])
    decreases |s|
  {
    if s != [] && IsSpace(s[|s| - 1]) then
      var t := TrimEnd(s[..|s| - 1]);
      assert forall i :: |t| <= i < |s| - 1 ==> s[i] == s[..|s| - 1][i];
      t
    else s
  }

  /** Decimal digits in which every underscore stands between two digits. */
  predicate Underscored(b: string) {
    |b| > 0 && (forall i :: 0 <= i < |b| ==> IsDigit(b[i]) || b[i] == '_') &&
    forall i :: 0 <= i < |b| && b[i] == '_' ==> 0 < i < |b| - 1 && IsDigit(b[i - 1]) && IsDigit(b[i + 1])
  }

  /** The digits of b, underscores removed. */
  function DropUnderscores(b: string): (d: string)
    ensures (forall i :: 0 <= i < |b| ==> IsDigit(b[i]) || b[i] == '_') ==> AllDigits(d)
    ensures AllDigits(b) ==> d == b
    ensures forall i :: 0 <= i < |d| ==> d[i] in b && d[i] != '_'
    decreases |b|
  {
    if b == [] then []
    else
      var rest := DropUnderscores(b[1..]);
      assert forall i :: 0 <= i < |b| - 1 ==> b[1..][i] == b[i + 1];
      (if b[0] == '_' then [] else [b[0]]) + rest
  }

  /**
   * Python's `int(s)` on a string, in base 10: surrounding whitespace is
   * ignored, then an optional sign and decimal digits, which may be grouped
   * by single underscores. None stands for the ValueError of any other text.
   */
  function PyInt(s: string): Option<int> {
    SignedInt(TrimEnd(TrimStart(s)))
  }

  /** An optional sign followed by underscore-grouped digits. */
  function SignedInt(t: string): Option<int> {
    if |t| > 0 && (t[0] == '-' || t[0] == '+') then
      match GroupedDigits(t[1..])
      case None => None
      case Some(n) =>
        var k: int := if t[0] == '-' then -(n as int) else n;
        Some(k)
    else
      match GroupedDigits(t)
      case None => None
      case Some(n) => Some(n as int)
  }

  /** The number that underscore-grouped digits denote. */
  function GroupedDigits(b: string): Option<nat> {
    if Underscored(b) then Some(ParseDigits(DropUnderscores(b))) else None
  }

  /** On plain integer text Python's `int()` gives the plain reading. */
  lemma PyIntAgrees(s: string)
    requires ParseInt(s).Some?
    ensures PyInt(s) == ParseInt(s)
  {
    assert IsDigit(s[|s| - 1]);
    PyIntUntrimmed(s);
    if s[0] == '-' || s[0] == '+' {
      PlainDigitsGrouped(s[1..]);
    } else {
      PlainDigitsGrouped(s);
    }
  }

  /** Plain decimal digits are underscore-grouped digits with no underscore. */
  lemma PlainDigitsGrouped(b: string)
    requires |b| > 0 && AllDigits(b)
    ensures GroupedDigits(b) == Some(ParseDigits(b))
  {
    assert Underscored(b);
  }

  predicate AllSpace(s: string) {
    forall i :: 0 <= i < |s| ==> IsSpace(s[i])
  }

  lemma {:induction false} TrimStartSpaces(pre: string, x: string)
    requires AllSpace(pre)
    requires x == [] || !IsSpace(x[0])
    ensures TrimStart(pre + x) == x
    decreases |pre|
  {
    if pre != [] {
      assert (pre + x)[0] == pre[0];
      assert (pre + x)[1..] == pre[1..] + x;
      TrimStartSpaces(pre[1..], x);
    } else {
      assert pre + x == x;
    }
  }

  lemma {:induction false} TrimEndSpaces(y: string, post: string)
    requires AllSpace(post)
    requires y == [] || !IsSpace(y[|y| - 1])
    ensures TrimEnd(y + post) == y
    decreases |post|
  {
    if post != [] {
      var n := |post| - 1;
      assert (y + post)[|y + post| - 1] == post[n];
      assert (y + post)[..|y + post| - 1] == y + post[..n];
      TrimEndSpaces(y, post[..n]);
    } else {
      assert y + post == y;
    }
  }

  /** Text that neither starts nor ends with whitespace is read as it stands. */
  lemma PyIntUntrimmed(s: string)
    requires s != [] && !IsSpace(s[0]) && !IsSpace(s[|s| - 1])
    ensures PyInt(s) == SignedInt(s)
  {
    assert TrimStart(s) == s;
    assert TrimEnd(s) == s;
  }

  /**
   * Whitespace around the text does not change what `int()` reads: padding
   * text that starts and ends with a non-space with spaces gives the same
   * result.
   */
  lemma PyIntIgnoresSpace(pre: string, s: string, post: string)
    requires AllSpace(pre) && AllSpace(post)
    requires s != [] && !IsSpace(s[0]) && !IsSpace(s[|s| - 1])
    ensures PyInt(pre + s + post) == PyInt(s)
  {
    var padded := pre + s + post;
    assert padded == pre + (s + post);
    TrimStartSpaces(pre, s + post);
    TrimEndSpaces(s, post);
    assert TrimEnd(TrimStart(padded)) == s;
    PyIntUntrimmed(s);
  }

  lemma {:induction false} DropUnderscoresAppend(a: string, b: string)
    ensures DropUnderscores(a + b) == DropUnderscores(a) + DropUnderscores(b)
    decreases |a|
  {
    if a == [] {
      assert a + b == b;
    } else {
      assert (a + b)[0] == a[0];
      assert (a + b)[1..] == a[1..] + b;
      DropUnderscoresAppend(a[1..], b);
    }
  }

  lemma UnderscoredAppend(a: string, b: string)
    requires Underscored(a) && Underscored(b)
    ensures Underscored(a + b)
  {
    var ab := a + b;
    forall i | 0 <= i < |ab| && ab[i] == '_'
      ensures 0 < i < |ab| - 1 && IsDigit(ab[i - 1]) && IsDigit(ab[i + 1])
    {
      if i < |a| {
        assert ab[i] == a[i];
        assert ab[i - 1] == a[i - 1];
        assert ab[i + 1] == a[i + 1];
      } else {
        assert ab[i] == b[i - |a|];
        assert ab[i + 1] == b[i + 1 - |a|];
        assert ab[i - 1] == b[i - 1 - |a|];
      }
    }
  }

  lemma UnderscoredGroup(a: string, b: string)
    requires Underscored(a) && Underscored(b)
    ensures Underscored(a + "_" + b)
  {
    var u := "_" + b;
    assert u[0] == '_' && u[1] == b[0];
    forall i | 0 <= i < |u| ensures IsDigit(u[i]) || u[i] == '_' {
      if i > 0 { assert u[i] == b[i - 1]; }
    }
    var g := a + u;
    assert g == a + "_" + b;
    forall i | 0 <= i < |g| && g[i] == '_'
      ensures 0 < i < |g| - 1 && IsDigit(g[i - 1]) && IsDigit(g[i + 1])
    {
      if i < |a| {
        assert g[i] == a[i] && g[i - 1] == a[i - 1];
        assert g[i + 1] == a[i + 1];
      } else if i == |a| {
        assert g[i - 1] == a[|a| - 1] && g[i + 1] == b[0];
      } else {
        assert g[i] == b[i - |a| - 1] && g[i - 1] == u[i - 1 - |a|];
        assert g[i + 1] == b[i + 1 - |a| - 1];
      }
    }
  }

  /**
   * An underscore between two digit groups changes nothing: the grouped
   * text is accepted exactly when the ungrouped one is, with the same
   * value.
   */
  lemma GroupedDigitsJoin(a: string, b: string)
    requires Underscored(a) && Underscored(b)
    ensures GroupedDigits(a + "_" + b) == GroupedDigits(a + b)
  {
    UnderscoredAppend(a, b);
    UnderscoredGroup(a, b);
    DropUnderscoresAppend(a, b);
    DropUnderscoresAppend(a + "_", b);
    DropUnderscoresAppend(a, "_");
    assert DropUnderscores("_") == [] by {
      assert "_"[1..] == [];
    }
    assert DropUnderscores(a) + [] == DropUnderscores(a);
  }

  /**
   * An underscore that does not stand between two digits is a ValueError:
   * a doubled one, a leading one or a trailing one.
   */
  lemma GroupedDigitsMisplaced(a: string, b: string)
    ensures GroupedDigits(a + "__" + b) == None
    ensures GroupedDigits("_" + b) == None
    ensures GroupedDigits(a + "_") == None
  {
    var d := a + "__" + b;
    assert d[|a|] == '_' && d[|a| + 1] == '_';
    assert ("_" + b)[0] == '_';
    assert (a + "_")[|a|] == '_';
  }

  /** The decimal digits of n, padded on the left with zeros to at least `width` digits. */
  function ZeroPad(n: nat, width: nat): (s: string)
    ensures AllDigits(s)
    decreases width
  {
    if |ShowNat(n)| >= width then ShowNat(n) else "0" + ZeroPad(n, width - 1)
  }

  lemma {:induction false} ParseLeadingZero(s: string)
    requires AllDigits(s)
    ensures AllDigits("0" + s) && ParseDigits("0" + s) == ParseDigits(s)
  {
    var z := "0" + s;
    if s != [] {
      assert z[..|z| - 1] == "0" + s[..|s| - 1];
      ParseLeadingZero(s[..|s| - 1]);
    }
  }

  lemma {:induction false} ParseZeroPad(n: nat, width: nat)
    ensures ParseDigits(ZeroPad(n, width)) == n
    decreases width
  {
    if |ShowNat(n)| >= width {
      ParseShowNat(n);
    } else {
      ParseZeroPad(n, width - 1);
      ParseLeadingZero(ZeroPad(n, width - 1));
    }
  }

  lemma {:induction false} ZeroPadLength(n: nat, width: nat)
    requires 1 <= width && n < Pow10(width)
    ensures |ZeroPad(n, width)| == width
    decreases width
  {
    ShowNatLength(n, width);
    if |ShowNat(n)| < width {
      if width - 1 >= 1 && n < Pow10(width - 1) {
        ZeroPadLength(n, width - 1);
      } else if width - 1 >= 1 {
        ShowNatLengthAtLeast(n, width - 1);
      }
    }
  }

  /** Python's `str(date)`: `YYYY-MM-DD`, each part zero-padded. */
  function FormatIso(d: CalendarDay): string {
    ZeroPad(d.year, 4) + "-" + ZeroPad(d.month, 2) + "-" + ZeroPad(d.day, 2)
  }

  /** The `YYYY-MM-DD` strings that name a real day. */
  function ParseIso(s: string): (r: Option<CalendarDay>)
    ensures r.Some? ==> |s| == 10 && s[4] == '-' && s[7] == '-'
  {
    if |s| == 10 && s[4] == '-' && s[7] == '-'
       && AllDigits(s[..4]) && AllDigits(s[5..7]) && AllDigits(s[8..])
    then
      var d := Day(ParseDigits(s[..4]), ParseDigits(s[5..7]), ParseDigits(s[8..]));
      if ValidDay(d) then Some(d) else None
    else
      None
  }

  /** Parsing what `str(date)` writes gives the same day back. */
  lemma IsoRoundTrip(d: CalendarDay)
    ensures ParseIso(FormatIso(d)) == Some(d)
  {
    var y, m, dd := ZeroPad(d.year, 4), ZeroPad(d.month, 2), ZeroPad(d.day, 2);
    ZeroPadLength(d.year, 4);
    ZeroPadLength(d.month, 2);
    ZeroPadLength(d.day, 2);
    var s := FormatIso(d);
    assert s[..4] == y;
    assert s[5..7] == m;
    assert s[8..] == dd;
    ParseZeroPad(d.year, 4);
    ParseZeroPad(d.month, 2);
    ParseZeroPad(d.day, 2);
  }
}
