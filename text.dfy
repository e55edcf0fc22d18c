/** The string operations the simulator relies on: Python's `str.strip`,
    `str.rstrip`, `str.lower`, `int(...)`, `str(int)`, `str.join` and `str.split`,
    each stated over `seq<char>`. */
module Text {
  import opened Wrappers

  /** Python's `str.isspace` for one character: the ASCII controls 9..13 and
      28..31, the space, and the Unicode separators Python treats as white space. */
  predicate IsSpace(c: char) {
    var n := c as int;
    (9 <= n <= 13) || (28 <= n <= 32) || n == 0x85 || n == 0xA0 || n == 0x1680
    || (0x2000 <= n <= 0x200A) || n == 0x2028 || n == 0x2029 || n == 0x202F
    || n == 0x205F || n == 0x3000
  }

  /** `s.lstrip()`. */
  function LStrip(s: string): string {
    if s != [] && IsSpace(s[0]) then LStrip(s[1..]) else s
  }

  /** `s.rstrip()`. */
  function RStrip(s: string): string {
    if s != [] && IsSpace(s[|s| - 1]) then RStrip(s[..|s| - 1]) else s
  }

  /** `s.strip()`. */
  function Strip(s: string): string {
    RStrip(LStrip(s))
  }

  /** `lstrip` drops exactly the longest run of leading white space. */
  lemma {:induction false} LStripRemovesLeadingSpace(s: string)
    ensures |LStrip(s)| <= |s| && LStrip(s) == s[|s| - |LStrip(s)|..]
    ensures forall k :: 0 <= k < |s| - |LStrip(s)| ==> IsSpace(s[k])
    ensures LStrip(s) != [] ==> !IsSpace(LStrip(s)[0])
  {
    if s != [] && IsSpace(s[0]) {
      var t := s[1..];
      LStripRemovesLeadingSpace(t);
      var r := LStrip(t);
      assert LStrip(s) == r;
      assert t[|t| - |r|..] == s[|s| - |r|..];
      forall k | 0 < k < |s| - |r| ensures IsSpace(s[k]) {
        assert s[k] == t[k - 1];
      }
    }
  }

  /** `rstrip` drops exactly the longest run of trailing white space. */
  lemma {:induction false} RStripRemovesTrailingSpace(s: string)
    ensures |RStrip(s)| <= |s| && RStrip(s) == s[..|RStrip(s)|]
    ensures forall k :: |RStrip(s)| <= k < |s| ==> IsSpace(s[k])
    ensures RStrip(s) != [] ==> !IsSpace(RStrip(s)[|RStrip(s)| - 1])
  {
    if s != [] && IsSpace(s[|s| - 1]) {
      var t := s[..|s| - 1];
      RStripRemovesTrailingSpace(t);
      var r := RStrip(t);
      assert RStrip(s) == r;
      assert t[..|r|] == s[..|r|];
      forall k | |r| <= k < |s| - 1 ensures IsSpace(s[k]) {
        assert s[k] == t[k];
      }
    }
  }

  /** How many characters `strip` removes from the front. */
  function LeadingSpace(s: string): nat {
    if s != [] && IsSpace(s[0]) then 1 + LeadingSpace(s[1..]) else 0
  }

  /** A stripped string is the piece of the original after the leading white
      space, with only white space around it and none at either of its ends. */
  lemma StripIsInnerPiece(s: string)
    ensures LeadingSpace(s) + |Strip(s)| <= |s|
    ensures Strip(s) == s[LeadingSpace(s)..LeadingSpace(s) + |Strip(s)|]
    ensures forall k :: 0 <= k < LeadingSpace(s) ==> IsSpace(s[k])
    ensures forall k :: LeadingSpace(s) + |Strip(s)| <= k < |s| ==> IsSpace(s[k])
    ensures Strip(s) != [] ==> !IsSpace(Strip(s)[0]) && !IsSpace(Strip(s)[|Strip(s)| - 1])
  {
    var l := LStrip(s);
    LStripRemovesLeadingSpace(s);
    LeadingSpaceMatchesLStrip(s);
    RStripRemovesTrailingSpace(l);
    var r := Strip(s);
    var i := |s| - |l|;
    assert r == s[i..i + |r|];
    forall k | i + |r| <= k < |s| ensures IsSpace(s[k]) {
      assert s[k] == l[k - i];
    }
    if r != [] {
      assert r[0] == l[0];
    }
  }

  lemma {:induction false} LeadingSpaceMatchesLStrip(s: string)
    ensures LeadingSpace(s) == |s| - |LStrip(s)|
  {
    if s != [] && IsSpace(s[0]) {
      LeadingSpaceMatchesLStrip(s[1..]);
      assert LStrip(s) == LStrip(s[1..]);
    }
  }

  /** Stripping a string that already has no white space at either end changes nothing. */
  lemma StripUnchanged(s: string)
    requires s != [] ==> !IsSpace(s[0]) && !IsSpace(s[|s| - 1])
    ensures Strip(s) == s
  {
  }

  /** Stripping is idempotent: a stripped value is its own stripped form. */
  lemma StripIdempotent(s: string)
    ensures Strip(Strip(s)) == Strip(s)
  {
    StripIsInnerPiece(s);
    StripUnchanged(Strip(s));
  }

  /** `c.lower()` restricted to ASCII letters. */
  function LowerChar(c: char): char {
    if 'A' <= c <= 'Z' then (c as int + 32) as char else c
  }

  /** `s.lower()`, character by character. */
  function Lower(s: string): string {
    seq(|s|, i requires 0 <= i < |s| => LowerChar(s[i]))
  }

  predicate IsDigit(c: char) {
    '0' <= c <= '9'
  }

  /** A non-empty run of ASCII decimal digits. */
  predicate IsDecimal(s: string) {
    |s| > 0 && forall i :: 0 <= i < |s| ==> IsDigit(s[i])
  }

  /** The value of a run of decimal digits, most significant first. */
  function DigitsValue(s: string): nat
    requires forall i :: 0 <= i < |s| ==> IsDigit(s[i])
  {
    if s == [] then 0
    else
      assert IsDigit(s[|s| - 1]);
      10 * DigitsValue(s[..|s| - 1]) + (s[|s| - 1] as int - '0' as int)
  }

  /** Python's `int(raw)` on an already stripped string: an optional sign
      followed by decimal digits, or no value (Python raises ValueError). */
  function ParseInt(s: string): (r: Option<int>)
    ensures r.Some? <==> IsDecimal(s) || (|s| > 1 && (s[0] == '-' || s[0] == '+') && IsDecimal(s[1..]))
    ensures IsDecimal(s) ==> r == Some(DigitsValue(s))
    ensures |s| > 1 && s[0] == '-' && IsDecimal(s[1..]) ==> r == Some(-(DigitsValue(s[1..]) as int))
    ensures |s| > 1 && s[0] == '+' && IsDecimal(s[1..]) ==> r == Some(DigitsValue(s[1..]))
  {
    if |s| > 1 && (s[0] == '-' || s[0] == '+') && IsDecimal(s[1..]) then
      var magnitude: int := DigitsValue(s[1..]);
      Some(if s[0] == '-' then -magnitude else magnitude)
    else if IsDecimal(s) then Some(DigitsValue(s))
    else None
  }

  function DigitChar(d: nat): (c: char)
    requires d < 10
    ensures IsDigit(c) && c as int - '0' as int == d
  {
    ('0' as int + d) as char
  }

  /** Decimal digits in the form `str` writes them: no leading zero, except
      for the number zero itself. */
  predicate IsCanonicalDecimal(s: string) {
    IsDecimal(s) && (s[0] != '0' || |s| == 1)
  }

  /** An integer in the form `str` writes it: canonical digits, preceded by
      `-` for a negative number; never a `+`, and never `-0`. */
  predicate IsCanonicalInt(s: string) {
    IsCanonicalDecimal(s) || (|s| > 1 && s[0] == '-' && IsCanonicalDecimal(s[1..]) && s[1] != '0')
  }

  /** `str(n)` for a natural number: canonical decimal digits that read back as `n`. */
  function NatToString(n: nat): (r: string)
    ensures IsCanonicalDecimal(r) && DigitsValue(r) == n
    ensures r[0] == '0' ==> n == 0
  {
    if n < 10 then [DigitChar(n)]
    else
      var prefix := NatToString(n / 10);
      var r := prefix + [DigitChar(n % 10)];
      assert r[..|r| - 1] == prefix;
      assert r[0] == prefix[0];
      r
  }

  /** `str(i)` for any integer: its canonical form, which reads back as `i`. */
  function IntToString(i: int): (r: string)
    ensures ParseInt(r) == Some(i)
    ensures IsCanonicalInt(r)
    ensures forall k :: 0 <= k < |r| ==> IsDigit(r[k]) || r[k] == '-'
  {
    if i < 0 then
      var digits := NatToString(-i);
      var r := "-" + digits;
      assert r[1..] == digits;
      r
    else NatToString(i)
  }

  /** Canonical digits with a non-zero first digit are worth at least one. */
  lemma {:induction false} LeadingDigitIsPositive(s: string)
    requires IsDecimal(s) && s[0] != '0'
    ensures DigitsValue(s) >= 1
    decreases |s|
  {
    if |s| > 1 {
      var init := s[..|s| - 1];
      assert init[0] == s[0];
      LeadingDigitIsPositive(init);
    }
  }

  /** `str(n)` is the only canonical spelling of `n`. */
  lemma {:induction false} CanonicalDecimalIsNatToString(t: string, n: nat)
    requires IsCanonicalDecimal(t) && DigitsValue(t) == n
    ensures t == NatToString(n)
    decreases |t|
  {
    if |t| == 1 {
      assert t == [t[0]];
    } else {
      var init := t[..|t| - 1];
      assert init[0] == t[0];
      LeadingDigitIsPositive(init);
      assert n >= 10;
      assert n / 10 == DigitsValue(init) && n % 10 == t[|t| - 1] as int - '0' as int;
      CanonicalDecimalIsNatToString(init, n / 10);
      assert t == init + [t[|t| - 1]];
    }
  }

  /** `str(i)` is the only canonical spelling of `i`: a canonical string that
      reads back as `i` is exactly `str(i)`. */
  lemma CanonicalIntIsIntToString(t: string, i: int)
    requires IsCanonicalInt(t) && ParseInt(t) == Some(i)
    ensures t == IntToString(i)
  {
    if IsCanonicalDecimal(t) {
      CanonicalDecimalIsNatToString(t, i);
    } else {
      var digits := t[1..];
      LeadingDigitIsPositive(digits);
      CanonicalDecimalIsNatToString(digits, -i);
      assert t == "-" + digits;
    }
  }

  /** `sep.join(parts)`. */
  function Join(parts: seq<string>, sep: char): string {
    if |parts| == 0 then ""
    else if |parts| == 1 then parts[0]
    else parts[0] + [sep] + Join(parts[1..], sep)
  }

  /** `s.split(sep)`: always at least one field. */
  function Split(s: string, sep: char): (r: seq<string>)
    ensures |r| >= 1
  {
    if s == [] then [""]
    else
      var rest := Split(s[1..], sep);
      if s[0] == sep then [""] + rest else [[s[0]] + rest[0]] + rest[1..]
  }

  lemma {:induction false} SplitWithoutSeparator(s: string, sep: char)
    requires sep !in s
    ensures Split(s, sep) == [s]
  {
    if s != [] {
      SplitWithoutSeparator(s[1..], sep);
      assert [s[0]] + s[1..] == s;
    }
  }

  lemma {:induction false} SplitAfterField(field: string, sep: char, tail: string)
    requires sep !in field
    ensures Split(field + [sep] + tail, sep) == [field] + Split(tail, sep)
  {
    var s := field + [sep] + tail;
    if field == [] {
      assert s[1..] == tail;
    } else {
      assert s[1..] == field[1..] + [sep] + tail;
      SplitAfterField(field[1..], sep, tail);
      assert [field[0]] + field[1..] == field;
    }
  }

  /** Splitting a join on the same separator gives back the parts, provided no
      part contains the separator and there is at least one part. */
  lemma {:induction false} SplitJoin(parts: seq<string>, sep: char)
    requires |parts| >= 1
    requires forall i :: 0 <= i < |parts| ==> sep !in parts[i]
    ensures Split(Join(parts, sep), sep) == parts
  {
    if |parts| == 1 {
      SplitWithoutSeparator(parts[0], sep);
    } else {
      SplitAfterField(parts[0], sep, Join(parts[1..], sep));
      SplitJoin(parts[1..], sep);
      assert [parts[0]] + parts[1..] == parts;
    }
  }
}
