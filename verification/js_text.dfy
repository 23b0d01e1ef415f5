/** The string handling the points calculator relies on: `String.prototype.trim`,
    the `[^0-9-]` input filter and `parseInt` with no radix (section 19.2.5 of ECMA-262). */
module JsText {
  import opened Seqs

  /** WhiteSpace and LineTerminator code points of ECMA-262 (sections 12.2 and 12.3):
      the characters both `trim` and `parseInt` skip. */
  predicate IsWhiteSpace(c: char) {
    var n := c as int;
    || n == 0x09 || n == 0x0B || n == 0x0C || n == 0x20 || n == 0xA0 || n == 0xFEFF
    || n == 0x1680 || (0x2000 <= n <= 0x200A) || n == 0x202F || n == 0x205F || n == 0x3000
    || n == 0x0A || n == 0x0D || n == 0x2028 || n == 0x2029
  }

  predicate IsDecimalDigit(c: char) {
    '0' <= c <= '9'
  }

  /** The characters `/[^0-9-]/g` keeps. */
  predicate IsAllowed(c: char) {
    IsDecimalDigit(c) || c == '-'
  }

  /** How much white space `trim` cuts off the front: the length of the leading run of white space. */
  function LeadingSpace(s: string): (n: nat)
    ensures n <= |s|
    ensures forall k :: 0 <= k < n ==> IsWhiteSpace(s[k])
    ensures n == |s| || !IsWhiteSpace(s[n])
  {
    if |s| > 0 && IsWhiteSpace(s[0]) then
      var n := 1 + LeadingSpace(s[1..]);
      assert forall k :: 1 <= k < |s| ==> s[k] == s[1..][k - 1];
      n
    else 0
  }

  /** The length of the trailing run of white space. */
  function TrailingSpace(s: string): (n: nat)
    ensures n <= |s|
    ensures forall k :: |s| - n <= k < |s| ==> IsWhiteSpace(s[k])
    ensures n == |s| || !IsWhiteSpace(s[|s| - n - 1])
  {
    if |s| > 0 && IsWhiteSpace(s[|s| - 1]) then
      var n := 1 + TrailingSpace(s[..|s| - 1]);
      assert forall k :: 0 <= k < |s| - 1 ==> s[k] == s[..|s| - 1][k];
      n
    else 0
  }

  /** Leading white space removed. */
  function TrimStart(s: string): (r: string)
    ensures |r| <= |s| && r == s[|s| - |r|..]
    ensures forall k :: 0 <= k < |s| - |r| ==> IsWhiteSpace(s[k])
    ensures r == [] || !IsWhiteSpace(r[0])
  {
    s[LeadingSpace(s)..]
  }

  /** Trailing white space removed. */
  function TrimEnd(s: string): (r: string)
    ensures |r| <= |s| && r == s[..|r|]
    ensures forall k :: |r| <= k < |s| ==> IsWhiteSpace(s[k])
    ensures r == [] || !IsWhiteSpace(r[|r| - 1])
  {
    s[..|s| - TrailingSpace(s)]
  }

  /** `s.trim()`: the slice of `s` after its leading white space that neither starts nor
      ends with white space, everything cut off on either side being white space. */
  function Trim(s: string): (r: string)
    ensures LeadingSpace(s) + |r| <= |s| && r == s[LeadingSpace(s)..LeadingSpace(s) + |r|]
    ensures forall k :: 0 <= k < LeadingSpace(s) ==> IsWhiteSpace(s[k])
    ensures forall k :: LeadingSpace(s) + |r| <= k < |s| ==> IsWhiteSpace(s[k])
    ensures r == [] || (!IsWhiteSpace(r[0]) && !IsWhiteSpace(r[|r| - 1]))
  {
    TrimMiddle(s);
    TrimTail(s);
    TrimEnd(TrimStart(s))
  }

  lemma TrimMiddle(s: string)
    ensures var r := TrimEnd(TrimStart(s));
            && LeadingSpace(s) + |r| <= |s| && r == s[LeadingSpace(s)..LeadingSpace(s) + |r|]
            && (r == [] || !IsWhiteSpace(r[0]))
  {
    var a := LeadingSpace(s);
    var t := TrimStart(s);
    var r := TrimEnd(t);
    assert t == s[a..] && r == t[..|r|];
    forall i | 0 <= i < |r|
      ensures r[i] == s[a + i]
    {
      assert r[i] == t[i];
    }
    assert r == s[a..a + |r|];
    if |r| > 0 {
      assert r[0] == t[0];
    }
  }

  lemma TrimTail(s: string)
    ensures var r := TrimEnd(TrimStart(s));
            forall k :: LeadingSpace(s) + |r| <= k < |s| ==> IsWhiteSpace(s[k])
  {
    var a := LeadingSpace(s);
    var t := TrimStart(s);
    var r := TrimEnd(t);
    assert t == s[a..];
    forall k | a + |r| <= k < |s|
      ensures IsWhiteSpace(s[k])
    {
      assert s[k] == t[k - a];
      assert IsWhiteSpace(t[k - a]);
    }
  }

  /** `!name.trim()` holds exactly when the name is nothing but white space. */
  lemma TrimEmptyIffBlank(s: string)
    ensures Trim(s) == [] <==> forall k :: 0 <= k < |s| ==> IsWhiteSpace(s[k])
  {
    var a := LeadingSpace(s);
    if Trim(s) == [] {
      forall k | 0 <= k < |s|
        ensures IsWhiteSpace(s[k])
      {
        if k >= a {
          assert a + |Trim(s)| <= k;
        }
      }
    }
  }

  /** Trimming a trimmed string changes nothing. */
  lemma TrimIdempotent(s: string)
    ensures Trim(Trim(s)) == Trim(s)
  {
    var r := Trim(s);
    assert LeadingSpace(r) == 0;
    assert TrailingSpace(r) == 0;
  }

  /** `value.replace(/[^0-9-]/g, '')`: every character other than a digit or `-` dropped. */
  function Sanitise(s: string): (r: string)
    ensures |r| <= |s|
    ensures forall k :: 0 <= k < |r| ==> IsAllowed(r[k])
  {
    if |s| == 0 then [] else (if IsAllowed(s[0]) then [s[0]] else []) + Sanitise(s[1..])
  }

  /** The filter keeps every digit and `-`, each as often as it occurs. */
  lemma {:induction false} SanitiseKeepsCounts(s: string)
    ensures forall c :: IsAllowed(c) ==> multiset(Sanitise(s))[c] == multiset(s)[c]
  {
    if |s| > 0 {
      SanitiseKeepsCounts(s[1..]);
      assert s == [s[0]] + s[1..];
    }
  }

  /** The filter works character by character: filtering a concatenation is concatenating the filtered parts. */
  lemma {:induction false} SanitiseAppend(a: string, b: string)
    ensures Sanitise(a + b) == Sanitise(a) + Sanitise(b)
  {
    if |a| > 0 {
      assert (a + b)[1..] == a[1..] + b;
      SanitiseAppend(a[1..], b);
    } else {
      assert a + b == b;
    }
  }

  /** Input that only holds digits and `-` passes through unchanged, so filtering twice is filtering once. */
  lemma {:induction false} SanitiseKeepsAllowed(s: string)
    requires forall k :: 0 <= k < |s| ==> IsAllowed(s[k])
    ensures Sanitise(s) == s
  {
    if |s| > 0 {
      SanitiseKeepsAllowed(s[1..]);
    }
  }

  lemma SanitiseIdempotent(s: string)
    ensures Sanitise(Sanitise(s)) == Sanitise(s)
  {
    SanitiseKeepsAllowed(Sanitise(s));
  }

  predicate IsRadixDigit(c: char, radix: int) {
    if radix == 16 then IsDecimalDigit(c) || 'a' <= c <= 'f' || 'A' <= c <= 'F'
    else IsDecimalDigit(c)
  }

  function DigitValue(c: char): (v: nat)
    ensures IsDecimalDigit(c) ==> v == c as int - '0' as int
  {
    if IsDecimalDigit(c) then c as int - '0' as int
    else if 'a' <= c <= 'f' then c as int - 'a' as int + 10
    else if 'A' <= c <= 'F' then c as int - 'A' as int + 10
    else 0
  }

  /** The longest prefix made of digits of the radix. */
  function DigitRun(s: string, radix: int): (z: string)
    ensures |z| <= |s| && z == s[..|z|]
    ensures forall k :: 0 <= k < |z| ==> IsRadixDigit(z[k], radix)
    ensures |z| == |s| || !IsRadixDigit(s[|z|], radix)
  {
    if |s| > 0 && IsRadixDigit(s[0], radix) then [s[0]] + DigitRun(s[1..], radix) else []
  }

  /** The number a digit string denotes, most significant digit first. */
  function DigitsValue(z: string, radix: nat): nat {
    if |z| == 0 then 0 else DigitsValue(z[..|z| - 1], radix) * radix + DigitValue(z[|z| - 1])
  }

  /** The unsigned part of `parseInt`: a `0x`/`0X` prefix switches to radix 16, then the
      longest run of digits is read; no digits at all is `NaN`. */
  function ParseMagnitude(u: string): Option<nat> {
    if |u| >= 2 && u[0] == '0' && (u[1] == 'x' || u[1] == 'X') then ReadDigits(u[2..], 16)
    else ReadDigits(u, 10)
  }

  /** The value of the longest run of radix digits in front, or `NaN` when there is none. */
  function ReadDigits(u: string, radix: nat): Option<nat> {
    var z := DigitRun(u, radix);
    if |z| == 0 then None else Some(DigitsValue(z, radix))
  }

  /** `parseInt(s)` with the radix left out; `None` is `NaN`. Leading white space is skipped,
      one sign is read, and the rest goes to `ParseMagnitude`. The numeric value is kept
      exact, and `-0` reads as 0. */
  function ParseInt(s: string): (r: Option<int>) {
    ParseSigned(TrimStart(s))
  }

  /** `parseInt` after the white space: an optional sign, then the magnitude. */
  function ParseSigned(t: string): Option<int> {
    var negative := |t| > 0 && t[0] == '-';
    var u := if |t| > 0 && (t[0] == '+' || t[0] == '-') then t[1..] else t;
    match ParseMagnitude(u)
    case None => None
    case Some(m) => var magnitude: int := m; Some(if negative then -magnitude else magnitude)
  }

  /** After the `[0-9-]` filter, `parseInt` yields a number exactly when the text starts with a digit,
      or with one minus sign followed by a digit. */
  lemma ParseIntOfSanitised(s: string)
    requires forall k :: 0 <= k < |s| ==> IsAllowed(s[k])
    ensures ParseInt(s).Some? <==>
              (|s| > 0 && IsDecimalDigit(s[0])) || (|s| > 1 && s[0] == '-' && IsDecimalDigit(s[1]))
  {
    if |s| > 0 {
      assert !IsWhiteSpace(s[0]);
      NoLeadingSpace(s);
      if s[0] == '-' {
        MagnitudeSome(s[1..]);
      } else {
        MagnitudeSome(s);
      }
    } else {
      MagnitudeSome(s);
    }
  }

  /** Without an `x` in second place, the magnitude is decimal and exists exactly when the text
      starts with a digit. */
  lemma MagnitudeSome(u: string)
    requires |u| >= 2 ==> u[1] != 'x' && u[1] != 'X'
    ensures ParseMagnitude(u).Some? <==> |u| > 0 && IsDecimalDigit(u[0])
  {
  }

  /** The decimal numeral of a natural number, without leading zeros. */
  function ShowNat(n: nat): (r: string)
    ensures |r| > 0
    ensures forall k :: 0 <= k < |r| ==> IsDecimalDigit(r[k])
  {
    var d := ['0' + (n % 10) as char];
    if n < 10 then d else ShowNat(n / 10) + d
  }

  /** The decimal numeral of an integer, as `String(n)` writes it. */
  function Show(n: int): (r: string)
    ensures |r| > 0 && !IsWhiteSpace(r[0])
    ensures forall k :: 0 <= k < |r| ==> IsAllowed(r[k])
  {
    if n < 0 then "-" + ShowNat(-n) else ShowNat(n)
  }

  lemma {:induction false} ShowNatValue(n: nat)
    ensures DigitsValue(ShowNat(n), 10) == n
  {
    var r := ShowNat(n);
    if n >= 10 {
      ShowNatValue(n / 10);
      assert r[..|r| - 1] == ShowNat(n / 10);
    }
  }

  /** A run of decimal digits in front is read whole, and the run stops where the digits do. */
  lemma {:induction false} DigitRunOfDigits(d: string, rest: string)
    requires forall k :: 0 <= k < |d| ==> IsDecimalDigit(d[k])
    requires rest == [] || !IsDecimalDigit(rest[0])
    ensures DigitRun(d + rest, 10) == d
  {
    if |d| > 0 {
      assert (d + rest)[1..] == d[1..] + rest;
      DigitRunOfDigits(d[1..], rest);
      assert d == [d[0]] + d[1..];
    } else {
      assert d + rest == rest;
    }
  }

  /** A run of decimal digits, followed by something that cannot continue it, reads as its value;
      a leading `0` followed by a digit is not taken for a hex prefix. */
  lemma MagnitudeOfDigits(d: string, rest: string)
    requires |d| > 0 && forall k :: 0 <= k < |d| ==> IsDecimalDigit(d[k])
    requires rest == [] || (!IsDecimalDigit(rest[0]) && rest[0] != 'x' && rest[0] != 'X')
    ensures ParseMagnitude(d + rest) == Some(DigitsValue(d, 10))
  {
    var u := d + rest;
    assert |u| >= 2 ==> u[1] == if |d| >= 2 then d[1] else rest[0];
    DigitRunOfDigits(d, rest);
  }

  /** `parseInt` reads back what `Show` writes, and stops at the first character that
      cannot continue the numeral. */
  lemma ParseIntShow(n: int, rest: string)
    requires rest == [] || (!IsDecimalDigit(rest[0]) && rest[0] != 'x' && rest[0] != 'X')
    ensures ParseInt(Show(n) + rest) == Some(n)
  {
    var m: nat := if n < 0 then -n else n;
    var u := ShowNat(m) + rest;
    ShowNatValue(m);
    MagnitudeOfDigits(ShowNat(m), rest);
    if n < 0 {
      assert Show(n) + rest == "-" + u;
      NoLeadingSpace("-" + u);
      SignedNegative(u, m);
    } else {
      assert Show(n) + rest == u;
      assert IsDecimalDigit(u[0]);
      NoLeadingSpace(u);
      SignedUnsigned(u, m);
    }
  }

  /** A minus sign in front of a magnitude negates it. */
  lemma SignedNegative(u: string, v: nat)
    requires ParseMagnitude(u) == Some(v)
    ensures ParseSigned("-" + u) == Some(-(v as int))
  {
    assert ("-" + u)[1..] == u;
  }

  /** A magnitude that starts with a digit reads as itself. */
  lemma SignedUnsigned(u: string, v: nat)
    requires |u| > 0 && IsDecimalDigit(u[0])
    requires ParseMagnitude(u) == Some(v)
    ensures ParseSigned(u) == Some(v as int)
  {
  }

  /** Text that does not start with white space is left alone by `TrimStart`. */
  lemma NoLeadingSpace(s: string)
    requires |s| > 0 && !IsWhiteSpace(s[0])
    ensures TrimStart(s) == s
  {
  }

  /** A numeral on its own parses back to its number. */
  lemma ParseIntOfShow(n: int)
    ensures ParseInt(Show(n)) == Some(n)
  {
    ParseIntShow(n, []);
    assert Show(n) + [] == Show(n);
  }

  /** `handleTempPointsChange`: the filtered text parsed, with `NaN` read as 0. */
  function TempPointsFromInput(raw: string): int {
    match ParseInt(Sanitise(raw))
    case None => 0
    case Some(n) => n
  }

  /** Input without a single digit leaves the points editor at 0, whatever else was typed. */
  lemma TempPointsWithoutDigits(raw: string)
    requires forall k :: 0 <= k < |raw| ==> !IsDecimalDigit(raw[k])
    ensures TempPointsFromInput(raw) == 0
  {
    var s := Sanitise(raw);
    SanitiseKeepsCounts(raw);
    forall k | 0 <= k < |s|
      ensures !IsDecimalDigit(s[k])
    {
      assert s[k] in multiset(s);
      assert s[k] in multiset(raw);
      var j :| 0 <= j < |raw| && raw[j] == s[k];
    }
    ParseIntOfSanitised(s);
  }

  /** Typing a number into the points editor yields that number. */
  lemma TempPointsOfNumeral(n: int)
    ensures TempPointsFromInput(Show(n)) == n
  {
    SanitiseKeepsAllowed(Show(n));
    ParseIntShow(n, []);
    assert Show(n) + [] == Show(n);
  }

  /** `handleTargetChange`: the target is stored as the filtered text, unparsed. */
  function TargetFromInput(raw: string): (t: string)
    ensures forall k :: 0 <= k < |t| ==> IsAllowed(t[k])
    ensures forall c :: IsAllowed(c) ==> multiset(t)[c] == multiset(raw)[c]
  {
    SanitiseKeepsCounts(raw);
    Sanitise(raw)
  }

  /** The target filter keeps order: the stored text of a concatenation is the stored texts concatenated. */
  lemma TargetFromInputAppend(a: string, b: string)
    ensures TargetFromInput(a + b) == TargetFromInput(a) + TargetFromInput(b)
  {
    SanitiseAppend(a, b);
  }

  /** Typing a number into the target field stores its numeral unchanged. */
  lemma TargetOfNumeral(n: int)
    ensures TargetFromInput(Show(n)) == Show(n)
  {
    SanitiseKeepsAllowed(Show(n));
  }
}
