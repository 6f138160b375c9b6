/**
 * Models of the three Go standard-library string routines the task service
 * relies on: `strings.TrimSpace`, `strconv.Atoi` (64-bit `int`) and
 * `strconv.Itoa` on non-negative values.
 */
module Text {
  import opened Options

  /** Largest and smallest value of Go's 64-bit `int`. */
  const MaxInt: int := 0x7fff_ffff_ffff_ffff
  const MinInt: int := -0x8000_0000_0000_0000

  // ---------------------------------------------------------------------
  // strings.TrimSpace
  // ---------------------------------------------------------------------

  /** White space as Go's `unicode.IsSpace` defines it. */
  predicate IsSpace(c: char) {
    || c == ' ' || c == '\t' || c == '\n' || c == '\r'
    || c == '\U{000B}' || c == '\U{000C}'
    || c == '\U{0085}' || c == '\U{00A0}' || c == '\U{1680}'
    || ('\U{2000}' <= c <= '\U{200A}')
    || c == '\U{2028}' || c == '\U{2029}' || c == '\U{202F}'
    || c == '\U{205F}' || c == '\U{3000}'
  }

  /** Every character of `s` is white space (vacuously true of ""). */
  predicate IsBlank(s: string) {
    forall i :: 0 <= i < |s| ==> IsSpace(s[i])
  }

  /** Neither end of `s` is white space. */
  predicate IsTrimmed(s: string) {
    s == [] || (!IsSpace(s[0]) && !IsSpace(s[|s| - 1]))
  }

  /** `s` without its leading white space. */
  function TrimLeft(s: string): (r: string)
    ensures |r| <= |s| && r == s[|s| - |r|..]
    ensures IsBlank(s[..|s| - |r|])
    ensures r == [] || !IsSpace(r[0])
  {
    if |s| > 0 && IsSpace(s[0]) then
      var rest := s[1..];
      var r := TrimLeft(rest);
      assert s[|s| - |r|..] == rest[|rest| - |r|..];
      var pad := rest[..|rest| - |r|];
      assert s[..|s| - |r|] == [s[0]] + pad;
      assert IsBlank([s[0]] + pad) by {
        forall i | 0 <= i < 1 + |pad| ensures IsSpace(([s[0]] + pad)[i]) {
          if i > 0 { assert ([s[0]] + pad)[i] == pad[i - 1]; }
        }
      }
      r
    else s
  }

  /** `s` without its trailing white space. */
  function TrimRight(s: string): (r: string)
    ensures |r| <= |s| && r == s[..|r|]
    ensures IsBlank(s[|r|..])
    ensures r == [] || !IsSpace(r[|r| - 1])
  {
    if |s| > 0 && IsSpace(s[|s| - 1]) then TrimRight(s[..|s| - 1]) else s
  }

  /** `strings.TrimSpace`: `s` without its leading and trailing white space. */
  function TrimSpace(s: string): (r: string)
    ensures |r| <= |s|
    ensures r == [] <==> IsBlank(s)
    ensures IsTrimmed(r)
  {
    var left := TrimLeft(s);
    assert left == [] ==> IsBlank(s) by {
      assert left == [] ==> s[..|s| - |left|] == s;
    }
    assert IsBlank(s) ==> left == [];
    TrimRight(left)
  }

  /** A string whose ends are not white space, padded with white space on either side. */
  lemma {:induction false} TrimLeftPadded(pad: string, t: string)
    requires IsBlank(pad)
    requires t == [] || !IsSpace(t[0])
    ensures TrimLeft(pad + t) == t
  {
    if pad != [] {
      assert (pad + t)[1..] == pad[1..] + t;
      TrimLeftPadded(pad[1..], t);
    } else {
      assert pad + t == t;
    }
  }

  lemma {:induction false} TrimRightPadded(t: string, pad: string)
    requires IsBlank(pad)
    requires t == [] || !IsSpace(t[|t| - 1])
    ensures TrimRight(t + pad) == t
  {
    if pad != [] {
      assert (t + pad)[..|t + pad| - 1] == t + pad[..|pad| - 1];
      TrimRightPadded(t, pad[..|pad| - 1]);
    } else {
      assert t + pad == t;
    }
  }

  /**
   * TrimSpace removes exactly the surrounding white space: whatever the
   * padding, the core whose ends are not white space is what remains.
   */
  lemma TrimSpacePadded(before: string, core: string, after: string)
    requires IsBlank(before) && IsBlank(after)
    requires IsTrimmed(core)
    ensures TrimSpace(before + core + after) == core
  {
    if core == [] {
      assert before + core + after == before + after;
      assert IsBlank(before + after) by {
        forall i | 0 <= i < |before + after| ensures IsSpace((before + after)[i]) {
          if i >= |before| { assert (before + after)[i] == after[i - |before|]; }
        }
      }
    } else {
      assert before + core + after == before + (core + after);
      TrimLeftPadded(before, core + after);
      TrimRightPadded(core, after);
    }
  }

  /** The strings TrimSpace leaves alone are exactly those with no white space at either end. */
  lemma TrimSpaceFixed(s: string)
    ensures TrimSpace(s) == s <==> IsTrimmed(s)
  {
    if IsTrimmed(s) {
      assert [] + s + [] == s;
      TrimSpacePadded([], s, []);
    }
  }

  /** Trimming twice is trimming once. */
  lemma TrimSpaceIdempotent(s: string)
    ensures TrimSpace(TrimSpace(s)) == TrimSpace(s)
  {
    TrimSpaceFixed(TrimSpace(s));
  }

  /** A padded description loses its padding: the surrounding blanks go, the word stays. */
  lemma TrimSpaceTonight()
    ensures TrimSpace("  tonight  ") == "tonight"
  {
    assert "  tonight  " == "  " + "tonight" + "  ";
    TrimSpacePadded("  ", "tonight", "  ");
  }

  // ---------------------------------------------------------------------
  // strconv.Atoi and strconv.Itoa
  // ---------------------------------------------------------------------

  predicate IsDigit(c: char) {
    '0' <= c <= '9'
  }

  /** A non-empty run of decimal digits. */
  predicate IsDigits(s: string) {
    |s| > 0 && forall i :: 0 <= i < |s| ==> IsDigit(s[i])
  }

  /** The value of a run of decimal digits, most significant first. */
  function DigitsValue(s: string): (n: nat)
    requires forall i :: 0 <= i < |s| ==> IsDigit(s[i])
  {
    if s == [] then 0
    else
      assert IsDigit(s[|s| - 1]);
      DigitsValue(s[..|s| - 1]) * 10 + (s[|s| - 1] as int - '0' as int)
  }

  /** The syntax `strconv.Atoi` accepts in base 10: an optional sign, then digits. */
  predicate IsDecimal(s: string) {
    || IsDigits(s)
    || (|s| > 0 && (s[0] == '+' || s[0] == '-') && IsDigits(s[1..]))
  }

  /**
   * `strconv.Atoi` on a 64-bit platform: `None` for a syntax error (including
   * the empty string, a lone sign and underscores) and for a value outside
   * Go's `int`.
   */
  function Atoi(s: string): (r: Option<int>)
    ensures r.Some? ==> IsDecimal(s)
    ensures r.Some? ==> MinInt <= r.value <= MaxInt
  {
    var negative := |s| > 0 && s[0] == '-';
    var digits := if |s| > 0 && (s[0] == '+' || s[0] == '-') then s[1..] else s;
    if !IsDigits(digits) then None
    else
      var magnitude: int := DigitsValue(digits);
      var n := if negative then -magnitude else magnitude;
      if MinInt <= n <= MaxInt then Some(n) else None
  }

  function DigitChar(d: nat): (c: char)
    requires d < 10
  {
    ('0' as int + d) as char
  }

  /** `strconv.Itoa` on a non-negative value: its shortest decimal spelling. */
  function Itoa(n: nat): (r: string)
    ensures IsDigits(r)
    ensures DigitsValue(r) == n
    ensures r[0] == '0' ==> r == "0"
  {
    if n < 10 then [DigitChar(n)]
    else
      var prefix := Itoa(n / 10);
      var r := prefix + [DigitChar(n % 10)];
      assert r[..|r| - 1] == prefix;
      r
  }

  /** Decoding what Itoa produced gives the value back, for every Go `int` that is not negative. */
  lemma AtoiItoa(n: nat)
    requires n <= MaxInt
    ensures Atoi(Itoa(n)) == Some(n)
  {
    var s := Itoa(n);
    assert s[0] != '+' && s[0] != '-';
  }

  /** Signs are accepted on both sides of zero, and the lone sign, the empty string and letters are not. */
  lemma AtoiExamples()
    ensures Atoi("-0") == Some(0)
    ensures Atoi("+3") == Some(3)
    ensures Atoi("-1") == Some(-1)
    ensures Atoi("42") == Some(42)
    ensures Atoi("abc") == None
    ensures Atoi("") == None
    ensures Atoi("-") == None
    ensures Atoi("1_000") == None
  {
    assert DigitsValue("0") == 0;
    assert "+3"[1..] == "3" && DigitsValue("3") == 3;
    assert "-1"[1..] == "1" && DigitsValue("1") == 1;
    assert "42"[..1] == "4";
    assert DigitsValue("42") == 42;
    assert !IsDigit("abc"[0]);
    assert !IsDigit("1_000"[1]);
  }

  /**
   * Every string of the accepted syntax that is in range is accepted, with
   * its signed decimal value: an optional sign, then digits (leading zeros
   * allowed).
   */
  lemma AtoiAccepts(sign: string, d: string)
    requires sign == "" || sign == "+" || sign == "-"
    requires IsDigits(d)
    requires var v: int := if sign == "-" then -(DigitsValue(d) as int) else DigitsValue(d) as int;
      MinInt <= v <= MaxInt
    ensures Atoi(sign + d) == Some(if sign == "-" then -(DigitsValue(d) as int) else DigitsValue(d) as int)
  {
    if sign == "" {
      assert sign + d == d;
      assert IsDigit(d[0]);
    } else {
      assert (sign + d)[0] == sign[0];
      assert (sign + d)[1..] == d;
    }
  }

  /**
   * Every string of the accepted syntax whose signed value falls outside Go's
   * `int` is a range error.
   */
  lemma AtoiRejectsOverflow(sign: string, d: string)
    requires sign == "" || sign == "+" || sign == "-"
    requires IsDigits(d)
    requires var v: int := if sign == "-" then -(DigitsValue(d) as int) else DigitsValue(d) as int;
      !(MinInt <= v <= MaxInt)
    ensures Atoi(sign + d) == None
  {
    if sign == "" {
      assert sign + d == d;
      assert IsDigit(d[0]);
    } else {
      assert (sign + d)[0] == sign[0];
      assert (sign + d)[1..] == d;
    }
  }

  /** The largest Go `int` decodes; one more is a range error. */
  lemma AtoiRange()
    ensures Atoi(Itoa(MaxInt)) == Some(MaxInt)
    ensures Atoi(Itoa(MaxInt + 1)) == None
  {
    AtoiItoa(MaxInt);
    var s := Itoa(MaxInt + 1);
    assert s[0] != '+' && s[0] != '-';
  }
}
