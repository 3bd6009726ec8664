/**
  The small pieces of JavaScript built-in behaviour that the staff-dashboard
  scripts rely on, stated over Dafny values: `Array.prototype.slice` with
  negative indices, `String.prototype.trim`, `String.prototype.replace` with a
  one-character string pattern (first occurrence only), decimal rendering of
  integers in template strings, and `parseInt` without a radix.
*/
module JsSemantics {

  datatype Option<T> = None | Some(value: T)

  datatype Result<T, E> = Success(value: T) | Failure(error: E)

  function Min(a: int, b: int): int { if a <= b then a else b }

  function Max(a: int, b: int): int { if a >= b then a else b }

  // ---------------------------------------------------------------------------
  // Array.prototype.slice(start, end)
  // ---------------------------------------------------------------------------

  /** How `slice` turns one of its arguments into a position of an array of length `len`:
      a negative argument counts from the end, and both kinds are clamped to [0, len]. */
  function RelativeIndex(i: int, len: nat): (r: nat)
    ensures r <= len
    ensures i < 0 ==> r == Max(len + i, 0)
    ensures 0 <= i ==> r == Min(i, len)
  {
    if i < 0 then (if len + i < 0 then 0 else len + i)
    else if i < len then i else len
  }

  /** `s.slice(start)` when `end` is None, `s.slice(start, end)` otherwise: the elements
      from the start position up to, not including, the end position (the end of the
      array when there is no end), both positions taken as `RelativeIndex` takes them;
      nothing when the end position is not after the start position. */
  function JsSlice<T>(s: seq<T>, start: int, end: Option<int>): (r: seq<T>)
    ensures var from := RelativeIndex(start, |s|);
      var to := if end.None? then |s| else RelativeIndex(end.value, |s|);
      && |r| == Max(to - from, 0)
      && r == s[from..from + |r|]
  {
    var from := RelativeIndex(start, |s|);
    var to := if end.None? then |s| else RelativeIndex(end.value, |s|);
    if from < to then s[from..to] else []
  }

  /** `s.slice(-k)` is the last min(k, |s|) elements. */
  lemma SliceLast<T>(s: seq<T>, k: nat)
    requires k > 0
    ensures JsSlice(s, -(k as int), None) == s[|s| - Min(k, |s|)..]
  {
  }

  /** `s.slice(-a, -b)` is the window of positions [max(|s|-a, 0), max(|s|-b, 0)). */
  lemma SliceWindow<T>(s: seq<T>, a: nat, b: nat)
    requires 0 < b <= a
    ensures JsSlice(s, -(a as int), Some(-(b as int))) == s[Max(|s| - a, 0)..Max(|s| - b, 0)]
  {
  }

  // ---------------------------------------------------------------------------
  // String.prototype.trim
  // ---------------------------------------------------------------------------

  /** The characters `trim` removes: ECMAScript WhiteSpace and LineTerminator. */
  predicate IsJsWhitespace(c: char)
  {
    c == '\t' || c == '\n' || c == '\U{000B}' || c == '\U{000C}' || c == '\r' || c == ' '
    || c == '\U{00A0}' || c == '\U{1680}' || ('\U{2000}' <= c <= '\U{200A}')
    || c == '\U{2028}' || c == '\U{2029}' || c == '\U{202F}' || c == '\U{205F}'
    || c == '\U{3000}' || c == '\U{FEFF}'
  }

  predicate AllWhitespace(s: string)
  {
    forall i :: 0 <= i < |s| ==> IsJsWhitespace(s[i])
  }

  /** Drops the leading whitespace: what is left is a suffix that starts with a non-blank. */
  function TrimStart(s: string): (r: string)
    ensures |r| <= |s| && r == s[|s| - |r|..]
    ensures AllWhitespace(s[..|s| - |r|])
    ensures r != [] ==> !IsJsWhitespace(r[0])
  {
    if s == [] || !IsJsWhitespace(s[0]) then
      assert s[|s| - |s|..] == s;
      s
    else
      var t := TrimStart(s[1..]);
      BlankThenSuffix(s, t);
      t
  }

  /** A suffix of `s[1..]` after blanks is a suffix of `s` after blanks when `s[0]` is blank. */
  lemma BlankThenSuffix(s: string, t: string)
    requires s != [] && IsJsWhitespace(s[0])
    requires |t| <= |s| - 1 && t == s[1..][|s| - 1 - |t|..]
    requires AllWhitespace(s[1..][..|s| - 1 - |t|])
    ensures t == s[|s| - |t|..] && AllWhitespace(s[..|s| - |t|])
  {
    var dropped := s[1..][..|s| - 1 - |t|];
    assert s[..|s| - |t|] == [s[0]] + dropped;
    AllWhitespaceConcat([s[0]], dropped);
  }

  /** Drops the trailing whitespace: what is left is a prefix that ends with a non-blank. */
  function TrimEnd(s: string): (r: string)
    ensures |r| <= |s| && r == s[..|r|]
    ensures AllWhitespace(s[|r|..])
    ensures r != [] ==> !IsJsWhitespace(r[|r| - 1])
  {
    if s == [] || !IsJsWhitespace(s[|s| - 1]) then
      assert s[..|s|] == s;
      s
    else
      var init := s[..|s| - 1];
      var t := TrimEnd(init);
      var dropped := init[|t|..];
      assert init[..|t|] == s[..|t|];
      assert AllWhitespace([s[|s| - 1]]);
      AllWhitespaceConcat(dropped, [s[|s| - 1]]);
      assert s[|t|..] == dropped + [s[|s| - 1]];
      t
  }

  /** `s.trim()`: no blanks left at either end. */
  function Trim(s: string): (r: string)
    ensures |r| <= |s|
    ensures r != [] ==> !IsJsWhitespace(r[0]) && !IsJsWhitespace(r[|r| - 1])
  {
    TrimEnd(TrimStart(s))
  }

  /** `r` sits at position `i` of `s` with only blanks before and after it. */
  predicate PieceAt(s: string, r: string, i: int)
  {
    0 <= i <= |s| - |r| && s[i..i + |r|] == r
    && AllWhitespace(s[..i]) && AllWhitespace(s[i + |r|..])
  }

  /** What `trim` keeps is a contiguous piece of `s` with only blanks around it. */
  lemma TrimIsPiece(s: string)
    ensures exists i :: PieceAt(s, Trim(s), i)
  {
    TrimPieceAt(s);
  }

  lemma TrimPieceAt(s: string)
    ensures PieceAt(s, Trim(s), |s| - |TrimStart(s)|)
  {
    PrefixOfSuffix(s, TrimStart(s), Trim(s));
  }

  /** A prefix `r` of a suffix `a` of `s`, with blanks dropped on both sides, is a piece of `s`. */
  lemma PrefixOfSuffix(s: string, a: string, r: string)
    requires |a| <= |s| && a == s[|s| - |a|..] && AllWhitespace(s[..|s| - |a|])
    requires |r| <= |a| && r == a[..|r|] && AllWhitespace(a[|r|..])
    ensures PieceAt(s, r, |s| - |a|)
  {
    var i := |s| - |a|;
    assert s[i..i + |r|] == a[..|r|];
    assert s[i + |r|..] == a[|r|..];
  }

  /** A string trims to nothing exactly when it is all blanks. */
  lemma TrimEmptyIffBlank(s: string)
    ensures Trim(s) == [] <==> AllWhitespace(s)
  {
    var a := TrimStart(s);
    var i := |s| - |a|;
    if Trim(s) == [] {
      assert a[0..] == a;
      AllWhitespaceConcat(s[..i], a);
      assert s == s[..i] + a;
    } else {
      assert a[0] == Trim(s)[0];
      assert s[i] == a[0];
    }
  }

  lemma AllWhitespaceConcat(x: string, y: string)
    requires AllWhitespace(x) && AllWhitespace(y)
    ensures AllWhitespace(x + y)
  {
    forall k | 0 <= k < |x + y| ensures IsJsWhitespace((x + y)[k]) {
      if k < |x| { assert (x + y)[k] == x[k]; } else { assert (x + y)[k] == y[k - |x|]; }
    }
  }

  /** Trimming twice is trimming once. */
  lemma TrimIdempotent(s: string)
    ensures Trim(Trim(s)) == Trim(s)
  {
    var r := Trim(s);
    assert TrimStart(r) == r;
    assert TrimEnd(r) == r;
  }

  // ---------------------------------------------------------------------------
  // String.prototype.replace(pattern, replacement) with a one-character string pattern
  // ---------------------------------------------------------------------------

  /** Position of the first occurrence of `c` in `s`. */
  function IndexOf(s: string, c: char): (i: nat)
    requires c in s
    ensures i < |s| && s[i] == c
    ensures forall j :: 0 <= j < i ==> s[j] != c
  {
    if s[0] == c then 0 else 1 + IndexOf(s[1..], c)
  }

  /** `s.replace(from, to)` for a string pattern: only the FIRST occurrence is replaced. */
  function ReplaceFirst(s: string, from: char, to: char): (r: string)
    ensures |r| == |s|
    ensures from !in s ==> r == s
    ensures from in s ==>
              r[IndexOf(s, from)] == to
              && forall j :: 0 <= j < |s| && j != IndexOf(s, from) ==> r[j] == s[j]
  {
    if s == [] then []
    else if s[0] == from then [to] + s[1..]
    else [s[0]] + ReplaceFirst(s[1..], from, to)
  }

  function Occurrences(s: string, c: char): nat
  {
    multiset(s)[c]
  }

  /** When `from` and `to` differ and `from` occurs, exactly one occurrence disappears. */
  lemma {:induction false} ReplaceFirstRemovesOne(s: string, from: char, to: char)
    requires from != to && from in s
    ensures Occurrences(ReplaceFirst(s, from, to), from) == Occurrences(s, from) - 1
  {
    if s[0] == from {
      assert s == [s[0]] + s[1..];
      assert ReplaceFirst(s, from, to) == [to] + s[1..];
    } else {
      assert s == [s[0]] + s[1..];
      assert from in s[1..];
      ReplaceFirstRemovesOne(s[1..], from, to);
      assert ReplaceFirst(s, from, to) == [s[0]] + ReplaceFirst(s[1..], from, to);
    }
  }

  // ---------------------------------------------------------------------------
  // Decimal text of integers: template-string rendering and parseInt
  // ---------------------------------------------------------------------------

  predicate IsDigit(c: char) { '0' <= c <= '9' }

  predicate AllDigits(s: string)
  {
    forall i :: 0 <= i < |s| ==> IsDigit(s[i])
  }

  function DigitChar(d: nat): (c: char)
    requires d < 10
    ensures IsDigit(c) && c as int - '0' as int == d
  {
    (48 + d) as char
  }

  /** The number a string of decimal digits denotes. */
  function DigitsValue(s: string): nat
    requires AllDigits(s)
  {
    if s == [] then 0 else 10 * DigitsValue(s[..|s| - 1]) + (s[|s| - 1] as int - '0' as int)
  }

  /** How `${n}` renders a non-negative integer: decimal digits, no leading zero. */
  function NatToString(n: nat): (s: string)
    ensures |s| > 0 && AllDigits(s)
    ensures |s| > 1 ==> s[0] != '0'
  {
    if n < 10 then [DigitChar(n)] else NatToString(n / 10) + [DigitChar(n % 10)]
  }

  /** Rendering a number and reading the digits back gives the number. */
  lemma {:induction false} DigitsRoundTrip(n: nat)
    ensures DigitsValue(NatToString(n)) == n
  {
    var s := NatToString(n);
    if n >= 10 {
      DigitsRoundTrip(n / 10);
      assert s[..|s| - 1] == NatToString(n / 10);
    }
  }

  /** A whole string of digits as a number, or None. */
  function ParseDecimal(s: string): Option<nat>
  {
    if s != [] && AllDigits(s) then Some(DigitsValue(s)) else None
  }

  /** The longest prefix of `s` made of digits. */
  function LeadingDigits(s: string): (r: string)
    ensures |r| <= |s| && r == s[..|r|] && AllDigits(r)
    ensures |r| < |s| ==> !IsDigit(s[|r|])
  {
    if s == [] || !IsDigit(s[0]) then []
    else [s[0]] + LeadingDigits(s[1..])
  }

  predicate IsHexDigit(c: char)
  {
    IsDigit(c) || 'a' <= c <= 'f' || 'A' <= c <= 'F'
  }

  predicate AllHexDigits(s: string)
  {
    forall i :: 0 <= i < |s| ==> IsHexDigit(s[i])
  }

  function HexDigitValue(c: char): (d: nat)
    requires IsHexDigit(c)
    ensures d < 16
    ensures IsDigit(c) ==> d == c as int - '0' as int
  {
    if IsDigit(c) then c as int - '0' as int
    else if 'a' <= c <= 'f' then c as int - 'a' as int + 10
    else c as int - 'A' as int + 10
  }

  /** The number a string of hexadecimal digits denotes. */
  function HexValue(s: string): nat
    requires AllHexDigits(s)
  {
    if s == [] then 0 else 16 * HexValue(s[..|s| - 1]) + HexDigitValue(s[|s| - 1])
  }

  /** The longest prefix of `s` made of hexadecimal digits. */
  function LeadingHexDigits(s: string): (r: string)
    ensures |r| <= |s| && r == s[..|r|] && AllHexDigits(r)
    ensures |r| < |s| ==> !IsHexDigit(s[|r|])
  {
    if s == [] || !IsHexDigit(s[0]) then []
    else [s[0]] + LeadingHexDigits(s[1..])
  }

  /** `0x` or `0X`: the prefix that makes `parseInt` without a radix read hexadecimal. */
  predicate HasHexPrefix(s: string)
  {
    |s| >= 2 && s[0] == '0' && (s[1] == 'x' || s[1] == 'X')
  }

  /** The magnitude `parseInt` reads after the sign: hexadecimal digits after a `0x`
      prefix, decimal digits otherwise; None when no digit follows. */
  function ParseMagnitude(u: string): Option<nat>
  {
    if HasHexPrefix(u) then
      var digits := LeadingHexDigits(u[2..]);
      if digits == [] then None else Some(HexValue(digits))
    else
      var digits := LeadingDigits(u);
      if digits == [] then None else Some(DigitsValue(digits))
  }

  /** `parseInt(s)` without a radix, as ECMAScript defines it: skip leading blanks, read
      an optional sign, then a `0x`/`0X` prefix selects base 16, and the longest run of
      digits of the base is read. None stands for NaN (no digit where one is expected).
      A whole string of decimal digits reads as its value; a string that starts with
      something other than a blank, a sign or a digit is NaN. */
  function ParseInt(s: string): (r: Option<int>)
    ensures s != [] && AllDigits(s) ==> r == Some(DigitsValue(s))
    ensures s != [] && !IsJsWhitespace(s[0]) && !IsDigit(s[0]) && s[0] != '-' && s[0] != '+' ==>
              r.None?
  {
    WholeDecimal(s);
    NoLeadingNumber(s);
    var t := TrimStart(s);
    var negative := |t| > 0 && t[0] == '-';
    var unsigned := if |t| > 0 && (t[0] == '-' || t[0] == '+') then t[1..] else t;
    match ParseMagnitude(unsigned)
    case None => None
    case Some(m) => Some(if negative then -(m as int) else m)
  }

  /** A string of decimal digits has no blank to skip, and all of it is read. */
  lemma WholeDecimal(s: string)
    ensures s != [] && AllDigits(s) ==>
              TrimStart(s) == s && ParseMagnitude(s) == Some(DigitsValue(s))
  {
    if s != [] && AllDigits(s) {
      assert IsDigit(s[0]) && !IsJsWhitespace(s[0]);
      assert TrimStart(s) == s;
      assert !HasHexPrefix(s) by {
        if |s| >= 2 { assert IsDigit(s[1]); }
      }
      AllDigitsAreLeading(s);
    }
  }

  /** A string that starts with neither a blank, a sign nor a digit is read as nothing. */
  lemma NoLeadingNumber(s: string)
    ensures s != [] && !IsJsWhitespace(s[0]) && !IsDigit(s[0]) && s[0] != '-' && s[0] != '+' ==>
              TrimStart(s) == s && ParseMagnitude(s).None?
  {
    if s != [] && !IsJsWhitespace(s[0]) && !IsDigit(s[0]) && s[0] != '-' && s[0] != '+' {
      assert TrimStart(s) == s;
      assert !HasHexPrefix(s);
      assert LeadingDigits(s) == [];
    }
  }

  /** `parseInt("0x10")` is 16: a hexadecimal prefix switches the base. */
  lemma ParseIntReadsHex()
    ensures ParseInt("0x10") == Some(16)
  {
    var s := "0x10";
    assert !IsJsWhitespace(s[0]);
    assert TrimStart(s) == s;
    assert HasHexPrefix(s) && s[2..] == "10";
    assert LeadingHexDigits("10") == "10" by {
      assert "10"[1..] == "0";
      assert "0"[1..] == [];
    }
    assert HexValue("10") == 16 by {
      assert "10"[..1] == "1";
      assert "1"[..0] == [];
    }
    assert ParseMagnitude(s) == Some(16);
  }

  /** parseInt reads back what template rendering of a non-negative integer wrote. */
  lemma ParseIntOfNatToString(n: nat)
    ensures ParseInt(NatToString(n)) == Some(n)
  {
    DigitsRoundTrip(n);
  }

  /** The whole text written for `n` denotes `n`. */
  lemma ParseDecimalOfNatToString(n: nat)
    ensures ParseDecimal(NatToString(n)) == Some(n)
  {
    DigitsRoundTrip(n);
  }

  lemma {:induction false} AllDigitsAreLeading(s: string)
    requires AllDigits(s)
    ensures LeadingDigits(s) == s
  {
    if s != [] {
      AllDigitsAreLeading(s[1..]);
      assert s == [s[0]] + s[1..];
    }
  }
}
