/**
 * The JavaScript string operations that the route handlers rely on, over
 * strings as sequences of characters: ASCII case mapping, `substring(0, n)`,
 * `trim`, `split` on one character, `includes` on strings and `parseInt`.
 */
module Strings {
  import opened Wrappers

  // ---------------------------------------------------------------- case

  predicate IsUpperAscii(c: char) { 'A' <= c <= 'Z' }

  predicate IsLowerAscii(c: char) { 'a' <= c <= 'z' }

  predicate IsDigit(c: char) { '0' <= c <= '9' }

  /** `toLowerCase` on one character (ASCII letters only). */
  function LowerChar(c: char): char {
    if IsUpperAscii(c) then (c as int + 32) as char else c
  }

  /** `toUpperCase` on one character (ASCII letters only). */
  function UpperChar(c: char): char {
    if IsLowerAscii(c) then (c as int - 32) as char else c
  }

  /** `String.prototype.toLowerCase` (ASCII letters only). */
  function Lower(s: string): (r: string)
    ensures |r| == |s|
    ensures forall i :: 0 <= i < |s| ==> r[i] == LowerChar(s[i])
  {
    if s == [] then [] else [LowerChar(s[0])] + Lower(s[1..])
  }

  /** Lowering twice is lowering once. */
  lemma LowerIdempotent(s: string)
    ensures Lower(Lower(s)) == Lower(s)
  {
  }

  // ----------------------------------------------------------- substring

  /** `s.substring(0, n)`: the first min(n, |s|) characters. */
  function Prefix<T>(s: seq<T>, n: nat): (r: seq<T>)
    ensures |r| == if |s| <= n then |s| else n
    ensures r <= s
  {
    if |s| <= n then s else s[..n]
  }

  // ---------------------------------------------------------------- trim

  /**
   * The characters `String.prototype.trim` removes: the ECMAScript
   * WhiteSpace and LineTerminator code points.
   */
  predicate IsJsSpace(c: char) {
    || ('\U{9}' <= c <= '\U{D}') || c == ' ' || c == '\U{A0}' || c == '\U{1680}'
    || ('\U{2000}' <= c <= '\U{200A}')
    || c == '\U{2028}' || c == '\U{2029}' || c == '\U{202F}' || c == '\U{205F}'
    || c == '\U{3000}' || c == '\U{FEFF}'
  }

  /** Every character of `t` is white space. */
  predicate AllSpace(t: string) {
    forall k :: 0 <= k < |t| ==> IsJsSpace(t[k])
  }

  function TrimStart(s: string): (r: string)
    ensures r == [] || !IsJsSpace(r[0])
    ensures |r| <= |s| && r == s[|s| - |r|..]
    ensures AllSpace(s[..|s| - |r|])
  {
    if s != [] && IsJsSpace(s[0]) then
      var r := TrimStart(s[1..]);
      assert s[..|s| - |r|] == [s[0]] + s[1..][..|s| - 1 - |r|];
      r
    else s
  }

  function TrimEnd(s: string): (r: string)
    ensures r == [] || !IsJsSpace(r[|r| - 1])
    ensures r <= s
    ensures AllSpace(s[|r|..])
  {
    if s != [] && IsJsSpace(s[|s| - 1]) then
      var r := TrimEnd(s[..|s| - 1]);
      assert s[|r|..] == s[..|s| - 1][|r|..] + [s[|s| - 1]];
      r
    else s
  }

  /** `String.prototype.trim`. */
  function Trim(s: string): string {
    TrimEnd(TrimStart(s))
  }

  /** `r` is the piece `s[i..j]` and only white space lies outside it. */
  predicate TrimmedAt(s: string, r: string, i: nat, j: nat) {
    i <= j <= |s| && r == s[i..j] && AllSpace(s[..i]) && AllSpace(s[j..])
  }

  /**
   * What `trim` returns: a contiguous piece of its input whose ends are not
   * white space, with only white space cut off on either side.
   */
  lemma TrimSpec(s: string)
    ensures Trim(s) == [] || (!IsJsSpace(Trim(s)[0]) && !IsJsSpace(Trim(s)[|Trim(s)| - 1]))
    ensures exists i: nat, j: nat :: TrimmedAt(s, Trim(s), i, j)
  {
    TrimEnds(s);
    var i, j := TrimBounds(s);
  }

  /** Neither end of a trimmed string is white space. */
  lemma TrimEnds(s: string)
    ensures Trim(s) == [] || (!IsJsSpace(Trim(s)[0]) && !IsJsSpace(Trim(s)[|Trim(s)| - 1]))
  {
    var t := TrimStart(s);
    var r := TrimEnd(t);
    assert r == [] || r[0] == t[0];
  }

  /** Where the trimmed piece lies in its input. */
  lemma TrimBounds(s: string) returns (i: nat, j: nat)
    ensures TrimmedAt(s, Trim(s), i, j)
  {
    var t := TrimStart(s);
    i := |s| - |t|;
    var r := TrimEnd(t);
    j := i + |r|;
    assert s[i..j] == r;
    assert s[j..] == t[|r|..];
  }

  /** Trimming an already trimmed string changes nothing. */
  lemma TrimIdempotent(s: string)
    ensures Trim(Trim(s)) == Trim(s)
  {
    var r := Trim(s);
    TrimSpec(s);
    if r != [] {
      assert TrimStart(r) == r;
      assert TrimEnd(r) == r;
    }
  }

  // ------------------------------------------------------------- includes

  /** `hay.includes(needle)` for strings: `needle` occurs contiguously in `hay`. */
  predicate Contains(hay: string, needle: string)
    decreases |hay|
  {
    needle <= hay || (hay != [] && Contains(hay[1..], needle))
  }

  /** `needle` occurs in `hay` starting at index `i`. */
  predicate OccursAt(hay: string, needle: string, i: nat) {
    i + |needle| <= |hay| && hay[i..i + |needle|] == needle
  }

  lemma {:induction false} OccursContains(hay: string, needle: string, i: nat)
    requires OccursAt(hay, needle, i)
    ensures Contains(hay, needle)
    decreases i
  {
    if i > 0 {
      assert hay[1..][i - 1..i - 1 + |needle|] == hay[i..i + |needle|];
      OccursContains(hay[1..], needle, i - 1);
    } else {
      assert hay[..|needle|] == hay[0..0 + |needle|];
    }
  }

  /** `Contains` holds exactly when `needle` occurs at some index of `hay`. */
  lemma {:induction false} ContainsAt(hay: string, needle: string)
    ensures Contains(hay, needle) <==> exists i: nat :: OccursAt(hay, needle, i)
    decreases |hay|
  {
    forall i: nat | OccursAt(hay, needle, i)
      ensures Contains(hay, needle)
    {
      OccursContains(hay, needle, i);
    }
    if needle <= hay {
      assert OccursAt(hay, needle, 0);
    } else if hay != [] && Contains(hay[1..], needle) {
      ContainsAt(hay[1..], needle);
      var i: nat :| OccursAt(hay[1..], needle, i);
      forall k | 0 <= k < |needle| ensures hay[i + 1 + k] == needle[k] {
        assert hay[1..][i..i + |needle|][k] == needle[k];
      }
      assert hay[i + 1..i + 1 + |needle|] == needle;
      assert OccursAt(hay, needle, i + 1);
    }
  }

  // ---------------------------------------------------------------- split

  /** Number of occurrences of `c` in `s`. */
  function Count(s: string, c: char): nat {
    if s == [] then 0 else (if s[0] == c then 1 else 0) + Count(s[1..], c)
  }

  /**
   * `s.split(c)` for a one-character separator: the pieces between the
   * occurrences of `c`, empty pieces included (`"".split(c)` is `[""]`).
   */
  function Split(s: string, c: char): (r: seq<string>)
    ensures |r| >= 1
    ensures forall k :: 0 <= k < |r| ==> c !in r[k]
  {
    if s == [] then [[]]
    else if s[0] == c then [[]] + Split(s[1..], c)
    else
      var rest := Split(s[1..], c);
      [[s[0]] + rest[0]] + rest[1..]
  }

  /** `pieces.join(c)`. */
  function Join(pieces: seq<string>, c: char): string {
    if pieces == [] then []
    else if |pieces| == 1 then pieces[0]
    else pieces[0] + [c] + Join(pieces[1..], c)
  }

  /** `split` yields one piece more than there are separators. */
  lemma {:induction false} SplitLength(s: string, c: char)
    ensures |Split(s, c)| == Count(s, c) + 1
  {
    if s != [] {
      SplitLength(s[1..], c);
    }
  }

  /** Joining the pieces of a split with the same separator gives back the string. */
  lemma {:induction false} JoinSplit(s: string, c: char)
    ensures Join(Split(s, c), c) == s
  {
    if s != [] {
      JoinSplit(s[1..], c);
      var rest := Split(s[1..], c);
      if s[0] == c {
        assert Split(s, c)[1..] == rest;
        if |rest| == 1 {
          assert rest[0] == s[1..];
        }
      } else if |rest| == 1 {
        assert Split(s, c) == [[s[0]] + rest[0]];
      } else {
        assert Split(s, c)[1..] == rest[1..];
        assert Join(rest, c) == rest[0] + [c] + Join(rest[1..], c);
      }
    }
  }

  /** `email.split('@')[0]`: the text before the first '@' (all of it when there is none). */
  function LocalPart(email: string): (r: string)
    ensures r <= email && '@' !in r
    ensures |r| == |email| || email[|r|] == '@'
  {
    var pieces := Split(email, '@');
    JoinSplit(email, '@');
    assert |pieces| > 1 ==> Join(pieces, '@') == pieces[0] + ['@'] + Join(pieces[1..], '@');
    pieces[0]
  }

  // ------------------------------------------------------------- parseInt

  /** Value of `c` as a digit in base 10 or 16, if it is one. */
  function DigitValue(c: char, radix: nat): Option<nat> {
    if '0' <= c <= '9' then Some(c as int - '0' as int)
    else if radix == 16 && 'a' <= c <= 'f' then Some(c as int - 'a' as int + 10)
    else if radix == 16 && 'A' <= c <= 'F' then Some(c as int - 'A' as int + 10)
    else None
  }

  /** The longest prefix of `s` made of digits of the given radix. */
  function DigitPrefix(s: string, radix: nat): (r: string)
    ensures r <= s
    ensures forall i :: 0 <= i < |r| ==> DigitValue(r[i], radix).Some?
  {
    if s != [] && DigitValue(s[0], radix).Some? then [s[0]] + DigitPrefix(s[1..], radix) else []
  }

  /** The number a string of digits denotes (most significant first). */
  function DigitsValue(ds: string, radix: nat): nat
    requires forall i :: 0 <= i < |ds| ==> DigitValue(ds[i], radix).Some?
  {
    if ds == [] then 0
    else DigitsValue(ds[..|ds| - 1], radix) * radix + DigitValue(ds[|ds| - 1], radix).value
  }

  /** The text after an optional leading sign. */
  function Unsigned(t: string): string {
    if t != [] && (t[0] == '-' || t[0] == '+') then t[1..] else t
  }

  /** A `0x` or `0X` prefix, which makes `parseInt` read base 16. */
  predicate HexPrefixed(u: string) {
    |u| >= 2 && u[0] == '0' && (u[1] == 'x' || u[1] == 'X')
  }

  /**
   * `parseInt(s)` without a radix argument: leading white space is skipped,
   * an optional sign is read, a `0x`/`0X` prefix selects base 16, and the
   * longest run of digits that follows is the value; `None` stands for NaN.
   */
  function ParseInt(s: string): Option<int> {
    ParseSigned(TrimStart(s))
  }

  /** The number after the leading blanks: a `-` sign negates it. */
  function ParseSigned(t: string): Option<int> {
    var v := ParseUnsigned(Unsigned(t));
    if v.None? then None else Some(if t[0] == '-' then -(v.value as int) else v.value)
  }

  /** The digits after the sign: base 16 after `0x`/`0X`, base 10 otherwise; `None` when there are none. */
  function ParseUnsigned(u: string): (r: Option<nat>)
    ensures r.Some? ==> u != []
  {
    var radix := if HexPrefixed(u) then 16 else 10;
    var ds := DigitPrefix(if HexPrefixed(u) then u[2..] else u, radix);
    if ds == [] then None else Some(DigitsValue(ds, radix))
  }

  /** The decimal digit for 0 <= d < 10. */
  function DigitChar(d: nat): char
    requires d < 10
  {
    ('0' as int + d) as char
  }

  /** `String(n)` for a natural number: its decimal digits. */
  function Decimal(n: nat): (r: string)
    ensures r != []
    ensures forall i :: 0 <= i < |r| ==> IsDigit(r[i])
  {
    if n < 10 then [DigitChar(n)] else Decimal(n / 10) + [DigitChar(n % 10)]
  }

  lemma {:induction false} DecimalValue(n: nat)
    ensures forall i :: 0 <= i < |Decimal(n)| ==> DigitValue(Decimal(n)[i], 10).Some?
    ensures DigitsValue(Decimal(n), 10) == n
  {
    var d := Decimal(n);
    if n >= 10 {
      DecimalValue(n / 10);
      assert d[..|d| - 1] == Decimal(n / 10);
    }
  }

  lemma {:induction false} DigitPrefixAll(s: string, radix: nat)
    requires forall i :: 0 <= i < |s| ==> DigitValue(s[i], radix).Some?
    ensures DigitPrefix(s, radix) == s
  {
    if s != [] {
      DigitPrefixAll(s[1..], radix);
    }
  }

  lemma TrimStartKeeps(s: string)
    requires s != [] && !IsJsSpace(s[0])
    ensures TrimStart(s) == s
  {
  }

  /** A digit string never starts with `0x`. */
  lemma NotHexPrefixed(d: string)
    requires forall i :: 0 <= i < |d| ==> IsDigit(d[i])
    ensures !HexPrefixed(d)
  {
    if |d| >= 2 { assert IsDigit(d[1]); }
  }

  /** Every decimal digit is a base-10 digit. */
  lemma DecimalDigits(d: string)
    requires forall i :: 0 <= i < |d| ==> IsDigit(d[i])
    ensures forall i :: 0 <= i < |d| ==> DigitValue(d[i], 10).Some?
  {
  }

  /** `parseInt` of a plain run of decimal digits is the number they denote. */
  lemma ParseIntDigits(d: string)
    requires d != [] && forall i :: 0 <= i < |d| ==> IsDigit(d[i])
    ensures forall i :: 0 <= i < |d| ==> DigitValue(d[i], 10).Some?
    ensures ParseInt(d) == Some(DigitsValue(d, 10))
  {
    DigitsRead(d);
    DigitNotSpace(d[0]);
    TrimStartKeeps(d);
    UnsignedDigits(d);
    ParseIntOf(d, DigitsValue(d, 10));
  }

  /** A digit string carries no sign. */
  lemma UnsignedDigits(d: string)
    requires d != [] && IsDigit(d[0])
    ensures Unsigned(d) == d
  {
  }

  /** A leading minus sign before a number negates what `parseInt` reads. */
  lemma ParseIntMinus(t: string)
    requires t != [] && IsDigit(t[0])
    ensures ParseInt(['-'] + t) == if ParseInt(t).None? then None else Some(-ParseInt(t).value)
  {
    var s := ['-'] + t;
    assert s[0] == '-' && s[1..] == t;
    assert !IsJsSpace('-');
    TrimStartKeeps(s);
    DigitNotSpace(t[0]);
    TrimStartKeeps(t);
    UnsignedDigits(t);
    NoBlanks(s);
    NoBlanks(t);
  }

  /** After the sign, a run of decimal digits is read whole, in base 10. */
  lemma DigitsRead(d: string)
    requires d != [] && forall i :: 0 <= i < |d| ==> IsDigit(d[i])
    ensures forall i :: 0 <= i < |d| ==> DigitValue(d[i], 10).Some?
    ensures ParseUnsigned(d) == Some(DigitsValue(d, 10))
  {
    DecimalDigits(d);
    DigitPrefixAll(d, 10);
    NotHexPrefixed(d);
    ParseUnsignedOf(d);
  }

  lemma DigitNotSpace(c: char)
    requires IsDigit(c)
    ensures !IsJsSpace(c)
  {
  }

  /** `parseInt` once the blanks, the sign and the base are settled. */
  lemma ParseIntOf(s: string, v: nat)
    requires s != [] && TrimStart(s) == s && ParseUnsigned(Unsigned(s)) == Some(v)
    ensures ParseInt(s) == Some(if s[0] == '-' then -(v as int) else v)
  {
    NoBlanks(s);
    ParseSignedOf(s, v);
  }

  lemma NoBlanks(s: string)
    requires TrimStart(s) == s
    ensures ParseInt(s) == ParseSigned(s)
  {
  }

  lemma ParseSignedOf(s: string, v: nat)
    requires s != [] && ParseUnsigned(Unsigned(s)) == Some(v)
    ensures ParseSigned(s) == Some(if s[0] == '-' then -(v as int) else v)
  {
  }

  /** A plain run of decimal digits is read in base 10, all of it. */
  lemma ParseUnsignedOf(d: string)
    requires !HexPrefixed(d) && d != [] && DigitPrefix(d, 10) == d
    ensures ParseUnsigned(d) == Some(DigitsValue(d, 10))
  {
  }

  /** `String(n)` (or `${n}`) for an integer. */
  function IntString(n: int): (r: string)
    ensures r != []
  {
    if n < 0 then ['-'] + Decimal(-n) else Decimal(n)
  }

  /** `parseInt(String(n))` gives back `n`, for every integer `n`. */
  lemma ParseIntDecimal(n: int)
    ensures ParseInt(IntString(n)) == Some(n)
  {
    var m: nat := if n < 0 then -n else n;
    DecimalValue(m);
    ParseIntDigits(Decimal(m));
    if n < 0 {
      ParseIntMinus(Decimal(m));
    }
  }

  /** `parseInt('1')` is 1. */
  lemma ParseIntOne()
    ensures ParseInt("1") == Some(1)
  {
    assert DigitsValue("1", 10) == 1 by {
      assert "1"[..0] == [];
    }
    ParseIntDigits("1");
  }

  /** `parseInt('10')` is 10. */
  lemma ParseIntTen()
    ensures ParseInt("10") == Some(10)
  {
    assert DigitsValue("10", 10) == 10 by {
      assert "10"[..1] == "1";
      assert "1"[..0] == [];
    }
    ParseIntDigits("10");
  }
}
