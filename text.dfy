/**
 * String primitives of PHP and JavaScript, each with the exact set of
 * characters it treats as white space, and the three length measures the
 * code uses: PHP `strlen` counts UTF-8 bytes, PHP `mb_strlen` counts
 * characters, JavaScript `.length` counts UTF-16 code units.
 */
module Text {
  import opened Digits

  /** The characters PHP's `trim` strips by default: " \t\n\r\0\x0B". */
  predicate IsPhpTrimSpace(c: char)
  {
    c == ' ' || c == '\t' || c == '\n' || c == '\r' || c == '\0' || c == '\U{B}'
  }

  /** PCRE's `\s` without Unicode mode: space, \t, \n, \x0B, \f, \r. */
  predicate IsPcreSpace(c: char)
  {
    c == ' ' || c == '\t' || c == '\n' || c == '\U{B}' || c == '\U{C}' || c == '\r'
  }

  /** ECMAScript line terminators (what `.` in a regular expression does not match). */
  predicate IsJsLineTerminator(c: char)
  {
    c == '\n' || c == '\r' || c == '\U{2028}' || c == '\U{2029}'
  }

  /** ECMAScript white space and line terminators: what `trim()` strips and `\s` matches. */
  predicate IsJsSpace(c: char)
  {
    || IsJsLineTerminator(c)
    || c == '\t' || c == '\U{B}' || c == '\U{C}' || c == ' ' || c == '\U{A0}'
    || c == '\U{1680}' || ('\U{2000}' <= c <= '\U{200A}')
    || c == '\U{202F}' || c == '\U{205F}' || c == '\U{3000}' || c == '\U{FEFF}'
  }

  /** The character classes the code trims, removes or looks for. */
  datatype CharClass =
    | PhpTrimSpace | PcreSpace | JsSpace | PhpNumericSpace
    | PhoneSeparator | AsciiLowerLetter | AsciiUpperLetter | DecimalDigit

  predicate In(c: char, k: CharClass)
  {
    match k
    case PhpTrimSpace => IsPhpTrimSpace(c)
    case PcreSpace => IsPcreSpace(c)
    case JsSpace => IsJsSpace(c)
    case PhpNumericSpace => IsPhpNumericSpace(c)
    case PhoneSeparator => c == '.' || c == '-'
    case AsciiLowerLetter => IsAsciiLower(c)
    case AsciiUpperLetter => IsAsciiUpper(c)
    case DecimalDigit => IsDigit(c)
  }

  predicate IsAsciiLower(c: char)
  {
    'a' <= c <= 'z'
  }

  predicate IsAsciiUpper(c: char)
  {
    'A' <= c <= 'Z'
  }

  /** `s` without its longest prefix of characters satisfying `ws`. */
  function TrimStart(s: string, ws: CharClass): (r: string)
    ensures |r| <= |s|
    ensures forall i :: 0 <= i < |s| - |r| ==> In(s[i], ws)
    ensures r == [] || !In(r[0], ws)
  {
    if s != [] && In(s[0], ws) then
      var r := TrimStart(s[1..], ws);
      assert forall i :: 1 <= i < |s| - |r| ==> s[i] == s[1..][i - 1];
      r
    else s
  }

  /** What TrimStart leaves is the tail of `s`. */
  lemma {:induction false} TrimStartIsSuffix(s: string, ws: CharClass)
    ensures TrimStart(s, ws) == s[|s| - |TrimStart(s, ws)|..]
  {
    if s != [] && In(s[0], ws) {
      TrimStartIsSuffix(s[1..], ws);
      assert s[1..][|s| - 1 - |TrimStart(s, ws)|..] == s[|s| - |TrimStart(s, ws)|..];
    }
  }

  /** `s` without its longest suffix of characters satisfying `ws`. */
  function TrimEnd(s: string, ws: CharClass): (r: string)
    ensures |r| <= |s|
    ensures forall i :: |r| <= i < |s| ==> In(s[i], ws)
    ensures r == [] || !In(r[|r| - 1], ws)
  {
    if s != [] && In(s[|s| - 1], ws) then TrimEnd(s[..|s| - 1], ws) else s
  }

  /** What TrimEnd leaves is the head of `s`. */
  lemma {:induction false} TrimEndIsPrefix(s: string, ws: CharClass)
    ensures TrimEnd(s, ws) == s[..|TrimEnd(s, ws)|]
  {
    if s != [] && In(s[|s| - 1], ws) {
      TrimEndIsPrefix(s[..|s| - 1], ws);
      assert s[..|s| - 1][..|TrimEnd(s, ws)|] == s[..|TrimEnd(s, ws)|];
    }
  }

  function Trim(s: string, ws: CharClass): string
  {
    TrimEnd(TrimStart(s, ws), ws)
  }

  /** PHP `trim($s)`. */
  function PhpTrim(s: string): string
  {
    Trim(s, PhpTrimSpace)
  }

  /** PHP `preg_replace('/^\s+|\s+$/', '', $s)`: strips PCRE white space at both ends. */
  function PcreStrip(s: string): string
  {
    Trim(s, PcreSpace)
  }

  /** JavaScript `s.trim()`. */
  function JsTrim(s: string): string
  {
    Trim(s, JsSpace)
  }

  /** A trimmed string is empty exactly when every character was white space. */
  lemma {:induction false} TrimEmptyIff(s: string, ws: CharClass)
    ensures Trim(s, ws) == [] <==> forall i :: 0 <= i < |s| ==> In(s[i], ws)
  {
    var t := TrimStart(s, ws);
    if t != [] {
      TrimStartIsSuffix(s, ws);
      assert t[0] == s[|s| - |t|];
    }
  }

  /** A string whose two ends are not white space is its own trim. */
  lemma TrimOfTrimmed(s: string, ws: CharClass)
    requires s != [] ==> !In(s[0], ws) && !In(s[|s| - 1], ws)
    ensures Trim(s, ws) == s
  {
    assert TrimStart(s, ws) == s;
    assert TrimEnd(s, ws) == s;
  }

  /** Every character of `s` that does not satisfy `p`, in order (JavaScript `s.replace(/\s/g, "")` for `p` = `JsSpace`). */
  function RemoveAll(s: string, p: CharClass): (r: string)
    ensures |r| <= |s|
    ensures forall i :: 0 <= i < |r| ==> !In(r[i], p)
    ensures (forall i :: 0 <= i < |s| ==> !In(s[i], p)) ==> r == s
  {
    if s == [] then []
    else if In(s[0], p) then RemoveAll(s[1..], p)
    else [s[0]] + RemoveAll(s[1..], p)
  }

  /** Bytes of `c` in UTF-8. */
  function Utf8Width(c: char): nat
  {
    if c as int < 0x80 then 1
    else if c as int < 0x800 then 2
    else if c as int < 0x10000 then 3
    else 4
  }

  /** Code units of `c` in UTF-16. */
  function Utf16Width(c: char): nat
  {
    if c as int < 0x10000 then 1 else 2
  }

  /** PHP `strlen` of the UTF-8 text `s`. */
  function Utf8Length(s: string): nat
  {
    if s == [] then 0 else Utf8Width(s[0]) + Utf8Length(s[1..])
  }

  /** JavaScript `s.length`. */
  function Utf16Length(s: string): nat
  {
    if s == [] then 0 else Utf16Width(s[0]) + Utf16Length(s[1..])
  }

  predicate IsAscii(s: string)
  {
    forall i :: 0 <= i < |s| ==> s[i] as int < 0x80
  }

  /** Every character takes at least one unit in either encoding, and UTF-16 never takes more than UTF-8. */
  lemma {:induction false} LengthOrder(s: string)
    ensures |s| <= Utf16Length(s) <= Utf8Length(s)
  {
    if s != [] {
      LengthOrder(s[1..]);
    }
  }

  /** On ASCII text all three length measures agree. */
  lemma {:induction false} AsciiLengths(s: string)
    requires IsAscii(s)
    ensures Utf8Length(s) == |s| && Utf16Length(s) == |s|
  {
    if s != [] {
      AsciiLengths(s[1..]);
    }
  }

  lemma {:induction false} Utf8LengthAppend(s: string, t: string)
    ensures Utf8Length(s + t) == Utf8Length(s) + Utf8Length(t)
  {
    if s != [] {
      assert (s + t)[1..] == s[1..] + t;
      Utf8LengthAppend(s[1..], t);
    } else {
      assert s + t == t;
    }
  }

  /** PHP 8 `strtolower`: ASCII letters only, byte by byte. */
  function AsciiLower(s: string): (r: string)
    ensures |r| == |s|
    ensures forall i :: 0 <= i < |s| ==> r[i] == (if IsAsciiUpper(s[i]) then (s[i] as int + 32) as char else s[i])
  {
    if s == [] then []
    else [if IsAsciiUpper(s[0]) then (s[0] as int + 32) as char else s[0]] + AsciiLower(s[1..])
  }

  /** White space PHP skips before a leading-numeric string: " \t\n\r\x0B\f". */
  predicate IsPhpNumericSpace(c: char)
  {
    c == ' ' || c == '\t' || c == '\n' || c == '\r' || c == '\U{B}' || c == '\U{C}'
  }

  /** The longest prefix of decimal digits. */
  function LeadingDigits(s: string): (r: string)
    ensures |r| <= |s| && AllDigits(r) && r == s[..|r|]
    ensures |r| < |s| ==> !IsDigit(s[|r|])
  {
    if s != [] && IsDigit(s[0]) then [s[0]] + LeadingDigits(s[1..]) else []
  }

  /**
   * PHP `(int)$s` on a string: leading white space, an optional sign and the
   * leading decimal digits; no digits reads as 0.
   */
  function PhpToInt(s: string): int
  {
    var t := TrimStart(s, PhpNumericSpace);
    if t != [] && (t[0] == '-' || t[0] == '+') then
      var n: int := Number(LeadingDigits(t[1..]));
      if t[0] == '-' then -n else n
    else
      Number(LeadingDigits(t))
  }

  /** The decimal text of a natural number reads back as that number. */
  lemma PhpToIntOfDecimal(n: nat)
    ensures PhpToInt(DecimalText(n)) == n
  {
    var s := DecimalText(n);
    assert IsDigit(s[0]) && !IsPhpNumericSpace(s[0]);
    assert TrimStart(s, PhpNumericSpace) == s;
    assert s[0] != '-' && s[0] != '+';
    LeadingDigitsOfDigits(s);
    NumberOfDecimal(n);
  }

  lemma {:induction false} LeadingDigitsOfDigits(s: string)
    requires AllDigits(s)
    ensures LeadingDigits(s) == s
  {
    if s != [] {
      LeadingDigitsOfDigits(s[1..]);
    }
  }

  /** Strict code-point order on strings, a proper prefix coming first. */
  predicate LexLess(a: string, b: string)
    decreases |a|
  {
    b != [] && (a == [] || a[0] < b[0] || (a[0] == b[0] && LexLess(a[1..], b[1..])))
  }

  predicate LexLeq(a: string, b: string)
  {
    a == b || LexLess(a, b)
  }

  lemma {:induction false} LexLessIrreflexive(a: string)
    decreases |a|
    ensures !LexLess(a, a)
  {
    if a != [] {
      LexLessIrreflexive(a[1..]);
    }
  }

  lemma {:induction false} LexTotal(a: string, b: string)
    decreases |a|
    ensures a == b || LexLess(a, b) || LexLess(b, a)
  {
    if a != [] && b != [] && a[0] == b[0] {
      LexTotal(a[1..], b[1..]);
      if a[1..] == b[1..] {
        assert a == [a[0]] + a[1..] && b == [b[0]] + b[1..];
      }
    }
  }

  lemma {:induction false} LexTransitive(a: string, b: string, c: string)
    requires LexLess(a, b) && LexLess(b, c)
    decreases |a|
    ensures LexLess(a, c)
  {
    if a != [] && a[0] == b[0] && b[0] == c[0] {
      LexTransitive(a[1..], b[1..], c[1..]);
    }
  }

  /** Comparing two strings is comparing their first `k` characters, then the rest. */
  lemma {:induction false} LexSplit(s: string, t: string, k: nat)
    requires k <= |s| && k <= |t|
    decreases k
    ensures LexLess(s, t) <==> LexLess(s[..k], t[..k]) || (s[..k] == t[..k] && LexLess(s[k..], t[k..]))
  {
    if k == 0 {
      assert s[..0] == t[..0] && s[0..] == s && t[0..] == t;
    } else {
      LexSplit(s[1..], t[1..], k - 1);
      assert s[1..][..k - 1] == s[..k][1..] && t[1..][..k - 1] == t[..k][1..];
      assert s[1..][k - 1..] == s[k..] && t[1..][k - 1..] == t[k..];
      assert s[..k] == [s[0]] + s[..k][1..] && t[..k] == [t[0]] + t[..k][1..];
    }
  }
}
