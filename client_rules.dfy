/**
 * The string rules the React forms test with regular expressions: the email
 * pattern `^[^\s@]+@[^\s@]+\.[^\s@]+$`, the French phone pattern
 * `^(?:(?:\+|00)33|0)\s*[1-9](?:[\s.-]*\d{2}){4}$` (applied after removing
 * all white space) and the password complexity test
 * `(?=.*[a-z])(?=.*[A-Z])(?=.*\d)`. `\s` is ECMAScript white space, `\d` an
 * ASCII digit, and `.` any character but a line terminator.
 */
module ClientRules {
  import opened Digits
  import opened Wrappers
  import opened Text

  /** `[^\s@]`. */
  predicate Plain(c: char)
  {
    !IsJsSpace(c) && c != '@'
  }

  /** `[^\s@]+`. */
  predicate PlainRun(s: string)
  {
    s != [] && forall i :: 0 <= i < |s| ==> Plain(s[i])
  }

  /** The email pattern, read off the regular expression: three plain runs around one `@` and one `.`. */
  predicate EmailShape(s: string)
  {
    exists at, dot :: 0 <= at < dot < |s| && s[at] == '@' && s[dot] == '.'
      && PlainRun(s[..at]) && PlainRun(s[at + 1..dot]) && PlainRun(s[dot + 1..])
  }

  /** The pattern as a condition on characters: no white space, one `@` that is not first, and a `.` after it that is neither right after the `@` nor last. */
  predicate EmailChars(s: string)
  {
    && (forall i :: 0 <= i < |s| ==> !IsJsSpace(s[i]))
    && (exists at :: 0 < at < |s| && s[at] == '@'
          && (forall i :: 0 <= i < |s| && i != at ==> s[i] != '@')
          && exists dot :: at + 1 < dot < |s| - 1 && s[dot] == '.')
  }

  lemma ShapeHasChars(s: string)
    requires EmailShape(s)
    ensures EmailChars(s)
  {
    var at, dot :| 0 <= at < dot < |s| && s[at] == '@' && s[dot] == '.'
      && PlainRun(s[..at]) && PlainRun(s[at + 1..dot]) && PlainRun(s[dot + 1..]);
    forall i | 0 <= i < |s| && i != at ensures !IsJsSpace(s[i]) && s[i] != '@' {
      if i < at {
        assert s[..at][i] == s[i];
      } else if i < dot {
        assert s[at + 1..dot][i - at - 1] == s[i];
      } else if i > dot {
        assert s[dot + 1..][i - dot - 1] == s[i];
      }
    }
    assert at + 1 < dot < |s| - 1;
  }

  lemma CharsHaveShape(s: string)
    requires EmailChars(s)
    ensures EmailShape(s)
  {
    var at :| 0 < at < |s| && s[at] == '@'
      && (forall i :: 0 <= i < |s| && i != at ==> s[i] != '@')
      && exists dot :: at + 1 < dot < |s| - 1 && s[dot] == '.';
    var dot :| at + 1 < dot < |s| - 1 && s[dot] == '.';
    assert PlainRun(s[..at]) by {
      assert forall i :: 0 <= i < at ==> s[..at][i] == s[i];
    }
    assert PlainRun(s[at + 1..dot]) by {
      assert forall i :: at + 1 <= i < dot ==> s[at + 1..dot][i - at - 1] == s[i];
    }
    assert PlainRun(s[dot + 1..]) by {
      assert forall i :: dot + 1 <= i < |s| ==> s[dot + 1..][i - dot - 1] == s[i];
    }
  }

  /** The regular expression and the character condition accept the same strings. */
  lemma EmailShapeIff(s: string)
    ensures EmailShape(s) <==> EmailChars(s)
  {
    if EmailShape(s) {
      ShapeHasChars(s);
    }
    if EmailChars(s) {
      CharsHaveShape(s);
    }
  }

  /** An email that passes the pattern is not blank and is its own trim, so trimming before sending changes nothing. */
  lemma EmailShapeTrimmed(s: string)
    requires EmailShape(s)
    ensures s != [] && JsTrim(s) == s && JsTrim(s) != []
  {
    ShapeEnds(s);
    TrimOfTrimmed(s, JsSpace);
    assert JsTrim(s) == s;
  }

  /** An email that passes the pattern neither starts nor ends with white space. */
  lemma ShapeEnds(s: string)
    requires EmailShape(s)
    ensures s != [] && !In(s[0], JsSpace) && !In(s[|s| - 1], JsSpace)
  {
    ShapeHasChars(s);
  }

  lemma ShapeNotBlank(s: string)
    ensures EmailShape(s) ==> JsTrim(s) != []
  {
    if EmailShape(s) {
      EmailShapeTrimmed(s);
    }
  }

  /** `(?:[.-]*\d{2}){n}$`: `n` pairs of digits, each after any run of separators, and nothing after. */
  predicate Pairs(s: string, n: nat)
    decreases n
  {
    var t := TrimStart(s, PhoneSeparator);
    if n == 0 then s == []
    else |t| >= 2 && IsDigit(t[0]) && IsDigit(t[1]) && Pairs(t[2..], n - 1)
  }

  /** `[1-9](?:[.-]*\d{2}){4}$`. */
  predicate Subscriber(s: string)
  {
    s != [] && '1' <= s[0] <= '9' && Pairs(s[1..], 4)
  }

  /** `prefix`, then the subscriber part. */
  predicate Prefixed(s: string, prefix: string)
  {
    |s| >= |prefix| && s[..|prefix|] == prefix && Subscriber(s[|prefix|..])
  }

  /** The phone pattern on a string without white space: a `+33`, `0033` or `0` prefix, then the subscriber part. */
  predicate FrenchPhone(s: string)
  {
    Prefixed(s, "+33") || Prefixed(s, "0033") || Prefixed(s, "0")
  }

  /** `phoneRegex.test(phone.replace(/\s/g, ""))`. */
  predicate PhoneAccepted(phone: string)
  {
    FrenchPhone(RemoveAll(phone, JsSpace))
  }

  predicate NoSeparator(s: string)
  {
    forall i :: 0 <= i < |s| ==> !In(s[i], PhoneSeparator)
  }

  lemma NoSeparatorTrim(s: string)
    requires NoSeparator(s)
    ensures TrimStart(s, PhoneSeparator) == s
  {
  }

  lemma NoSeparatorSuffix(s: string, k: nat)
    requires NoSeparator(s) && k <= |s|
    ensures NoSeparator(s[k..])
  {
    assert forall i :: k <= i < |s| ==> s[k..][i - k] == s[i];
  }

  lemma DigitsSplit(s: string)
    requires |s| >= 2
    ensures AllDigits(s) <==> IsDigit(s[0]) && IsDigit(s[1]) && AllDigits(s[2..])
  {
    assert forall i :: 2 <= i < |s| ==> s[2..][i - 2] == s[i];
  }

  /** Without separators, `n` pairs are exactly `2 n` digits. */
  lemma {:induction false} PairsWithoutSeparators(s: string, n: nat)
    requires NoSeparator(s)
    decreases n
    ensures Pairs(s, n) <==> |s| == 2 * n && AllDigits(s)
  {
    NoSeparatorTrim(s);
    if n > 0 && |s| >= 2 {
      NoSeparatorSuffix(s, 2);
      PairsWithoutSeparators(s[2..], n - 1);
      DigitsSplit(s);
    }
  }

  /** Without separators, the subscriber part is exactly nine digits. */
  lemma SubscriberLength(t: string)
    requires NoSeparator(t) && Subscriber(t)
    ensures |t| == 9
  {
    NoSeparatorSuffix(t, 1);
    PairsWithoutSeparators(t[1..], 4);
  }

  lemma SubscriberAfter(s: string, prefix: string)
    requires NoSeparator(s) && Prefixed(s, prefix)
    ensures |s| == |prefix| + 9
  {
    NoSeparatorSuffix(s, |prefix|);
    SubscriberLength(s[|prefix|..]);
  }

  /**
   * A number written without dots or dashes is accepted only with nine
   * digits after its prefix: 10, 12 or 13 characters in all.
   */
  lemma PlainPhoneLength(s: string)
    requires NoSeparator(s) && FrenchPhone(s)
    ensures |s| == 10 || |s| == 12 || |s| == 13
  {
    var prefix := if Prefixed(s, "+33") then "+33" else if Prefixed(s, "0033") then "0033" else "0";
    SubscriberAfter(s, prefix);
  }

  /** Some character of `s` from position `p` on satisfies `cls`, with no line terminator before it: `(?=.*[cls])` at `p`. */
  predicate AheadOnLine(s: string, p: nat, cls: CharClass)
  {
    exists q :: p <= q < |s| && In(s[q], cls) && forall r :: p <= r < q ==> !IsJsLineTerminator(s[r])
  }

  /** `/(?=.*[a-z])(?=.*[A-Z])(?=.*\d)/.test(s)`: at some position, all three lookaheads succeed. */
  predicate Complex(s: string)
  {
    exists p :: 0 <= p <= |s| && AheadOnLine(s, p, AsciiLowerLetter) && AheadOnLine(s, p, AsciiUpperLetter) && AheadOnLine(s, p, DecimalDigit)
  }

  predicate Has(s: string, cls: CharClass)
  {
    exists q :: 0 <= q < |s| && In(s[q], cls)
  }

  /** On a single line, the test holds exactly when the text has a lower-case letter, an upper-case letter and a digit. */
  lemma ComplexOnOneLine(s: string)
    requires forall i :: 0 <= i < |s| ==> !IsJsLineTerminator(s[i])
    ensures Complex(s) <==> Has(s, AsciiLowerLetter) && Has(s, AsciiUpperLetter) && Has(s, DecimalDigit)
  {
    if Has(s, AsciiLowerLetter) && Has(s, AsciiUpperLetter) && Has(s, DecimalDigit) {
      assert AheadOnLine(s, 0, AsciiLowerLetter) && AheadOnLine(s, 0, AsciiUpperLetter) && AheadOnLine(s, 0, DecimalDigit);
    }
  }

  /** Every password the test accepts has all three kinds of character. */
  lemma ComplexHasAll(s: string)
    requires Complex(s)
    ensures Has(s, AsciiLowerLetter) && Has(s, AsciiUpperLetter) && Has(s, DecimalDigit)
  {
  }

  /** In "a\nA1" the only upper-case letter follows the line break, so its lookahead must start after it. */
  lemma UpperAfterBreak(s: string, p: nat)
    requires s == "a\nA1" && AheadOnLine(s, p, AsciiUpperLetter)
    ensures p >= 2
  {
    var q :| p <= q < |s| && In(s[q], AsciiUpperLetter) && forall r :: p <= r < q ==> !IsJsLineTerminator(s[r]);
    assert q == 2;
    assert IsJsLineTerminator(s[1]);
  }

  /** In "a\nA1" no lower-case letter follows the line break. */
  lemma NoLowerAfterBreak(s: string, p: nat)
    requires s == "a\nA1" && p >= 2
    ensures !AheadOnLine(s, p, AsciiLowerLetter)
  {
    assert !In(s[2], AsciiLowerLetter) && !In(s[3], AsciiLowerLetter);
  }

  /** The three kinds on different lines do not satisfy the test: the lookaheads must all succeed from one position. */
  lemma SplitLinesNotComplex()
    ensures !Complex("a\nA1")
  {
    var s := "a\nA1";
    forall p | 0 <= p <= |s| ensures !(AheadOnLine(s, p, AsciiLowerLetter) && AheadOnLine(s, p, AsciiUpperLetter)) {
      if AheadOnLine(s, p, AsciiUpperLetter) {
        UpperAfterBreak(s, p);
        NoLowerAfterBreak(s, p);
      }
    }
  }

  /**
   * The email rule every form applies: "required" when the value is blank
   * after trimming, otherwise the pattern, tested on the untrimmed value.
   * Each page has its own two messages.
   */
  function EmailRule(email: string, required: string, invalid: string): (r: Option<string>)
    ensures r.None? <==> EmailShape(email)
    ensures JsTrim(email) == [] ==> r == Some(required)
    ensures JsTrim(email) != [] && !EmailShape(email) ==> r == Some(invalid)
  {
    ShapeNotBlank(email);
    if JsTrim(email) == [] then Some(required)
    else if !EmailShape(email) then Some(invalid)
    else None
  }

  /** JavaScript truthiness of an optional message: present and not empty. */
  predicate Truthy(m: Option<string>)
  {
    m.Some? && m.value != ""
  }

  /** `obj.key` read as an optional message, where a missing key and an empty message both read as absent. */
  function TruthyField(obj: map<string, string>, key: string): (m: Option<string>)
    ensures m.Some? <==> key in obj && obj[key] != ""
    ensures m.Some? ==> m.value == obj[key]
  {
    if key in obj && obj[key] != "" then Some(obj[key]) else None
  }
}
