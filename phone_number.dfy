// `_validate_phone_number` of custom_components/gsm_call/notify.py: accept the
// strings `re.match(r"^\+?[1-9]\d{1,14}$", s)` accepts, raise ValueError for the
// others, and return the input with every non-digit removed.
//
// `re.match` with `$` also accepts a single "\n" after the last digit; that
// newline is then removed with the '+'. `\d` is taken as the ASCII digits.

module PhoneNumber {

  datatype Validation = Valid(number: string) | Invalid   // Invalid: ValueError("Invalid phone number")

  predicate IsDigit(c: char)
  {
    '0' <= c <= '9'
  }

  predicate AllDigits(s: string)
  {
    forall i :: 0 <= i < |s| ==> IsDigit(s[i])
  }

  /** What a validated number looks like: 2 to 15 digits, the first not '0'. */
  predicate IsNormalized(r: string)
  {
    2 <= |r| <= 15 && AllDigits(r) && r[0] != '0'
  }

  /** Where the digits must end: before a final "\n", which `$` lets through, or at the end. */
  function DigitsEnd(s: string): nat
  {
    if |s| > 0 && s[|s| - 1] == '\n' then |s| - 1 else |s|
  }

  /** Where the digits start: after an optional leading '+'. */
  function DigitsStart(s: string): nat
  {
    if |s| > 0 && s[0] == '+' then 1 else 0
  }

  /** The pattern read declaratively: an optional '+', then a normalized digit
      string, then optionally one "\n". */
  predicate NumberPattern(s: string)
  {
    DigitsStart(s) <= DigitsEnd(s) && IsNormalized(s[DigitsStart(s)..DigitsEnd(s)])
  }

  /** The regular-expression engine's left-to-right run over `\d{1,14}$`, with
      `count` digits matched so far. */
  predicate ScanDigits(s: string, i: nat, count: nat)
    requires i <= |s|
    decreases |s| - i
  {
    if i == |s| then 2 <= count <= 15
    else if i == |s| - 1 && s[i] == '\n' then 2 <= count <= 15
    else IsDigit(s[i]) && count < 15 && ScanDigits(s, i + 1, count + 1)
  }

  /** The run over the whole pattern: `^`, `\+?`, `[1-9]`, then the digits. */
  predicate ScanNumber(s: string)
  {
    var i := DigitsStart(s);
    i < |s| && '1' <= s[i] <= '9' && ScanDigits(s, i + 1, 1)
  }

  /** `re.sub(r"\D", "", s)`. */
  function DigitsOnly(s: string): (r: string)
    ensures AllDigits(r) && |r| <= |s|
  {
    if s == [] then []
    else (if IsDigit(s[0]) then [s[0]] else []) + DigitsOnly(s[1..])
  }

  /** `_validate_phone_number`. */
  function Validate(s: string): Validation
  {
    if ScanNumber(s) then Valid(DigitsOnly(s)) else Invalid
  }

  lemma {:induction false} ScanDigitsMeaning(s: string, i: nat, count: nat)
    requires i <= DigitsEnd(s)
    ensures ScanDigits(s, i, count) <==> AllDigits(s[i..DigitsEnd(s)]) && 2 <= count + DigitsEnd(s) - i <= 15
    decreases |s| - i
  {
    var e := DigitsEnd(s);
    if i < e {
      assert !(i == |s| - 1 && s[i] == '\n');
      ScanDigitsMeaning(s, i + 1, count + 1);
      assert s[i..e] == [s[i]] + s[i + 1..e];
    }
  }

  /** The scan accepts exactly the strings the declarative pattern describes. */
  lemma ScanMatchesPattern(s: string)
    ensures ScanNumber(s) <==> NumberPattern(s)
  {
    var i := DigitsStart(s);
    var e := DigitsEnd(s);
    if i < |s| && '1' <= s[i] <= '9' {
      assert i < e;
      ScanDigitsMeaning(s, i + 1, 1);
      assert s[i..e] == [s[i]] + s[i + 1..e];
    }
  }

  lemma {:induction false} DigitsOnlyAppend(a: string, b: string)
    ensures DigitsOnly(a + b) == DigitsOnly(a) + DigitsOnly(b)
  {
    if a == [] {
      assert a + b == b;
    } else {
      assert (a + b)[1..] == a[1..] + b;
      DigitsOnlyAppend(a[1..], b);
    }
  }

  lemma {:induction false} DigitsOnlyOfDigits(s: string)
    requires AllDigits(s)
    ensures DigitsOnly(s) == s
  {
    if s != [] {
      DigitsOnlyOfDigits(s[1..]);
      assert s == [s[0]] + s[1..];
    }
  }

  /** The input split around its digits: optional '+', digits, optional "\n". */
  lemma SplitAroundDigits(s: string)
    requires DigitsStart(s) <= DigitsEnd(s)
    ensures s == s[..DigitsStart(s)] + s[DigitsStart(s)..DigitsEnd(s)] + s[DigitsEnd(s)..]
    ensures DigitsOnly(s[..DigitsStart(s)]) == [] && DigitsOnly(s[DigitsEnd(s)..]) == []
  {
    var i := DigitsStart(s);
    var e := DigitsEnd(s);
    if i == 1 {
      assert s[..1] == ['+'];
    }
    if e < |s| {
      assert s[e..] == ['\n'];
    }
  }

  /** Validation accepts exactly the pattern, and the number it returns is the
      input's digit run: normalized, with the '+' and a final "\n" gone. */
  lemma ValidateMeaning(s: string)
    ensures Validate(s).Valid? <==> NumberPattern(s)
    ensures Validate(s).Valid? ==>
      Validate(s).number == s[DigitsStart(s)..DigitsEnd(s)] && IsNormalized(Validate(s).number)
  {
    ScanMatchesPattern(s);
    if NumberPattern(s) {
      var i := DigitsStart(s);
      var e := DigitsEnd(s);
      SplitAroundDigits(s);
      DigitsOnlyAppend(s[..i] + s[i..e], s[e..]);
      DigitsOnlyAppend(s[..i], s[i..e]);
      DigitsOnlyOfDigits(s[i..e]);
    }
  }

  /** Every normalized number is accepted as it is, behind a '+', and before a final
      "\n", and always comes back unchanged; so validating a validated number
      changes nothing. */
  lemma NormalizedAccepted(r: string)
    requires IsNormalized(r)
    ensures Validate(r) == Valid(r)
    ensures Validate("+" + r) == Valid(r)
    ensures Validate(r + "\n") == Valid(r)
    ensures Validate("+" + r + "\n") == Valid(r)
  {
    assert r[0] != '+' && r[|r| - 1] != '\n';
    ValidateMeaning(r);
    assert r[DigitsStart(r)..DigitsEnd(r)] == r;
    var p := "+" + r;
    ValidateMeaning(p);
    assert p[DigitsStart(p)..DigitsEnd(p)] == r;
    var n := r + "\n";
    ValidateMeaning(n);
    assert n[DigitsStart(n)..DigitsEnd(n)] == r;
    var pn := "+" + r + "\n";
    ValidateMeaning(pn);
    assert pn[DigitsStart(pn)..DigitsEnd(pn)] == r;
  }

  /** Validation is idempotent. */
  lemma ValidateIdempotent(s: string)
    requires Validate(s).Valid?
    ensures Validate(Validate(s).number) == Validate(s)
  {
    ValidateMeaning(s);
    NormalizedAccepted(Validate(s).number);
  }
}
