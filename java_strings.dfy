/**
 * The few `java.lang.String` operations the exchange code relies on, over `seq<char>`.
 * Case folding is ASCII only.
 */
module JavaStrings {
  import opened Wrappers

  /** Lower-cases an ASCII upper-case letter and leaves every other character alone. */
  function ToLowerAscii(c: char): char {
    if 'A' <= c <= 'Z' then (c as int + 32) as char else c
  }

  /** `a.equalsIgnoreCase(b)`: same length and equal after case folding, character by character. */
  predicate EqualsIgnoreCase(a: string, b: string) {
    |a| == |b| && forall i :: 0 <= i < |a| ==> ToLowerAscii(a[i]) == ToLowerAscii(b[i])
  }

  lemma EqualsIgnoreCaseReflexive(a: string)
    ensures EqualsIgnoreCase(a, a)
  {
  }

  lemma EqualsIgnoreCaseSymmetric(a: string, b: string)
    requires EqualsIgnoreCase(a, b)
    ensures EqualsIgnoreCase(b, a)
  {
  }

  lemma EqualsIgnoreCaseTransitive(a: string, b: string, c: string)
    requires EqualsIgnoreCase(a, b) && EqualsIgnoreCase(b, c)
    ensures EqualsIgnoreCase(a, c)
  {
  }

  const INT_MIN_VALUE: int := -0x8000_0000
  const INT_MAX_VALUE: int := 0x7FFF_FFFF

  predicate IsDigit(c: char) {
    '0' as int <= c as int <= '9' as int
  }

  /** The value of a string of decimal digits, most significant first. */
  function DecimalValue(digits: string): nat
    requires forall i :: 0 <= i < |digits| ==> IsDigit(digits[i])
  {
    if |digits| == 0 then 0
    else
      var last := digits[|digits| - 1];
      assert IsDigit(last);
      10 * DecimalValue(digits[..|digits| - 1]) + (last as int - '0' as int)
  }

  /**
   * `Integer.parseInt(s)`: an optional sign followed by at least one decimal digit, whose value
   * fits in 32 bits; anything else raises `NumberFormatException`, modelled as `None`.
   */
  function ParseInt(s: string): (r: Option<int>)
    ensures r.Some? ==> INT_MIN_VALUE <= r.value <= INT_MAX_VALUE
    ensures r.Some? ==> |s| > 0 && (s[0] != '-' ==> r.value >= 0)
  {
    if |s| == 0 then None
    else
      var signed := s[0] == '-' || s[0] == '+';
      var digits := if signed then s[1..] else s;
      if |digits| == 0 || exists i :: 0 <= i < |digits| && !IsDigit(digits[i]) then None
      else
        var magnitude := DecimalValue(digits);
        var v: int := if s[0] == '-' then -(magnitude as int) else magnitude;
        if INT_MIN_VALUE <= v <= INT_MAX_VALUE then Some(v) else None
  }

  /** An unsigned run of digits whose value fits parses to that value. */
  lemma ParseIntOfDigits(digits: string)
    requires 0 < |digits| && forall i :: 0 <= i < |digits| ==> IsDigit(digits[i])
    requires DecimalValue(digits) <= INT_MAX_VALUE
    ensures ParseInt(digits) == Some(DecimalValue(digits))
  {
  }

  /** `s.indexOf(c)`: the first position of `c`, or -1. */
  function IndexOf(s: string, c: char): (r: int)
    ensures -1 <= r < |s|
    ensures r == -1 <==> c !in s
    ensures r >= 0 ==> s[r] == c && c !in s[..r]
  {
    if |s| == 0 then -1
    else if s[0] == c then 0
    else
      var k := IndexOf(s[1..], c);
      assert s[1..][..if k < 0 then 0 else k] == s[1..if k < 0 then 1 else k + 1];
      if k < 0 then -1 else k + 1
  }

  /** Where `c` first occurs in `a + b`. */
  lemma {:induction false} IndexOfAppend(a: string, b: string, c: char)
    requires c !in a
    ensures IndexOf(a + b, c) == if c in b then |a| + IndexOf(b, c) else -1
  {
    if |a| > 0 {
      assert (a + b)[1..] == a[1..] + b;
      IndexOfAppend(a[1..], b, c);
    } else {
      assert a + b == b;
    }
  }

  /** `s.contains(t)`: `t` occurs somewhere in `s`. */
  predicate Contains(s: string, t: string)
    decreases |s|
  {
    if |s| < |t| then false
    else t <= s || Contains(s[1..], t)
  }

  /**
   * `s.replace(t, r)`: every non-overlapping occurrence of `t`, scanning from the left, becomes `r`.
   * Only the non-empty target `$WATERSHED` is ever passed.
   */
  function Replace(s: string, t: string, r: string): string
    requires |t| > 0
    decreases |s|
  {
    if |s| < |t| then s
    else if t <= s then r + Replace(s[|t|..], t, r)
    else [s[0]] + Replace(s[1..], t, r)
  }

  /** Text without the target comes back unchanged. */
  lemma {:induction false} ReplaceAbsent(s: string, t: string, r: string)
    requires |t| > 0 && !Contains(s, t)
    ensures Replace(s, t, r) == s
    decreases |s|
  {
    if |s| >= |t| {
      ReplaceAbsent(s[1..], t, r);
      assert [s[0]] + s[1..] == s;
    }
  }

  /**
   * An occurrence of the target that follows text free of the target's first character is the
   * first one found, and it is rewritten to the replacement; scanning resumes after it.
   */
  lemma {:induction false} ReplaceFirstOccurrence(a: string, t: string, b: string, r: string)
    requires |t| > 0 && t[0] !in a
    ensures Replace(a + t + b, t, r) == a + r + Replace(b, t, r)
    decreases |a|
  {
    var s := a + t + b;
    if |a| == 0 {
      assert s == t + b;
      assert t <= s && s[|t|..] == b;
    } else {
      assert s[0] == a[0] && a[0] != t[0];
      assert !(t <= s);
      assert s[1..] == a[1..] + t + b;
      assert Replace(s, t, r) == [s[0]] + Replace(s[1..], t, r);
      ReplaceFirstOccurrence(a[1..], t, b, r);
      assert [a[0]] + (a[1..] + r + Replace(b, t, r)) == a + r + Replace(b, t, r);
    }
  }
}
