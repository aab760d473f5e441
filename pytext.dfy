/**
 * The Python string operations the infinity-spool commands apply to their order strings
 * (extras/ace.py): `str.split`, `str.join`, `str.strip`, `str.lower`, `int(str)` and `str(int)`,
 * on the ASCII range.
 */
module PyText {
  import opened Opt

  /** `str.split(sep)`: the pieces between separators, one more than there are separators. */
  function Split(s: string, sep: char): (r: seq<string>)
    ensures |r| >= 1
    ensures forall k :: 0 <= k < |r| ==> sep !in r[k]
    decreases |s|
  {
    if s == [] then [""]
    else
      var rest := Split(s[1..], sep);
      if s[0] == sep then [""] + rest
      else [[s[0]] + rest[0]] + rest[1..]
  }

  /** `sep.join(items)`. */
  function Join(items: seq<string>, sep: char): string
    decreases |items|
  {
    if items == [] then ""
    else if |items| == 1 then items[0]
    else items[0] + [sep] + Join(items[1..], sep)
  }

  /** A piece without the separator splits to itself. */
  lemma {:induction false} SplitNoSep(a: string, sep: char)
    requires sep !in a
    ensures Split(a, sep) == [a]
    decreases |a|
  {
    if a != [] {
      SplitNoSep(a[1..], sep);
      assert [a[0]] + a[1..] == a;
    }
  }

  /** Splitting at the first separator: the piece before it comes first. */
  lemma {:induction false} SplitAtFirst(a: string, sep: char, b: string)
    requires sep !in a
    ensures Split(a + [sep] + b, sep) == [a] + Split(b, sep)
    decreases |a|
  {
    if a == [] {
      assert a + [sep] + b == [sep] + b;
      assert ([sep] + b)[1..] == b;
    } else {
      SplitAtFirst(a[1..], sep, b);
      assert (a + [sep] + b)[1..] == a[1..] + [sep] + b;
      assert [a[0]] + a[1..] == a;
    }
  }

  /** `s.join(items).split(s)` gives the items back when none of them holds the separator. */
  lemma {:induction false} SplitJoin(items: seq<string>, sep: char)
    requires |items| >= 1
    requires forall k :: 0 <= k < |items| ==> sep !in items[k]
    ensures Split(Join(items, sep), sep) == items
    decreases |items|
  {
    if |items| == 1 {
      SplitNoSep(items[0], sep);
    } else {
      SplitJoin(items[1..], sep);
      SplitAtFirst(items[0], sep, Join(items[1..], sep));
      assert [items[0]] + items[1..] == items;
    }
  }

  /** The ASCII characters `str.strip()` removes: tab through carriage return, 0x1C-0x1F and space. */
  predicate IsSpace(c: char)
  {
    9 <= c as int <= 13 || 28 <= c as int <= 32
  }

  function TrimLeft(s: string): (r: string)
    ensures |r| <= |s| && r == s[|s| - |r|..]
    ensures r != [] ==> !IsSpace(r[0])
    ensures forall k :: 0 <= k < |s| - |r| ==> IsSpace(s[k])
    decreases |s|
  {
    if s != [] && IsSpace(s[0]) then TrimLeft(s[1..]) else s
  }

  function TrimRight(s: string): (r: string)
    ensures |r| <= |s| && r == s[..|r|]
    ensures r != [] ==> !IsSpace(r[|r| - 1])
    ensures forall k :: |r| <= k < |s| ==> IsSpace(s[k])
    decreases |s|
  {
    if s != [] && IsSpace(s[|s| - 1]) then TrimRight(s[..|s| - 1]) else s
  }

  /** `str.strip()`. */
  function Strip(s: string): string
  {
    TrimRight(TrimLeft(s))
  }

  /** A string that neither starts nor ends with white space is its own strip. */
  lemma StripKeeps(s: string)
    requires s != [] && !IsSpace(s[0]) && !IsSpace(s[|s| - 1])
    ensures Strip(s) == s
  {
  }

  /** `str.lower()` on ASCII letters. */
  function Lower(s: string): (r: string)
    ensures |r| == |s|
    ensures forall k :: 0 <= k < |s| ==> ('A' <= s[k] <= 'Z' ==> r[k] as int == s[k] as int + 32)
    ensures forall k :: 0 <= k < |s| ==> !('A' <= s[k] <= 'Z') ==> r[k] == s[k]
  {
    seq(|s|, k requires 0 <= k < |s| => if 'A' <= s[k] <= 'Z' then (s[k] as int + 32) as char else s[k])
  }

  /** Text with no white space at its ends and no capital letter is left unchanged by `strip().lower()`. */
  lemma StripLowerKeeps(s: string)
    requires s != [] && !IsSpace(s[0]) && !IsSpace(s[|s| - 1])
    requires forall k :: 0 <= k < |s| ==> !('A' <= s[k] <= 'Z')
    ensures Lower(Strip(s)) == s
  {
    StripKeeps(s);
    assert Lower(s) == s;
  }

  /** Python's `t in s` on strings: `t` occurs somewhere in `s`. */
  predicate Occurs(t: string, s: string)
  {
    exists i :: 0 <= i <= |s| - |t| && OccursAt(t, s, i)
  }

  predicate OccursAt(t: string, s: string, i: int)
  {
    0 <= i <= |s| - |t| && s[i..i + |t|] == t
  }

  predicate IsDigit(c: char)
  {
    '0' <= c <= '9'
  }

  predicate AllDigits(s: string)
  {
    forall k :: 0 <= k < |s| ==> IsDigit(s[k])
  }

  /** The decimal value of a run of digits, read left to right. */
  function DigitsValue(s: string): nat
    requires AllDigits(s)
    decreases |s|
  {
    if s == [] then 0 else 10 * DigitsValue(s[..|s| - 1]) + (s[|s| - 1] as int - '0' as int)
  }

  /** The text after a leading sign, if there is one. */
  function Unsigned(s: string): string
  {
    if s != [] && (s[0] == '+' || s[0] == '-') then s[1..] else s
  }

  /** `int(s)` for a stripped string: an optional sign and at least one digit, anything else raises ValueError. */
  function ParseInt(s: string): (r: Option<int>)
    ensures r.Some? <==> (s != [] && (s[0] == '+' || s[0] == '-') && |s| > 1 && AllDigits(s[1..])) || (s != [] && AllDigits(s))
    ensures r.Some? && s[0] == '-' ==> r.value <= 0
    ensures r.Some? && s[0] != '-' ==> r.value >= 0
    // the value is the decimal value of the digits, negated under a minus sign
    ensures r.Some? ==> var v: int := DigitsValue(Unsigned(s)); AllDigits(Unsigned(s)) && r.value == (if s[0] == '-' then -v else v)
  {
    if s == [] then None
    else if s[0] == '+' || s[0] == '-' then
      if |s| > 1 && AllDigits(s[1..]) then
        var v: int := DigitsValue(s[1..]);
        Some(if s[0] == '-' then -v else v)
      else None
    else if AllDigits(s) then Some(DigitsValue(s))
    else None
  }

  /** Digits worth zero are all zeros. */
  lemma {:induction false} ZerosValue(s: string)
    requires AllDigits(s)
    ensures DigitsValue(s) == 0 <==> forall k :: 0 <= k < |s| ==> s[k] == '0'
    decreases |s|
  {
    if s != [] {
      var init := s[..|s| - 1];
      ZerosValue(init);
      assert forall k :: 0 <= k < |init| ==> init[k] == s[k];
    }
  }

  /** Digits worth at most 3: leading zeros, then one digit from 0 to 3, which is the value. */
  lemma SmallDigits(s: string)
    requires AllDigits(s) && s != []
    ensures DigitsValue(s) <= 3 <==> (forall k :: 0 <= k < |s| - 1 ==> s[k] == '0') && s[|s| - 1] <= '3'
    ensures DigitsValue(s) <= 3 ==> DigitsValue(s) == s[|s| - 1] as int - '0' as int
  {
    var init := s[..|s| - 1];
    ZerosValue(init);
    assert forall k :: 0 <= k < |init| ==> init[k] == s[k];
  }

  /**
   * The numerals `int()` reads as 0 to 3: an optional sign, any number of zeros and one digit
   * from 0 to 3, which must be 0 after a minus sign.
   */
  predicate SmallNumeral(s: string)
  {
    var digits := Unsigned(s);
    && digits != [] && AllDigits(digits)
    && (forall k :: 0 <= k < |digits| - 1 ==> digits[k] == '0')
    && digits[|digits| - 1] <= '3'
    && (s[0] == '-' ==> digits[|digits| - 1] == '0')
  }

  lemma SmallNumerals(s: string)
    ensures ParseInt(s).Some? && 0 <= ParseInt(s).value <= 3 <==> SmallNumeral(s)
    ensures SmallNumeral(s) ==> ParseInt(s).value == s[|s| - 1] as int - '0' as int
  {
    var digits := Unsigned(s);
    if digits != [] && AllDigits(digits) {
      SmallDigits(digits);
    }
  }

  /** `str(n)` for a single decimal digit. */
  function DigitString(n: int): (r: string)
    requires 0 <= n <= 9
    ensures |r| == 1 && IsDigit(r[0])
  {
    [('0' as int + n) as char]
  }

  /** `int(str(n))` gives `n` back, and the text is untouched by strip and lower. */
  lemma DigitStringRoundTrip(n: int)
    requires 0 <= n <= 9
    ensures Lower(Strip(DigitString(n))) == DigitString(n)
    ensures ParseInt(DigitString(n)) == Some(n)
  {
    var s := DigitString(n);
    StripLowerKeeps(s);
    ParseDigit(s);
    assert s[0] as int == '0' as int + n;
  }

  /** A single digit parses as its own value. */
  lemma ParseDigit(s: string)
    requires |s| == 1 && IsDigit(s[0])
    ensures ParseInt(s) == Some(s[0] as int - '0' as int)
  {
    assert s[..0] == [];
    assert DigitsValue(s) == 10 * DigitsValue([]) + (s[0] as int - '0' as int);
  }
}
