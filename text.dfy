/** Character classes and string operations the column transformers are built
    from. Whitespace is exactly the set of code points Python's `str.isspace`
    accepts; letters, case mapping and digits are ASCII. */
module Text {

  /** The code points Python treats as whitespace (what `str.strip()` removes). */
  predicate IsSpace(c: char) {
    var n := c as int;
    (9 <= n <= 13) || (28 <= n <= 32) || n == 0x85 || n == 0xA0 || n == 0x1680
    || (0x2000 <= n <= 0x200A) || n == 0x2028 || n == 0x2029 || n == 0x202F
    || n == 0x205F || n == 0x3000
  }

  predicate IsLower(c: char) { 'a' <= c <= 'z' }
  predicate IsUpper(c: char) { 'A' <= c <= 'Z' }
  /** A cased character, in the sense of `str.title`. */
  predicate IsLetter(c: char) { IsLower(c) || IsUpper(c) }
  predicate IsDigit(c: char) { '0' <= c <= '9' }

  predicate AllSpace(s: string) {
    forall i :: 0 <= i < |s| ==> IsSpace(s[i])
  }

  /** `c` upper-cased: a lower-case letter becomes the capital at the same
      place in the alphabet, every other character is kept. */
  function UpperChar(c: char): (u: char)
    ensures !IsLower(u)
    ensures IsLetter(u) == IsLetter(c)
    ensures IsLower(c) ==> u as int - 'A' as int == c as int - 'a' as int
    ensures !IsLower(c) ==> u == c
  {
    if IsLower(c) then (c as int - 'a' as int + 'A' as int) as char else c
  }

  /** `c` lower-cased: a capital becomes the lower-case letter at the same
      place in the alphabet, every other character is kept. */
  function LowerChar(c: char): (l: char)
    ensures !IsUpper(l)
    ensures IsLetter(l) == IsLetter(c)
    ensures IsUpper(c) ==> l as int - 'a' as int == c as int - 'A' as int
    ensures !IsUpper(c) ==> l == c
  {
    if IsUpper(c) then (c as int - 'A' as int + 'a' as int) as char else c
  }

  /** `str.upper()`: every character mapped on its own. */
  function ToUpper(s: string): string {
    seq(|s|, i requires 0 <= i < |s| => UpperChar(s[i]))
  }

  /** `str.lower()`: every character mapped on its own. */
  function ToLower(s: string): string {
    seq(|s|, i requires 0 <= i < |s| => LowerChar(s[i]))
  }

  /** Title casing of `s`, given whether the character before it was cased:
      a cased character right after a cased one is lower-cased, any other is
      upper-cased. */
  function TitleFrom(s: string, previousCased: bool): (r: string)
    ensures |r| == |s|
    ensures forall i :: 0 <= i < |s| ==>
      r[i] == (if (if i == 0 then previousCased else IsLetter(s[i - 1]))
               then LowerChar(s[i]) else UpperChar(s[i]))
  {
    if s == [] then []
    else [if previousCased then LowerChar(s[0]) else UpperChar(s[0])]
         + TitleFrom(s[1..], IsLetter(s[0]))
  }

  /** `str.title()` */
  function TitleCase(s: string): string {
    TitleFrom(s, false)
  }

  /** The index of the first character of `s` at or after `i` that is not
      whitespace (`|s|` when there is none): how far `str.strip()` advances
      from the front. */
  function SkipSpace(s: string, i: nat): (n: nat)
    requires i <= |s|
    ensures i <= n <= |s|
    ensures forall k :: i <= k < n ==> IsSpace(s[k])
    ensures n == |s| || !IsSpace(s[n])
    decreases |s| - i
  {
    if i < |s| && IsSpace(s[i]) then SkipSpace(s, i + 1) else i
  }

  /** The end of `s[lo..j]` once the whitespace at its back is cut off: how
      far `str.strip()` retreats from the end, never past `lo`. */
  function SkipSpaceBack(s: string, lo: nat, j: nat): (n: nat)
    requires lo <= j <= |s|
    ensures lo <= n <= j
    ensures forall k :: n <= k < j ==> IsSpace(s[k])
    ensures n == lo || !IsSpace(s[n - 1])
    decreases j
  {
    if j > lo && IsSpace(s[j - 1]) then SkipSpaceBack(s, lo, j - 1) else j
  }

  /** The number of whitespace characters `str.strip()` removes at the front. */
  function Leading(s: string): nat {
    SkipSpace(s, 0)
  }

  /** `str.strip()`: the middle of `s` that is left once the whitespace runs at
      both ends are cut off; what it promises is `StripSpec`. */
  function Strip(s: string): (r: string)
    ensures |r| <= |s|
  {
    var start := SkipSpace(s, 0);
    s[start..SkipSpaceBack(s, start, |s|)]
  }

  /** `Strip(s)` is the slice of `s` that starts after the `Leading(s)`
      whitespace characters, everything around it is whitespace, and it
      neither starts nor ends with whitespace. */
  lemma StripSpec(s: string)
    ensures Leading(s) + |Strip(s)| <= |s|
    ensures forall i :: 0 <= i < |Strip(s)| ==> Strip(s)[i] == s[Leading(s) + i]
    ensures forall i :: 0 <= i < Leading(s) ==> IsSpace(s[i])
    ensures forall i :: Leading(s) + |Strip(s)| <= i < |s| ==> IsSpace(s[i])
    ensures Strip(s) == [] || (!IsSpace(Strip(s)[0]) && !IsSpace(Strip(s)[|Strip(s)| - 1]))
  {
    var start := SkipSpace(s, 0);
    var end := SkipSpaceBack(s, start, |s|);
    if start < end {
      assert Strip(s)[0] == s[start];
    }
  }

  /** Stripping leaves nothing exactly when the text is all whitespace. */
  lemma StripEmptyIff(s: string)
    ensures Strip(s) == [] <==> AllSpace(s)
  {
    StripSpec(s);
  }

  /** Strip gives back exactly the text between whitespace padding, when that
      text neither starts nor ends with whitespace. */
  lemma StripPadded(pre: string, mid: string, post: string)
    requires AllSpace(pre) && AllSpace(post)
    requires mid == [] || (!IsSpace(mid[0]) && !IsSpace(mid[|mid| - 1]))
    ensures Strip(pre + mid + post) == mid
  {
    var s := pre + mid + post;
    if mid != [] {
      var start := SkipSpace(s, 0);
      assert s[|pre|] == mid[0];
      assert start == |pre|;
      var end := SkipSpaceBack(s, start, |s|);
      assert s[|pre| + |mid| - 1] == mid[|mid| - 1];
      assert end == |pre| + |mid|;
      assert s[start..end] == mid;
    } else {
      StripEmptyIff(s);
    }
  }

  /** The digit characters of `s`, in order. */
  function Digits(s: string): (r: string)
    ensures |r| <= |s|
    ensures forall i :: 0 <= i < |r| ==> IsDigit(r[i])
    ensures (forall i :: 0 <= i < |s| ==> !IsDigit(s[i])) ==> r == []
  {
    if s == [] then []
    else (if IsDigit(s[0]) then [s[0]] else []) + Digits(s[1..])
  }

  lemma {:induction false} DigitsAppend(a: string, b: string)
    ensures Digits(a + b) == Digits(a) + Digits(b)
  {
    if a == [] {
      assert a + b == b;
    } else {
      assert (a + b)[1..] == a[1..] + b;
      DigitsAppend(a[1..], b);
    }
  }

  lemma {:induction false} DigitsOfDigits(s: string)
    requires forall i :: 0 <= i < |s| ==> IsDigit(s[i])
    ensures Digits(s) == s
  {
    if s != [] {
      DigitsOfDigits(s[1..]);
    }
  }

  /** Upper- and lower-casing undo each other on the letters they change. */
  lemma CaseRoundTrip(c: char)
    ensures IsLower(c) ==> LowerChar(UpperChar(c)) == c
    ensures IsUpper(c) ==> UpperChar(LowerChar(c)) == c
    ensures LowerChar(UpperChar(c)) == LowerChar(c)
  {
  }

  lemma UpperIdempotent(s: string)
    ensures ToUpper(ToUpper(s)) == ToUpper(s)
  {
  }

  lemma LowerIdempotent(s: string)
    ensures ToLower(ToLower(s)) == ToLower(s)
  {
  }

  lemma {:induction false} StripIdempotent(s: string)
    ensures Strip(Strip(s)) == Strip(s)
  {
    var r := Strip(s);
    StripSpec(s);
    if r != [] {
      assert SkipSpace(r, 0) == 0;
      assert SkipSpaceBack(r, 0, |r|) == |r|;
    }
  }

  lemma TitleIdempotent(s: string)
    ensures TitleCase(TitleCase(s)) == TitleCase(s)
  {
    var t := TitleFrom(s, false);
    var u := TitleFrom(t, false);
    forall i | 0 <= i < |s|
      ensures u[i] == t[i]
    {
      if i > 0 {
        var c := s[i - 1];
        assert t[i - 1] == (if i - 1 == 0 then UpperChar(c)
                            else if IsLetter(s[i - 2]) then LowerChar(c) else UpperChar(c));
        assert IsLetter(t[i - 1]) == IsLetter(c);
      }
    }
  }
}
