/** The java.lang.String and java.lang.Character operations the core relies on,
    stated over Dafny strings (sequences of Unicode scalar values). */
module JavaText {

  /** String.trim() removes every leading and trailing char whose code is at most U+0020. */
  predicate IsTrimmable(c: char) {
    c <= ' '
  }

  /** No trimmable char at either end. */
  predicate IsTrimmed(s: string) {
    s == [] || (!IsTrimmable(s[0]) && !IsTrimmable(s[|s| - 1]))
  }

  /** The first loop of String.trim(): from st, step over trimmable chars. */
  function TrimFrom(s: string, st: int): (r: int)
    requires 0 <= st <= |s|
    ensures st <= r <= |s|
    ensures forall i :: st <= i < r ==> IsTrimmable(s[i])
    ensures r == |s| || !IsTrimmable(s[r])
    decreases |s| - st
  {
    if st < |s| && IsTrimmable(s[st]) then TrimFrom(s, st + 1) else st
  }

  /** The second loop of String.trim(): from len, step back over trimmable chars, never
      below st. */
  function TrimTo(s: string, st: int, len: int): (r: int)
    requires 0 <= st <= len <= |s|
    ensures st <= r <= len
    ensures forall i :: r <= i < len ==> IsTrimmable(s[i])
    ensures r == st || !IsTrimmable(s[r - 1])
    decreases len
  {
    if st < len && IsTrimmable(s[len - 1]) then TrimTo(s, st, len - 1) else len
  }

  /** r is s[a..a+|r|] and everything cut off on either side is trimmable. */
  predicate TrimSplit(s: string, r: string, a: int) {
    0 <= a <= |s| - |r| && r == s[a..a + |r|]
    && (forall i :: 0 <= i < a ==> IsTrimmable(s[i]))
    && (forall i :: a + |r| <= i < |s| ==> IsTrimmable(s[i]))
  }

  /** String.trim(): s between the two indices the loops stop at; the result has no
      trimmable char at either end. */
  function Trim(s: string): (r: string)
    ensures |r| <= |s| && IsTrimmed(r)
  {
    var st := TrimFrom(s, 0);
    var len := TrimTo(s, st, |s|);
    assert len > st ==> s[st..len][0] == s[st] && s[st..len][len - st - 1] == s[len - 1];
    s[st..len]
  }

  /** Trim cuts off only trimmable chars: its result is a slice of s with nothing but
      trimmable chars on either side. */
  lemma TrimIsSplit(s: string)
    ensures exists a :: TrimSplit(s, Trim(s), a)
  {
    var st := TrimFrom(s, 0);
    assert TrimSplit(s, Trim(s), st);
  }

  /** Where the first loop stops is fixed by the chars: the first non-trimmable one. */
  lemma TrimFromIs(s: string, st: int, v: int)
    requires 0 <= st <= v <= |s|
    requires forall i :: st <= i < v ==> IsTrimmable(s[i])
    requires v == |s| || !IsTrimmable(s[v])
    ensures TrimFrom(s, st) == v
  {
  }

  /** Where the second loop stops: after the last non-trimmable char, or at st. */
  lemma TrimToIs(s: string, st: int, len: int, v: int)
    requires 0 <= st <= v <= len <= |s|
    requires forall i :: v <= i < len ==> IsTrimmable(s[i])
    requires v == st || !IsTrimmable(s[v - 1])
    ensures TrimTo(s, st, len) == v
  {
  }

  /** Trimming a string that is already trimmed changes nothing, so trim is idempotent. */
  lemma TrimOfTrimmed(s: string)
    requires IsTrimmed(s)
    ensures Trim(s) == s
  {
    TrimFromIs(s, 0, 0);
    TrimToIs(s, 0, |s|, |s|);
    assert s[0..|s|] == s;
  }

  lemma TrimIdempotent(s: string)
    ensures Trim(Trim(s)) == Trim(s)
  {
    TrimOfTrimmed(Trim(s));
  }

  /** Padding made only of trimmable chars on either side is removed by trim. */
  lemma TrimPadded(pre: string, s: string, post: string)
    requires forall i :: 0 <= i < |pre| ==> IsTrimmable(pre[i])
    requires forall i :: 0 <= i < |post| ==> IsTrimmable(post[i])
    requires IsTrimmed(s)
    ensures Trim(pre + s + post) == s
  {
    var x := pre + s + post;
    assert forall i :: 0 <= i < |pre| ==> x[i] == pre[i];
    assert forall i :: |pre| + |s| <= i < |x| ==> x[i] == post[i - |pre| - |s|];
    if s == [] {
      TrimFromIs(x, 0, |x|);
      TrimToIs(x, |x|, |x|, |x|);
    } else {
      assert x[|pre|] == s[0] && x[|pre| + |s| - 1] == s[|s| - 1];
      TrimFromIs(x, 0, |pre|);
      TrimToIs(x, |pre|, |x|, |pre| + |s|);
      assert x[|pre|..|pre| + |s|] == s;
    }
  }

  /** String.toUpperCase() as far as it can produce an ASCII letter from one char: the
      ASCII letters, dotless i (U+0131) to I and long s (U+017F) to S. Every other char
      is kept; Java maps it to something holding a non-ASCII char, or to one of the
      pairs SS, FF, FI, FL, ST (from its expansions of ß and the ligatures). */
  function UpperChar(c: char): char {
    if 'a' <= c <= 'z' then (c as int - 32) as char
    else if c == '\U{131}' then 'I'
    else if c == '\U{17F}' then 'S'
    else c
  }

  function ToUpper(s: string): (r: string)
    ensures |r| == |s|
  {
    seq(|s|, i requires 0 <= i < |s| => UpperChar(s[i]))
  }

  /** An upper-case ASCII word (such as an enum constant name). */
  predicate IsUpperWord(s: string) {
    forall i :: 0 <= i < |s| ==> 'A' <= s[i] <= 'Z'
  }

  function LowerChar(c: char): char {
    if 'A' <= c <= 'Z' then (c as int + 32) as char else c
  }

  function ToLower(s: string): (r: string)
    ensures |r| == |s|
  {
    seq(|s|, i requires 0 <= i < |s| => LowerChar(s[i]))
  }

  /** Upper-casing is insensitive to the case of the input: the lower-case spelling of
      an upper-case word upper-cases back to the word, and so does the word itself. */
  lemma UpperOfLower(w: string)
    requires IsUpperWord(w)
    ensures ToUpper(ToLower(w)) == w
    ensures ToUpper(w) == w
  {
  }

  /** s contains pat starting at index i. */
  predicate OccursAt(s: string, pat: string, i: int) {
    0 <= i && i + |pat| <= |s| && s[i..i + |pat|] == pat
  }

  /** An occurrence in s[1..] is an occurrence in s one place further on. */
  lemma OccursShift(s: string, pat: string)
    requires s != []
    ensures forall i :: 0 <= i ==> (OccursAt(s[1..], pat, i) <==> OccursAt(s, pat, i + 1))
  {
    forall i | 0 <= i ensures OccursAt(s[1..], pat, i) <==> OccursAt(s, pat, i + 1) {
      if 0 <= i && i + 1 + |pat| <= |s| {
        assert s[1..][i..i + |pat|] == s[i + 1..i + 1 + |pat|];
      }
    }
  }

  /** String.contains(pat). */
  function Contains(s: string, pat: string): (b: bool)
    ensures b <==> exists i :: OccursAt(s, pat, i)
  {
    if |s| < |pat| then
      false
    else if s[..|pat|] == pat then
      assert OccursAt(s, pat, 0);
      true
    else
      var rest := Contains(s[1..], pat);
      OccursShift(s, pat);
      assert rest ==> exists i :: OccursAt(s, pat, i) by {
        if rest {
          var j :| OccursAt(s[1..], pat, j);
          assert OccursAt(s, pat, j + 1);
        }
      }
      assert (exists i :: OccursAt(s, pat, i)) ==> rest by {
        if exists i :: OccursAt(s, pat, i) {
          var i :| OccursAt(s, pat, i);
          assert i != 0;
          assert OccursAt(s[1..], pat, i - 1);
        }
      }
      rest
  }

  /** String.replaceAll(pat, "") for a pattern without regex metacharacters: every
      occurrence found scanning left to right, without overlaps, is deleted. */
  function RemoveAll(s: string, pat: string): (r: string)
    requires pat != []
    ensures |r| <= |s|
    decreases |s|
  {
    if |s| < |pat| then s
    else if s[..|pat|] == pat then RemoveAll(s[|pat|..], pat)
    else [s[0]] + RemoveAll(s[1..], pat)
  }

  /** Deleting a pattern that does not occur leaves the string as it was. */
  lemma {:induction false} RemoveAllAbsent(s: string, pat: string)
    requires pat != []
    requires !Contains(s, pat)
    ensures RemoveAll(s, pat) == s
    decreases |s|
  {
    if |s| >= |pat| {
      assert !OccursAt(s, pat, 0);
      OccursShift(s, pat);
      RemoveAllAbsent(s[1..], pat);
      assert s == [s[0]] + s[1..];
    }
  }

  /** A text none of whose chars starts the pattern, followed by one occurrence: the
      occurrence is deleted and the text is kept. */
  lemma {:induction false} RemoveAllTrailing(x: string, pat: string)
    requires pat != []
    requires forall k :: 0 <= k < |x| ==> x[k] != pat[0]
    ensures RemoveAll(x + pat, pat) == x
    decreases |x|
  {
    var s := x + pat;
    if x == [] {
      assert s[..|pat|] == pat && s[|pat|..] == [];
    } else {
      assert s[..|pat|][0] == x[0] != pat[0];
      assert s[1..] == x[1..] + pat;
      RemoveAllTrailing(x[1..], pat);
      assert x == [x[0]] + x[1..];
    }
  }

  /** Removing a leading occurrence is the same as removing from the rest. */
  lemma RemoveAllLeading(pat: string, s: string)
    requires pat != []
    ensures RemoveAll(pat + s, pat) == RemoveAll(s, pat)
  {
    assert (pat + s)[..|pat|] == pat;
    assert (pat + s)[|pat|..] == s;
  }

  predicate IsDigit(c: char) {
    '0' <= c <= '9'
  }

  predicate AllDigits(s: string) {
    forall i :: 0 <= i < |s| ==> IsDigit(s[i])
  }

  /** s.replaceAll("[^0-9]", ""): keeps the ASCII digits, in order. */
  function KeepDigits(s: string): (r: string)
    ensures AllDigits(r)
    ensures |r| <= |s|
    ensures AllDigits(s) ==> r == s
  {
    if s == [] then []
    else if IsDigit(s[0]) then [s[0]] + KeepDigits(s[1..])
    else KeepDigits(s[1..])
  }

  /** replaceAll works char by char: a digit is kept and any other char dropped. */
  lemma KeepDigitsOfChar(c: char)
    ensures KeepDigits([c]) == if IsDigit(c) then [c] else []
  {
    assert [c][1..] == [];
  }

  /** Every digit is kept, in order: filtering a concatenation filters each part. */
  lemma {:induction false} KeepDigitsAppend(a: string, b: string)
    ensures KeepDigits(a + b) == KeepDigits(a) + KeepDigits(b)
    decreases |a|
  {
    if a == [] {
      assert a + b == b;
    } else {
      assert (a + b)[0] == a[0];
      assert (a + b)[1..] == a[1..] + b;
      KeepDigitsAppend(a[1..], b);
    }
  }

  function DigitValue(c: char): nat
    requires IsDigit(c)
  {
    c as int - '0' as int
  }

  /** The number written by a string of decimal digits (leading zeros allowed). */
  function DecimalValue(d: string): nat
    requires AllDigits(d)
  {
    if d == [] then 0 else DecimalValue(d[..|d| - 1]) * 10 + DigitValue(d[|d| - 1])
  }

  /** The decimal spelling of n, without leading zeros (Long.toString / %d for n >= 0). */
  function NatToString(n: nat): (s: string)
    ensures AllDigits(s) && s != []
    ensures |s| > 1 ==> s[0] != '0'
  {
    var last := ('0' as int + n % 10) as char;
    if n < 10 then [last] else NatToString(n / 10) + [last]
  }

  /** Reading back a printed number gives the number. */
  lemma {:induction false} DecimalOfNatToString(n: nat)
    ensures DecimalValue(NatToString(n)) == n
  {
    var s := NatToString(n);
    if n >= 10 {
      DecimalOfNatToString(n / 10);
      assert s[..|s| - 1] == NatToString(n / 10);
    }
  }

  /** Character.isWhitespace, over BMP code points: the Unicode space, line and paragraph
      separators except the three no-break spaces, plus U+0009..U+000D and U+001C..U+001F. */
  predicate IsJavaWhitespace(c: char) {
    var n := c as int;
    (0x09 <= n <= 0x0D) || (0x1C <= n <= 0x20) || n == 0x1680
    || (0x2000 <= n <= 0x2006) || (0x2008 <= n <= 0x200A)
    || n == 0x2028 || n == 0x2029 || n == 0x205F || n == 0x3000
  }

  /** String.isBlank(): empty or made only of whitespace. */
  predicate IsBlank(s: string) {
    forall i :: 0 <= i < |s| ==> IsJavaWhitespace(s[i])
  }

  /** String.length(): the number of UTF-16 code units; a char above U+FFFF takes two. */
  function Utf16Length(s: string): (n: nat)
    ensures |s| <= n <= 2 * |s|
  {
    if s == [] then 0
    else (if s[|s| - 1] as int > 0xFFFF then 2 else 1) + Utf16Length(s[..|s| - 1])
  }

  /** A string of BMP chars has as many UTF-16 units as chars. */
  lemma {:induction false} Utf16LengthOfBmp(s: string)
    requires forall i :: 0 <= i < |s| ==> s[i] as int <= 0xFFFF
    ensures Utf16Length(s) == |s|
  {
    if s != [] {
      Utf16LengthOfBmp(s[..|s| - 1]);
    }
  }

  /** One unit for a BMP char, two (a surrogate pair) for one above U+FFFF. */
  lemma Utf16LengthOfChar(c: char)
    ensures Utf16Length([c]) == if c as int > 0xFFFF then 2 else 1
  {
    assert [c][..0] == [];
  }

  /** Lengths of a concatenation add up, so the length is the sum of the per-char counts. */
  lemma {:induction false} Utf16LengthAppend(a: string, b: string)
    ensures Utf16Length(a + b) == Utf16Length(a) + Utf16Length(b)
    decreases |b|
  {
    if b == [] {
      assert a + b == a;
    } else {
      var s := a + b;
      assert s[|s| - 1] == b[|b| - 1];
      assert s[..|s| - 1] == a + b[..|b| - 1];
      Utf16LengthAppend(a, b[..|b| - 1]);
    }
  }
}
