/**
  The few Python `str` operations the holiday reader relies on: `strip`,
  `replace`, `find`, `startswith`, `split`, `isdigit` and `int` on ASCII digits.
*/
module Text {

  /** The characters Python's `str.isspace` accepts. */
  predicate IsSpace(c: char) {
    ('\t' <= c <= '\r') || ('\U{1C}' <= c <= ' ') || c == '\U{85}' || c == '\U{A0}'
    || c == '\U{1680}' || ('\U{2000}' <= c <= '\U{200A}') || c == '\U{2028}' || c == '\U{2029}'
    || c == '\U{202F}' || c == '\U{205F}' || c == '\U{3000}'
  }

  function TrimLeft(s: string): (r: string)
    ensures |r| <= |s| && r == s[|s| - |r|..]
    ensures r != [] ==> !IsSpace(r[0])
    ensures forall i :: 0 <= i < |s| - |r| ==> IsSpace(s[i])
  {
    if s != [] && IsSpace(s[0]) then TrimLeft(s[1..]) else s
  }

  function TrimRight(s: string): (r: string)
    ensures |r| <= |s| && r == s[..|r|]
    ensures r != [] ==> !IsSpace(r[|r| - 1])
    ensures forall i :: |r| <= i < |s| ==> IsSpace(s[i])
  {
    if s != [] && IsSpace(s[|s| - 1]) then TrimRight(s[..|s| - 1]) else s
  }

  /** `s.strip()`: drops leading and trailing whitespace. */
  function Strip(s: string): (r: string)
    ensures r != [] ==> !IsSpace(r[0]) && !IsSpace(r[|r| - 1])
    ensures r == [] <==> forall i :: 0 <= i < |s| ==> IsSpace(s[i])
  {
    TrimRight(TrimLeft(s))
  }

  /**
    What `strip` keeps: the part of `s` between a run of blanks at the front
    and a run of blanks at the end, itself neither starting nor ending with a
    blank.
  */
  lemma StripIsSlice(s: string)
    ensures var r := Strip(s);
      (r != [] ==> !IsSpace(r[0]) && !IsSpace(r[|r| - 1]))
      && exists i ::
        (0 <= i <= |s| && |r| <= |s| - i && r == s[i..][..|r|]
         && (forall k :: 0 <= k < i ==> IsSpace(s[k]))
         && (forall k :: i + |r| <= k < |s| ==> IsSpace(s[k])))
  {
    var left := TrimLeft(s);
    var r := TrimRight(left);
    var i := |s| - |left|;
    assert left == s[i..];
    forall k | i + |r| <= k < |s|
      ensures IsSpace(s[k])
    {
      assert s[k] == left[k - i];
    }
    assert r == s[i..][..|r|];
    assert forall k :: 0 <= k < i ==> IsSpace(s[k]);
  }

  /** A string that neither starts nor ends with whitespace is its own strip. */
  lemma StripUnpadded(s: string)
    requires s != [] && !IsSpace(s[0]) && !IsSpace(s[|s| - 1])
    ensures Strip(s) == s
  {
  }

  /** Where the strip of `s` sits in `s`. */
  lemma StripOffset(s: string) returns (i: nat)
    ensures i + |Strip(s)| <= |s|
    ensures forall k :: 0 <= k < |Strip(s)| ==> Strip(s)[k] == s[i + k]
  {
    var left := TrimLeft(s);
    i := |s| - |left|;
    assert left == s[i..];
  }

  /** A character `s` lacks, its strip lacks too. */
  lemma StripKeepsAbsent(s: string, c: char)
    requires c !in s
    ensures c !in Strip(s)
  {
    var i := StripOffset(s);
    var r := Strip(s);
    forall k | 0 <= k < |r|
      ensures r[k] != c
    {
      assert r[k] == s[i + k];
    }
  }

  /** A string without `//` has a strip without `//`. */
  lemma StripKeepsNoSlash(s: string)
    requires forall j :: !SlashAt(s, j)
    ensures forall j :: !SlashAt(Strip(s), j)
  {
    var i := StripOffset(s);
    var r := Strip(s);
    forall j | 0 <= j < |r| - 1
      ensures !SlashAt(r, j)
    {
      assert r[j] == s[i + j] && r[j + 1] == s[i + j + 1];
      assert !SlashAt(s, i + j);
    }
  }

  /** A prefix that neither starts nor ends with white space survives `strip`. */
  lemma StripKeepsPrefix(p: string, s: string)
    requires p != [] && !IsSpace(p[0]) && !IsSpace(p[|p| - 1])
    ensures StartsWith(Strip(p + s), p)
  {
    var x := p + s;
    assert TrimLeft(x) == x by { assert x[0] == p[0]; }
    var r := TrimRight(x);
    assert x[|p| - 1] == p[|p| - 1];
    assert r[..|p|] == x[..|p|] == p;
  }

  /** A blank after a string without white space at its ends is stripped away. */
  lemma StripTrailingSpace(s: string)
    requires s != [] && !IsSpace(s[0]) && !IsSpace(s[|s| - 1])
    ensures Strip(s + " ") == s
  {
    var x := s + " ";
    assert TrimLeft(x) == x by { assert x[0] == s[0]; }
    assert TrimRight(x) == TrimRight(s) by { assert x[..|x| - 1] == s; }
    assert TrimLeft(s) == s;
  }

  /** `s.replace(c, "")`. */
  function RemoveAll(s: string, c: char): (r: string)
    ensures c !in r
    ensures |r| <= |s|
  {
    if s == [] then []
    else if s[0] == c then RemoveAll(s[1..], c)
    else [s[0]] + RemoveAll(s[1..], c)
  }

  lemma {:induction false} RemoveAllAbsent(s: string, c: char)
    requires c !in s
    ensures RemoveAll(s, c) == s
  {
    if s != [] {
      RemoveAllAbsent(s[1..], c);
    }
  }

  lemma {:induction false} RemoveAllConcat(a: string, b: string, c: char)
    ensures RemoveAll(a + b, c) == RemoveAll(a, c) + RemoveAll(b, c)
  {
    if a != [] {
      assert (a + b)[1..] == a[1..] + b;
      RemoveAllConcat(a[1..], b, c);
    } else {
      assert a + b == b;
    }
  }

  /** Removes each character of `cs` in turn, as a loop of `s = s.replace(ch, "")`. */
  function RemoveChars(s: string, cs: seq<char>): (r: string)
    decreases |cs|
  {
    if cs == [] then s else RemoveChars(RemoveAll(s, cs[0]), cs[1..])
  }

  /** After removing a set of characters none of them is left and the others are kept. */
  lemma {:induction false} RemoveCharsRemoves(s: string, cs: seq<char>)
    ensures forall c :: c in cs ==> c !in RemoveChars(s, cs)
    ensures forall c :: c !in cs ==> multiset(RemoveChars(s, cs))[c] == multiset(s)[c]
    decreases |cs|
  {
    if cs != [] {
      RemoveAllCounts(s, cs[0]);
      RemoveCharsRemoves(RemoveAll(s, cs[0]), cs[1..]);
      forall c | c in cs && c !in cs[1..]
        ensures c !in RemoveChars(s, cs)
      {
        assert c == cs[0];
        RemoveCharsKeepsAbsent(RemoveAll(s, cs[0]), cs[1..], c);
      }
    }
  }

  lemma {:induction false} RemoveAllCounts(s: string, c: char)
    ensures forall x :: x != c ==> multiset(RemoveAll(s, c))[x] == multiset(s)[x]
  {
    if s != [] {
      RemoveAllCounts(s[1..], c);
      assert s == [s[0]] + s[1..];
    }
  }

  lemma {:induction false} RemoveCharsKeepsAbsent(s: string, cs: seq<char>, c: char)
    requires c !in s
    ensures c !in RemoveChars(s, cs)
    decreases |cs|
  {
    if cs != [] {
      RemoveAllCounts(s, cs[0]);
      if c != cs[0] {
        assert multiset(RemoveAll(s, cs[0]))[c] == multiset(s)[c] == 0;
      }
      RemoveCharsKeepsAbsent(RemoveAll(s, cs[0]), cs[1..], c);
    }
  }

  /** `s.replace(a, b)` for single characters. */
  function ReplaceChar(s: string, a: char, b: char): (r: string)
    ensures |r| == |s|
    ensures forall i :: 0 <= i < |s| ==> r[i] == if s[i] == a then b else s[i]
  {
    if s == [] then [] else [if s[0] == a then b else s[0]] + ReplaceChar(s[1..], a, b)
  }

  lemma ReplaceAbsent(s: string, a: char, b: char)
    requires a !in s
    ensures ReplaceChar(s, a, b) == s
  {
  }

  /** `s.find(c)`: the first index of `c`, or -1. */
  function FindChar(s: string, c: char): (i: int)
    ensures -1 <= i < |s|
    ensures i >= 0 ==> s[i] == c && c !in s[..i]
    ensures i < 0 <==> c !in s
  {
    if s == [] then -1
    else if s[0] == c then 0
    else var j := FindChar(s[1..], c); if j < 0 then -1 else j + 1
  }

  /** `s` has `//` starting at index `j`. */
  predicate SlashAt(s: string, j: int) {
    0 <= j < |s| - 1 && s[j] == '/' && s[j + 1] == '/'
  }

  /** `s.find("//")`. */
  function FindDoubleSlash(s: string): (i: int)
    ensures -1 <= i < |s| - 1 || i == -1
    ensures i >= 0 ==> SlashAt(s, i)
    ensures i >= 0 ==> forall j :: 0 <= j < i ==> !SlashAt(s, j)
    ensures i < 0 <==> forall j :: !SlashAt(s, j)
  {
    if |s| < 2 then -1
    else if s[0] == '/' && s[1] == '/' then 0
    else
      var j := FindDoubleSlash(s[1..]);
      assert forall k :: 1 <= k && SlashAt(s, k) ==> SlashAt(s[1..], k - 1);
      assert forall k :: 0 <= k && SlashAt(s[1..], k) ==> SlashAt(s, k + 1);
      if j < 0 then -1 else j + 1
  }

  predicate StartsWith(s: string, prefix: string) {
    |prefix| <= |s| && s[..|prefix|] == prefix
  }

  /** `sep.join(parts)`. */
  function Join(parts: seq<string>, sep: char): string {
    if |parts| <= 1 then (if parts == [] then [] else parts[0])
    else parts[0] + [sep] + Join(parts[1..], sep)
  }

  /**
    `s.split(sep)`: the pieces between separators, empty pieces included.
    Joining them back with the separator gives `s`.
  */
  function Split(s: string, sep: char): (parts: seq<string>)
    ensures |parts| >= 1
    ensures forall k :: 0 <= k < |parts| ==> sep !in parts[k]
    ensures Join(parts, sep) == s
    decreases |s|
  {
    var i := FindChar(s, sep);
    if i < 0 then [s]
    else
      var rest := Split(s[i + 1..], sep);
      assert s == s[..i] + [sep] + s[i + 1..];
      assert ([s[..i]] + rest)[1..] == rest;
      [s[..i]] + rest
  }

  /** A character of one of the pieces is a character of their join. */
  lemma {:induction false} JoinContains(parts: seq<string>, sep: char, k: int, c: char)
    requires 0 <= k < |parts| && c in parts[k]
    ensures c in Join(parts, sep)
  {
    if k > 0 {
      JoinContains(parts[1..], sep, k - 1, c);
    }
  }

  lemma SplitAbsent(s: string, sep: char)
    requires sep !in s
    ensures Split(s, sep) == [s]
  {
  }

  predicate IsDigit(c: char) {
    '0' <= c <= '9'
  }

  predicate AllDigits(s: string) {
    forall i :: 0 <= i < |s| ==> IsDigit(s[i])
  }

  function DigitValue(c: char): int {
    c as int - '0' as int
  }

  function DigitChar(n: int): char
    requires 0 <= n < 10
  {
    ('0' as int + n) as char
  }

  /** `int(s)` for a string of ASCII digits, most significant first. */
  function DecimalValue(s: string): (v: nat)
    requires AllDigits(s)
  {
    if s == [] then 0 else DecimalValue(s[..|s| - 1]) * 10 + DigitValue(s[|s| - 1])
  }

  function Pow10(n: nat): nat {
    if n == 0 then 1 else 10 * Pow10(n - 1)
  }

  /** n digits never reach 10^n. */
  lemma {:induction false} DecimalBound(s: string)
    requires AllDigits(s)
    ensures DecimalValue(s) < Pow10(|s|)
  {
    if s != [] {
      DecimalBound(s[..|s| - 1]);
    }
  }

  /** Digit strings read positionally: the value of a concatenation. */
  lemma {:induction false} DecimalConcat(a: string, b: string)
    requires AllDigits(a) && AllDigits(b)
    ensures AllDigits(a + b)
    ensures DecimalValue(a + b) == DecimalValue(a) * Pow10(|b|) + DecimalValue(b)
    decreases |b|
  {
    if b != [] {
      var b' := b[..|b| - 1];
      assert (a + b)[..|a + b| - 1] == a + b';
      DecimalConcat(a, b');
      Shift(DecimalValue(a), Pow10(|b'|), DecimalValue(b'), DigitValue(b[|b| - 1]));
    } else {
      assert a + b == a;
    }
  }

  /** `str(n)` for a natural number: its decimal digits without leading zeros. */
  function DecimalString(n: nat): (s: string)
    ensures s != [] && AllDigits(s) && DecimalValue(s) == n
    ensures |s| > 1 ==> s[0] != '0'
    decreases n
  {
    if n < 10 then [DigitChar(n)]
    else
      var init := DecimalString(n / 10);
      var s := init + [DigitChar(n % 10)];
      assert s[..|s| - 1] == init;
      s
  }

  lemma Shift(x: int, p: int, y: int, d: int)
    ensures (x * p + y) * 10 + d == x * (p * 10) + (y * 10 + d)
  {
  }

  /** The two-digit, zero-padded decimal form of 0..99. */
  function TwoDigits(n: int): (s: string)
    requires 0 <= n < 100
    ensures |s| == 2 && AllDigits(s) && DecimalValue(s) == n
  {
    var s := [DigitChar(n / 10), DigitChar(n % 10)];
    assert s[..1][..0] == [];
    assert DecimalValue(s[..1]) == n / 10;
    assert DecimalValue(s) == (n / 10) * 10 + n % 10;
    s
  }

  /** The four-digit, zero-padded decimal form of 0..9999. */
  function FourDigits(n: int): (s: string)
    requires 0 <= n < 10000
    ensures |s| == 4 && AllDigits(s) && DecimalValue(s) == n
  {
    var hi := TwoDigits(n / 100);
    var lo := TwoDigits(n % 100);
    DecimalConcat(hi, lo);
    hi + lo
  }
}
