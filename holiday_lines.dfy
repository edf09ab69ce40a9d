/**
  The line rules of `load_holiday_keys`: what a line keeps once comments and
  surrounding blanks are gone, what its tokens look like, and what comment
  lines, inline comments and delimited dates contribute.
*/
module HolidayLines {
  import opened Calendar
  import opened Text
  import opened HolidayCsv

  predicate NoDoubleSlash(s: string) {
    forall j :: 0 <= j < |s| ==> !SlashAt(s, j)
  }

  /** Text a line can keep: no blank ends, no carriage return, no `#` and no `//`. */
  predicate Kept(s: string) {
    s != [] && !IsSpace(s[0]) && !IsSpace(s[|s| - 1]) && '\r' !in s && '#' !in s && NoDoubleSlash(s)
  }

  /** The characters that end a token or start a comment. */
  predicate Delimiting(c: char) {
    c == ',' || c == ';' || c == '\t' || c == '#' || c == '\r'
  }

  // ---------------------------------------------------------------------------
  // What a line keeps
  // ---------------------------------------------------------------------------

  /**
    What survives of a line is empty or kept text: comments, carriage returns
    and surrounding blanks are all gone.
  */
  lemma LineContentShape(line: string)
    ensures var c := LineContent(line); c == [] || Kept(c)
  {
    var l := Strip(RemoveAll(line, '\r'));
    assert '\r' !in l by { StripKeepsAbsent(RemoveAll(line, '\r'), '\r'); }
    CommentFreeShape(l);
  }

  lemma CommentFreeShape(l: string)
    requires '\r' !in l && Unpadded(l)
    ensures var c := CommentFree(l); c == [] || Kept(c)
  {
    if l != [] && !StartsWith(l, "#") && !StartsWith(l, "//") {
      var hashPos := FindChar(l, '#');
      var l1 := if hashPos >= 0 then Strip(l[..hashPos]) else l;
      HashCutShape(l);
      SlashCutShape(l1);
    }
  }

  /** No blank at either end. */
  predicate Unpadded(s: string) {
    s == [] || (!IsSpace(s[0]) && !IsSpace(s[|s| - 1]))
  }

  /** Cutting at the first `#` leaves unpadded text without `#` or carriage return. */
  lemma HashCutShape(l: string)
    requires '\r' !in l && Unpadded(l)
    ensures var hashPos := FindChar(l, '#');
      var l1 := if hashPos >= 0 then Strip(l[..hashPos]) else l;
      '#' !in l1 && '\r' !in l1 && Unpadded(l1)
  {
    var hashPos := FindChar(l, '#');
    if hashPos >= 0 {
      StripKeepsAbsent(l[..hashPos], '#');
      StripKeepsAbsent(l[..hashPos], '\r');
    }
  }

  /** Cutting such text at the first `//` leaves kept text or nothing. */
  lemma SlashCutShape(l1: string)
    requires '#' !in l1 && '\r' !in l1 && Unpadded(l1)
    ensures var slashPos := FindDoubleSlash(l1);
      var c := if slashPos >= 0 then Strip(l1[..slashPos]) else l1;
      c == [] || Kept(c)
  {
    var slashPos := FindDoubleSlash(l1);
    if slashPos >= 0 {
      var head := l1[..slashPos];
      assert '#' !in head && '\r' !in head;
      assert forall j :: !SlashAt(head, j) by {
        forall j | 0 <= j < |head| - 1 ensures !SlashAt(head, j) {
          assert head[j] == l1[j] && head[j + 1] == l1[j + 1];
          assert !SlashAt(l1, j);
        }
      }
      StripKeepsAbsent(head, '#');
      StripKeepsAbsent(head, '\r');
      StripKeepsNoSlash(head);
    }
  }

  /** Kept text is kept whole. */
  lemma KeptContent(s: string)
    requires Kept(s)
    ensures LineContent(s) == s
  {
    KeptStripped(s);
    KeptCommentFree(s);
  }

  lemma KeptStripped(s: string)
    requires Kept(s)
    ensures Strip(RemoveAll(s, '\r')) == s
  {
    RemoveAllAbsent(s, '\r');
    StripUnpadded(s);
  }

  lemma KeptCommentFree(s: string)
    requires Kept(s)
    ensures CommentFree(s) == s
  {
    assert FindChar(s, '#') < 0;
    assert FindDoubleSlash(s) < 0;
    assert !StartsWith(s, "#") by { assert s[0] != '#'; }
    assert !StartsWith(s, "//") by {
      if |s| >= 2 {
        assert s[..2][0] == s[0] && s[..2][1] == s[1];
      }
    }
  }

  /** A line whose first non-blank character starts `#` or `//` contributes nothing. */
  lemma CommentLine(rest: string)
    ensures LineContent("#" + rest) == [] && LineKeys("#" + rest) == {}
    ensures LineContent("//" + rest) == [] && LineKeys("//" + rest) == {}
  {
    CommentPrefix("#", rest);
    CommentPrefix("//", rest);
  }

  lemma CommentPrefix(p: string, rest: string)
    requires p == "#" || p == "//"
    ensures LineContent(p + rest) == [] && LineKeys(p + rest) == {}
  {
    var r := RemoveAll(p + rest, '\r');
    assert r == p + RemoveAll(rest, '\r') by {
      RemoveAllConcat(p, rest, '\r');
      RemoveAllAbsent(p, '\r');
    }
    assert StartsWith(Strip(r), p) by {
      StripKeepsPrefix(p, RemoveAll(rest, '\r'));
    }
    assert StartsWith(Strip(r), "#") || StartsWith(Strip(r), "//");
  }

  /** The stripped line of `p` followed by anything starts with `p`, when `p` is unpadded and free of carriage returns. */
  lemma StrippedStart(p: string, rest: string)
    requires p != [] && !IsSpace(p[0]) && !IsSpace(p[|p| - 1]) && '\r' !in p
    ensures StartsWith(Strip(RemoveAll(p + rest, '\r')), p)
  {
    assert RemoveAll(p + rest, '\r') == p + RemoveAll(rest, '\r') by {
      RemoveAllConcat(p, rest, '\r');
      RemoveAllAbsent(p, '\r');
    }
    StripKeepsPrefix(p, RemoveAll(rest, '\r'));
  }

  /** Everything from the first `#` on is a comment: the text before it is kept. */
  lemma HashComment(s: string, rest: string)
    requires Kept(s)
    ensures LineContent(s + " # " + rest) == s
  {
    var p := s + " #";
    assert s + " # " + rest == p + (" " + rest);
    assert '\r' !in p;
    StrippedStart(p, " " + rest);
    HashCommentFree(s, Strip(RemoveAll(p + (" " + rest), '\r')));
  }

  lemma HashCommentFree(s: string, l: string)
    requires Kept(s) && StartsWith(l, s + " #")
    ensures CommentFree(l) == s
  {
    NoCommentStart(s, s + " #", l);
    HashAt(s, l);
  }

  /** The first `#` of such a line is the one after the kept text and its blank. */
  lemma HashAt(s: string, l: string)
    requires Kept(s) && StartsWith(l, s + " #")
    ensures FindChar(l, '#') == |s| + 1 && Strip(l[..|s| + 1]) == s
  {
    var p := s + " #";
    assert forall k :: 0 <= k < |p| ==> l[k] == p[k] by {
      forall k | 0 <= k < |p| ensures l[k] == p[k] { assert l[..|p|][k] == l[k]; }
    }
    assert l[|s| + 1] == '#';
    assert '#' in l;
    forall k | 0 <= k < |s| + 1
      ensures l[k] != '#'
    {
      assert k == |s| || p[k] == s[k];
    }
    assert Strip(l[..|s| + 1]) == s by {
      assert l[..|s| + 1] == s + " ";
      StripTrailingSpace(s);
    }
  }

  /** Everything from the first `//` on is a comment: the text before it is kept. */
  lemma SlashComment(s: string, rest: string)
    requires Kept(s)
    ensures LineContent(s + " // " + rest) == s
  {
    var p := s + " //";
    assert s + " // " + rest == p + (" " + rest);
    assert '\r' !in p;
    StrippedStart(p, " " + rest);
    SlashCommentFree(s, Strip(RemoveAll(p + (" " + rest), '\r')));
  }

  lemma SlashCommentFree(s: string, l: string)
    requires Kept(s) && StartsWith(l, s + " //")
    ensures CommentFree(l) == s
  {
    NoCommentStart(s, s + " //", l);
    HashAfterSlash(s, l);
    var hashPos := FindChar(l, '#');
    var l1 := if hashPos >= 0 then Strip(l[..hashPos]) else l;
    SlashAfter(s, l1);
  }

  /** A `#` after the `//` leaves the kept text and the `//` in place. */
  lemma HashAfterSlash(s: string, l: string)
    requires Kept(s) && StartsWith(l, s + " //")
    ensures var hashPos := FindChar(l, '#');
      hashPos >= 0 ==> StartsWith(Strip(l[..hashPos]), s + " //")
  {
    var p := s + " //";
    var hashPos := FindChar(l, '#');
    if hashPos >= 0 {
      assert forall k :: 0 <= k < |p| ==> l[k] == p[k] by {
        forall k | 0 <= k < |p| ensures l[k] == p[k] { assert l[..|p|][k] == l[k]; }
      }
      forall k | 0 <= k < |p|
        ensures l[k] != '#'
      {
        assert k >= |s| || p[k] == s[k];
      }
      assert l[..hashPos] == p + l[|p|..hashPos];
      StripKeepsPrefix(p, l[|p|..hashPos]);
    }
  }

  /** The first `//` of such a line is the one after the kept text and its blank. */
  lemma SlashAfter(s: string, l1: string)
    requires Kept(s) && StartsWith(l1, s + " //")
    ensures FindDoubleSlash(l1) == |s| + 1 && Strip(l1[..|s| + 1]) == s
  {
    var p := s + " //";
    assert forall k :: 0 <= k < |p| ==> l1[k] == p[k] by {
      forall k | 0 <= k < |p| ensures l1[k] == p[k] { assert l1[..|p|][k] == l1[k]; }
    }
    assert SlashAt(l1, |s| + 1);
    forall j | 0 <= j < |s| + 1
      ensures !SlashAt(l1, j)
    {
      if j < |s| - 1 {
        assert p[j] == s[j] && p[j + 1] == s[j + 1];
        assert !SlashAt(s, j);
      }
    }
    assert Strip(l1[..|s| + 1]) == s by {
      assert l1[..|s| + 1] == s + " ";
      StripTrailingSpace(s);
    }
  }

  /** A kept string followed by a blank does not start a comment. */
  lemma NoCommentStart(s: string, p: string, l: string)
    requires Kept(s) && |p| > |s| && p[..|s|] == s && p[|s|] == ' '
    requires StartsWith(l, p)
    ensures l != [] && !StartsWith(l, "#") && !StartsWith(l, "//")
  {
    assert l[0] == s[0] by { assert l[..|p|][0] == l[0] && p[..|s|][0] == p[0]; }
    assert s[0] != '#';
    assert l[..1][0] == l[0];
    assert l[1] == p[1] by { assert l[..|p|][1] == l[1]; }
    if |s| >= 2 {
      assert p[1] == s[1] by { assert p[..|s|][1] == p[1]; }
      assert !SlashAt(s, 0);
    } else {
      assert p[1] == ' ';
    }
    assert l[..2][0] == l[0] && l[..2][1] == l[1];
  }

  // ---------------------------------------------------------------------------
  // What a line's tokens look like
  // ---------------------------------------------------------------------------

  predicate DelimiterFree(t: string) {
    forall i :: 0 <= i < |t| ==> !Delimiting(t[i])
  }

  /** A token as the loader hands it on: non-empty, unpadded, and free of delimiters. */
  predicate TokenShaped(t: string) {
    t != [] && !IsSpace(t[0]) && !IsSpace(t[|t| - 1]) && DelimiterFree(t)
  }

  /**
    The tokens of a line are non-empty, carry no blanks at their ends, and
    hold no comma, semicolon, tab, `#` or carriage return; a line that keeps
    nothing has no tokens.
  */
  lemma LineTokensShape(line: string)
    ensures forall k :: 0 <= k < |LineTokens(line)| ==> TokenShaped(LineTokens(line)[k])
    ensures LineContent(line) == [] ==> LineTokens(line) == []
  {
    var c := LineContent(line);
    LineContentShape(line);
    if c != [] {
      ContentTokensShape(c);
    }
  }

  lemma ContentTokensShape(c: string)
    requires Kept(c)
    ensures forall k :: 0 <= k < |ContentTokens(c)| ==> TokenShaped(ContentTokens(c)[k])
  {
    var y := ReplaceChar(ReplaceChar(c, '\t', ','), ';', ',');
    ReplacedShape(c);
    PartsDelimiterFree(y);
    StrippedTokens(Split(y, ','));
  }

  /** After the delimiters are mapped to commas, only commas are left of them. */
  lemma ReplacedShape(c: string)
    requires Kept(c)
    ensures var y := ReplaceChar(ReplaceChar(c, '\t', ','), ';', ',');
      forall i :: 0 <= i < |y| ==> y[i] == ',' || !Delimiting(y[i])
  {
  }

  /** The pieces between commas of such text hold no delimiter. */
  lemma PartsDelimiterFree(y: string)
    requires forall i :: 0 <= i < |y| ==> y[i] == ',' || !Delimiting(y[i])
    ensures forall j :: 0 <= j < |Split(y, ',')| ==> DelimiterFree(Split(y, ',')[j])
  {
    var parts := Split(y, ',');
    forall j | 0 <= j < |parts|
      ensures DelimiterFree(parts[j])
    {
      forall i | 0 <= i < |parts[j]|
        ensures !Delimiting(parts[j][i])
      {
        var ch := parts[j][i];
        JoinContains(parts, ',', j, ch);
        assert ch != ',';
      }
    }
  }

  /** Stripping pieces free of delimiters leaves tokens of the loader's shape. */
  lemma {:induction false} StrippedTokens(parts: seq<string>)
    requires forall j :: 0 <= j < |parts| ==> DelimiterFree(parts[j])
    ensures forall k :: 0 <= k < |NonEmptyStripped(parts)| ==> TokenShaped(NonEmptyStripped(parts)[k])
  {
    if parts != [] {
      var t := Strip(parts[0]);
      StripDelimiterFree(parts[0]);
      assert forall j :: 0 <= j < |parts[1..]| ==> DelimiterFree(parts[1..][j]) by {
        forall j | 0 <= j < |parts[1..]| ensures DelimiterFree(parts[1..][j]) {
          assert parts[1..][j] == parts[j + 1];
        }
      }
      StrippedTokens(parts[1..]);
      var rest := NonEmptyStripped(parts[1..]);
      var head := if t == [] then [] else [t];
      assert NonEmptyStripped(parts) == head + rest;
      forall k | 0 <= k < |head + rest|
        ensures TokenShaped((head + rest)[k])
      {
        if k >= |head| {
          assert (head + rest)[k] == rest[k - |head|];
          assert TokenShaped(rest[k - |head|]);
        } else {
          assert (head + rest)[k] == t;
          assert TokenShaped(t);
        }
      }
    }
  }

  lemma StripDelimiterFree(s: string)
    requires DelimiterFree(s)
    ensures DelimiterFree(Strip(s))
  {
    var off := StripOffset(s);
    var t := Strip(s);
    forall i | 0 <= i < |t|
      ensures !Delimiting(t[i])
    {
      assert t[i] == s[off + i];
    }
  }

  // ---------------------------------------------------------------------------
  // Delimited tokens
  // ---------------------------------------------------------------------------

  /** Two tokens joined by a comma, semicolon or tab are read as those two tokens. */
  lemma DelimitedPair(a: string, b: string, c: char)
    requires Kept(a) && Kept(b) && DelimiterFree(a) && DelimiterFree(b)
    requires c == ',' || c == ';' || c == '\t'
    ensures LineTokens(a + [c] + b) == [a, b]
  {
    var x := a + [c] + b;
    JoinedKept(a, b, c);
    KeptContent(x);
    ReplacedPair(a, b, c);
    SplitPair(a, b);
    StrippedPair(a, b);
  }

  lemma JoinedKept(a: string, b: string, c: char)
    requires Kept(a) && Kept(b) && DelimiterFree(a) && DelimiterFree(b)
    requires c == ',' || c == ';' || c == '\t'
    ensures Kept(a + [c] + b)
  {
    var x := a + [c] + b;
    assert x[0] == a[0] && x[|x| - 1] == b[|b| - 1];
    forall i | 0 <= i < |x|
      ensures x[i] != '\r' && x[i] != '#'
    {
      if i < |a| { assert x[i] == a[i]; } else if i > |a| { assert x[i] == b[i - |a| - 1]; }
    }
    forall j | 0 <= j < |x| - 1
      ensures !SlashAt(x, j)
    {
      if j < |a| - 1 {
        assert x[j] == a[j] && x[j + 1] == a[j + 1];
        assert !SlashAt(a, j);
      } else if j > |a| {
        assert x[j] == b[j - |a| - 1] && x[j + 1] == b[j - |a|];
        assert !SlashAt(b, j - |a| - 1);
      }
    }
  }

  lemma ReplacedPair(a: string, b: string, c: char)
    requires DelimiterFree(a) && DelimiterFree(b)
    requires c == ',' || c == ';' || c == '\t'
    ensures ReplaceChar(ReplaceChar(a + [c] + b, '\t', ','), ';', ',') == a + [','] + b
  {
    var x := a + [c] + b;
    var y := ReplaceChar(ReplaceChar(x, '\t', ','), ';', ',');
    forall i | 0 <= i < |y|
      ensures y[i] == (a + [','] + b)[i]
    {
      if i < |a| {
        assert x[i] == a[i] && !Delimiting(a[i]);
      } else if i > |a| {
        assert x[i] == b[i - |a| - 1] && !Delimiting(b[i - |a| - 1]);
      }
    }
  }

  lemma SplitPair(a: string, b: string)
    requires DelimiterFree(a) && DelimiterFree(b)
    ensures Split(a + [','] + b, ',') == [a, b]
  {
    var y := a + [','] + b;
    assert ',' !in a by {
      forall i | 0 <= i < |a| ensures a[i] != ',' { assert !Delimiting(a[i]); }
    }
    assert ',' !in b by {
      forall i | 0 <= i < |b| ensures b[i] != ',' { assert !Delimiting(b[i]); }
    }
    assert y[|a|] == ',' && y[..|a|] == a;
    assert FindChar(y, ',') == |a|;
    assert y[|a| + 1..] == b;
    SplitAbsent(b, ',');
  }

  lemma StrippedPair(a: string, b: string)
    requires Kept(a) && Kept(b)
    ensures NonEmptyStripped([a, b]) == [a, b]
  {
    StripUnpadded(a);
    StripUnpadded(b);
    assert NonEmptyStripped([b]) == [b] by {
      assert [b][1..] == [];
    }
    assert [a, b][1..] == [b];
  }

  // ---------------------------------------------------------------------------
  // Lines of dates
  // ---------------------------------------------------------------------------

  /** A formatted date is kept text free of delimiters. */
  lemma FormattedKept(d: Date, sep: string)
    requires ValidDate(d) && 1900 < d.year < 10000
    requires IsDateSeparator(sep)
    ensures Kept(FormatDate(d, sep))
    ensures DelimiterFree(FormatDate(d, sep))
  {
    var s := FormatDate(d, sep);
    FormattedShape(d, sep);
    UnpaddedDigits(s);
    assert forall i :: 0 <= i < |s| ==> !Delimiting(s[i]) by {
      forall i | 0 <= i < |s| ensures !Delimiting(s[i]) { assert IsDigit(s[i]) || s[i] in Separators; }
    }
  }

  /** The keys of a line are those of the text it keeps. */
  lemma SameContentSameKeys(a: string, b: string)
    requires LineContent(a) == LineContent(b)
    ensures LineKeys(a) == LineKeys(b)
  {
  }

  /** A single token free of delimiters is the line's only token. */
  lemma SingleToken(a: string)
    requires Kept(a) && DelimiterFree(a)
    ensures LineTokens(a) == [a]
  {
    KeptContent(a);
    UndelimitedReplaced(a);
    UndelimitedSplit(a);
    assert NonEmptyStripped([a]) == [a] by {
      StripUnpadded(a);
      assert [a][1..] == [];
    }
  }

  lemma UndelimitedReplaced(a: string)
    requires DelimiterFree(a)
    ensures ReplaceChar(ReplaceChar(a, '\t', ','), ';', ',') == a
  {
    assert '\t' !in a && ';' !in a by {
      forall i | 0 <= i < |a| ensures a[i] != '\t' && a[i] != ';' { assert !Delimiting(a[i]); }
    }
    ReplaceAbsent(a, '\t', ',');
    ReplaceAbsent(a, ';', ',');
  }

  lemma UndelimitedSplit(a: string)
    requires DelimiterFree(a)
    ensures Split(a, ',') == [a]
  {
    assert ',' !in a by {
      forall i | 0 <= i < |a| ensures a[i] != ',' { assert !Delimiting(a[i]); }
    }
    SplitAbsent(a, ',');
  }

  /**
    A line holding nothing but a formatted date yields exactly that date's
    key: it has no comment marker, no blank to strip and no delimiter.
  */
  lemma SingleDateLine(d: Date, sep: string)
    requires ValidDate(d) && 1900 < d.year < 10000
    requires IsDateSeparator(sep)
    ensures LineKeys(FormatDate(d, sep)) == {DateKey(d)}
  {
    var s := FormatDate(d, sep);
    assert LineTokens(s) == [s] by {
      FormattedKept(d, sep);
      SingleToken(s);
    }
    SingleKeys(s);
    FormattedTokenKey(d, sep);
  }

  lemma SingleKeys(a: string)
    ensures TokenKeys([a]) == TokenKey(a)
  {
    assert [a][..0] == [];
  }

  /** A date followed by a `#` comment yields that date's key alone. */
  lemma DateWithHashComment(d: Date, sep: string, rest: string)
    requires ValidDate(d) && 1900 < d.year < 10000
    requires IsDateSeparator(sep)
    ensures LineKeys(FormatDate(d, sep) + " # " + rest) == {DateKey(d)}
  {
    var s := FormatDate(d, sep);
    FormattedKept(d, sep);
    HashComment(s, rest);
    KeptContent(s);
    SameContentSameKeys(s + " # " + rest, s);
    SingleDateLine(d, sep);
  }

  /** A date followed by a `//` comment yields that date's key alone. */
  lemma DateWithSlashComment(d: Date, sep: string, rest: string)
    requires ValidDate(d) && 1900 < d.year < 10000
    requires IsDateSeparator(sep)
    ensures LineKeys(FormatDate(d, sep) + " // " + rest) == {DateKey(d)}
  {
    var s := FormatDate(d, sep);
    FormattedKept(d, sep);
    SlashComment(s, rest);
    KeptContent(s);
    SameContentSameKeys(s + " // " + rest, s);
    SingleDateLine(d, sep);
  }

  /** Two dates joined by a comma, semicolon or tab yield both keys. */
  lemma TwoDateLine(d1: Date, sep1: string, d2: Date, sep2: string, c: char)
    requires ValidDate(d1) && 1900 < d1.year < 10000 && IsDateSeparator(sep1)
    requires ValidDate(d2) && 1900 < d2.year < 10000 && IsDateSeparator(sep2)
    requires c == ',' || c == ';' || c == '\t'
    ensures LineKeys(FormatDate(d1, sep1) + [c] + FormatDate(d2, sep2)) == {DateKey(d1), DateKey(d2)}
  {
    var a, b := FormatDate(d1, sep1), FormatDate(d2, sep2);
    assert LineTokens(a + [c] + b) == [a, b] by {
      FormattedKept(d1, sep1);
      FormattedKept(d2, sep2);
      DelimitedPair(a, b, c);
    }
    PairKeys(a, b);
    FormattedTokenKey(d1, sep1);
    FormattedTokenKey(d2, sep2);
  }

  lemma FormattedTokenKey(d: Date, sep: string)
    requires ValidDate(d) && 1900 < d.year < 10000 && IsDateSeparator(sep)
    ensures TokenKey(FormatDate(d, sep)) == {DateKey(d)}
  {
    ParseFormattedDate(d, sep);
  }

  lemma PairKeys(a: string, b: string)
    ensures TokenKeys([a, b]) == TokenKey(a) + TokenKey(b)
  {
    var ts := [a, b];
    assert TokenKeys(ts[..1]) == TokenKey(a) by {
      assert ts[..1] == [a] && [a][..0] == [];
    }
    assert TokenKeys(ts) == TokenKeys(ts[..1]) + TokenKey(b);
  }
}
