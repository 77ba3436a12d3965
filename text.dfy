/**
  The JavaScript string operations the application relies on: `trim`,
  `split` and `join` with a one-character separator, `slice(0, n)`, and the
  decimal rendering of a non-negative integer used in template strings. A
  `char` is a Unicode scalar value; only a `JsString`, made by `Utf16`,
  counts UTF-16 code units as JavaScript's `length` and `slice` do.
 */
module Text {

  /** The ECMAScript LineTerminator characters; `.` in a regular expression matches none of them. */
  predicate IsLineTerminator(c: char)
    ensures IsLineTerminator(c) ==> c as int < 0x1_0000
  {
    c == '\n' || c == '\r' || c == '\U{2028}' || c == '\U{2029}'
  }

  /** The characters `String.prototype.trim` strips: ECMAScript WhiteSpace and LineTerminator. */
  predicate IsJsWhitespace(c: char)
    ensures IsJsWhitespace(c) ==> c as int < 0x1_0000
  {
    || IsLineTerminator(c)
    || c == '\t' || c == '\U{000B}' || c == '\U{000C}' || c == ' '
    || c == '\U{00A0}' || c == '\U{FEFF}' || c == '\U{1680}'
    || ('\U{2000}' <= c <= '\U{200A}')
    || c == '\U{202F}' || c == '\U{205F}' || c == '\U{3000}'
  }

  // ---------------------------------------------------------------- trim

  /** Number of leading whitespace characters of `s`. */
  function LeadingWhitespace(s: string): (n: nat)
    ensures n <= |s|
    ensures forall k :: 0 <= k < n ==> IsJsWhitespace(s[k])
    ensures n < |s| ==> !IsJsWhitespace(s[n])
  {
    if |s| > 0 && IsJsWhitespace(s[0]) then 1 + LeadingWhitespace(s[1..]) else 0
  }

  /** Where the content of `s[lo..e]` ends once its trailing whitespace is dropped. */
  function ContentEnd(s: string, lo: nat, e: nat): (r: nat)
    requires lo <= e <= |s|
    ensures lo <= r <= e
    ensures forall k :: r <= k < e ==> IsJsWhitespace(s[k])
    ensures r > lo ==> !IsJsWhitespace(s[r - 1])
    decreases e
  {
    if e > lo && IsJsWhitespace(s[e - 1]) then ContentEnd(s, lo, e - 1) else e
  }

  /** `s` neither starts nor ends with whitespace. */
  predicate Trimmed(s: string) {
    s != [] ==> !IsJsWhitespace(s[0]) && !IsJsWhitespace(s[|s| - 1])
  }

  /**
    `s.trim()`: the slice of `s` between its leading and its trailing
    whitespace; it neither starts nor ends with whitespace, and everything
    outside it is whitespace.
   */
  function Trim(s: string): (r: string)
    ensures Trimmed(r)
    ensures LeadingWhitespace(s) + |r| <= |s|
    ensures r == s[LeadingWhitespace(s)..LeadingWhitespace(s) + |r|]
    ensures forall k :: LeadingWhitespace(s) + |r| <= k < |s| ==> IsJsWhitespace(s[k])
  {
    var a := LeadingWhitespace(s);
    s[a..ContentEnd(s, a, |s|)]
  }

  /** Every character of a slice occurs in the whole string. */
  lemma SliceChars(s: string, a: nat, b: nat)
    requires a <= b <= |s|
    ensures forall c :: c in s[a..b] ==> c in s
  {
    forall c | c in s[a..b]
      ensures c in s
    {
      var i :| 0 <= i < b - a && s[a..b][i] == c;
      assert s[a + i] == c;
    }
  }

  /** Trimming is idempotent. */
  lemma TrimIdempotent(s: string)
    ensures Trim(Trim(s)) == Trim(s)
  {
    var r := Trim(s);
    TrimmedIsFixed(r);
  }

  /** A string that neither starts nor ends with whitespace is its own trim. */
  lemma TrimmedIsFixed(s: string)
    requires Trimmed(s)
    ensures Trim(s) == s
  {
    if s != [] {
      assert LeadingWhitespace(s) == 0;
      assert ContentEnd(s, 0, |s|) == |s|;
    }
  }

  // ---------------------------------------------------------------- split and join

  /** Number of occurrences of `c` in `s`. */
  function Count(s: string, c: char): (n: nat)
    ensures n <= |s|
    ensures n == 0 <==> c !in s
  {
    if s == [] then 0 else (if s[0] == c then 1 else 0) + Count(s[1..], c)
  }

  /**
    `s.split(sep)` for a one-character separator: at least one piece, and
    no piece contains the separator.
   */
  function Split(s: string, sep: char): (parts: seq<string>)
    ensures |parts| >= 1
    ensures forall k :: 0 <= k < |parts| ==> sep !in parts[k]
    decreases |s|
  {
    if s == [] then [[]]
    else
      var rest := Split(s[1..], sep);
      if s[0] == sep then [[]] + rest
      else
        var parts := [[s[0]] + rest[0]] + rest[1..];
        assert forall k :: 1 <= k < |parts| ==> parts[k] == rest[k];
        parts
  }

  /** A split has one more piece than the string has separators. */
  lemma {:induction false} SplitLength(s: string, sep: char)
    ensures |Split(s, sep)| == Count(s, sep) + 1
    decreases |s|
  {
    if s != [] {
      SplitLength(s[1..], sep);
    }
  }

  /** Every character of a piece of a split comes from the split string. */
  lemma {:induction false} SplitChars(s: string, sep: char)
    ensures forall k, c :: 0 <= k < |Split(s, sep)| && c in Split(s, sep)[k] ==> c in s
    decreases |s|
  {
    if s != [] {
      SplitChars(s[1..], sep);
      var rest := Split(s[1..], sep);
      var parts := Split(s, sep);
      assert forall c :: c in s[1..] ==> c in s by {
        SliceChars(s, 1, |s|);
        assert s[1..] == s[1..|s|];
      }
      forall k, c | 0 <= k < |parts| && c in parts[k]
        ensures c in s
      {
        if s[0] == sep {
          assert parts[k] == ([[]] + rest)[k];
          if k > 0 { assert parts[k] == rest[k - 1]; }
        } else if k == 0 {
          if c != s[0] { assert c in rest[0]; }
        } else {
          assert parts[k] == rest[k];
        }
      }
    }
  }

  /** `parts.join(sep)`; the empty list joins to the empty string. */
  function Join(parts: seq<string>, sep: char): (r: string)
    ensures |parts| > 0 ==> parts[0] <= r
  {
    if |parts| == 0 then []
    else if |parts| == 1 then parts[0]
    else parts[0] + [sep] + Join(parts[1..], sep)
  }

  /** `s.split(sep)[0]` is the text before the first separator: all of `s` when there is none. */
  lemma {:induction false} SplitFirstPiece(s: string, sep: char)
    ensures Split(s, sep)[0] <= s
    ensures Split(s, sep)[0] == s || s[|Split(s, sep)[0]|] == sep
    decreases |s|
  {
    if s != [] && s[0] != sep {
      SplitFirstPiece(s[1..], sep);
      assert Split(s, sep)[0] == [s[0]] + Split(s[1..], sep)[0];
    }
  }

  /** A join holds only the separator and characters of its pieces. */
  lemma {:induction false} JoinChars(parts: seq<string>, sep: char)
    ensures forall c :: c in Join(parts, sep) ==> c == sep || exists k :: 0 <= k < |parts| && c in parts[k]
    decreases |parts|
  {
    if |parts| > 1 {
      JoinChars(parts[1..], sep);
      forall c | c in Join(parts, sep) && c != sep && c !in parts[0]
        ensures exists k :: 0 <= k < |parts| && c in parts[k]
      {
        assert Join(parts, sep) == parts[0] + [sep] + Join(parts[1..], sep);
        assert c in Join(parts[1..], sep);
        var k :| 0 <= k < |parts[1..]| && c in parts[1..][k];
        assert c in parts[k + 1];
      }
    }
  }

  /** Joining the pieces of a split gives back the original string. */
  lemma {:induction false} JoinSplit(s: string, sep: char)
    ensures Join(Split(s, sep), sep) == s
    decreases |s|
  {
    if s != [] {
      var rest := Split(s[1..], sep);
      JoinSplit(s[1..], sep);
      if s[0] == sep {
        assert Split(s, sep)[1..] == rest;
      } else if |rest| == 1 {
        assert [s[0]] + rest[0] == s;
      } else {
        var parts := Split(s, sep);
        assert parts[1..] == rest[1..];
        assert Join(rest, sep) == rest[0] + [sep] + Join(rest[1..], sep);
        assert Join(parts, sep) == ([s[0]] + rest[0]) + [sep] + Join(rest[1..], sep);
        assert [s[0]] + s[1..] == s;
      }
    }
  }

  /** A string without the separator splits into itself alone. */
  lemma {:induction false} SplitWithout(a: string, sep: char)
    requires sep !in a
    ensures Split(a, sep) == [a]
    decreases |a|
  {
    if a != [] {
      SplitWithout(a[1..], sep);
      assert [a[0]] + a[1..] == a;
    }
  }

  /** The first separator ends the first piece: `(a + sep + b).split(sep) == [a] + b.split(sep)`. */
  lemma {:induction false} SplitAtFirst(a: string, b: string, sep: char)
    requires sep !in a
    ensures Split(a + [sep] + b, sep) == [a] + Split(b, sep)
    decreases |a|
  {
    var s := a + [sep] + b;
    if a == [] {
      assert s[1..] == b;
    } else {
      assert s[1..] == a[1..] + [sep] + b;
      SplitAtFirst(a[1..], b, sep);
      assert [a[0]] + a[1..] == a;
    }
  }

  /** Splitting a join of separator-free pieces gives the pieces back. */
  lemma {:induction false} SplitJoin(parts: seq<string>, sep: char)
    requires |parts| >= 1
    requires forall k :: 0 <= k < |parts| ==> sep !in parts[k]
    ensures Split(Join(parts, sep), sep) == parts
    decreases |parts|
  {
    if |parts| == 1 {
      SplitWithout(parts[0], sep);
    } else {
      SplitJoin(parts[1..], sep);
      SplitAtFirst(parts[0], Join(parts[1..], sep), sep);
      assert [parts[0]] + parts[1..] == parts;
    }
  }

  /**
    `const [key, ...rest] = s.split(sep)` followed by `rest.join(sep)`: the
    key is the text before the first separator and the rest is everything
    after it, further separators included.
   */
  lemma SplitHeadAndRest(s: string, sep: char)
    ensures Split(s, sep)[0] <= s
    ensures sep in s ==> s == Split(s, sep)[0] + [sep] + Join(Split(s, sep)[1..], sep)
    ensures sep !in s ==> Split(s, sep) == [s] && Join(Split(s, sep)[1..], sep) == []
  {
    var parts := Split(s, sep);
    JoinSplit(s, sep);
    if sep in s {
      SplitLength(s, sep);
      assert |parts| > 1;
    } else {
      SplitWithout(s, sep);
    }
  }

  // ---------------------------------------------------------------- slice

  /** `s.slice(0, n)`: the first `n` elements, or all of `s` when it is shorter. */
  function SliceTo<T>(s: seq<T>, n: nat): (r: seq<T>)
    ensures |r| == if |s| <= n then |s| else n
    ensures r == s[..|r|]
  {
    if |s| <= n then s else s[..n]
  }

  // ---------------------------------------------------------------- UTF-16

  /**
    A JavaScript string is a sequence of UTF-16 code units, and its `length`
    and `slice` count code units. A Dafny `char` is a Unicode scalar value,
    so a character outside the Basic Multilingual Plane (an emoji, say) is
    one `char` but two code units.
   */
  type CodeUnit = x: int | 0 <= x < 0x1_0000
  type JsString = seq<CodeUnit>

  /** The code units of one character: itself, or a high and a low surrogate. */
  function CodeUnitsOf(c: char): (u: JsString)
    ensures |u| == (if c as int < 0x1_0000 then 1 else 2)
    ensures c as int < 0x1_0000 ==> u[0] == c as int
    ensures c as int >= 0x1_0000 ==> 0xD800 <= u[0] < 0xDC00 <= u[1] < 0xE000
  {
    if c as int < 0x1_0000 then [c as int]
    else
      var v := c as int - 0x1_0000;
      [0xD800 + v / 0x400, 0xDC00 + v % 0x400]
  }

  /** The JavaScript string holding the text `s`. */
  function Utf16(s: string): (u: JsString)
    ensures |s| <= |u| <= 2 * |s|
  {
    if s == [] then [] else CodeUnitsOf(s[0]) + Utf16(s[1..])
  }

  /** Encoding a concatenation encodes its parts one after the other. */
  lemma {:induction false} Utf16Concat(a: string, b: string)
    ensures Utf16(a + b) == Utf16(a) + Utf16(b)
    decreases |a|
  {
    if a != [] {
      assert (a + b)[0] == a[0] && (a + b)[1..] == a[1..] + b;
      Utf16Concat(a[1..], b);
    } else {
      assert a + b == b;
    }
  }

  /** Text within the Basic Multilingual Plane is one code unit per character. */
  lemma {:induction false} Utf16OfBmp(s: string)
    requires forall k :: 0 <= k < |s| ==> s[k] as int < 0x1_0000
    ensures |Utf16(s)| == |s|
    ensures forall k :: 0 <= k < |s| ==> Utf16(s)[k] == s[k] as int
    decreases |s|
  {
    if s != [] {
      Utf16OfBmp(s[1..]);
      assert forall k :: 1 <= k < |s| ==> Utf16(s)[k] == Utf16(s[1..])[k - 1] && s[k] == s[1..][k - 1];
    }
  }

  /** For text within the Basic Multilingual Plane, the first `n` code units encode the first `n` characters. */
  lemma Utf16PrefixOfBmp(s: string, n: nat)
    requires n <= |s|
    requires forall k :: 0 <= k < |s| ==> s[k] as int < 0x1_0000
    ensures Utf16(s)[..n] == Utf16(s[..n])
  {
    var head, tail := s[..n], s[n..];
    assert s == head + tail;
    Utf16Concat(head, tail);
    Utf16OfBmp(head);
  }

  /** The code units of `'...'`. */
  lemma Utf16OfDots()
    ensures Utf16("...") == [46, 46, 46]
  {
    assert "..."[1..] == ".." && ".."[1..] == "." && "."[1..] == [];
  }

  /** Text made only of characters outside the Basic Multilingual Plane is two code units per character. */
  lemma {:induction false} Utf16OfAstral(s: string)
    requires forall k :: 0 <= k < |s| ==> s[k] as int >= 0x1_0000
    ensures |Utf16(s)| == 2 * |s|
    decreases |s|
  {
    if s != [] {
      assert forall k :: 0 <= k < |s[1..]| ==> s[1..][k] == s[k + 1];
      Utf16OfAstral(s[1..]);
    }
  }

  /** `c.repeat(n)`. */
  function Repeat(c: char, n: nat): (r: string)
    ensures |r| == n && forall k :: 0 <= k < n ==> r[k] == c
  {
    if n == 0 then [] else [c] + Repeat(c, n - 1)
  }

  // ---------------------------------------------------------------- decimal numbers

  function DigitChar(d: nat): (c: char)
    requires d < 10
    ensures '0' <= c <= '9'
  {
    ('0' as int + d) as char
  }

  predicate IsDigits(s: string) {
    forall k :: 0 <= k < |s| ==> '0' <= s[k] <= '9'
  }

  /** `${n}` for a non-negative integer: decimal digits without leading zeros. */
  function NatToString(n: nat): (r: string)
    ensures |r| >= 1 && IsDigits(r)
    ensures |r| > 1 ==> r[0] != '0'
  {
    if n < 10 then [DigitChar(n)] else NatToString(n / 10) + [DigitChar(n % 10)]
  }

  /** The value of a string of decimal digits. */
  function DigitsValue(s: string): nat
    requires IsDigits(s)
  {
    if s == [] then 0 else 10 * DigitsValue(s[..|s| - 1]) + (s[|s| - 1] as int - '0' as int)
  }

  /** The decimal rendering reads back as the same number. */
  lemma {:induction false} NatToStringValue(n: nat)
    ensures DigitsValue(NatToString(n)) == n
  {
    var r := NatToString(n);
    if n >= 10 {
      NatToStringValue(n / 10);
      assert r[..|r| - 1] == NatToString(n / 10);
    }
  }

  /** Different numbers render differently. */
  lemma NatToStringInjective(m: nat, n: nat)
    requires NatToString(m) == NatToString(n)
    ensures m == n
  {
    NatToStringValue(m);
    NatToStringValue(n);
  }
}
