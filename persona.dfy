/**
  The persona parser of the dataset card: the first bracketed segment of a
  dataset's `input` text, matched as the regular expression `/\[(.*?)\]/`
  matches it, is split on commas into fragments, each fragment is split at
  its first colon into a key and a value, both are trimmed, and pairs with
  an empty key or value are dropped.
 */
module Persona {
  import opened Wrappers
  import opened Text

  datatype Pair = Pair(key: string, value: string)

  // ---------------------------------------------------------------- the regular expression

  /**
    `s[j]` is a `]` reached from position `k` by the lazy `.*?`: no `]` and
    no line terminator (which `.` does not match) lies in `s[k..j]`.
   */
  predicate ClosesAt(s: string, k: nat, j: nat) {
    k <= j < |s| && s[j] == ']' &&
    forall m :: k <= m < j ==> s[m] != ']' && !IsLineTerminator(s[m])
  }

  /** `/\[(.*?)\]/` matches `s[i..j + 1]` when it tries its match at position `i`. */
  predicate SegmentAt(s: string, i: nat, j: nat) {
    i < |s| && s[i] == '[' && ClosesAt(s, i + 1, j)
  }

  /** From a given opening position the lazy match has at most one end. */
  lemma SegmentEndUnique(s: string, i: nat, j: nat, j': nat)
    requires SegmentAt(s, i, j) && SegmentAt(s, i, j')
    ensures j == j'
  {
  }

  /** The lazy scan for the closing bracket from position `k`. */
  function CloseFrom(s: string, k: nat): (r: Option<nat>)
    ensures r.Some? ==> ClosesAt(s, k, r.value)
    ensures r.None? ==> forall j: nat :: !ClosesAt(s, k, j)
    decreases |s| - k
  {
    if k >= |s| then None
    else if s[k] == ']' then Some(k)
    else if IsLineTerminator(s[k]) then None
    else
      var r := CloseFrom(s, k + 1);
      assert forall j: nat :: ClosesAt(s, k, j) ==> ClosesAt(s, k + 1, j) by {
        forall j: nat | ClosesAt(s, k, j) ensures ClosesAt(s, k + 1, j) {
          assert k < j;
        }
      }
      r
  }

  /** The leftmost match at a position `>= k`, as a backtracking engine finds it. */
  function FindFrom(s: string, k: nat): (r: Option<(nat, nat)>)
    ensures r.Some? ==> k <= r.value.0 && SegmentAt(s, r.value.0, r.value.1)
    ensures r.Some? ==> forall i: nat, j: nat :: k <= i < r.value.0 ==> !SegmentAt(s, i, j)
    ensures r.None? ==> forall i: nat, j: nat :: k <= i ==> !SegmentAt(s, i, j)
    decreases |s| - k
  {
    if k >= |s| then None
    else if s[k] == '[' && CloseFrom(s, k + 1).Some? then Some((k, CloseFrom(s, k + 1).value))
    else FindFrom(s, k + 1)
  }

  /**
    `input.match(/\[(.*?)\]/)`: the positions of the opening and closing
    bracket of the leftmost match, or None when there is no match.
   */
  function FirstSegment(s: string): (r: Option<(nat, nat)>)
    ensures r.None? <==> forall i: nat, j: nat :: !SegmentAt(s, i, j)
    ensures r.Some? ==> SegmentAt(s, r.value.0, r.value.1)
                        && forall i: nat, j: nat :: i < r.value.0 ==> !SegmentAt(s, i, j)
  {
    FindFrom(s, 0)
  }

  /** The leftmost match is the only pair of positions with the two properties above. */
  lemma FirstSegmentUnique(s: string, i: nat, j: nat)
    requires SegmentAt(s, i, j)
    requires forall i': nat, j': nat :: i' < i ==> !SegmentAt(s, i', j')
    ensures FirstSegment(s) == Some((i, j))
  {
    var r := FirstSegment(s);
    SegmentEndUnique(s, i, j, r.value.1);
  }

  // ---------------------------------------------------------------- splitting the segment

  /**
    `const [key, ...valueParts] = fragment.split(':')` with both sides
    trimmed: `key?.trim() || ''` and `valueParts.join(':').trim()`.
   */
  function ToPair(fragment: string): (p: Pair)
    ensures ':' !in p.key
    ensures Trimmed(p.key) && Trimmed(p.value)
  {
    var parts := Split(fragment, ':');
    TrimChars(parts[0]);
    Pair(Trim(parts[0]), Trim(Join(parts[1..], ':')))
  }

  /** Key and value of a fragment's pair are made of the fragment's characters. */
  lemma ToPairChars(fragment: string)
    ensures forall c :: c in ToPair(fragment).key ==> c in fragment
    ensures forall c :: c in ToPair(fragment).value ==> c in fragment
  {
    var parts := Split(fragment, ':');
    var key := parts[0];
    var value := Join(parts[1..], ':');
    SplitChars(fragment, ':');
    JoinChars(parts[1..], ':');
    SplitHeadAndRest(fragment, ':');
    TrimChars(key);
    TrimChars(value);
    forall c | c in value ensures c in fragment {
      if c != ':' {
        var k :| 0 <= k < |parts[1..]| && c in parts[1..][k];
        assert c in parts[k + 1];
      }
    }
  }

  /** Every character of a trimmed string comes from the string. */
  lemma TrimChars(s: string)
    ensures forall c :: c in Trim(s) ==> c in s
  {
    var a := LeadingWhitespace(s);
    SliceChars(s, a, a + |Trim(s)|);
  }

  /** `.map(pair => ...)` over the fragments. */
  function ToPairs(fragments: seq<string>): (ps: seq<Pair>)
    ensures |ps| == |fragments|
    ensures forall k :: 0 <= k < |fragments| ==> ps[k] == ToPair(fragments[k])
  {
    if fragments == [] then [] else [ToPair(fragments[0])] + ToPairs(fragments[1..])
  }

  /** The filter drops no pair whose key and value are both non-empty. */
  lemma {:induction false} KeepCompleteKeepsAll(ps: seq<Pair>)
    ensures forall k :: 0 <= k < |ps| && ps[k].key != [] && ps[k].value != [] ==> ps[k] in KeepComplete(ps)
  {
    if ps != [] {
      KeepCompleteKeepsAll(ps[1..]);
      assert forall k :: 1 <= k < |ps| ==> ps[k] == ps[1..][k - 1];
    }
  }

  /** `.filter(p => p.key && p.value)`: keeps, in order, the pairs with a non-empty key and value. */
  function KeepComplete(ps: seq<Pair>): (r: seq<Pair>)
    ensures |r| <= |ps|
    ensures forall k :: 0 <= k < |r| ==> r[k] in ps && r[k].key != [] && r[k].value != []
  {
    if ps == [] then []
    else
      var rest := KeepComplete(ps[1..]);
      assert forall k :: 0 <= k < |rest| ==> rest[k] in ps;
      if ps[0].key != [] && ps[0].value != [] then [ps[0]] + rest else rest
  }

  /** The pairs of a segment's content: split on `,`, map to pairs, filter. */
  function PairsOf(content: string): (r: seq<Pair>)
    ensures forall k :: 0 <= k < |r| ==> r[k] in ToPairs(Split(content, ',')) && r[k].key != [] && r[k].value != []
  {
    KeepComplete(ToPairs(Split(content, ',')))
  }

  /**
    What the display relies on: a non-empty key and value, both trimmed, the
    key free of `:`, `,` and `]`, the value free of `,` and `]`, and neither
    holding a line terminator.
   */
  predicate WellFormed(p: Pair) {
    && p.key != [] && p.value != []
    && Trimmed(p.key) && Trimmed(p.value)
    && ':' !in p.key && ',' !in p.key && ']' !in p.key
    && ',' !in p.value && ']' !in p.value
    && (forall c :: c in p.key ==> !IsLineTerminator(c))
    && (forall c :: c in p.value ==> !IsLineTerminator(c))
  }

  /** Every pair of a segment without `]` and line terminators is well formed. */
  lemma PairsOfWellFormed(content: string)
    requires ']' !in content
    requires forall c :: c in content ==> !IsLineTerminator(c)
    ensures forall k :: 0 <= k < |PairsOf(content)| ==> WellFormed(PairsOf(content)[k])
  {
    var fragments := Split(content, ',');
    SplitChars(content, ',');
    var ps := ToPairs(fragments);
    var r := KeepComplete(ps);
    assert PairsOf(content) == r;
    forall k | 0 <= k < |r|
      ensures WellFormed(r[k])
    {
      assert r[k] in ps && r[k].key != [] && r[k].value != [];
      var f :| 0 <= f < |ps| && ps[f] == r[k];
      ToPairChars(fragments[f]);
    }
  }

  /**
    `parsePersona(input)`: no pairs without a match, and otherwise the pairs
    of the first segment's content, every one of them well formed.
   */
  function ParsePersona(input: string): (r: seq<Pair>)
    ensures FirstSegment(input).None? ==> r == []
    ensures FirstSegment(input).Some? ==>
      var (i, j) := FirstSegment(input).value; r == PairsOf(input[i + 1..j])
    ensures forall k :: 0 <= k < |r| ==> WellFormed(r[k])
  {
    match FirstSegment(input)
    case None => []
    case Some((i, j)) =>
      SegmentContent(input, i, j);
      PairsOfWellFormed(input[i + 1..j]);
      PairsOf(input[i + 1..j])
  }

  /** The text between the brackets of a match holds no `]` and no line terminator. */
  lemma SegmentContent(s: string, i: nat, j: nat)
    requires SegmentAt(s, i, j)
    ensures ']' !in s[i + 1..j]
    ensures forall c :: c in s[i + 1..j] ==> !IsLineTerminator(c)
  {
    forall c | c in s[i + 1..j]
      ensures c != ']' && !IsLineTerminator(c)
    {
      var m :| 0 <= m < j - (i + 1) && s[i + 1..j][m] == c;
      assert s[i + 1 + m] == c;
    }
  }

  // ---------------------------------------------------------------- properties

  /** Text after the closing bracket of the first segment never contributes a pair. */
  lemma OnlyFirstSegment(s: string, t: string)
    requires FirstSegment(s).Some?
    ensures var (i, j) := FirstSegment(s).value;
      && ParsePersona(s) == PairsOf(s[i + 1..j])
      && ParsePersona(s[..j + 1] + t) == ParsePersona(s)
  {
    var (i, j) := FirstSegment(s).value;
    var s' := s[..j + 1] + t;
    KeptSegment(s, t, i, j);
    NoEarlierSegment(s, t, i, j, s');
    FirstSegmentUnique(s', i, j);
    PrefixSlice(s, t, i + 1, j, j + 1, s');
    assert ParsePersona(s') == PairsOf(s'[i + 1..j]);
  }

  /** The elements of a prefix are kept when text is appended to it. */
  lemma PrefixElements<T>(s: seq<T>, t: seq<T>, n: nat, u: seq<T>)
    requires n <= |s| && u == s[..n] + t
    ensures n <= |u|
    ensures forall k :: 0 <= k < n ==> u[k] == s[k]
  {
  }

  /** A match of `s` ending at `j` is still a match once text follows the `]`. */
  lemma KeptSegment(s: string, t: string, i: nat, j: nat)
    requires SegmentAt(s, i, j)
    ensures SegmentAt(s[..j + 1] + t, i, j)
  {
    PrefixElements(s, t, j + 1, s[..j + 1] + t);
  }

  /** No match of `s` starts before `i`, and none appears there once text follows the `]` at `j`. */
  lemma NoEarlierSegment(s: string, t: string, i: nat, j: nat, s': string)
    requires SegmentAt(s, i, j) && s' == s[..j + 1] + t
    requires forall i': nat, j': nat :: i' < i ==> !SegmentAt(s, i', j')
    ensures forall i': nat, j': nat :: i' < i ==> !SegmentAt(s', i', j')
  {
    PrefixElements(s, t, j + 1, s');
    forall i': nat, j': nat | i' < i
      ensures !SegmentAt(s', i', j')
    {
      if SegmentAt(s', i', j') && j' <= j {
        assert SegmentAt(s, i', j');
      }
    }
  }

  /** Appending to a prefix leaves the slices inside that prefix alone. */
  lemma PrefixSlice<T>(s: seq<T>, t: seq<T>, lo: nat, hi: nat, n: nat, u: seq<T>)
    requires lo <= hi <= n <= |s| && u == s[..n] + t
    ensures u[lo..hi] == s[lo..hi]
  {
    assert forall k :: lo <= k < hi ==> u[lo..hi][k - lo] == s[k];
  }

  /** A fragment without a colon yields its trimmed text as key and an empty value (so it is dropped). */
  lemma FragmentWithoutColon(fragment: string)
    requires ':' !in fragment
    ensures ToPair(fragment) == Pair(Trim(fragment), [])
  {
    SplitWithout(fragment, ':');
  }

  /**
    A fragment is cut at its FIRST colon only: the key is what comes before
    it and the value keeps every later colon.
   */
  lemma FragmentAtFirstColon(a: string, b: string)
    requires ':' !in a
    ensures ToPair(a + [':'] + b) == Pair(Trim(a), Trim(b))
  {
    SplitAtFirst(a, b, ':');
    var parts := Split(a + [':'] + b, ':');
    assert parts[1..] == Split(b, ':');
    JoinSplit(b, ':');
  }

  /** Splitting at an occurrence of the separator splits the pieces list in two. */
  lemma {:induction false} SplitConcat(a: string, b: string, sep: char)
    ensures Split(a + [sep] + b, sep) == Split(a, sep) + Split(b, sep)
    decreases |a|
  {
    var s := a + [sep] + b;
    if a == [] {
      assert s[0] == sep && s[1..] == b;
    } else {
      assert s[0] == a[0] && s[1..] == a[1..] + [sep] + b;
      SplitConcat(a[1..], b, sep);
      var ra, rb := Split(a[1..], sep), Split(b, sep);
      assert Split(s, sep) == if a[0] == sep then [[]] + (ra + rb) else [[a[0]] + (ra + rb)[0]] + (ra + rb)[1..];
      assert Split(a, sep) == if a[0] == sep then [[]] + ra else [[a[0]] + ra[0]] + ra[1..];
      ConsPieces([], ra, rb);
      ConsPieces([a[0]], ra, rb);
    }
  }

  /** Both ways `Split` extends its first piece or adds an empty one commute with appending further pieces. */
  lemma ConsPieces<T>(x: seq<T>, ra: seq<seq<T>>, rb: seq<seq<T>>)
    requires |ra| >= 1
    ensures [x + (ra + rb)[0]] + (ra + rb)[1..] == ([x + ra[0]] + ra[1..]) + rb
    ensures [x] + (ra + rb) == ([x] + ra) + rb
  {
    assert (ra + rb)[0] == ra[0];
    assert (ra + rb)[1..] == ra[1..] + rb;
  }

  lemma {:induction false} ToPairsConcat(a: seq<string>, b: seq<string>)
    ensures ToPairs(a + b) == ToPairs(a) + ToPairs(b)
  {
  }

  lemma {:induction false} KeepCompleteConcat(a: seq<Pair>, b: seq<Pair>)
    ensures KeepComplete(a + b) == KeepComplete(a) + KeepComplete(b)
    decreases |a|
  {
    if a == [] {
      assert a + b == b;
    } else {
      var ab := a + b;
      assert ab[0] == a[0];
      assert ab[1..] == a[1..] + b;
      KeepCompleteConcat(a[1..], b);
      var x, y := KeepComplete(a[1..]), KeepComplete(b);
      if a[0].key != [] && a[0].value != [] {
        calc {
          KeepComplete(ab);
          [a[0]] + KeepComplete(ab[1..]);
          [a[0]] + (x + y);
          ([a[0]] + x) + y;
        }
      } else {
        calc {
          KeepComplete(ab);
          KeepComplete(ab[1..]);
          x + y;
        }
      }
    }
  }

  /**
    Pairs come out in fragment order: the pairs of `a,b` are those of `a`
    followed by those of `b`.
   */
  lemma PairsInFragmentOrder(a: string, b: string)
    ensures PairsOf(a + [','] + b) == PairsOf(a) + PairsOf(b)
  {
    SplitConcat(a, b, ',');
    ToPairsConcat(Split(a, ','), Split(b, ','));
    KeepCompleteConcat(ToPairs(Split(a, ',')), ToPairs(Split(b, ',')));
  }

  /** A segment yields at most one pair more than it has commas. */
  lemma PairsBound(content: string)
    ensures |PairsOf(content)| <= Count(content, ',') + 1
  {
    SplitLength(content, ',');
  }

  /** A text that opens with a bracketed segment is parsed from that segment alone. */
  lemma LeadingSegment(content: string, rest: string)
    requires ']' !in content
    requires forall c :: c in content ==> !IsLineTerminator(c)
    ensures ParsePersona(['['] + content + [']'] + rest) == PairsOf(content)
  {
    var s := ['['] + content + [']'] + rest;
    var j := |content| + 1;
    assert forall m :: 1 <= m < j ==> s[m] == content[m - 1];
    assert SegmentAt(s, 0, j);
    FirstSegmentUnique(s, 0, j);
    assert s[1..j] == content;
  }

  /** The text the persona line is written in: `[k1: v1, k2: v2, ...]`. */
  function Format(ps: seq<Pair>): string {
    ['['] + FormatPairs(ps) + [']']
  }

  function Fragment(p: Pair): string {
    p.key + [':', ' '] + p.value
  }

  function FormatPairs(ps: seq<Pair>): string {
    if ps == [] then []
    else if |ps| == 1 then Fragment(ps[0])
    else Fragment(ps[0]) + [',', ' '] + FormatPairs(ps[1..])
  }

  /** One space in front of a trimmed string is trimmed away again. */
  lemma TrimAfterSpace(x: string)
    requires Trimmed(x)
    ensures Trim([' '] + x) == x
  {
    var s := [' '] + x;
    assert s[1..] == x;
    assert LeadingWhitespace(s) == 1 + LeadingWhitespace(x);
    if x != [] {
      assert LeadingWhitespace(x) == 0;
      assert ContentEnd(s, 1, |s|) == |s|;
    }
  }

  /** A formatted pair, optionally after a space, is read back as that pair. */
  lemma FragmentToPair(pad: string, p: Pair)
    requires pad == [] || pad == [' ']
    requires WellFormed(p)
    ensures ToPair(pad + Fragment(p)) == p
  {
    var a, b := pad + p.key, [' '] + p.value;
    assert pad + Fragment(p) == a + [':'] + b by {
      assert Fragment(p) == p.key + [':'] + b;
    }
    assert Trim(a) == p.key by {
      if pad != [] {
        TrimAfterSpace(p.key);
      } else {
        assert a == p.key;
      }
    }
    assert Trim(b) == p.value by {
      TrimAfterSpace(p.value);
    }
    FragmentAtFirstColon(a, b);
  }

  /** A segment without commas is a single fragment. */
  lemma SingleFragment(f: string)
    requires ',' !in f
    ensures PairsOf(f) == KeepComplete([ToPair(f)])
  {
    SplitWithout(f, ',');
    assert [f][1..] == [];
  }

  /** A formatted pair, optionally after a space, parses back to itself. */
  lemma FragmentRoundTrip(pad: string, p: Pair)
    requires pad == [] || pad == [' ']
    requires WellFormed(p)
    ensures PairsOf(pad + Fragment(p)) == [p]
  {
    var f := pad + Fragment(p);
    assert ',' !in f by {
      assert f == pad + p.key + [':', ' '] + p.value;
    }
    SingleFragment(f);
    FragmentToPair(pad, p);
    assert [p][1..] == [];
  }

  /** A bare pad holds no pair: its only fragment has no colon, so no value. */
  lemma PadHasNoPairs(pad: string)
    requires pad == [] || pad == [' ']
    ensures PairsOf(pad) == []
  {
    SingleFragment(pad);
    FragmentWithoutColon(pad);
  }

  /** The text of two or more pairs is the first fragment, a comma, and the rest after a space. */
  lemma FormatPairsCons(pad: string, ps: seq<Pair>)
    requires |ps| > 1
    ensures pad + FormatPairs(ps) == (pad + Fragment(ps[0])) + [','] + ([' '] + FormatPairs(ps[1..]))
  {
    var f, r := Fragment(ps[0]), FormatPairs(ps[1..]);
    assert FormatPairs(ps) == f + [',', ' '] + r;
    Regroup(pad, f, ',', ' ', r);
  }

  /** Moving the brackets of a concatenation around a two-element separator. */
  lemma Regroup<T>(pad: seq<T>, f: seq<T>, x: T, y: T, r: seq<T>)
    ensures pad + (f + [x, y] + r) == (pad + f) + [x] + ([y] + r)
  {
    assert [x, y] == [x] + [y];
  }

  lemma {:induction false} FormatPairsRoundTrip(pad: string, ps: seq<Pair>)
    requires pad == [] || pad == [' ']
    requires forall k :: 0 <= k < |ps| ==> WellFormed(ps[k])
    ensures PairsOf(pad + FormatPairs(ps)) == ps
    decreases |ps|
  {
    if ps == [] {
      assert pad + FormatPairs(ps) == pad;
      PadHasNoPairs(pad);
    } else if |ps| == 1 {
      FragmentRoundTrip(pad, ps[0]);
    } else {
      var head, tail := pad + Fragment(ps[0]), [' '] + FormatPairs(ps[1..]);
      FormatPairsCons(pad, ps);
      PairsInFragmentOrder(head, tail);
      FragmentRoundTrip(pad, ps[0]);
      FormatPairsRoundTrip([' '], ps[1..]);
      assert [ps[0]] + ps[1..] == ps;
    }
  }

  /** Writing well-formed pairs in the persona format and parsing them gives them back. */
  lemma FormatRoundTrip(ps: seq<Pair>)
    requires forall k :: 0 <= k < |ps| ==> WellFormed(ps[k])
    ensures ParsePersona(Format(ps)) == ps
  {
    var content := FormatPairs(ps);
    FormatPairsChars(ps);
    LeadingSegment(content, []);
    assert Format(ps) == ['['] + content + [']'] + [];
    FormatPairsRoundTrip([], ps);
    assert [] + content == content;
  }

  /** The example the parser's comment gives: `[Age: 29, Income: ₹15 LPA]`. */
  lemma DocCommentExample()
    ensures ParsePersona("[Age: 29, Income: ₹15 LPA]") == [Pair("Age", "29"), Pair("Income", "₹15 LPA")]
  {
    AgeWellFormed();
    IncomeWellFormed();
    ExampleText();
    FormatRoundTrip([Pair("Age", "29"), Pair("Income", "₹15 LPA")]);
  }

  lemma ExampleText()
    ensures Format([Pair("Age", "29"), Pair("Income", "₹15 LPA")]) == "[Age: 29, Income: ₹15 LPA]"
  {
    var age, income := Pair("Age", "29"), Pair("Income", "₹15 LPA");
    var ps := [age, income];
    assert FormatPairs(ps) == Fragment(age) + [',', ' '] + Fragment(income) by {
      assert ps[1..] == [income];
    }
  }

  lemma AgeWellFormed()
    ensures WellFormed(Pair("Age", "29"))
  {
    assert forall c :: c in "Age" ==> c == 'A' || c == 'g' || c == 'e';
    assert forall c :: c in "29" ==> c == '2' || c == '9';
  }

  lemma IncomeWellFormed()
    ensures WellFormed(Pair("Income", "₹15 LPA"))
  {
    IncomeKey();
    IncomeValueTrimmed();
    IncomeValueChars();
  }

  lemma IncomeKey()
    ensures "Income" != [] && Trimmed("Income")
    ensures ':' !in "Income" && ',' !in "Income" && ']' !in "Income"
    ensures forall c :: c in "Income" ==> !IsLineTerminator(c)
  {
    assert forall c :: c in "Income" ==> 'I' <= c <= 'o';
  }

  lemma IncomeValueTrimmed()
    ensures "₹15 LPA" != [] && Trimmed("₹15 LPA")
  {
    var v := "₹15 LPA";
    assert v[0] == '₹' && v[|v| - 1] == 'A';
  }

  lemma IncomeValueChars()
    ensures ',' !in "₹15 LPA" && ']' !in "₹15 LPA"
    ensures forall c :: c in "₹15 LPA" ==> !IsLineTerminator(c)
  {
    assert forall c :: c in "₹15 LPA" ==> c == ' ' || '1' <= c <= 'P' || c == '₹';
  }

  lemma {:induction false} FormatPairsChars(ps: seq<Pair>)
    requires forall k :: 0 <= k < |ps| ==> WellFormed(ps[k])
    ensures ']' !in FormatPairs(ps)
    ensures forall c :: c in FormatPairs(ps) ==> !IsLineTerminator(c)
    decreases |ps|
  {
    if |ps| > 1 {
      FormatPairsChars(ps[1..]);
    }
  }

  // ---------------------------------------------------------------- display

  datatype PersonaView = Pills(pairs: seq<Pair>) | RawText(text: string)

  /** The card shows the pairs as pills when there are any, and the raw `input` otherwise. */
  function View(input: string): (v: PersonaView)
    ensures v.Pills? ==> v.pairs == ParsePersona(input) && v.pairs != []
    ensures v.RawText? ==> v.text == input && ParsePersona(input) == []
    ensures FirstSegment(input).None? ==> v == RawText(input)
  {
    var pills := ParsePersona(input);
    if |pills| > 0 then Pills(pills) else RawText(input)
  }
}
