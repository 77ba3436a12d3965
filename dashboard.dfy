/**
  The figures of the home page: the scale of the per-teammate bars, the
  "Avg per Member" card, the five most recent uploads and the shortened
  instruction shown on each of their cards. The database queries become
  parameters: the list of per-teammate counts, the dataset total and the
  list of all datasets.
 */
module Dashboard {
  import opened Schema
  import opened Text

  // ---------------------------------------------------------------- bar scale

  /**
    `Math.max(...counts, 1)`: the largest count, but never below 1, so the
    bar widths never divide by zero. It is at least every count, and it is
    one of the counts unless it is the floor value 1.
   */
  function MaxCount(counts: seq<nat>): (m: nat)
    ensures m >= 1
    ensures forall k :: 0 <= k < |counts| ==> counts[k] <= m
    ensures m == 1 || m in counts
  {
    if counts == [] then 1
    else
      var rest := MaxCount(counts[1..]);
      assert forall k :: 1 <= k < |counts| ==> counts[k] == counts[1..][k - 1];
      if counts[0] >= rest then counts[0] else rest
  }

  /** When some teammate has uploaded anything, the scale is exactly the largest count. */
  lemma MaxCountIsLargest(counts: seq<nat>, k: nat)
    requires k < |counts| && counts[k] >= 1
    ensures MaxCount(counts) in counts
    ensures forall j :: 0 <= j < |counts| ==> counts[j] <= MaxCount(counts)
  {
    if MaxCount(counts) == 1 {
      assert counts[k] == 1;
    }
  }

  /** With no teammates, or only teammates without uploads, the scale is 1. */
  lemma MaxCountOfNothing(counts: seq<nat>)
    requires forall k :: 0 <= k < |counts| ==> counts[k] == 0
    ensures MaxCount(counts) == 1
  {
  }

  // ---------------------------------------------------------------- average

  /** A number on the card; dividing a positive total by zero members shows `Infinity`. */
  datatype Figure = Number(n: nat) | Infinite

  /**
    `totalDatasets > 0 ? Math.round(totalDatasets / teammates.length) : 0`,
    in exact arithmetic: `Math.round` of a non-negative quotient rounds
    halves up, which is `floor(total / members + 1/2)`.
   */
  function AveragePerMember(total: nat, members: nat): (r: Figure)
    ensures total == 0 ==> r == Number(0)
    ensures total > 0 && members == 0 ==> r == Infinite
    ensures total > 0 && members > 0 ==>
      r.Number? && 2 * r.n * members <= 2 * total + members < 2 * (r.n + 1) * members
  {
    if total > 0 then
      if members == 0 then Infinite else Number((2 * total + members) / (2 * members))
    else Number(0)
  }

  /** The average of an even spread is the share of each member. */
  lemma AverageOfEvenSpread(share: nat, members: nat)
    requires share > 0 && members > 0
    ensures AveragePerMember(share * members, members) == Number(share)
  {
    var b := 2 * members;
    assert 2 * (share * members) + members == share * b + members;
    DivisionOf(share, b, members);
  }

  /** Euclidean division has a unique quotient. */
  lemma DivisionOf(q: nat, b: nat, r: nat)
    requires 0 <= r < b
    ensures (q * b + r) / b == q
  {
    var x := q * b + r;
    var d := x / b;
    assert (q - d) * b == x % b - r;
    if q > d {
      AtLeastOnce(q - d, b);
    } else if q < d {
      AtLeastOnce(d - q, b);
    }
  }

  lemma {:induction false} AtLeastOnce(k: nat, b: nat)
    requires k >= 1
    ensures k * b >= b
  {
    if k > 1 {
      AtLeastOnce(k - 1, b);
      assert k * b == (k - 1) * b + b;
    }
  }

  // ---------------------------------------------------------------- instruction preview

  const PreviewLength := 200

  /** `'...'` as a JavaScript string. */
  const Ellipsis: JsString := [46, 46, 46]

  /**
    `instruction.length > 200 ? instruction.slice(0, 200) + '...' : instruction`,
    on the instruction's code units: `length` and `slice` count UTF-16 code
    units, and the cut may fall between the two halves of a surrogate pair.
   */
  function InstructionPreview(instruction: JsString): (r: JsString)
    ensures |instruction| <= PreviewLength ==> r == instruction
    ensures |instruction| > PreviewLength ==> r == instruction[..PreviewLength] + Ellipsis && |r| == PreviewLength + 3
  {
    if |instruction| > PreviewLength then instruction[..PreviewLength] + Ellipsis else instruction
  }

  /** Shortening a preview again changes nothing. */
  lemma PreviewIdempotent(instruction: JsString)
    ensures InstructionPreview(InstructionPreview(instruction)) == InstructionPreview(instruction)
  {
    var r := InstructionPreview(instruction);
    if |instruction| > PreviewLength {
      assert r[..PreviewLength] == instruction[..PreviewLength];
    }
  }

  /**
    An instruction of at most 200 characters, all in the Basic Multilingual
    Plane, is shown whole; a longer one is cut after its first 200 characters.
   */
  lemma PreviewOfBmpText(instruction: string)
    requires forall k :: 0 <= k < |instruction| ==> instruction[k] as int < 0x1_0000
    ensures |instruction| <= PreviewLength ==> InstructionPreview(Utf16(instruction)) == Utf16(instruction)
    ensures |instruction| > PreviewLength ==>
      InstructionPreview(Utf16(instruction)) == Utf16(instruction[..PreviewLength] + "...")
  {
    Utf16OfBmp(instruction);
    if |instruction| > PreviewLength {
      var head := instruction[..PreviewLength];
      Utf16PrefixOfBmp(instruction, PreviewLength);
      Utf16Concat(head, "...");
      Utf16OfDots();
    }
  }

  /**
    101 emoji are 202 code units, so the preview cuts them, although the
    text has fewer than 200 characters.
   */
  lemma AstralTextIsCut(instruction: string)
    requires |instruction| > PreviewLength / 2
    requires forall k :: 0 <= k < |instruction| ==> instruction[k] as int >= 0x1_0000
    ensures InstructionPreview(Utf16(instruction)) != Utf16(instruction)
  {
    Utf16OfAstral(instruction);
    LongerIsCut(Utf16(instruction), |instruction|);
  }

  lemma LongerIsCut(u: JsString, n: nat)
    requires |u| == 2 * n && |u| > PreviewLength
    ensures InstructionPreview(u) != u
  {
    assert |InstructionPreview(u)| == PreviewLength + 3;
  }

  // ---------------------------------------------------------------- recent uploads

  /** Newest first: `orderBy: { createdAt: 'desc' }`. */
  predicate NewestFirst(ds: seq<Dataset>) {
    forall i, j :: 0 <= i < j < |ds| ==> ds[i].createdAt >= ds[j].createdAt
  }

  /** A dataset no older than the head of a newest-first list can be put in front of it. */
  lemma ConsNewestFirst(d: Dataset, ds: seq<Dataset>)
    requires NewestFirst(ds) && (ds == [] || d.createdAt >= ds[0].createdAt)
    ensures NewestFirst([d] + ds)
  {
    forall i, j | 0 <= i < j < |[d] + ds|
      ensures ([d] + ds)[i].createdAt >= ([d] + ds)[j].createdAt
    {
      if i > 0 {
        assert ([d] + ds)[i] == ds[i - 1] && ([d] + ds)[j] == ds[j - 1];
      } else if j > 1 {
        assert ([d] + ds)[j] == ds[j - 1];
      }
    }
  }

  lemma TailNewestFirst(ds: seq<Dataset>)
    requires NewestFirst(ds) && ds != []
    ensures NewestFirst(ds[1..])
  {
    forall i, j | 0 <= i < j < |ds| - 1
      ensures ds[1..][i].createdAt >= ds[1..][j].createdAt
    {
      assert ds[1..][i] == ds[i + 1] && ds[1..][j] == ds[j + 1];
    }
  }

  /** `d` placed into a newest-first list before the first entry older than it. */
  function Insert(d: Dataset, ds: seq<Dataset>): (r: seq<Dataset>)
    requires NewestFirst(ds)
    ensures NewestFirst(r)
    ensures multiset(r) == multiset(ds) + multiset{d}
    ensures r != [] && (r[0] == d || (ds != [] && r[0] == ds[0]))
  {
    if ds == [] || d.createdAt >= ds[0].createdAt then
      ConsNewestFirst(d, ds);
      [d] + ds
    else
      TailNewestFirst(ds);
      var rest := Insert(d, ds[1..]);
      assert ds == [ds[0]] + ds[1..];
      ConsNewestFirst(ds[0], rest);
      [ds[0]] + rest
  }

  /** All datasets, newest first. */
  function SortNewestFirst(ds: seq<Dataset>): (r: seq<Dataset>)
    ensures NewestFirst(r)
    ensures multiset(r) == multiset(ds)
  {
    if ds == [] then []
    else
      assert ds == [ds[0]] + ds[1..];
      Insert(ds[0], SortNewestFirst(ds[1..]))
  }

  const RecentCount := 5

  /** `findMany({ take: 5, orderBy: { createdAt: 'desc' } })`. */
  function Recent(all: seq<Dataset>): (r: seq<Dataset>)
    ensures |r| <= RecentCount
    ensures r <= SortNewestFirst(all)
    ensures |r| < RecentCount ==> r == SortNewestFirst(all)
  {
    var sorted := SortNewestFirst(all);
    if |sorted| <= RecentCount then sorted else sorted[..RecentCount]
  }

  /** An entry of a newest-first list past position `n` is no newer than any entry before it. */
  lemma LeftOutIsOlder(sorted: seq<Dataset>, n: nat, d: Dataset, j: nat)
    requires NewestFirst(sorted) && j < n <= |sorted|
    requires d in multiset(sorted[n..])
    ensures d.createdAt <= sorted[j].createdAt
  {
    var k :| 0 <= k < |sorted[n..]| && sorted[n..][k] == d;
    assert sorted[n + k] == d;
  }

  /** The first `n` entries of a newest-first list: newest first, and every entry left out is no newer. */
  lemma TakeNewest(sorted: seq<Dataset>, n: nat)
    requires NewestFirst(sorted) && n <= |sorted|
    ensures NewestFirst(sorted[..n])
    ensures multiset(sorted[..n]) <= multiset(sorted)
    ensures forall d, j :: multiset(sorted[..n])[d] < multiset(sorted)[d] && 0 <= j < n ==>
              d.createdAt <= sorted[..n][j].createdAt
  {
    var top, rest := sorted[..n], sorted[n..];
    assert sorted == top + rest;
    assert multiset(sorted) == multiset(top) + multiset(rest);
    forall i, j | 0 <= i < j < n
      ensures top[i].createdAt >= top[j].createdAt
    {
      assert top[i] == sorted[i] && top[j] == sorted[j];
    }
    forall d, j | multiset(top)[d] < multiset(sorted)[d] && 0 <= j < n
      ensures d.createdAt <= top[j].createdAt
    {
      LeftOutIsOlder(sorted, n, d, j);
      assert top[j] == sorted[j];
    }
  }

  /**
    The recent list holds five datasets (all of them when there are fewer),
    newest first, each taken from the full list, and no dataset left out is
    newer than any dataset shown.
   */
  lemma RecentIsNewest(all: seq<Dataset>)
    ensures |Recent(all)| == if |all| <= RecentCount then |all| else RecentCount
    ensures NewestFirst(Recent(all))
    ensures multiset(Recent(all)) <= multiset(all)
    ensures forall d, j :: d in all && multiset(Recent(all))[d] < multiset(all)[d] && 0 <= j < |Recent(all)| ==>
              d.createdAt <= Recent(all)[j].createdAt
  {
    var sorted := SortNewestFirst(all);
    assert |sorted| == |all| by {
      assert |multiset(sorted)| == |multiset(all)|;
    }
    var n := if |sorted| <= RecentCount then |sorted| else RecentCount;
    assert Recent(all) == sorted[..n] by {
      assert sorted[..|sorted|] == sorted;
    }
    TakeNewest(sorted, n);
  }
}
