/**
  The export buttons of the datasets page. The Word export builds a title,
  a summary and nine paragraphs per dataset; the PDF export draws the same
  content with a vertical cursor that starts a new page whenever it has run
  past 250. While an export runs, `exporting` names its format; it returns to
  null when the export ends, successfully or not. The document libraries are
  not modelled: a Word document is its paragraph list, a PDF its list of
  drawing operations, and the line wrapping of `splitTextToSize` is a
  parameter that takes the current font size and the text's code units, since
  jsPDF breaks a text at the width it has in the font size set before the call.
 */
module ExportButtons {
  import opened Text
  import opened Schema

  // ---------------------------------------------------------------- Word

  datatype Heading = Plain | Title | Heading1 | Heading2

  datatype TextRun = TextRun(text: string, bold: bool)

  /** A docx paragraph: heading level, runs, and spacing before and after (0 when not given). */
  datatype Paragraph = Paragraph(heading: Heading, runs: seq<TextRun>, spaceBefore: nat, spaceAfter: nat)

  const DocumentTitle := "Financial AI Training Datasets"

  /** `new Paragraph({ text, heading, spacing })`: one plain run. */
  function TextParagraph(text: string, heading: Heading, before: nat, after: nat): Paragraph {
    Paragraph(heading, [TextRun(text, false)], before, after)
  }

  /** The title and the summary line. */
  function WordHeader(count: nat, today: string): (r: seq<Paragraph>)
    ensures |r| == 2 && r[0].heading == Title && r[0].runs == [TextRun(DocumentTitle, false)]
  {
    [ TextParagraph(DocumentTitle, Title, 0, 400),
      Paragraph(Plain, [TextRun("Total Datasets: " + NatToString(count), true), TextRun(" | Exported: " + today, false)], 0, 400) ]
  }

  /** The summary paragraph shows the number of datasets in decimal, after `Total Datasets: `. */
  lemma WordSummaryShowsCount(count: nat, today: string)
    ensures var summary := WordHeader(count, today)[1].runs[0].text;
      && |summary| >= 16 && summary[..16] == "Total Datasets: "
      && IsDigits(summary[16..]) && DigitsValue(summary[16..]) == count
  {
    NatToStringValue(count);
  }

  /** `'─'.repeat(50)`. */
  function Divider(): (r: string)
    ensures |r| == 50
    ensures forall k :: 0 <= k < |r| ==> r[k] == '\U{2500}'
  {
    Repeat('\U{2500}', 50)
  }

  /** `Dataset ${index + 1}`: the heading of the dataset at `index`, numbered from 1. */
  function DatasetHeading(index: nat): (r: string)
    ensures |r| > 8 && r[..8] == "Dataset "
  {
    "Dataset " + NatToString(index + 1)
  }

  /** After `Dataset `, the heading reads as the dataset's position counted from 1. */
  lemma DatasetHeadingShowsNumber(index: nat)
    ensures IsDigits(DatasetHeading(index)[8..]) && DigitsValue(DatasetHeading(index)[8..]) == index + 1
  {
    NatToStringValue(index + 1);
    assert DatasetHeading(index)[8..] == NatToString(index + 1);
  }

  /**
    The nine paragraphs of the dataset at `index`: heading, byline, and the
    instruction, persona and response sections (a heading paragraph and the
    field's full text each), then a divider.
   */
  function WordBlock(index: nat, d: Dataset, dateOf: int -> string): (ps: seq<Paragraph>)
    ensures |ps| == 9
    ensures ps[0] == TextParagraph(DatasetHeading(index), Heading1, 400, 200)
    ensures ps[3].runs == [TextRun(d.instruction, false)]
    ensures ps[5].runs == [TextRun(d.input, false)]
    ensures ps[7].runs == [TextRun(d.output, false)]
  {
    [ TextParagraph(DatasetHeading(index), Heading1, 400, 200),
      Paragraph(Plain, [TextRun("Uploaded by: ", true), TextRun(d.uploaderName, false),
                        TextRun(" | ", false), TextRun(dateOf(d.createdAt), false)], 0, 200),
      TextParagraph("INSTRUCTION", Heading2, 200, 100),
      TextParagraph(d.instruction, Plain, 0, 200),
      TextParagraph("USER PERSONA", Heading2, 200, 100),
      TextParagraph(d.input, Plain, 0, 200),
      TextParagraph("AI RESPONSE", Heading2, 200, 100),
      TextParagraph(d.output, Plain, 0, 400),
      TextParagraph(Divider(), Plain, 0, 400) ]
  }

  /** The nine paragraphs that follow the header for the dataset at `i`. */
  function BlockAt(children: seq<Paragraph>, i: nat): seq<Paragraph>
    requires 2 + 9 * i + 9 <= |children|
  {
    children[2 + 9 * i..2 + 9 * i + 9]
  }

  /** `children` is the Word export of `datasets`: the header, then each dataset's block in list order. */
  predicate IsWordDocument(children: seq<Paragraph>, datasets: seq<Dataset>, today: string, dateOf: int -> string) {
    && |children| == 2 + 9 * |datasets|
    && children[..2] == WordHeader(|datasets|, today)
    && forall i :: 0 <= i < |datasets| ==> BlockAt(children, i) == WordBlock(i, datasets[i], dateOf)
  }

  /** The blocks of the first `n` datasets, one after the other. */
  function WordBlocks(datasets: seq<Dataset>, n: nat, dateOf: int -> string): (r: seq<Paragraph>)
    requires n <= |datasets|
    ensures |r| == 9 * n
  {
    if n == 0 then [] else WordBlocks(datasets, n - 1, dateOf) + WordBlock(n - 1, datasets[n - 1], dateOf)
  }

  lemma SliceOfPrefix<T>(a: seq<T>, b: seq<T>, lo: nat, hi: nat)
    requires lo <= hi <= |a|
    ensures (a + b)[lo..hi] == a[lo..hi]
  {
  }

  lemma ConcatAssoc<T>(a: seq<T>, b: seq<T>, c: seq<T>)
    ensures (a + b) + c == a + (b + c)
  {
  }

  lemma SliceOfSuffix<T>(a: seq<T>, b: seq<T>)
    ensures (a + b)[|a|..|a| + |b|] == b
  {
  }

  /** The block of the dataset at `j` sits at `9 * j` in the concatenated blocks. */
  lemma {:induction false} WordBlocksAt(datasets: seq<Dataset>, n: nat, j: nat, dateOf: int -> string)
    requires j < n <= |datasets|
    ensures WordBlocks(datasets, n, dateOf)[9 * j..9 * j + 9] == WordBlock(j, datasets[j], dateOf)
  {
    var prefix := WordBlocks(datasets, n - 1, dateOf);
    var last := WordBlock(n - 1, datasets[n - 1], dateOf);
    assert WordBlocks(datasets, n, dateOf) == prefix + last;
    if j == n - 1 {
      SliceOfSuffix(prefix, last);
    } else {
      WordBlocksAt(datasets, n - 1, j, dateOf);
      SliceOfPrefix(prefix, last, 9 * j, 9 * j + 9);
    }
  }

  /** The header followed by all blocks is the Word export. */
  lemma WordDocumentOfBlocks(datasets: seq<Dataset>, today: string, dateOf: int -> string)
    ensures IsWordDocument(WordHeader(|datasets|, today) + WordBlocks(datasets, |datasets|, dateOf), datasets, today, dateOf)
  {
    var header := WordHeader(|datasets|, today);
    var blocks := WordBlocks(datasets, |datasets|, dateOf);
    var children := header + blocks;
    SliceOfPrefix(header, blocks, 0, 2);
    assert children[..2] == children[0..2];
    forall i | 0 <= i < |datasets|
      ensures BlockAt(children, i) == WordBlock(i, datasets[i], dateOf)
    {
      WordBlocksAt(datasets, |datasets|, i, dateOf);
      BlockInBlocks(header, blocks, i);
    }
  }

  lemma BlockInBlocks(header: seq<Paragraph>, blocks: seq<Paragraph>, i: nat)
    requires |header| == 2 && 9 * i + 9 <= |blocks|
    ensures BlockAt(header + blocks, i) == blocks[9 * i..9 * i + 9]
  {
  }

  lemma WordBlocksStep(header: seq<Paragraph>, datasets: seq<Dataset>, i: nat, dateOf: int -> string)
    requires i < |datasets|
    ensures header + WordBlocks(datasets, i + 1, dateOf) == header + WordBlocks(datasets, i, dateOf) + WordBlock(i, datasets[i], dateOf)
  {
    ConcatAssoc(header, WordBlocks(datasets, i, dateOf), WordBlock(i, datasets[i], dateOf));
  }

  /** `children` starting as the header, then `datasets.forEach(… children.push(…))`. */
  method BuildWordParagraphs(datasets: seq<Dataset>, today: string, dateOf: int -> string) returns (children: seq<Paragraph>)
    ensures IsWordDocument(children, datasets, today, dateOf)
  {
    children := WordHeader(|datasets|, today);
    ghost var header := children;
    var i := 0;
    while i < |datasets|
      invariant 0 <= i <= |datasets|
      invariant children == header + WordBlocks(datasets, i, dateOf)
    {
      var block := WordBlock(i, datasets[i], dateOf);
      WordBlocksStep(header, datasets, i, dateOf);
      children := children + block;
      i := i + 1;
    }
    WordDocumentOfBlocks(datasets, today, dateOf);
  }

  /** The paragraph at `p` of a Word export, found from its block. */
  lemma WordParagraphAt(children: seq<Paragraph>, datasets: seq<Dataset>, today: string, dateOf: int -> string, p: nat)
    requires IsWordDocument(children, datasets, today, dateOf)
    requires 2 <= p < |children|
    ensures (p - 2) / 9 < |datasets|
    ensures children[p] == WordBlock((p - 2) / 9, datasets[(p - 2) / 9], dateOf)[(p - 2) % 9]
  {
    var i, r := (p - 2) / 9, (p - 2) % 9;
    assert p == 2 + 9 * i + r;
    assert BlockAt(children, i)[r] == children[p];
  }

  /** The export of a list is unique: two paragraph lists that are both its export are equal. */
  lemma WordDocumentUnique(a: seq<Paragraph>, b: seq<Paragraph>, datasets: seq<Dataset>, today: string, dateOf: int -> string)
    requires IsWordDocument(a, datasets, today, dateOf) && IsWordDocument(b, datasets, today, dateOf)
    ensures a == b
  {
    forall p | 0 <= p < |a|
      ensures a[p] == b[p]
    {
      if p < 2 {
        assert a[p] == a[..2][p] && b[p] == b[..2][p];
      } else {
        WordParagraphAt(a, datasets, today, dateOf, p);
        WordParagraphAt(b, datasets, today, dateOf, p);
      }
    }
  }

  /** Different blocks carry different headings, so `Dataset i+1` identifies the position. */
  lemma HeadingsDistinct(i: nat, j: nat)
    requires i != j
    ensures DatasetHeading(i) != DatasetHeading(j)
  {
    DatasetHeadingShowsNumber(i);
    DatasetHeadingShowsNumber(j);
  }

  // ---------------------------------------------------------------- PDF

  /** jsPDF calls, with font size and weight folded into text; `y` in millimetres from the top. */
  datatype PdfOp =
    | DrawText(fontSize: nat, bold: bool, lines: seq<string>, y: int)
    | AddPage
    | DrawRule(y: int)

  /** The first line of a page, and the cursor position past which a new page is started. */
  const Top := 20
  const PageLimit := 250
  const PreviewLength := 1000
  const MaxResponseLines := 30

  /** `'...'` as a JavaScript string. */
  const Ellipsis: JsString := [46, 46, 46]

  /**
    `output.slice(0, 1000) + (output.length > 1000 ? '...' : '')`, on the
    output's UTF-16 code units, which `length` and `slice` count.
   */
  function ResponsePreview(output: JsString): (r: JsString)
    ensures |r| <= PreviewLength + 3
    ensures |output| <= PreviewLength ==> r == output
    ensures |output| > PreviewLength ==> r == output[..PreviewLength] + Ellipsis && |r| == PreviewLength + 3
  {
    SliceTo(output, PreviewLength) + (if |output| > PreviewLength then Ellipsis else [])
  }

  /**
    `if (y > 250) { doc.addPage(); y = 20; }`: the new cursor and the pages
    added. A page is added exactly when the cursor is past the limit, and
    the cursor is then back at the top; afterwards it is never past the limit.
   */
  function PageCheck(y: int): (r: (int, seq<PdfOp>))
    ensures r.1 == [AddPage] <==> y > PageLimit
    ensures r.1 == [] <==> y <= PageLimit
    ensures r.1 == [AddPage] ==> r.0 == Top
    ensures r.1 == [] ==> r.0 == y
    ensures r.0 <= PageLimit && (Top <= y ==> Top <= r.0)
  {
    if y > PageLimit then (Top, [AddPage]) else (y, [])
  }

  function Min(a: int, b: int): int {
    if a <= b then a else b
  }

  /** Texts that open a section of a dataset: its header and the persona and response labels. */
  predicate OpensSection(op: PdfOp) {
    op.DrawText? && (op.fontSize == 14 || (op.fontSize == 11 && op.lines != ["INSTRUCTION"]))
  }

  /**
    The layout facts the export keeps: every drawing is at or below the
    top margin, every section opens on the page (`y <= 250`), and no
    9-point text (a byline or a response preview) has more than 30 lines.
   */
  predicate WellPlaced(ops: seq<PdfOp>) {
    forall k :: 0 <= k < |ops| ==> PlacedOp(ops[k])
  }

  predicate PlacedOp(op: PdfOp) {
    && (op.DrawText? ==> Top <= op.y)
    && (OpensSection(op) ==> op.y <= PageLimit)
    && (op.DrawText? && op.fontSize == 9 ==> |op.lines| <= MaxResponseLines)
  }

  lemma WellPlacedConcat(a: seq<PdfOp>, b: seq<PdfOp>)
    requires WellPlaced(a) && WellPlaced(b)
    ensures WellPlaced(a + b)
  {
    forall k | |a| <= k < |a + b|
      ensures (a + b)[k] == b[k - |a|]
    {
    }
  }

  /** Pages added by a run of operations. */
  function PagesAdded(ops: seq<PdfOp>): nat {
    if ops == [] then 0 else (if ops[0].AddPage? then 1 else 0) + PagesAdded(ops[1..])
  }

  /** The number of pages of a PDF drawn by `ops`: jsPDF starts with one. */
  function PageCount(ops: seq<PdfOp>): nat {
    1 + PagesAdded(ops)
  }

  lemma {:induction false} PagesAddedConcat(a: seq<PdfOp>, b: seq<PdfOp>)
    ensures PagesAdded(a + b) == PagesAdded(a) + PagesAdded(b)
    decreases |a|
  {
    if a != [] {
      assert (a + b)[0] == a[0] && (a + b)[1..] == a[1..] + b;
      PagesAddedConcat(a[1..], b);
    } else {
      assert a + b == b;
    }
  }

  /** A section starts a page, if at all, with its first operation. */
  predicate BreaksOnlyFirst(ops: seq<PdfOp>) {
    forall k :: 0 < k < |ops| ==> !ops[k].AddPage?
  }

  lemma {:induction false} NoPageBreaks(ops: seq<PdfOp>)
    requires forall k :: 0 <= k < |ops| ==> !ops[k].AddPage?
    ensures PagesAdded(ops) == 0
    decreases |ops|
  {
    if ops != [] {
      NoPageBreaks(ops[1..]);
    }
  }

  lemma SectionPages(ops: seq<PdfOp>)
    requires BreaksOnlyFirst(ops)
    ensures PagesAdded(ops) <= 1
  {
    if ops != [] {
      NoPageBreaks(ops[1..]);
    }
  }

  /** The lines of `op` when it is drawn in 14 points, the size of the dataset headers. */
  function HeadingOf(op: PdfOp): seq<string> {
    if op.DrawText? && op.fontSize == 14 then op.lines else []
  }

  /** The 14-point texts of a run of operations, in drawing order. */
  function HeadingsOf(ops: seq<PdfOp>): seq<string> {
    if ops == [] then [] else HeadingOf(ops[0]) + HeadingsOf(ops[1..])
  }

  lemma {:induction false} HeadingsConcat(a: seq<PdfOp>, b: seq<PdfOp>)
    ensures HeadingsOf(a + b) == HeadingsOf(a) + HeadingsOf(b)
    decreases |a|
  {
    if a != [] {
      assert (a + b)[0] == a[0] && (a + b)[1..] == a[1..] + b;
      HeadingsConcat(a[1..], b);
      ConcatAssoc(HeadingOf(a[0]), HeadingsOf(a[1..]), HeadingsOf(b));
    } else {
      assert a + b == b;
    }
  }

  lemma HeadingsAppend(ops: seq<PdfOp>, op: PdfOp)
    ensures HeadingsOf(ops + [op]) == HeadingsOf(ops) + HeadingOf(op)
  {
    HeadingsConcat(ops, [op]);
    assert [op][1..] == [];
  }

  /** Title and summary at the top of the first page; the cursor then stands at 45. */
  function PdfHeader(count: nat, today: string): (r: seq<PdfOp>)
    ensures WellPlaced(r) && |r| == 2 && r[0].DrawText? && r[0].lines == [DocumentTitle]
    ensures HeadingsOf(r) == []
  {
    var r := [ DrawText(20, true, [DocumentTitle], 20),
               DrawText(10, false, ["Total: " + NatToString(count) + " datasets | Exported: " + today], 30) ];
    assert HeadingsOf(r[1..]) == HeadingOf(r[1]) + HeadingsOf(r[1..][1..]);
    assert r[1..][1..] == [];
    r
  }

  /** The summary line shows the number of datasets in decimal, after `Total: `. */
  lemma PdfSummaryShowsCount(count: nat, today: string)
    ensures var r := PdfHeader(count, today);
      r[1].DrawText? && |r[1].lines| == 1 &&
      var line, digits := r[1].lines[0], |NatToString(count)|;
      && |line| >= 7 + digits && line[..7] == "Total: "
      && IsDigits(line[7..7 + digits]) && DigitsValue(line[7..7 + digits]) == count
  {
    var digits := NatToString(count);
    NatToStringValue(count);
    var line := "Total: " + digits + " datasets | Exported: " + today;
    assert line[7..7 + |digits|] == digits;
  }

  const FirstCursor := 45

  /** Page check, then the header, byline and instruction of the dataset at `index`; and the cursor after them. */
  function HeaderSection(index: nat, d: Dataset, y: int, wrap: (nat, JsString) -> seq<string>, dateOf: int -> string): (r: (seq<PdfOp>, int))
    requires Top <= y
    ensures Top <= r.1 && WellPlaced(r.0)
  {
    var (y1, page) := PageCheck(y);
    var lines := wrap(10, Utf16(d.instruction));
    var ops := page + [DrawText(14, true, [DatasetHeading(index)], y1)]
                    + [DrawText(9, false, ["By: " + d.uploaderName + " | " + dateOf(d.createdAt)], y1 + 7)]
                    + [DrawText(11, true, ["INSTRUCTION"], y1 + 17)]
                    + [DrawText(10, false, lines, y1 + 23)];
    assert forall k :: 0 <= k < |ops| ==> PlacedOp(ops[k]) by {
      assert forall k :: |page| <= k < |ops| ==> ops[k].DrawText? && ops[k].y >= y1;
    }
    (ops, y1 + 23 + |lines| * 5 + 8)
  }

  /** Page check, then the persona label and text; and the cursor after them. */
  function PersonaSection(d: Dataset, y: int, wrap: (nat, JsString) -> seq<string>): (r: (seq<PdfOp>, int))
    requires Top <= y
    ensures Top <= r.1 && WellPlaced(r.0)
  {
    var (y1, page) := PageCheck(y);
    var lines := wrap(10, Utf16(d.input));
    var ops := page + [DrawText(11, true, ["USER PERSONA"], y1)]
                    + [DrawText(10, false, lines, y1 + 6)];
    (ops, y1 + 6 + |lines| * 5 + 8)
  }

  /** Page check, then the response label, at most 30 lines of the preview, and the separator rule; and the cursor after them. */
  function ResponseSection(d: Dataset, y: int, wrap: (nat, JsString) -> seq<string>): (r: (seq<PdfOp>, int))
    requires Top <= y
    ensures Top <= r.1 && WellPlaced(r.0)
  {
    var (y1, page) := PageCheck(y);
    var lines := wrap(9, ResponsePreview(Utf16(d.output)));
    var maxLines := Min(|lines|, MaxResponseLines);
    var ruleY := y1 + 6 + maxLines * 4 + 15;
    var ops := page + [DrawText(11, true, ["AI RESPONSE (Preview)"], y1)]
                    + [DrawText(9, false, lines[..maxLines], y1 + 6)]
                    + [DrawRule(ruleY)];
    (ops, ruleY + 10)
  }

  /** The drawing of the dataset at `index` from cursor `y`, and the cursor after it. */
  function DatasetOps(index: nat, d: Dataset, y: int, wrap: (nat, JsString) -> seq<string>, dateOf: int -> string): (r: (seq<PdfOp>, int))
    requires Top <= y
    ensures Top <= r.1 && WellPlaced(r.0)
  {
    var (header, y1) := HeaderSection(index, d, y, wrap, dateOf);
    var (persona, y2) := PersonaSection(d, y1, wrap);
    var (response, y3) := ResponseSection(d, y2, wrap);
    WellPlacedConcat(header, persona);
    WellPlacedConcat(header + persona, response);
    (header + persona + response, y3)
  }

  /** The drawing of `datasets[k..]` from cursor `y`. */
  function PdfFrom(datasets: seq<Dataset>, k: nat, y: int, wrap: (nat, JsString) -> seq<string>, dateOf: int -> string): (ops: seq<PdfOp>)
    requires k <= |datasets| && Top <= y
    ensures WellPlaced(ops)
    decreases |datasets| - k
  {
    if k == |datasets| then []
    else
      var (first, y') := DatasetOps(k, datasets[k], y, wrap, dateOf);
      var rest := PdfFrom(datasets, k + 1, y', wrap, dateOf);
      WellPlacedConcat(first, rest);
      first + rest
  }

  /** The whole PDF: the header, then every dataset from cursor 45. */
  function PdfDocument(datasets: seq<Dataset>, today: string, wrap: (nat, JsString) -> seq<string>, dateOf: int -> string): (r: seq<PdfOp>)
    ensures WellPlaced(r)
  {
    var header, body := PdfHeader(|datasets|, today), PdfFrom(datasets, 0, FirstCursor, wrap, dateOf);
    WellPlacedConcat(header, body);
    header + body
  }

  /** The headings `Dataset k+1`, …, `Dataset n`. */
  function HeadingsFrom(k: nat, n: nat): (r: seq<string>)
    ensures |r| == if k <= n then n - k else 0
    decreases n - k
  {
    if k >= n then [] else [DatasetHeading(k)] + HeadingsFrom(k + 1, n)
  }

  /** An optional page break followed by operations that are not page breaks. */
  lemma SectionOf(page: seq<PdfOp>, ops: seq<PdfOp>)
    requires page == [] || page == [AddPage]
    requires forall k :: 0 <= k < |ops| ==> !ops[k].AddPage?
    ensures BreaksOnlyFirst(page + ops)
    ensures HeadingsOf(page + ops) == HeadingsOf(ops)
  {
    HeadingsConcat(page, ops);
    if page != [] {
      HeadingsAppend([], AddPage);
    }
  }

  /** A section of two, three or four drawings after an optional page break. */
  lemma SectionOf2(page: seq<PdfOp>, a: PdfOp, b: PdfOp)
    requires page == [] || page == [AddPage]
    requires !a.AddPage? && !b.AddPage?
    ensures BreaksOnlyFirst(page + [a] + [b])
    ensures HeadingsOf(page + [a] + [b]) == HeadingOf(a) + HeadingOf(b)
  {
    ConcatAssoc(page, [a], [b]);
    SectionOf(page, [a] + [b]);
    HeadingsAppend([], a);
    HeadingsAppend([a], b);
  }

  lemma SectionOf3(page: seq<PdfOp>, a: PdfOp, b: PdfOp, c: PdfOp)
    requires page == [] || page == [AddPage]
    requires !a.AddPage? && !b.AddPage? && !c.AddPage?
    ensures BreaksOnlyFirst(page + [a] + [b] + [c])
    ensures HeadingsOf(page + [a] + [b] + [c]) == HeadingOf(a) + HeadingOf(b) + HeadingOf(c)
  {
    ConcatAssoc(page, [a], [b]);
    ConcatAssoc(page, [a] + [b], [c]);
    SectionOf(page, [a] + [b] + [c]);
    HeadingsAppend([], a);
    HeadingsAppend([a], b);
    HeadingsAppend([a] + [b], c);
  }

  lemma SectionOf4(page: seq<PdfOp>, a: PdfOp, b: PdfOp, c: PdfOp, e: PdfOp)
    requires page == [] || page == [AddPage]
    requires !a.AddPage? && !b.AddPage? && !c.AddPage? && !e.AddPage?
    ensures BreaksOnlyFirst(page + [a] + [b] + [c] + [e])
    ensures HeadingsOf(page + [a] + [b] + [c] + [e]) == HeadingOf(a) + HeadingOf(b) + HeadingOf(c) + HeadingOf(e)
  {
    SectionOf3(page, a, b, c);
    var s := page + [a] + [b] + [c];
    HeadingsAppend(s, e);
    BreaksOnlyFirstAppend(s, e);
  }

  lemma BreaksOnlyFirstAppend(ops: seq<PdfOp>, op: PdfOp)
    requires BreaksOnlyFirst(ops) && !op.AddPage?
    ensures BreaksOnlyFirst(ops + [op])
  {
    forall k | 0 < k < |ops + [op]|
      ensures !(ops + [op])[k].AddPage?
    {
      if k < |ops| {
        assert (ops + [op])[k] == ops[k];
      }
    }
  }

  lemma HeaderSectionShape(index: nat, d: Dataset, y: int, wrap: (nat, JsString) -> seq<string>, dateOf: int -> string)
    requires Top <= y
    ensures BreaksOnlyFirst(HeaderSection(index, d, y, wrap, dateOf).0)
    ensures HeadingsOf(HeaderSection(index, d, y, wrap, dateOf).0) == [DatasetHeading(index)]
  {
    var (y1, page) := PageCheck(y);
    SectionOf4(page, DrawText(14, true, [DatasetHeading(index)], y1),
               DrawText(9, false, ["By: " + d.uploaderName + " | " + dateOf(d.createdAt)], y1 + 7),
               DrawText(11, true, ["INSTRUCTION"], y1 + 17),
               DrawText(10, false, wrap(10, Utf16(d.instruction)), y1 + 23));
  }

  lemma PersonaSectionShape(d: Dataset, y: int, wrap: (nat, JsString) -> seq<string>)
    requires Top <= y
    ensures BreaksOnlyFirst(PersonaSection(d, y, wrap).0)
    ensures HeadingsOf(PersonaSection(d, y, wrap).0) == []
  {
    var (y1, page) := PageCheck(y);
    SectionOf2(page, DrawText(11, true, ["USER PERSONA"], y1), DrawText(10, false, wrap(10, Utf16(d.input)), y1 + 6));
  }

  lemma ResponseSectionShape(d: Dataset, y: int, wrap: (nat, JsString) -> seq<string>)
    requires Top <= y
    ensures BreaksOnlyFirst(ResponseSection(d, y, wrap).0)
    ensures HeadingsOf(ResponseSection(d, y, wrap).0) == []
  {
    var (y1, page) := PageCheck(y);
    var lines := wrap(9, ResponsePreview(Utf16(d.output)));
    var maxLines := Min(|lines|, MaxResponseLines);
    SectionOf3(page, DrawText(11, true, ["AI RESPONSE (Preview)"], y1),
               DrawText(9, false, lines[..maxLines], y1 + 6),
               DrawRule(y1 + 6 + maxLines * 4 + 15));
  }

  /** A dataset adds at most three pages, one per page check, and draws exactly one heading: its own. */
  lemma DatasetShape(index: nat, d: Dataset, y: int, wrap: (nat, JsString) -> seq<string>, dateOf: int -> string)
    requires Top <= y
    ensures PagesAdded(DatasetOps(index, d, y, wrap, dateOf).0) <= 3
    ensures HeadingsOf(DatasetOps(index, d, y, wrap, dateOf).0) == [DatasetHeading(index)]
  {
    var (header, y1) := HeaderSection(index, d, y, wrap, dateOf);
    var (persona, y2) := PersonaSection(d, y1, wrap);
    var (response, y3) := ResponseSection(d, y2, wrap);
    HeaderSectionShape(index, d, y, wrap, dateOf);
    PersonaSectionShape(d, y1, wrap);
    ResponseSectionShape(d, y2, wrap);
    SectionPages(header);
    SectionPages(persona);
    SectionPages(response);
    PagesAddedConcat(header, persona);
    PagesAddedConcat(header + persona, response);
    HeadingsConcat(header, persona);
    HeadingsConcat(header + persona, response);
  }

  /** From dataset `k` on, at most three pages per dataset, and the headings of those datasets in list order. */
  lemma {:induction false} PdfFromShape(datasets: seq<Dataset>, k: nat, y: int, wrap: (nat, JsString) -> seq<string>, dateOf: int -> string)
    requires k <= |datasets| && Top <= y
    ensures PagesAdded(PdfFrom(datasets, k, y, wrap, dateOf)) <= 3 * (|datasets| - k)
    ensures HeadingsOf(PdfFrom(datasets, k, y, wrap, dateOf)) == HeadingsFrom(k, |datasets|)
    decreases |datasets| - k
  {
    if k < |datasets| {
      var (first, y') := DatasetOps(k, datasets[k], y, wrap, dateOf);
      var rest := PdfFrom(datasets, k + 1, y', wrap, dateOf);
      assert PdfFrom(datasets, k, y, wrap, dateOf) == first + rest;
      DatasetShape(k, datasets[k], y, wrap, dateOf);
      PdfFromShape(datasets, k + 1, y', wrap, dateOf);
      PagesAddedConcat(first, rest);
      HeadingsConcat(first, rest);
    }
  }

  /**
    The PDF export has at most `1 + 3n` pages for `n` datasets, and its
    dataset headers read `Dataset 1` … `Dataset n`, in list order.
   */
  lemma PdfDocumentShape(datasets: seq<Dataset>, today: string, wrap: (nat, JsString) -> seq<string>, dateOf: int -> string)
    ensures PageCount(PdfDocument(datasets, today, wrap, dateOf)) <= 1 + 3 * |datasets|
    ensures HeadingsOf(PdfDocument(datasets, today, wrap, dateOf)) == HeadingsFrom(0, |datasets|)
  {
    var header := PdfHeader(|datasets|, today);
    var body := PdfFrom(datasets, 0, FirstCursor, wrap, dateOf);
    PdfFromShape(datasets, 0, FirstCursor, wrap, dateOf);
    PagesAddedConcat(header, body);
    HeadingsConcat(header, body);
    PdfHeaderShape(|datasets|, today);
  }

  lemma PdfHeaderShape(count: nat, today: string)
    ensures PagesAdded(PdfHeader(count, today)) == 0 && HeadingsOf(PdfHeader(count, today)) == []
  {
    var header := PdfHeader(count, today);
    NoPageBreaks(header);
    assert header == [] + [header[0]] + [header[1]];
    HeadingsAppend([], header[0]);
    HeadingsAppend([header[0]], header[1]);
  }

  /** The start of one dataset in the PDF: page check, dataset header, byline and instruction. */
  method DrawHeaderSection(i: nat, d: Dataset, y0: int, wrap: (nat, JsString) -> seq<string>, dateOf: int -> string)
    returns (section: seq<PdfOp>, y: int)
    requires Top <= y0
    ensures (section, y) == HeaderSection(i, d, y0, wrap, dateOf)
  {
    y := y0;
    section := [];
    if y > PageLimit {
      section := [AddPage];
      y := Top;
    }
    section := section + [DrawText(14, true, [DatasetHeading(i)], y)];
    y := y + 7;
    section := section + [DrawText(9, false, ["By: " + d.uploaderName + " | " + dateOf(d.createdAt)], y)];
    y := y + 10;
    section := section + [DrawText(11, true, ["INSTRUCTION"], y)];
    y := y + 6;
    var instructionLines := wrap(10, Utf16(d.instruction));
    section := section + [DrawText(10, false, instructionLines, y)];
    y := y + |instructionLines| * 5 + 8;
  }

  /** Page check, then the persona label and text. */
  method DrawPersonaSection(d: Dataset, y0: int, wrap: (nat, JsString) -> seq<string>)
    returns (section: seq<PdfOp>, y: int)
    requires Top <= y0
    ensures (section, y) == PersonaSection(d, y0, wrap)
  {
    y := y0;
    section := [];
    if y > PageLimit {
      section := [AddPage];
      y := Top;
    }
    section := section + [DrawText(11, true, ["USER PERSONA"], y)];
    y := y + 6;
    var inputLines := wrap(10, Utf16(d.input));
    section := section + [DrawText(10, false, inputLines, y)];
    y := y + |inputLines| * 5 + 8;
  }

  /** Page check, then the response label, the truncated preview and the separator rule. */
  method DrawResponseSection(d: Dataset, y0: int, wrap: (nat, JsString) -> seq<string>)
    returns (section: seq<PdfOp>, y: int)
    requires Top <= y0
    ensures (section, y) == ResponseSection(d, y0, wrap)
  {
    y := y0;
    section := [];
    if y > PageLimit {
      section := [AddPage];
      y := Top;
    }
    section := section + [DrawText(11, true, ["AI RESPONSE (Preview)"], y)];
    y := y + 6;
    var outputLines := wrap(9, ResponsePreview(Utf16(d.output)));
    var maxLines := Min(|outputLines|, MaxResponseLines);
    section := section + [DrawText(9, false, outputLines[..maxLines], y)];
    y := y + maxLines * 4 + 15;
    section := section + [DrawRule(y)];
    y := y + 10;
  }

  /** The body of `exportToPDF`'s `try` up to `doc.save`: the operations drawn, in order. */
  method RenderPdf(datasets: seq<Dataset>, today: string, wrap: (nat, JsString) -> seq<string>, dateOf: int -> string)
    returns (ops: seq<PdfOp>)
    ensures ops == PdfDocument(datasets, today, wrap, dateOf)
  {
    var y := 20;
    ops := [DrawText(20, true, [DocumentTitle], y)];
    y := y + 10;
    ops := ops + [DrawText(10, false, ["Total: " + NatToString(|datasets|) + " datasets | Exported: " + today], y)];
    y := y + 15;
    assert ops == PdfHeader(|datasets|, today);
    var i := 0;
    while i < |datasets|
      invariant 0 <= i <= |datasets| && Top <= y
      invariant ops + PdfFrom(datasets, i, y, wrap, dateOf) == PdfDocument(datasets, today, wrap, dateOf)
    {
      var header, persona, response;
      ghost var y0 := y;
      header, y := DrawHeaderSection(i, datasets[i], y, wrap, dateOf);
      persona, y := DrawPersonaSection(datasets[i], y, wrap);
      response, y := DrawResponseSection(datasets[i], y, wrap);
      assert (header + persona + response, y) == DatasetOps(i, datasets[i], y0, wrap, dateOf);
      ConcatAssoc(ops, header + persona + response, PdfFrom(datasets, i + 1, y, wrap, dateOf));
      ops := ops + (header + persona + response);
      i := i + 1;
    }
  }

  // ---------------------------------------------------------------- the buttons

  /** `training-datasets-${new Date().toISOString().split('T')[0]}` followed by the extension. */
  function FileName(iso: string, extension: string): (r: string)
    ensures |r| >= 18 + |extension| && r[..18] == "training-datasets-" && r[|r| - |extension|..] == extension
    ensures var date := r[18..|r| - |extension|];
      && date <= iso && 'T' !in date && (date == iso || iso[|date|] == 'T')
  {
    var date := Split(iso, 'T')[0];
    SplitFirstPiece(iso, 'T');
    var r := "training-datasets-" + date + extension;
    assert r[18..|r| - |extension|] == date;
    r
  }

  /** For an ISO timestamp `date + "T" + time` the file is named after the date part. */
  lemma FileNameOfTimestamp(date: string, time: string, extension: string)
    requires 'T' !in date
    ensures FileName(date + ['T'] + time, extension) == "training-datasets-" + date + extension
  {
    SplitAtFirst(date, time, 'T');
  }

  /** The `exporting` state: null, 'word' or 'pdf'. */
  datatype Exporting = Idle | ExportingWord | ExportingPdf

  /** What an export leaves behind: a saved file, or an alert. */
  datatype Effect =
    | WordSaved(fileName: string, paragraphs: seq<Paragraph>)
    | PdfSaved(fileName: string, ops: seq<PdfOp>)
    | Alerted(message: string)

  const WordFailure := "Failed to export as Word document"
  const PdfFailure := "Failed to export as PDF"

  /**
    The `ExportButtons` component for a list of datasets. `history` records
    every value `exporting` has taken, so the contracts can say that an
    export sets its format first and returns to null at the end, whether it
    failed or not.
   */
  class Exporter {
    const datasets: seq<Dataset>
    var exporting: Exporting
    ghost var history: seq<Exporting>

    constructor(datasets: seq<Dataset>)
      ensures this.datasets == datasets && exporting == Idle && history == [Idle]
    {
      this.datasets := datasets;
      exporting := Idle;
      history := [Idle];
    }

    /** `disabled={exporting !== null || datasets.length === 0}`, the same for both buttons. */
    predicate ButtonsDisabled()
      reads this
      ensures exporting != Idle ==> ButtonsDisabled()
      ensures |datasets| == 0 ==> ButtonsDisabled()
      ensures exporting == Idle && |datasets| > 0 ==> !ButtonsDisabled()
    {
      exporting != Idle || |datasets| == 0
    }

    /**
      `exportToWord`. `fails` stands for an exception thrown while the
      document is packed or saved. On success the saved paragraphs are the
      Word export of the list; on failure the alert is shown and nothing is
      saved. Either way `exporting` ends null, so the buttons are enabled
      again exactly when there is something to export.
     */
    method ExportToWord(today: string, iso: string, dateOf: int -> string, fails: bool) returns (effect: Effect)
      modifies this
      ensures exporting == Idle && history == old(history) + [ExportingWord, Idle]
      ensures !fails ==> effect.WordSaved? && effect.fileName == FileName(iso, ".docx")
                         && IsWordDocument(effect.paragraphs, datasets, today, dateOf)
      ensures fails ==> effect == Alerted(WordFailure)
      ensures ButtonsDisabled() <==> |datasets| == 0
    {
      exporting := ExportingWord;
      history := history + [exporting];
      var children := BuildWordParagraphs(datasets, today, dateOf);
      if fails {
        effect := Alerted(WordFailure);
      } else {
        effect := WordSaved(FileName(iso, ".docx"), children);
      }
      exporting := Idle;
      history := history + [exporting];
    }

    /**
      `exportToPDF`. `fails` stands for an exception thrown by jsPDF before
      the file is saved. On success the saved drawing is the PDF export of
      the list; on failure the alert is shown. Either way `exporting` ends null.
     */
    method ExportToPdf(today: string, iso: string, wrap: (nat, JsString) -> seq<string>, dateOf: int -> string, fails: bool) returns (effect: Effect)
      modifies this
      ensures exporting == Idle && history == old(history) + [ExportingPdf, Idle]
      ensures !fails ==> effect.PdfSaved? && effect.fileName == FileName(iso, ".pdf")
                         && effect.ops == PdfDocument(datasets, today, wrap, dateOf)
      ensures fails ==> effect == Alerted(PdfFailure)
      ensures ButtonsDisabled() <==> |datasets| == 0
    {
      exporting := ExportingPdf;
      history := history + [exporting];
      if fails {
        effect := Alerted(PdfFailure);
      } else {
        var ops := RenderPdf(datasets, today, wrap, dateOf);
        effect := PdfSaved(FileName(iso, ".pdf"), ops);
      }
      exporting := Idle;
      history := history + [exporting];
    }
  }
}
