/**
 * The click-to-place variant of the tech-pack script: the logo is centred on a
 * clicked point, result images are laid out two per row in the report, and a
 * plain-text summary is produced when no AI client is configured.
 */
module AiPart2 {
  import opened Wrappers
  import opened PyOps
  import opened Paths
  import opened OutputNaming
  import AiPart

  // ------------------------------------------------------------ report grid

  /**
   * The image grid of `generate_pdf_report`: the cells, in input order, packed
   * into rows of two, a last row of one when their number is odd.
   */
  method PackRows<T>(cells: seq<T>) returns (rows: seq<seq<T>>)
    ensures Flatten(rows) == cells
    ensures |rows| == (|cells| + 1) / 2
    ensures forall i :: 0 <= i < |rows| ==> |rows[i]| == (if i == |rows| - 1 && |cells| % 2 == 1 then 1 else 2)
  {
    rows := [];
    var row: seq<T> := [];
    for i := 0 to |cells|
      invariant Flatten(rows) + row == cells[..i]
      invariant |rows| == i / 2 && |row| == i % 2
      invariant forall j :: 0 <= j < |rows| ==> |rows[j]| == 2
    {
      row := row + [cells[i]];
      assert cells[..i + 1] == cells[..i] + [cells[i]];
      if |row| == 2 {
        FlattenAppend(rows, row);
        rows := rows + [row];
        row := [];
      }
    }
    if |row| > 0 {
      FlattenAppend(rows, row);
      rows := rows + [row];
    }
    assert cells[..|cells|] == cells;
  }

  // -------------------------------------------------------- click placement

  /**
   * The paste position `(int(cx - w/2), int(cy - h/2))` for a logo of `w x h`
   * pixels clicked at `(cx, cy)`: the logo's centre lands within half a pixel of
   * the click, and an odd extent's half pixel is truncated toward zero.
   */
  function PastePosition(cx: int, cy: int, w: nat, h: nat): (pos: (int, int))
    ensures pos.0 == cx - w / 2 - (if w % 2 == 1 && 2 * cx > w then 1 else 0)
    ensures pos.1 == cy - h / 2 - (if h % 2 == 1 && 2 * cy > h then 1 else 0)
    ensures -1 <= 2 * pos.0 + w - 2 * cx <= 1 && -1 <= 2 * pos.1 + h - 2 * cy <= 1
  {
    CentredStart(cx, w);
    CentredStart(cy, h);
    (Trunc(cx as real - w as real / 2.0), Trunc(cy as real - h as real / 2.0))
  }

  lemma {:induction false} CentredStart(c: int, n: nat)
    ensures Trunc(c as real - n as real / 2.0) == c - n / 2 - (if n % 2 == 1 && 2 * c > n then 1 else 0)
  {
    var q := n / 2;
    var v := c as real - n as real / 2.0;
    if n % 2 == 0 {
      assert n == 2 * q;
      assert v == (c - q) as real;
    } else {
      assert n == 2 * q + 1;
      assert v == (c - q) as real - 0.5;
      if 2 * c > n {
        assert v >= 0.0;
        assert (c - q - 1) as real <= v < (c - q) as real;
      } else {
        assert v < 0.0;
        assert (c - q - 1) as real < v <= (c - q) as real;
      }
    }
  }

  /** What `apply_logo` goes on to do after the click: paste the logo at `pos` and save to `outPath`. */
  datatype Placement = Placement(pos: (int, int), outPath: string)

  /**
   * `apply_logo` given the click (`None` when none was registered) and the
   * resized logo's size: no click means `None`, so the cap, already shown for
   * the click, is not opened for compositing and nothing is saved; otherwise
   * the logo is pasted at the truncated centring position.
   */
  function PlaceLogo(click: Option<(int, int)>, w: nat, h: nat, outPath: string): (r: Option<Placement>)
    ensures r.None? <==> click.None?
    ensures r.Some? ==> r.value.outPath == outPath
    ensures r.Some? ==> r.value.pos == PastePosition(click.value.0, click.value.1, w, h)
    ensures r.Some? ==> -1 <= 2 * r.value.pos.0 + w - 2 * click.value.0 <= 1
    ensures r.Some? ==> -1 <= 2 * r.value.pos.1 + h - 2 * click.value.1 <= 1
  {
    match click
    case None => None
    case Some((cx, cy)) => Some(Placement(PastePosition(cx, cy, w, h), outPath))
  }

  // -------------------------------------------------------------- main loop

  const OutputDir := "output1"

  /**
   * The derivations of one pass of `main`: a missing logo or cap restarts the
   * loop (`None`); otherwise the files are used where they are (the job's
   * logo and cap are the paths as typed) and the output
   * goes to `output1/<stem of the cap's name>_with_logo.png`.
   */
  function MainStep(logoPath: string, logoExists: bool, capPath: string, capExists: bool, parsed: Option<(real, real)>)
    : (r: Option<AiPart.Job>)
    ensures r.Some? <==> logoExists && capExists
    ensures r.Some? ==> r.value.logo == logoPath && r.value.cap == capPath
    ensures r.Some? ==> r.value.outPath == OutputDir + "/" + OutputName(capPath)
    ensures r.Some? ==> r.value.size == AiPart.LogoSizeFromInput(parsed)
  {
    assert OutputDir[|OutputDir| - 1] == '1';
    WithLogoPathShape(OutputDir, capPath);
    if !logoExists || !capExists then None
    else Some(AiPart.Job(logoPath, capPath, AiPart.LogoSizeFromInput(parsed), WithLogoPath(OutputDir, capPath)))
  }

  // ----------------------------------------------------------------- summary

  /** One processed result as the summary sees it; the two sizes are the text `str()` gives for them. */
  datatype Item = Item(image: string, placement: string, wText: string, hText: string)

  /** `- <image file name>: <placement> @ <w>×<h> cm`: the line opens with the image's file name and closes with the unit. */
  function SummaryLine(i: Item): (line: string)
    ensures |line| == |Basename(i.image)| + |i.placement| + |i.wText| + |i.hText| + 11
    ensures line[..|Basename(i.image)| + 4] == "- " + Basename(i.image) + ": "
    ensures line[|line| - 3..] == " cm"
  {
    Bullet(Basename(i.image), i.placement, i.wText, i.hText)
  }

  /**
   * The f-string of `SummaryLine` over an already computed file name. It is kept
   * apart only so that the layout is proved without `Basename`'s recursion in
   * the solver's context, which otherwise exceeds its resource limit.
   */
  function Bullet(name: string, placement: string, w: string, h: string): (line: string)
    ensures |line| == |name| + |placement| + |w| + |h| + 11
    ensures line[..|name| + 4] == "- " + name + ": "
    ensures line[|line| - 3..] == " cm"
  {
    "- " + name + ": " + placement + " @ " + w + "×" + h + " cm"
  }

  function SummaryLines(items: seq<Item>): (lines: seq<string>)
    ensures |lines| == |items|
    ensures forall k :: 0 <= k < |items| ==> lines[k] == SummaryLine(items[k])
  {
    seq(|items|, k requires 0 <= k < |items| => SummaryLine(items[k]))
  }

  const NoItems := "No items were processed."
  const Heading := "Report summary:\n"

  /**
   * `ai_generate_summary`: a fixed sentence for no items; without a client the
   * heading followed by one line per item; with one, the model's reply
   * (`reply`, already stripped).
   */
  function Summary(items: seq<Item>, reply: Option<string>): (r: string)
    ensures |items| == 0 ==> r == NoItems
    ensures |items| > 0 && reply.None? ==> |Heading| <= |r| && r[..|Heading|] == Heading
    ensures |items| > 0 && reply.Some? ==> r == reply.value
  {
    if |items| == 0 then NoItems
    else if reply.None? then Heading + Join(SummaryLines(items), '\n')
    else reply.value
  }

  predicate Plain(i: Item) {
    Free(i.image, '\n') && Free(i.placement, '\n') && Free(i.wText, '\n') && Free(i.hText, '\n')
  }

  lemma {:induction false} SummaryLineFree(i: Item)
    requires Plain(i)
    ensures Free(SummaryLine(i), '\n')
  {
    var b := Basename(i.image);
    SuffixFree(i.image, |i.image| - |b|, '\n');
    SeparatorsFree();
    var s1 := "- " + b;
    ConcatFree("- ", b, '\n');
    var s2 := s1 + ": ";
    ConcatFree(s1, ": ", '\n');
    var s3 := s2 + i.placement;
    ConcatFree(s2, i.placement, '\n');
    var s4 := s3 + " @ ";
    ConcatFree(s3, " @ ", '\n');
    var s5 := s4 + i.wText;
    ConcatFree(s4, i.wText, '\n');
    var s6 := s5 + "×";
    ConcatFree(s5, "×", '\n');
    var s7 := s6 + i.hText;
    ConcatFree(s6, i.hText, '\n');
    ConcatFree(s7, " cm", '\n');
    assert SummaryLine(i) == s7 + " cm";
  }

  lemma SeparatorsFree()
    ensures Free("- ", '\n') && Free(": ", '\n') && Free(" @ ", '\n') && Free("×", '\n') && Free(" cm", '\n')
  {
  }

  lemma {:induction false} SuffixFree(s: string, k: nat, ch: char)
    requires Free(s, ch) && k <= |s|
    ensures Free(s[k..], ch)
  {
    forall j | 0 <= j < |s| - k ensures s[k..][j] != ch {
      assert s[k..][j] == s[k + j];
    }
  }

  lemma {:induction false} ConcatFree(a: string, b: string, ch: char)
    requires Free(a, ch) && Free(b, ch)
    ensures Free(a + b, ch)
  {
    forall k | 0 <= k < |a + b| ensures (a + b)[k] != ch {
      if k >= |a| { assert (a + b)[k] == b[k - |a|]; }
    }
  }

  /**
   * Without a client, the summary after its heading splits at newlines into
   * exactly one line per item, in order, provided no field holds a newline
   * (`input().strip()` never yields one).
   */
  lemma {:induction false} SummaryListsEveryItem(items: seq<Item>)
    requires |items| > 0 && forall k :: 0 <= k < |items| ==> Plain(items[k])
    ensures Split(Summary(items, None)[|Heading|..], '\n') == SummaryLines(items)
  {
    var lines := SummaryLines(items);
    forall k | 0 <= k < |lines| ensures Free(lines[k], '\n') {
      SummaryLineFree(items[k]);
    }
    SplitJoin(lines, '\n');
    assert Summary(items, None)[|Heading|..] == Join(lines, '\n');
  }
}
