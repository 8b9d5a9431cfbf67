/** Hyperlinks travel apart from the lines: cells share link objects, and every streak of cells that hold
    one object is recorded once, with a copy of the link. */
module Hyperlinks {
  import opened Options

  /** What a link says. */
  type Target = string

  /** A link object; cells that hold the same object belong to the same link. */
  class Link {
    const target: Target

    constructor (target: Target)
      ensures this.target == target
    {
      this.target := target;
    }
  }

  datatype Cell = Cell(text: string, link: Option<Link>)

  /** A line and its stable row index. */
  datatype Line = Line(row: int, cells: seq<Cell>)

  datatype Range = Range(start: nat, end: nat)
  {
    predicate IsEmpty() {
      start >= end
    }

    predicate Has(x: nat) {
      start <= x < end
    }
  }

  datatype CellCoordinates = CellCoordinates(lineIdx: nat, cols: Range)

  datatype LineHyperlink = LineHyperlink(link: Target, coords: seq<CellCoordinates>)

  datatype SerializedLines = SerializedLines(lines: seq<Line>, hyperlinks: seq<LineHyperlink>)

  /** `range_union`: the hull of two ranges. */
  function RangeUnion(a: Range, b: Range): (r: Range)
    ensures forall x: nat :: a.Has(x) || b.Has(x) ==> r.Has(x)
    ensures !a.IsEmpty() && !b.IsEmpty() ==> (r.start == a.start || r.start == b.start) && (r.end == a.end || r.end == b.end)
  {
    if a.IsEmpty() then b
    else if b.IsEmpty() then a
    else Range(if a.start < b.start then a.start else b.start, if a.end < b.end then b.end else a.end)
  }

  // ----- streaks -----

  function StreakStart(cells: seq<Cell>, x: nat): (s: nat)
    requires x < |cells|
    ensures s <= x && forall j :: s <= j <= x ==> cells[j].link == cells[x].link
    ensures s > 0 ==> cells[s - 1].link != cells[x].link
  {
    if x == 0 || cells[x - 1].link != cells[x].link then x else StreakStart(cells, x - 1)
  }

  /** The record of the streak that ends with the cell at `x`. */
  function Record(cells: seq<Cell>, lineIdx: nat, x: nat): LineHyperlink
    requires x < |cells| && cells[x].link.Some?
  {
    LineHyperlink(cells[x].link.value.target, [CellCoordinates(lineIdx, Range(StreakStart(cells, x), x + 1))])
  }

  predicate EndsAt(cells: seq<Cell>, x: nat)
    requires x < |cells|
  {
    cells[x].link.Some? && (x + 1 < |cells| ==> cells[x + 1].link != cells[x].link)
  }

  /** The streaks that end before `n`, from left to right. */
  function Streaks(cells: seq<Cell>, lineIdx: nat, n: nat): seq<LineHyperlink>
    requires n <= |cells|
  {
    if n == 0 then []
    else Streaks(cells, lineIdx, n - 1) + (if EndsAt(cells, n - 1) then [Record(cells, lineIdx, n - 1)] else [])
  }

  function StreaksOfLines(lines: seq<Line>, n: nat): seq<LineHyperlink>
    requires n <= |lines|
  {
    if n == 0 then []
    else StreaksOfLines(lines, n - 1) + Streaks(lines[n - 1].cells, n - 1, |lines[n - 1].cells|)
  }

  function Stripped(cells: seq<Cell>): seq<Cell> {
    seq(|cells|, x requires 0 <= x < |cells| => Cell(cells[x].text, None))
  }

  function StrippedLines(lines: seq<Line>): seq<Line> {
    seq(|lines|, i requires 0 <= i < |lines| => Line(lines[i].row, Stripped(lines[i].cells)))
  }

  // One line of `SerializedLines::from`.
  method StripLine(lineIdx: nat, cells: seq<Cell>, prior: seq<LineHyperlink>) returns (out: seq<Cell>, hyperlinks: seq<LineHyperlink>)
    ensures out == Stripped(cells)
    ensures hyperlinks == prior + Streaks(cells, lineIdx, |cells|)
  {
    out, hyperlinks := cells, prior;
    var currentLink: Option<Link> := None;
    var currentRange := Range(0, 0);
    for x := 0 to |cells|
      invariant |out| == |cells|
      invariant forall j :: 0 <= j < |cells| ==> out[j] == if j < x then Cell(cells[j].text, None) else cells[j]
      invariant currentLink == if x == 0 then None else cells[x - 1].link
      invariant currentLink.Some? ==> currentRange == Range(StreakStart(cells, x - 1), x)
      invariant hyperlinks == prior + if x == 0 then [] else Streaks(cells, lineIdx, x - 1)
    {
      // Unset the hyperlink on the cell, and record it for later restoration
      if out[x].link.Some? {
        var link := out[x].link.value;
        out := out[x := Cell(out[x].text, None)];
        if currentLink.Some? && currentLink.value == link {
          // Continue the current streak
          currentRange := RangeUnion(currentRange, Range(x, x + 1));
        } else if currentLink.Some? {
          // A different link: push the current data and start a new one
          hyperlinks := hyperlinks + [LineHyperlink(currentLink.value.target, [CellCoordinates(lineIdx, currentRange)])];
          currentRange := Range(x, x + 1);
          currentLink := Some(link);
        } else {
          // Starting a new streak
          currentRange := Range(x, x + 1);
          currentLink := Some(link);
        }
      } else if currentLink.Some? {
        // Wrap up a prior streak
        hyperlinks := hyperlinks + [LineHyperlink(currentLink.value.target, [CellCoordinates(lineIdx, currentRange)])];
        currentRange := Range(0, 0);
        currentLink := None;
      }
    }
    if currentLink.Some? {
      // Wrap up final streak
      hyperlinks := hyperlinks + [LineHyperlink(currentLink.value.target, [CellCoordinates(lineIdx, currentRange)])];
    }
  }

  /** `SerializedLines::from` */
  method FromLines(lines: seq<Line>) returns (s: SerializedLines)
    ensures s == SerializedLines(StrippedLines(lines), StreaksOfLines(lines, |lines|))
  {
    var out := lines;
    var hyperlinks: seq<LineHyperlink> := [];
    hide Stripped, Streaks;
    for lineIdx := 0 to |lines|
      invariant |out| == |lines|
      invariant forall i :: 0 <= i < |lines| ==>
                  out[i] == if i < lineIdx then Line(lines[i].row, Stripped(lines[i].cells)) else lines[i]
      invariant hyperlinks == StreaksOfLines(lines, lineIdx)
    {
      var cells;
      cells, hyperlinks := StripLine(lineIdx, out[lineIdx].cells, hyperlinks);
      out := out[lineIdx := Line(out[lineIdx].row, cells)];
    }
    s := SerializedLines(out, hyperlinks);
  }

  // ----- restoring -----

  /** Set the link of the cells in `cols`, if they exist. */
  function SetCells(cells: seq<Cell>, cols: Range, url: Link): (out: seq<Cell>)
    ensures |out| == |cells|
  {
    if cols.start <= cols.end <= |cells| then
      seq(|cells|, x requires 0 <= x < |cells| =>
        if cols.start <= x < cols.end then Cell(cells[x].text, Some(url)) else cells[x])
    else cells
  }

  function SetCoord(lines: seq<Line>, at: CellCoordinates, url: Link): (out: seq<Line>)
    ensures |out| == |lines|
  {
    if at.lineIdx < |lines| then
      lines[at.lineIdx := Line(lines[at.lineIdx].row, SetCells(lines[at.lineIdx].cells, at.cols, url))]
    else lines
  }

  function SetCoords(lines: seq<Line>, coords: seq<CellCoordinates>, url: Link): (out: seq<Line>)
    ensures |out| == |lines|
  {
    if coords == [] then lines
    else SetCoord(SetCoords(lines, coords[..|coords| - 1], url), coords[|coords| - 1], url)
  }

  /** The first `k` records restored, the `i`-th with the object `urls[i]`. */
  function RestoreUpTo(lines: seq<Line>, hyperlinks: seq<LineHyperlink>, urls: seq<Link>, k: nat): (out: seq<Line>)
    requires k <= |hyperlinks| && k <= |urls|
    ensures |out| == |lines|
  {
    if k == 0 then lines
    else SetCoords(RestoreUpTo(lines, hyperlinks, urls, k - 1), hyperlinks[k - 1].coords, urls[k - 1])
  }

  ghost predicate AllDistinct(urls: seq<Link>) {
    forall i, j :: 0 <= i < j < |urls| ==> urls[i] != urls[j]
  }

  ghost predicate Copies(hyperlinks: seq<LineHyperlink>, urls: seq<Link>) {
    |urls| == |hyperlinks| && forall i :: 0 <= i < |urls| ==> urls[i].target == hyperlinks[i].link
  }

  /** `extract_data`: a new object for every record. */
  method ExtractData(s: SerializedLines) returns (lines: seq<Line>, ghost urls: seq<Link>)
    ensures Copies(s.hyperlinks, urls) && AllDistinct(urls) && forall u :: u in urls ==> fresh(u)
    ensures lines == RestoreUpTo(s.lines, s.hyperlinks, urls, |s.hyperlinks|)
  {
    lines, urls := s.lines, [];
    if s.hyperlinks == [] {
      return;
    }
    for k := 0 to |s.hyperlinks|
      invariant |urls| == k && AllDistinct(urls) && forall u :: u in urls ==> fresh(u)
      invariant forall i :: 0 <= i < k ==> urls[i].target == s.hyperlinks[i].link
      invariant lines == RestoreUpTo(s.lines, s.hyperlinks, urls, k)
    {
      var url := new Link(s.hyperlinks[k].link);
      ghost var more := urls + [url];
      SameRestored(s.lines, s.hyperlinks, urls, more, k);
      urls := more;
      lines := SetAll(lines, s.hyperlinks[k].coords, url);
    }
  }

  lemma {:induction false} SameRestored(lines: seq<Line>, hyperlinks: seq<LineHyperlink>, urls: seq<Link>, more: seq<Link>, k: nat)
    requires k <= |hyperlinks| && k <= |urls| <= |more| && more[..|urls|] == urls
    ensures RestoreUpTo(lines, hyperlinks, more, k) == RestoreUpTo(lines, hyperlinks, urls, k)
  {
    if k > 0 {
      SameRestored(lines, hyperlinks, urls, more, k - 1);
      assert more[..|urls|][k - 1] == urls[k - 1];
    }
  }

  // One record.
  method SetAll(lines: seq<Line>, coords: seq<CellCoordinates>, url: Link) returns (out: seq<Line>)
    ensures out == SetCoords(lines, coords, url)
  {
    out := lines;
    for i := 0 to |coords|
      invariant out == SetCoords(lines, coords[..i], url)
    {
      assert coords[..i + 1][..i] == coords[..i];
      var coord := coords[i];
      if coord.lineIdx < |out| {
        var line := out[coord.lineIdx];
        if coord.cols.start <= coord.cols.end <= |line.cells| {
          var cells := line.cells;
          for x := coord.cols.start to coord.cols.end
            invariant |cells| == |line.cells|
            invariant forall j :: 0 <= j < |cells| ==>
                        cells[j] == if coord.cols.start <= j < x then Cell(line.cells[j].text, Some(url)) else line.cells[j]
          {
            cells := cells[x := Cell(cells[x].text, Some(url))];
          }
          assert cells == SetCells(line.cells, coord.cols, url);
          out := out[coord.lineIdx := Line(line.row, cells)];
        }
      }
    }
    assert coords[..|coords|] == coords;
  }

  // ----- nothing is lost -----

  /** A maximal stretch of cells that hold one link object. */
  ghost predicate IsStreak(cells: seq<Cell>, r: Range) {
    && r.start < r.end <= |cells| && cells[r.start].link.Some?
    && (forall j :: r.start <= j < r.end ==> cells[j].link == cells[r.start].link)
    && (r.start > 0 ==> cells[r.start - 1].link != cells[r.start].link)
    && (r.end < |cells| ==> cells[r.end].link != cells[r.start].link)
  }

  /** A record of one streak of the line. */
  ghost predicate IsRecord(cells: seq<Cell>, lineIdx: nat, rec: LineHyperlink) {
    && |rec.coords| == 1 && rec.coords[0].lineIdx == lineIdx
    && IsStreak(cells, Cols(rec))
    && rec.link == cells[Cols(rec).start].link.value.target
  }

  function Cols(rec: LineHyperlink): Range {
    if rec.coords == [] then Range(0, 0) else rec.coords[0].cols
  }

  ghost predicate Covers(rec: LineHyperlink, lineIdx: nat, x: nat) {
    |rec.coords| == 1 && rec.coords[0].lineIdx == lineIdx && Cols(rec).Has(x)
  }

  ghost predicate Covered(recs: seq<LineHyperlink>, lineIdx: nat, x: nat) {
    exists i :: 0 <= i < |recs| && Covers(recs[i], lineIdx, x)
  }

  /** The streak at `x` goes on past `n`. */
  ghost predicate StillOpen(cells: seq<Cell>, x: nat, n: nat) {
    && x <= n < |cells| && cells[x].link.Some?
    && forall j :: x <= j <= n ==> cells[j].link == cells[x].link
  }

  /** Records of streaks that end before `n`, from left to right and disjoint. */
  ghost predicate RecordsInOrder(cells: seq<Cell>, lineIdx: nat, recs: seq<LineHyperlink>, n: nat) {
    && (forall i :: 0 <= i < |recs| ==> IsRecord(cells, lineIdx, recs[i]) && Cols(recs[i]).end <= n)
    && (forall i, j :: 0 <= i < j < |recs| ==> Cols(recs[i]).end <= Cols(recs[j]).start)
  }

  /** Within a line the recorded ranges come from left to right and are disjoint. */
  lemma {:induction false} StreaksInOrder(cells: seq<Cell>, lineIdx: nat, n: nat)
    requires n <= |cells|
    ensures RecordsInOrder(cells, lineIdx, Streaks(cells, lineIdx, n), n)
  {
    if n > 0 {
      StreaksInOrder(cells, lineIdx, n - 1);
      if EndsAt(cells, n - 1) {
        OneMoreRecord(cells, lineIdx, Streaks(cells, lineIdx, n - 1), n);
      }
    }
  }

  lemma OneMoreRecord(cells: seq<Cell>, lineIdx: nat, prior: seq<LineHyperlink>, n: nat)
    requires 0 < n <= |cells| && EndsAt(cells, n - 1) && RecordsInOrder(cells, lineIdx, prior, n - 1)
    ensures RecordsInOrder(cells, lineIdx, prior + [Record(cells, lineIdx, n - 1)], n)
  {
    var rec := Record(cells, lineIdx, n - 1);
    assert IsRecord(cells, lineIdx, rec);
    forall i | 0 <= i < |prior| ensures Cols(prior[i]).end <= Cols(rec).start {
      assert IsRecord(cells, lineIdx, prior[i]);
      ApartFrom(cells, Cols(prior[i]), Cols(rec).start, n);
    }
  }

  /** A streak that ends before another one's last cell ends before its first. */
  lemma ApartFrom(cells: seq<Cell>, r: Range, start: nat, n: nat)
    requires IsStreak(cells, r) && start < n <= |cells| && r.end < n
    requires forall j :: start <= j < n ==> cells[j].link == cells[n - 1].link
    ensures r.end <= start
  {
    assert cells[r.end].link != cells[r.end - 1].link;
  }

  lemma CoveredByMore(recs: seq<LineHyperlink>, rec: LineHyperlink, lineIdx: nat, x: nat)
    ensures Covered(recs + [rec], lineIdx, x) <==> Covered(recs, lineIdx, x) || Covers(rec, lineIdx, x)
  {
    var all := recs + [rec];
    assert all[|recs|] == rec;
    if Covered(recs, lineIdx, x) {
      var i :| 0 <= i < |recs| && Covers(recs[i], lineIdx, x);
      assert all[i] == recs[i];
    }
  }

  /** Every linked cell is in a record or in a streak that is not finished. */
  lemma {:induction false} LinkedIsCovered(cells: seq<Cell>, lineIdx: nat, n: nat, x: nat)
    requires x < n <= |cells| && cells[x].link.Some?
    ensures Covered(Streaks(cells, lineIdx, n), lineIdx, x) || StillOpen(cells, x, n)
    decreases n
  {
    var prior := Streaks(cells, lineIdx, n - 1);
    if x < n - 1 {
      LinkedIsCovered(cells, lineIdx, n - 1, x);
    }
    if EndsAt(cells, n - 1) {
      CoveredByMore(prior, Record(cells, lineIdx, n - 1), lineIdx, x);
      if StillOpen(cells, x, n - 1) {
        FromStart(cells, x, n - 1);
      }
    } else {
      assert prior + [] == prior;
    }
  }

  lemma FromStart(cells: seq<Cell>, x: nat, n: nat)
    requires StillOpen(cells, x, n)
    ensures StreakStart(cells, n) <= x
  {
    var s := StreakStart(cells, n);
    assert s > 0 ==> cells[s - 1].link != cells[n].link;
  }

  // ----- all lines -----

  ghost predicate IsRecordOf(lines: seq<Line>, rec: LineHyperlink, n: nat) {
    && |rec.coords| == 1 && rec.coords[0].lineIdx < n <= |lines|
    && IsRecord(lines[rec.coords[0].lineIdx].cells, rec.coords[0].lineIdx, rec)
  }

  ghost predicate AllRecords(lines: seq<Line>, recs: seq<LineHyperlink>, n: nat) {
    forall i :: 0 <= i < |recs| ==> IsRecordOf(lines, recs[i], n)
  }

  /** No cell is in two of the records. */
  ghost predicate Disjoint(recs: seq<LineHyperlink>) {
    forall i, j :: 0 <= i < j < |recs| ==> Apart(recs[i], recs[j])
  }

  ghost predicate Apart(a: LineHyperlink, b: LineHyperlink) {
    forall l: nat, x: nat :: !(Covers(a, l, x) && Covers(b, l, x))
  }

  lemma {:induction false} RecordsOfLines(lines: seq<Line>, n: nat)
    requires n <= |lines|
    ensures AllRecords(lines, StreaksOfLines(lines, n), n) && Disjoint(StreaksOfLines(lines, n))
  {
    if n > 0 {
      RecordsOfLines(lines, n - 1);
      var cells := lines[n - 1].cells;
      StreaksInOrder(cells, n - 1, |cells|);
      OneMoreLine(lines, n, StreaksOfLines(lines, n - 1), Streaks(cells, n - 1, |cells|));
    }
  }

  lemma OneMoreLine(lines: seq<Line>, n: nat, prior: seq<LineHyperlink>, added: seq<LineHyperlink>)
    requires 0 < n <= |lines| && AllRecords(lines, prior, n - 1) && Disjoint(prior)
    requires RecordsInOrder(lines[n - 1].cells, n - 1, added, |lines[n - 1].cells|)
    ensures AllRecords(lines, prior + added, n) && Disjoint(prior + added)
  {
    var recs := prior + added;
    hide IsStreak;
    forall i | 0 <= i < |recs| ensures IsRecordOf(lines, recs[i], n) {
      if i < |prior| {
        assert IsRecordOf(lines, prior[i], n - 1);
      } else {
        assert IsRecord(lines[n - 1].cells, n - 1, added[i - |prior|]);
      }
    }
    forall i, j | 0 <= i < j < |recs| ensures Apart(recs[i], recs[j]) {
      if j < |prior| {
        assert Apart(prior[i], prior[j]);
      } else if i < |prior| {
        assert IsRecordOf(lines, prior[i], n - 1);
        assert IsRecord(lines[n - 1].cells, n - 1, added[j - |prior|]);
      } else {
        assert Cols(added[i - |prior|]).end <= Cols(added[j - |prior|]).start;
      }
    }
  }

  lemma {:induction false} AllLinkedCovered(lines: seq<Line>, n: nat, l: nat, x: nat)
    requires l < n <= |lines| && x < |lines[l].cells| && lines[l].cells[x].link.Some?
    ensures Covered(StreaksOfLines(lines, n), l, x)
    decreases n
  {
    var cells := lines[n - 1].cells;
    var prior, added := StreaksOfLines(lines, n - 1), Streaks(cells, n - 1, |cells|);
    if l < n - 1 {
      AllLinkedCovered(lines, n - 1, l, x);
      var i :| 0 <= i < |prior| && Covers(prior[i], l, x);
      assert (prior + added)[i] == prior[i];
    } else {
      LinkedIsCovered(cells, n - 1, |cells|, x);
      var i :| 0 <= i < |added| && Covers(added[i], l, x);
      assert (prior + added)[|prior| + i] == added[i];
    }
  }

  /** What a cell holds after the first `k` records have been restored: the object of the record it is in,
      if that is among them, and otherwise what it held before. */
  lemma {:induction false} RestoredCell(lines: seq<Line>, recs: seq<LineHyperlink>, urls: seq<Link>, k: nat, l: nat, x: nat)
    requires AllRecords(lines, recs, |lines|) && Disjoint(recs) && k <= |recs| == |urls|
    requires l < |lines| && x < |lines[l].cells|
    ensures var out := RestoreUpTo(StrippedLines(lines), recs, urls, k);
            && |out| == |lines| && out[l].row == lines[l].row && |out[l].cells| == |lines[l].cells|
            && out[l].cells[x].text == lines[l].cells[x].text
            && (forall i :: 0 <= i < k && Covers(recs[i], l, x) ==> out[l].cells[x].link == Some(urls[i]))
            && ((forall i :: 0 <= i < k ==> !Covers(recs[i], l, x)) ==> out[l].cells[x].link == None)
  {
    if k > 0 {
      RestoredCell(lines, recs, urls, k - 1, l, x);
      var prior := RestoreUpTo(StrippedLines(lines), recs, urls, k - 1);
      var rec := recs[k - 1];
      assert IsRecordOf(lines, rec, |lines|);
      SetsCovered(prior, rec, urls[k - 1], l, x, |lines[l].cells|);
      hide IsRecordOf, SetCoords, StrippedLines;
      forall i | 0 <= i < k && Covers(recs[i], l, x)
        ensures i < k - 1 ==> !Covers(rec, l, x)
      {
        if i < k - 1 {
          assert Apart(recs[i], rec);
        }
      }
    }
  }

  lemma SetsCovered(lines: seq<Line>, rec: LineHyperlink, url: Link, l: nat, x: nat, n: nat)
    requires |rec.coords| == 1 && l < |lines| && x < |lines[l].cells| == n
    requires rec.coords[0].lineIdx == l ==> Cols(rec).start <= Cols(rec).end <= n
    ensures var out := SetCoords(lines, rec.coords, url);
            && out[l].row == lines[l].row && |out[l].cells| == n
            && out[l].cells[x] == if Covers(rec, l, x) then Cell(lines[l].cells[x].text, Some(url)) else lines[l].cells[x]
  {
    assert rec.coords[..0] == [];
    assert SetCoords(lines, [], url) == lines;
    assert SetCoords(lines, rec.coords, url) == SetCoord(lines, rec.coords[0], url);
  }

  ghost predicate SameLink(a: Option<Link>, b: Option<Link>) {
    && (a.None? <==> b.None?)
    && (a.Some? ==> a.value.target == b.value.target)
  }

  /** What comes back after `lines` have been serialized, with the link objects `urls`. */
  ghost function Returned(lines: seq<Line>, urls: seq<Link>): (out: seq<Line>)
    requires Copies(StreaksOfLines(lines, |lines|), urls)
    ensures |out| == |lines|
  {
    RestoreUpTo(StrippedLines(lines), StreaksOfLines(lines, |lines|), urls, |urls|)
  }

  /** The record a cell was put in. */
  lemma CellReturns(lines: seq<Line>, urls: seq<Link>, l: nat, x: nat) returns (i: nat)
    requires Copies(StreaksOfLines(lines, |lines|), urls) && l < |lines| && x < |lines[l].cells|
    ensures var out := Returned(lines, urls);
            && out[l].row == lines[l].row && |out[l].cells| == |lines[l].cells|
            && out[l].cells[x].text == lines[l].cells[x].text
            && (lines[l].cells[x].link.None? ==> out[l].cells[x].link == None)
            && (lines[l].cells[x].link.Some? ==>
                  && i < |urls| && out[l].cells[x].link == Some(urls[i])
                  && Covers(StreaksOfLines(lines, |lines|)[i], l, x))
  {
    i := 0;
    var recs := StreaksOfLines(lines, |lines|);
    RecordsOfLines(lines, |lines|);
    RestoredCell(lines, recs, urls, |urls|, l, x);
    if lines[l].cells[x].link.Some? {
      AllLinkedCovered(lines, |lines|, l, x);
      i :| 0 <= i < |recs| && Covers(recs[i], l, x);
    } else {
      forall i | 0 <= i < |recs| ensures !Covers(recs[i], l, x) {
        assert IsRecordOf(lines, recs[i], |lines|);
      }
    }
  }

  /** Serializing and restoring loses nothing: every cell keeps its text and gets a link that says the same. */
  lemma NothingIsLost(lines: seq<Line>, urls: seq<Link>, l: nat)
    requires Copies(StreaksOfLines(lines, |lines|), urls) && l < |lines|
    ensures var out := Returned(lines, urls)[l];
            && out.row == lines[l].row && |out.cells| == |lines[l].cells|
            && forall x :: 0 <= x < |out.cells| ==>
                 out.cells[x].text == lines[l].cells[x].text && SameLink(out.cells[x].link, lines[l].cells[x].link)
  {
    SameShape(lines, urls, l);
    var out := Returned(lines, urls)[l];
    RecordsOfLines(lines, |lines|);
    var recs := StreaksOfLines(lines, |lines|);
    forall x | 0 <= x < |out.cells|
      ensures out.cells[x].text == lines[l].cells[x].text && SameLink(out.cells[x].link, lines[l].cells[x].link)
    {
      var i := CellReturns(lines, urls, l, x);
      if lines[l].cells[x].link.Some? {
        assert IsRecordOf(lines, recs[i], |lines|);
      }
    }
  }

  lemma SameShape(lines: seq<Line>, urls: seq<Link>, l: nat)
    requires Copies(StreaksOfLines(lines, |lines|), urls) && l < |lines|
    ensures Returned(lines, urls)[l].row == lines[l].row && |Returned(lines, urls)[l].cells| == |lines[l].cells|
  {
    RecordsOfLines(lines, |lines|);
    ShapeKept(lines, StreaksOfLines(lines, |lines|), urls, |urls|, l);
  }

  lemma {:induction false} ShapeKept(lines: seq<Line>, recs: seq<LineHyperlink>, urls: seq<Link>, k: nat, l: nat)
    requires AllRecords(lines, recs, |lines|) && k <= |recs| == |urls| && l < |lines|
    ensures var out := RestoreUpTo(StrippedLines(lines), recs, urls, k);
            out[l].row == lines[l].row && |out[l].cells| == |lines[l].cells|
  {
    if k > 0 {
      ShapeKept(lines, recs, urls, k - 1, l);
      assert IsRecordOf(lines, recs[k - 1], |lines|);
      CoordsKeepShape(RestoreUpTo(StrippedLines(lines), recs, urls, k - 1), recs[k - 1].coords, urls[k - 1], l);
    }
  }

  lemma {:induction false} CoordsKeepShape(lines: seq<Line>, coords: seq<CellCoordinates>, url: Link, l: nat)
    requires l < |lines|
    ensures SetCoords(lines, coords, url)[l].row == lines[l].row && |SetCoords(lines, coords, url)[l].cells| == |lines[l].cells|
  {
    if coords != [] {
      CoordsKeepShape(lines, coords[..|coords| - 1], url, l);
    }
  }

  /** Two cells of one line between which every cell holds the same link object. */
  ghost predicate OneStreak(cells: seq<Cell>, x: nat, y: nat)
    requires x < |cells| && y < |cells|
  {
    forall j :: x <= j <= y || y <= j <= x ==> cells[j].link == cells[x].link
  }

  lemma StreakHolds(cells: seq<Cell>, r: Range, x: nat, y: nat)
    requires IsStreak(cells, r) && r.Has(x) && y < |cells|
    ensures r.Has(y) <==> OneStreak(cells, x, y)
  {
    assert r.end < |cells| ==> cells[r.end].link != cells[x].link;
    assert r.start > 0 ==> cells[r.start - 1].link != cells[x].link;
  }

  /** Objects are shared within a streak and nowhere else: a link that comes back in another streak, or in
      another line, is another object, even where the original cells shared one. */
  lemma IdentityIsPerStreak(lines: seq<Line>, urls: seq<Link>, l: nat, x: nat, m: nat, y: nat)
    requires Copies(StreaksOfLines(lines, |lines|), urls) && AllDistinct(urls)
    requires l < |lines| && x < |lines[l].cells| && lines[l].cells[x].link.Some?
    requires m < |lines| && y < |lines[m].cells| && lines[m].cells[y].link.Some?
    requires |Returned(lines, urls)[l].cells| == |lines[l].cells| && |Returned(lines, urls)[m].cells| == |lines[m].cells|
    ensures Returned(lines, urls)[l].cells[x].link == Returned(lines, urls)[m].cells[y].link
            <==> l == m && OneStreak(lines[l].cells, x, y)
  {
    var recs := StreaksOfLines(lines, |lines|);
    RecordsOfLines(lines, |lines|);
    var i := CellReturns(lines, urls, l, x);
    var j := CellReturns(lines, urls, m, y);
    assert IsRecordOf(lines, recs[i], |lines|) && IsRecordOf(lines, recs[j], |lines|);
    if l == m {
      StreakHolds(lines[l].cells, Cols(recs[i]), x, y);
      assert i < j ==> Apart(recs[i], recs[j]);
      assert j < i ==> Apart(recs[j], recs[i]);
    }
  }
}
