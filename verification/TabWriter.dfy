/** The tab-aligned text builder of the describe output. */
module TabWriter {
  import opened Sequences
  import opened Whitespace

  const PAD: nat := 2

  datatype Line = Line(cells: seq<string>, trimEnd: bool)

  function Spaces(n: nat): (s: string)
    ensures |s| == n && forall i :: 0 <= i < n ==> s[i] == ' '
  {
    seq(n, _ => ' ')
  }

  function Indent(level: nat): (s: string)
    ensures |s| == 2 * level && forall i :: 0 <= i < |s| ==> s[i] == ' '
  {
    Spaces(2 * level)
  }

  // ----- escaping -----

  /** Replaces each occurrence of a character. */
  function Replaced(s: string, what: char, with: string): string {
    if s == "" then "" else (if s[0] == what then with else [s[0]]) + Replaced(s[1..], what, with)
  }

  function EscapeTerminal(s: string): string {
    Replaced(Replaced(s, '\U{1B}', "^["), '\r', "\\r")
  }

  function Visible(c: char): string {
    if c == '\U{1B}' then "^[" else if c == '\r' then "\\r" else [c]
  }

  function AllVisible(s: string): string {
    if s == "" then "" else Visible(s[0]) + AllVisible(s[1..])
  }

  lemma ReplacedCons(c: char, s: string, what: char, with: string)
    ensures Replaced([c] + s, what, with) == (if c == what then with else [c]) + Replaced(s, what, with)
  {
    assert ([c] + s)[1..] == s;
  }

  lemma {:induction false} ReplacedConcat(a: string, b: string, what: char, with: string)
    ensures Replaced(a + b, what, with) == Replaced(a, what, with) + Replaced(b, what, with)
  {
    if a == "" {
      assert a + b == b;
    } else {
      hide Replaced;
      ReplacedConcat(a[1..], b, what, with);
      ReplacedCons(a[0], a[1..], what, with);
      ReplacedCons(a[0], a[1..] + b, what, with);
      Associative([a[0]], a[1..], b);
      Associative(if a[0] == what then with else [a[0]], Replaced(a[1..], what, with), Replaced(b, what, with));
      assert [a[0]] + a[1..] == a;
    }
  }

  /** The two replacements do not disturb each other: what is left shows every
      escape and carriage return, keeps every other character and holds
      neither control. */
  lemma {:induction false} EscapingIsVisible(s: string)
    ensures EscapeTerminal(s) == AllVisible(s)
    ensures '\U{1B}' !in EscapeTerminal(s) && '\r' !in EscapeTerminal(s)
  {
    if s != "" {
      EscapingIsVisible(s[1..]);
      var head := if s[0] == '\U{1B}' then "^[" else [s[0]];
      ReplacedConcat(head, Replaced(s[1..], '\U{1B}', "^["), '\r', "\\r");
      HeadIsVisible(s[0]);
      hide AllVisible, Visible;
    }
  }

  lemma HeadIsVisible(c: char)
    ensures Replaced(if c == '\U{1B}' then "^[" else [c], '\r', "\\r") == Visible(c)
    ensures '\U{1B}' !in Visible(c) && '\r' !in Visible(c)
    ensures forall s :: s != "" && s[0] == c ==> AllVisible(s) == Visible(c) + AllVisible(s[1..])
  {
    assert "^["[1..] == "[" && "["[1..] == "" && [c][1..] == "";
  }

  /** What becomes of one character, and that a text is escaped character by
      character. */
  lemma EscapedOne(c: char, a: string, b: string)
    ensures EscapeTerminal([c]) == if c == '\U{1B}' then "^[" else if c == '\r' then "\\r" else [c]
    ensures EscapeTerminal(a + b) == EscapeTerminal(a) + EscapeTerminal(b)
  {
    EscapingIsVisible([c]);
    assert [c][1..] == [] && AllVisible([c]) == Visible(c) + AllVisible([]) == Visible(c);
    hide Replaced, AllVisible;
    ReplacedConcat(a, b, '\U{1B}', "^[");
    ReplacedConcat(Replaced(a, '\U{1B}', "^["), Replaced(b, '\U{1B}', "^["), '\r', "\\r");
  }

  function Escaped(lines: seq<Line>): (r: seq<Line>)
    ensures |r| == |lines|
    ensures forall k :: 0 <= k < |lines| ==> |r[k].cells| == |lines[k].cells| && r[k].trimEnd == lines[k].trimEnd
    ensures forall k, c :: 0 <= k < |lines| && 0 <= c < |lines[k].cells| ==>
      r[k].cells[c] == EscapeTerminal(lines[k].cells[c])
  {
    seq(|lines|, k requires 0 <= k < |lines| =>
      Line(seq(|lines[k].cells|, c requires 0 <= c < |lines[k].cells| => EscapeTerminal(lines[k].cells[c])),
           lines[k].trimEnd))
  }

  // ----- what the output should be -----

  predicate Columns(line: Line) {
    |line.cells| >= 2
  }

  /** The run of lines with columns that surrounds line `k`. */
  function RunStart(lines: seq<Line>, k: nat): (i: nat)
    requires k < |lines| && Columns(lines[k])
    ensures i <= k && (forall j :: i <= j <= k ==> Columns(lines[j])) && (i > 0 ==> !Columns(lines[i - 1]))
  {
    if k > 0 && Columns(lines[k - 1]) then RunStart(lines, k - 1) else k
  }

  function RunEnd(lines: seq<Line>, k: nat): (j: nat)
    requires k < |lines| && Columns(lines[k])
    ensures k < j <= |lines| && (forall i :: k <= i < j ==> Columns(lines[i])) && (j < |lines| ==> !Columns(lines[j]))
    decreases |lines| - k
  {
    if k + 1 < |lines| && Columns(lines[k + 1]) then RunEnd(lines, k + 1) else k + 1
  }

  function Block(lines: seq<Line>, k: nat): seq<Line>
    requires k < |lines| && Columns(lines[k])
  {
    lines[RunStart(lines, k)..RunEnd(lines, k)]
  }

  /** What a line asks of column `c`: its last cell asks nothing. */
  function Demand(line: Line, c: nat): nat {
    if c + 1 < |line.cells| then |line.cells[c]| + PAD else 0
  }

  function Larger(a: nat, b: nat): nat {
    if a < b then b else a
  }

  function WidthOf(block: seq<Line>, c: nat): nat {
    if block == [] then 0 else Larger(WidthOf(block[..|block| - 1], c), Demand(block[|block| - 1], c))
  }

  /** Where column `c` starts. */
  function Offset(block: seq<Line>, c: nat): nat {
    if c == 0 then 0 else Offset(block, c - 1) + WidthOf(block, c - 1)
  }

  /** The first `n` cells of a line, each but the line's last padded. */
  function Laid(block: seq<Line>, cells: seq<string>, n: nat): string
    requires n <= |cells|
  {
    if n == 0 then ""
    else
      var cell := cells[n - 1];
      Laid(block, cells, n - 1) + cell
      + if n < |cells| && |cell| <= WidthOf(block, n - 1) then Spaces(WidthOf(block, n - 1) - |cell|) else ""
  }

  function Trimmed(s: string, trimEnd: bool): string {
    if trimEnd then TrimEnd(s) else s
  }

  /** A line laid out among the lines of its block. */
  function InBlock(block: seq<Line>, line: Line): string {
    Trimmed(Laid(block, line.cells, |line.cells|), line.trimEnd)
  }

  function Rendered(lines: seq<Line>, k: nat): string
    requires k < |lines| && lines[k].cells != []
  {
    var line := lines[k];
    if !Columns(line) then Trimmed(line.cells[0], line.trimEnd)
    else InBlock(Block(lines, k), line)
  }

  predicate NoEmptyLine(lines: seq<Line>) {
    forall k :: 0 <= k < |lines| ==> lines[k].cells != []
  }

  function Output(lines: seq<Line>, n: nat): string
    requires n <= |lines| && NoEmptyLine(lines)
  {
    if n == 0 then "" else Output(lines, n - 1) + Rendered(lines, n - 1) + "\n"
  }

  // ----- alignment -----

  lemma {:induction false} WidthBoundsDemand(block: seq<Line>, c: nat)
    ensures forall i :: 0 <= i < |block| ==> Demand(block[i], c) <= WidthOf(block, c)
    ensures WidthOf(block, c) == 0 || exists i :: 0 <= i < |block| && Demand(block[i], c) == WidthOf(block, c)
  {
    if block != [] {
      var n := |block| - 1;
      WidthBoundsDemand(block[..n], c);
      assert forall i :: 0 <= i < n ==> block[..n][i] == block[i];
      if WidthOf(block, c) != 0 && WidthOf(block, c) != Demand(block[n], c) {
        var i :| 0 <= i < n && Demand(block[..n][i], c) == WidthOf(block[..n], c);
        assert Demand(block[i], c) == WidthOf(block, c);
      }
    }
  }

  /** A column is exactly as wide as its widest cell plus two, not counting the
      last cell of a line; a column of last cells only has no width. */
  lemma WidthIsExact(block: seq<Line>, c: nat)
    ensures forall i :: 0 <= i < |block| && c + 1 < |block[i].cells| ==> |block[i].cells[c]| + 2 <= WidthOf(block, c)
    ensures WidthOf(block, c) == 0
      || exists i :: 0 <= i < |block| && c + 1 < |block[i].cells| && |block[i].cells[c]| + 2 == WidthOf(block, c)
  {
    WidthBoundsDemand(block, c);
    forall i | 0 <= i < |block| && c + 1 < |block[i].cells|
      ensures |block[i].cells[c]| + 2 <= WidthOf(block, c)
    {
      assert Demand(block[i], c) <= WidthOf(block, c);
    }
    if WidthOf(block, c) != 0 {
      var i :| 0 <= i < |block| && Demand(block[i], c) == WidthOf(block, c);
    }
  }

  lemma {:induction false} LaidLength(block: seq<Line>, i: nat, n: nat)
    requires i < |block| && n < |block[i].cells|
    ensures |Laid(block, block[i].cells, n)| == Offset(block, n)
  {
    if n > 0 {
      LaidLength(block, i, n - 1);
      WidthBoundsDemand(block, n - 1);
      assert Demand(block[i], n - 1) <= WidthOf(block, n - 1);
      hide WidthOf;
    }
  }

  lemma {:induction false} LaidGrows(block: seq<Line>, cells: seq<string>, m: nat, n: nat)
    requires m <= n <= |cells|
    ensures Laid(block, cells, m) <= Laid(block, cells, n)
  {
    if m < n {
      LaidGrows(block, cells, m, n - 1);
      hide WidthOf;
    }
  }

  /** Cell `c` of a line starts where column `c` does, and nothing but spaces,
      two of them at least, follow it up to the next. */
  ghost predicate InColumn(block: seq<Line>, cells: seq<string>, c: nat)
    requires c < |cells|
  {
    var s, at := Laid(block, cells, |cells|), Offset(block, c);
    && at + |cells[c]| <= |s| && s[at..at + |cells[c]|] == cells[c]
    && (c + 1 < |cells| ==>
         && at + |cells[c]| + PAD <= Offset(block, c + 1) <= |s|
         && Blank(s, at + |cells[c]|, Offset(block, c + 1)))
  }

  predicate Blank(s: string, from: nat, to: nat) {
    to <= |s| && forall k :: from <= k < to ==> s[k] == ' '
  }

  lemma Inside(before: string, cell: string, pad: nat, s: string)
    requires before + cell + Spaces(pad) <= s
    ensures s[|before|..|before| + |cell|] == cell && Blank(s, |before| + |cell|, |before| + |cell| + pad)
  {
    var p := before + cell + Spaces(pad);
    assert forall k :: 0 <= k < |p| ==> s[k] == p[k];
    assert p[|before|..|before| + |cell|] == cell;
  }

  lemma LaidNext(block: seq<Line>, i: nat, c: nat) returns (pad: nat)
    requires i < |block| && c < |block[i].cells|
    ensures var cells := block[i].cells;
      && Laid(block, cells, c + 1) == Laid(block, cells, c) + cells[c] + Spaces(pad)
      && (c + 1 < |cells| ==> PAD <= pad && Offset(block, c + 1) == Offset(block, c) + |cells[c]| + pad)
  {
    var cells := block[i].cells;
    WidthBoundsDemand(block, c);
    assert Demand(block[i], c) <= WidthOf(block, c);
    hide WidthOf;
    pad := if c + 1 < |cells| then WidthOf(block, c) - |cells[c]| else 0;
    assert Spaces(0) == "";
  }

  lemma CellStartsAtColumn(block: seq<Line>, i: nat, c: nat)
    requires i < |block| && c < |block[i].cells|
    ensures InColumn(block, block[i].cells, c)
    ensures var cells := block[i].cells; var s, at := Laid(block, cells, |cells|), Offset(block, c);
      && at + |cells[c]| <= |s| && s[at..at + |cells[c]|] == cells[c]
      && (c + 1 < |cells| ==>
           && at + |cells[c]| + 2 <= Offset(block, c + 1) <= |s|
           && forall k :: at + |cells[c]| <= k < Offset(block, c + 1) ==> s[k] == ' ')
  {
    hide WidthOf, Laid, Offset;
    var cells := block[i].cells;
    LaidLength(block, i, c);
    LaidGrows(block, cells, c + 1, |cells|);
    var pad := LaidNext(block, i, c);
    Inside(Laid(block, cells, c), cells[c], pad, Laid(block, cells, |cells|));
  }

  lemma {:induction false} SameRun(lines: seq<Line>, j: nat, k: nat)
    requires j <= k < |lines| && forall i :: j <= i <= k ==> Columns(lines[i])
    ensures RunStart(lines, j) == RunStart(lines, k) && RunEnd(lines, j) == RunEnd(lines, k)
    ensures Block(lines, j) == Block(lines, k)
  {
    if j < k {
      SameRun(lines, j, k - 1);
      NextInRun(lines, k - 1);
      hide RunStart, RunEnd;
    }
  }

  lemma NextInRun(lines: seq<Line>, k: nat)
    requires k + 1 < |lines| && Columns(lines[k]) && Columns(lines[k + 1])
    ensures RunStart(lines, k + 1) == RunStart(lines, k) && RunEnd(lines, k + 1) == RunEnd(lines, k)
  {
  }

  lemma CellIsInColumn(lines: seq<Line>, k: nat, c: nat)
    requires k < |lines| && Columns(lines[k]) && c < |lines[k].cells|
    ensures InColumn(Block(lines, k), lines[k].cells, c)
  {
    assert Block(lines, k)[k - RunStart(lines, k)] == lines[k];
    CellStartsAtColumn(Block(lines, k), k - RunStart(lines, k), c);
    hide InColumn;
  }

  /** The output line `r` shows `cell` from `at` on, as far as `r` reaches; only
      white space is cut off. */
  predicate Shows(r: string, cell: string, at: nat) {
    forall k :: 0 <= k < |cell| ==> if at + k < |r| then r[at + k] == cell[k] else IsSpace(cell[k])
  }

  lemma TrimmedShows(s: string, cell: string, at: nat, trimEnd: bool)
    requires at + |cell| <= |s| && s[at..at + |cell|] == cell
    ensures Shows(Trimmed(s, trimEnd), cell, at)
  {
    var r := Trimmed(s, trimEnd);
    forall k | 0 <= k < |cell| ensures if at + k < |r| then r[at + k] == cell[k] else IsSpace(cell[k]) {
      assert cell[k] == s[at..at + |cell|][k] == s[at + k];
    }
    hide Trimmed;
  }

  /** In the output a cell stands at its column's offset; only white space at the
      end of a line is cut off. */
  lemma CellIsShown(lines: seq<Line>, k: nat, c: nat)
    requires k < |lines| && Columns(lines[k]) && c < |lines[k].cells|
    ensures var at, r, cell := Offset(Block(lines, k), c), Rendered(lines, k), lines[k].cells[c];
      forall t :: 0 <= t < |cell| ==> if at + t < |r| then r[at + t] == cell[t] else IsSpace(cell[t])
    ensures Shows(Rendered(lines, k), lines[k].cells[c], Offset(Block(lines, k), c))
  {
    hide Block, Laid, Offset, TrimEnd, Trimmed, WidthOf;
    var block, cells := Block(lines, k), lines[k].cells;
    var whole, at := Laid(block, cells, |cells|), Offset(block, c);
    CellIsInColumn(lines, k, c);
    assert at + |cells[c]| <= |whole| && whole[at..at + |cells[c]|] == cells[c];
    assert Rendered(lines, k) == Trimmed(whole, lines[k].trimEnd);
    hide InColumn, Rendered;
    TrimmedShows(whole, cells[c], at, lines[k].trimEnd);
  }

  /** Two lines with no single-cell line between them share their columns: in
      the output, cell `c` of either starts at the same offset. */
  lemma ColumnsAlign(lines: seq<Line>, j: nat, k: nat, c: nat)
    requires j <= k < |lines| && forall i :: j <= i <= k ==> Columns(lines[i])
    requires c < |lines[j].cells| && c < |lines[k].cells|
    ensures InColumn(Block(lines, j), lines[j].cells, c) && InColumn(Block(lines, j), lines[k].cells, c)
    ensures Rendered(lines, k) == InBlock(Block(lines, j), lines[k])
    ensures Shows(Rendered(lines, j), lines[j].cells[c], Offset(Block(lines, j), c))
    ensures Shows(Rendered(lines, k), lines[k].cells[c], Offset(Block(lines, j), c))
  {
    SameRun(lines, j, k);
    CellIsInColumn(lines, j, c);
    CellIsInColumn(lines, k, c);
    CellIsShown(lines, j, c);
    CellIsShown(lines, k, c);
    hide InColumn, Block, Laid, Trimmed, Offset, Shows;
  }

  // ----- the text -----

  /** The output is the rendered lines in order, each ended by a line feed: it
      starts empty, and the text of `n` lines is the one of `k` of them, line `k`,
      a line feed and the rest. */
  lemma {:induction false} LinesAreInOrder(lines: seq<Line>, k: nat, n: nat) returns (rest: string)
    requires k < n <= |lines| && NoEmptyLine(lines)
    ensures Output(lines, 0) == "" && Output(lines, k + 1) == Output(lines, k) + Rendered(lines, k) + "\n"
    ensures Output(lines, n) == Output(lines, k) + Rendered(lines, k) + "\n" + rest
    ensures n == k + 1 ==> rest == ""
  {
    hide Rendered;
    if n == k + 1 {
      rest := "";
    } else {
      var before := LinesAreInOrder(lines, k, n - 1);
      rest := before + Rendered(lines, n - 1) + "\n";
      var head := Output(lines, k) + Rendered(lines, k) + "\n";
      assert Output(lines, n) == head + before + Rendered(lines, n - 1) + "\n";
      Associative(head, before, Rendered(lines, n - 1) + "\n");
      Associative(head + before, Rendered(lines, n - 1), "\n");
      Associative(before, Rendered(lines, n - 1), "\n");
    }
  }

  /** A line that is trimmed ends in no white space, and any other is kept whole;
      a line without columns is its one cell. */
  lemma LineEnds(lines: seq<Line>, k: nat)
    requires k < |lines| && lines[k].cells != []
    ensures var line, r := lines[k], Rendered(lines, k);
      var whole := if |line.cells| == 1 then line.cells[0] else Laid(Block(lines, k), line.cells, |line.cells|);
      && r <= whole && (forall i :: |r| <= i < |whole| ==> IsSpace(whole[i]))
      && (if line.trimEnd then r != "" ==> !IsSpace(r[|r| - 1]) else r == whole)
  {
    hide Laid, Block;
  }

  // ----- the writer -----

  class Writer {
    var lines: seq<Line>

    ghost predicate Valid()
      reads this
    {
      NoEmptyLine(lines)
    }

    constructor ()
      ensures Valid() && lines == []
    {
      lines := [];
    }

    method Push(cells: seq<string>, trimEnd: bool)
      requires Valid() && cells != []
      modifies this
      ensures Valid() && lines == old(lines) + [Line(cells, trimEnd)]
    {
      lines := lines + [Line(cells, trimEnd)];
    }

    /** A row of no cells becomes an empty line of text. */
    method Cells(level: nat, cells: seq<string>)
      requires Valid()
      modifies this
      ensures Valid()
      ensures lines == old(lines)
        + [Line(if cells == [] then [Indent(level)] else [Indent(level) + cells[0]] + cells[1..], true)]
    {
      if cells == [] {
        assert Indent(level) + "" == Indent(level);
        Text(level, "");
        return;
      }
      Push(cells[0 := Indent(level) + cells[0]], true);
      assert cells[0 := Indent(level) + cells[0]] == [Indent(level) + cells[0]] + cells[1..];
    }

    method Text(level: nat, text: string)
      requires Valid()
      modifies this
      ensures Valid() && lines == old(lines) + [Line([Indent(level) + text], true)]
    {
      Push([Indent(level) + text], true);
    }

    method Finish() returns (out: string)
      requires Valid()
      ensures out == Output(Escaped(lines), |lines|)
    {
      out := FinishLines(Escaped(lines));
    }
  }

  method FinishLines(lines: seq<Line>) returns (out: string)
    requires NoEmptyLine(lines)
    ensures out == Output(lines, |lines|)
  {
    hide Rendered, TrimEnd, Laid, InBlock;
    out := "";
    var i := 0;
    while i < |lines|
      invariant i <= |lines| && out == Output(lines, i)
      invariant 0 < i < |lines| && Columns(lines[i]) ==> !Columns(lines[i - 1])
    {
      if |lines[i].cells| < 2 {
        SingleIsRendered(lines, i);
        var text := lines[i].cells[0];
        out := out + (if lines[i].trimEnd then TrimEnd(text) else text) + "\n";
        i := i + 1;
      } else {
        var j := i;
        while j < |lines| && |lines[j].cells| >= 2
          invariant i <= j <= |lines| && forall k :: i <= k < j ==> Columns(lines[k])
        {
          j := j + 1;
        }
        RunIsRendered(lines, i, j);
        out := FinishBlock(lines, i, j, out);
        i := j;
      }
    }
  }

  lemma SingleIsRendered(lines: seq<Line>, k: nat)
    requires k < |lines| && |lines[k].cells| == 1
    ensures Rendered(lines, k) == Trimmed(lines[k].cells[0], lines[k].trimEnd)
  {
  }

  lemma RunIsRendered(lines: seq<Line>, i: nat, j: nat)
    requires i < j <= |lines| && NoEmptyLine(lines) && (forall k :: i <= k < j ==> Columns(lines[k]))
    requires (i > 0 ==> !Columns(lines[i - 1])) && (j < |lines| ==> !Columns(lines[j]))
    ensures forall k :: i <= k < j ==> Rendered(lines, k) == InBlock(lines[i..j], lines[k])
  {
    BoundsOfRun(lines, i, j);
    hide RunStart, RunEnd, Laid, Trimmed;
    forall k | i <= k < j ensures Rendered(lines, k) == InBlock(lines[i..j], lines[k]) {
      SameRun(lines, i, k);
    }
  }

  lemma {:induction false} BoundsOfRun(lines: seq<Line>, i: nat, j: nat)
    requires i < j <= |lines| && (forall k :: i <= k < j ==> Columns(lines[k]))
    requires (i > 0 ==> !Columns(lines[i - 1])) && (j < |lines| ==> !Columns(lines[j]))
    ensures RunStart(lines, i) == i && RunEnd(lines, i) == j
  {
    var end := RunEnd(lines, i);
    assert j < |lines| ==> !Columns(lines[j]);
    assert end <= j;
    hide RunEnd;
  }

  method FinishBlock(lines: seq<Line>, i: nat, j: nat, before: string) returns (out: string)
    requires i < j <= |lines| && NoEmptyLine(lines) && before == Output(lines, i)
    requires forall k :: i <= k < j ==> Rendered(lines, k) == InBlock(lines[i..j], lines[k])
    ensures out == Output(lines, j)
  {
    hide Rendered, Laid, TrimEnd, WidthOf;
    var block := lines[i..j];
    var widths := Widths(block);
    out := before;
    var k := i;
    while k < j
      invariant i <= k <= j && out == Output(lines, k)
      invariant forall c :: 0 <= c < widths.Length ==> widths[c] == WidthOf(block, c)
    {
      var s := LayOut(block, k - i, widths);
      out := out + (if lines[k].trimEnd then TrimEnd(s) else s) + "\n";
      k := k + 1;
    }
  }

  lemma WidthStep(block: seq<Line>, i: nat)
    requires i < |block|
    ensures forall c :: WidthOf(block[..i + 1], c) == Larger(WidthOf(block[..i], c), Demand(block[i], c))
  {
    assert block[..i + 1][..i] == block[..i];
  }

  method Widths(block: seq<Line>) returns (widths: array<nat>)
    requires NoEmptyLine(block)
    ensures fresh(widths) && forall i :: 0 <= i < |block| ==> |block[i].cells| <= widths.Length
    ensures forall c :: 0 <= c < widths.Length ==> widths[c] == WidthOf(block, c)
  {
    var ncols: nat := 0;
    for i := 0 to |block|
      invariant forall k :: 0 <= k < i ==> |block[k].cells| <= ncols
    {
      if ncols < |block[i].cells| {
        ncols := |block[i].cells|;
      }
    }
    widths := new nat[ncols](_ => 0);
    assert forall c :: 0 <= c < ncols ==> WidthOf(block[..0], c) == 0;
    hide WidthOf;
    for i := 0 to |block|
      invariant forall c :: 0 <= c < ncols ==> widths[c] == WidthOf(block[..i], c)
    {
      var line := block[i];
      WidthStep(block, i);
      for c := 0 to |line.cells| - 1
        invariant forall d :: 0 <= d < c ==> widths[d] == WidthOf(block[..i + 1], d)
        invariant forall d :: c <= d < ncols ==> widths[d] == WidthOf(block[..i], d)
      {
        if widths[c] < |line.cells[c]| + PAD {
          widths[c] := |line.cells[c]| + PAD;
        }
      }
    }
    assert block[..|block|] == block;
  }

  method LayOut(block: seq<Line>, i: nat, widths: array<nat>) returns (s: string)
    requires i < |block| && |block[i].cells| <= widths.Length
    requires forall c :: 0 <= c < widths.Length ==> widths[c] == WidthOf(block, c)
    ensures s == Laid(block, block[i].cells, |block[i].cells|)
  {
    var cells := block[i].cells;
    s := "";
    for c := 0 to |cells|
      invariant s == Laid(block, cells, c)
    {
      s := s + cells[c];
      if c + 1 < |cells| {
        WidthBoundsDemand(block, c);
        assert Demand(block[i], c) <= WidthOf(block, c);
        s := s + Spaces(widths[c] - |cells[c]|);
      }
    }
  }
}
