// The trace dump of dwnlutils/curl_debug.c, with its size_t index that goes below
// zero modulo 2^64 and is brought back by the loop's own increment.
module Dump {
  import opened Common

  const SIZE_MOD := 0x1_0000_0000_0000_0000
  const MAX_OBJECT := 0x8000_0000_0000_0000   // PTRDIFF_MAX + 1: no object is this big
  const HEX_WIDTH := 0x10
  const TEXT_WIDTH := 0x40
  const CR: byte := 0x0D
  const LF: byte := 0x0A

  // A size_t result: one addition or subtraction goes out of range at most once.
  function Wrap(x: int): (r: nat)
    requires -SIZE_MOD <= x < 2 * SIZE_MOD
    ensures r < SIZE_MOD
  {
    if x < 0 then x + SIZE_MOD else if x < SIZE_MOD then x else x - SIZE_MOD
  }

  lemma WrapIsModulo(x: int)
    requires -SIZE_MOD <= x < 2 * SIZE_MOD
    ensures Wrap(x) == x % 0x1_0000_0000_0000_0000
  {
  }

  // One printed line: the offset column, the hex cells and the text column.
  datatype Cell = Blank | Hex(value: byte)
  datatype Line = Line(offset: nat, hex: seq<Cell>, text: seq<byte>)

  // The text column shows a dot for what it cannot print.
  function Shown(b: byte): byte {
    if 0x20 <= b < 0x80 then b else 0x2E
  }

  // The bytes of data[from..to] as the text column shows them.
  function ShownRange(data: seq<byte>, from: nat, upto: nat): (r: seq<byte>)
    requires from <= upto <= |data|
    ensures |r| == upto - from
    decreases upto
  {
    if from == upto then [] else ShownRange(data, from, upto - 1) + [Shown(data[upto - 1])]
  }

  // ------------------------------------------------------------ specification

  predicate CrLfAt(data: seq<byte>, k: int) {
    0 <= k && k + 1 < |data| && data[k] == CR && data[k + 1] == LF
  }

  // The first CRLF at or after a position, or the end of the data.
  function NextCrLf(data: seq<byte>, from: nat): (p: nat)
    requires from <= |data|
    ensures from <= p <= |data|
    ensures p < |data| ==> CrLfAt(data, p)
    ensures forall k :: from <= k < p ==> !CrLfAt(data, k)
    decreases |data| - from
  {
    if from == |data| || CrLfAt(data, from) then from else NextCrLf(data, from + 1)
  }

  // Text mode: split at every CRLF and cut each piece into lines of the full width; an
  // empty piece that a CRLF ends is one empty line.
  function TextLines(data: seq<byte>, from: nat): (lines: seq<Line>)
    ensures from < |data| ==> lines != []
    decreases |data| - from, 1
  {
    if from >= |data| then []
    else
      var p := NextCrLf(data, from);
      if p == from then [Line(from, [], [])] + TextLines(data, p + 2) else PieceLines(data, from, p)
  }

  // The lines of the piece that ends at p, and those of everything behind its CRLF.
  function PieceLines(data: seq<byte>, from: nat, p: nat): (lines: seq<Line>)
    requires from < p <= |data|
    ensures lines != []
    decreases |data| - from, 0
  {
    if p - from > TEXT_WIDTH then
      [Line(from, [], ShownRange(data, from, from + TEXT_WIDTH))] + PieceLines(data, from + TEXT_WIDTH, p)
    else
      [Line(from, [], ShownRange(data, from, p))] + if p < |data| then TextLines(data, p + 2) else []
  }

  function HexCells(data: seq<byte>, from: nat): seq<Cell> {
    seq(HEX_WIDTH, c requires 0 <= c => if from + c < |data| then Hex(data[from + c]) else Blank)
  }

  // Hex mode: lines of sixteen bytes, whatever they are.
  function HexLines(data: seq<byte>, from: nat): seq<Line>
    decreases |data| - from
  {
    if from >= |data| then []
    else
      var to := if from + HEX_WIDTH < |data| then from + HEX_WIDTH else |data|;
      [Line(from, HexCells(data, from), ShownRange(data, from, to))] + HexLines(data, from + HEX_WIDTH)
  }

  function Lines(data: seq<byte>, from: nat, nohex: bool): seq<Line> {
    if nohex then TextLines(data, from) else HexLines(data, from)
  }

  // Where the line that starts at i ends, and where the one after it starts.
  function LineEnd(data: seq<byte>, i: nat, nohex: bool): (e: nat)
    requires i < |data|
    ensures i <= e <= |data|
  {
    if nohex then
      var p := NextCrLf(data, i);
      if p - i <= TEXT_WIDTH then p else i + TEXT_WIDTH
    else if i + HEX_WIDTH < |data| then i + HEX_WIDTH else |data|
  }

  function LineNext(data: seq<byte>, i: nat, nohex: bool): (n: nat)
    requires i < |data|
    ensures i < n <= |data| + TEXT_WIDTH
  {
    if nohex then
      var p := NextCrLf(data, i);
      if p < |data| && p - i <= TEXT_WIDTH then p + 2 else i + TEXT_WIDTH
    else i + HEX_WIDTH
  }

  lemma NextCrLfFromInside(data: seq<byte>, from: nat, mid: nat)
    requires from <= |data|
    requires from <= mid <= NextCrLf(data, from)
    ensures NextCrLf(data, mid) == NextCrLf(data, from)
  {
  }

  function LineAt(data: seq<byte>, i: nat, nohex: bool): Line
    requires i < |data|
  {
    Line(i, if nohex then [] else HexCells(data, i), ShownRange(data, i, LineEnd(data, i, nohex)))
  }

  lemma TextStep(data: seq<byte>, i: nat)
    requires i < |data|
    ensures TextLines(data, i) == [LineAt(data, i, true)] + TextLines(data, LineNext(data, i, true))
  {
    var p, line, m := NextCrLf(data, i), LineAt(data, i, true), LineNext(data, i, true);
    if p == i {
      assert line == Line(i, [], []) && m == p + 2;
    } else if p - i > TEXT_WIDTH {
      NextCrLfFromInside(data, i, m);
      assert PieceLines(data, i, p) == [line] + PieceLines(data, m, p);
    } else if p < |data| {
      assert PieceLines(data, i, p) == [line] + TextLines(data, m);
    } else {
      assert PieceLines(data, i, p) == [line] && TextLines(data, m) == [];
    }
  }

  // The lines from i are one line and the lines from where the next one starts.
  lemma LinesStep(data: seq<byte>, i: nat, nohex: bool)
    requires i < |data|
    ensures Lines(data, i, nohex) == [LineAt(data, i, nohex)] + Lines(data, LineNext(data, i, nohex), nohex)
  {
    if nohex {
      TextStep(data, i);
    }
  }

  lemma OneMoreLine(out: seq<Line>, data: seq<byte>, i: nat, nohex: bool)
    requires i < |data|
    ensures out + Lines(data, i, nohex) ==
            out + [LineAt(data, i, nohex)] + Lines(data, LineNext(data, i, nohex), nohex)
  {
    LinesStep(data, i, nohex);
  }

  // ---------------------------------------------------------------- the code

  method HexColumn(data: seq<byte>, i: nat) returns (hex: seq<Cell>)
    requires |data| < MAX_OBJECT && i < |data|
    ensures hex == HexCells(data, i)
  {
    hex := [];
    var c := 0;
    while c < HEX_WIDTH
      invariant 0 <= c <= HEX_WIDTH && |hex| == c
      invariant forall k :: 0 <= k < c ==> hex[k] == if i + k < |data| then Hex(data[i + k]) else Blank
    {
      hex := hex + [if Wrap(i + c) < |data| then Hex(data[i + c]) else Blank];
      c := c + 1;
    }
  }

  // The test for 0D0A at k, with the bound check computed in size_t.
  predicate FoundCrLf(data: seq<byte>, k: nat)
    requires |data| < MAX_OBJECT && k <= |data|
    ensures FoundCrLf(data, k) == CrLfAt(data, k)
  {
    Wrap(k + 1) < |data| && data[k] == CR && data[k + 1] == LF
  }

  // The index set back by the text loop and the increment of the outer loop together
  // move by the number of bytes used, even when the index passes below zero between.
  lemma JumpLands(i: nat, used: nat, width: nat)
    requires i < MAX_OBJECT && used <= width + 2 && width <= TEXT_WIDTH
    ensures var next := Wrap(i + Wrap(used - width));
      next < SIZE_MOD && Wrap(next + width) == i + used
  {
  }

  lemma LineEndsAtCrLf(data: seq<byte>, i: nat, p: nat)
    requires i < |data| && i <= p <= i + TEXT_WIDTH && CrLfAt(data, p)
    requires p == i || p - 1 < NextCrLf(data, i)
    ensures LineEnd(data, i, true) == p && LineNext(data, i, true) == p + 2
  {
  }

  // A break at the CRLF at p ends the line there and goes on behind the CRLF.
  lemma BreakLands(data: seq<byte>, i: nat, p: nat)
    requires |data| < MAX_OBJECT && i < |data| && i <= p <= i + TEXT_WIDTH && CrLfAt(data, p)
    requires p == i || p - 1 < NextCrLf(data, i)
    ensures var next := Wrap(i + Wrap(p - i + 2 - TEXT_WIDTH));
      && LineEnd(data, i, true) == p
      && next < SIZE_MOD && Wrap(next + TEXT_WIDTH) == LineNext(data, i, true)
  {
    LineEndsAtCrLf(data, i, p);
    JumpLands(i, p - i + 2, TEXT_WIDTH);
  }

  // A line without a break ends at the width or with the data.
  lemma FullLine(data: seq<byte>, i: nat, e: nat, nohex: bool)
    requires i < |data| < MAX_OBJECT && i <= e <= |data|
    requires nohex ==> e <= NextCrLf(data, i) && !CrLfAt(data, e)
    requires var width := if nohex then TEXT_WIDTH else HEX_WIDTH;
      e - i == width || (e == |data| && e - i <= width)
    ensures LineEnd(data, i, nohex) == e
    ensures Wrap(i + if nohex then TEXT_WIDTH else HEX_WIDTH) == LineNext(data, i, nohex)
  {
  }

  lemma NextCrLfIsFurther(data: seq<byte>, i: nat, k: nat)
    requires i <= k < |data| && k <= NextCrLf(data, i) && !CrLfAt(data, k)
    ensures k < NextCrLf(data, i)
  {
  }

  // Between two bytes of a line.
  predicate OnLine(data: seq<byte>, i: nat, k: nat, nohex: bool) {
    && i <= k <= |data|
    && (nohex ==> k <= NextCrLf(data, i) && (i < k ==> k < NextCrLf(data, i) || k == |data|))
  }

  // One turn of the text loop; next is the index as a size_t if the loop is left.
  method TextTurn(data: seq<byte>, i: nat, c: nat, width: nat, nohex: bool, text0: seq<byte>)
    returns (done: bool, text: seq<byte>, next: nat)
    requires |data| < MAX_OBJECT && i + c < |data| && c < width && OnLine(data, i, i + c, nohex)
    requires width == if nohex then TEXT_WIDTH else HEX_WIDTH
    requires text0 == ShownRange(data, i, i + c)
    ensures next < SIZE_MOD
    ensures done ==> text == ShownRange(data, i, LineEnd(data, i, nohex))
    ensures done ==> Wrap(next + width) == LineNext(data, i, nohex)
    ensures !done ==> OnLine(data, i, i + c + 1, nohex) && text == ShownRange(data, i, i + c + 1)
  {
    text, next := text0, i;
    if nohex && FoundCrLf(data, i + c) {
      BreakLands(data, i, i + c);
      return true, text, Wrap(i + Wrap(c + 2 - width));
    }
    if nohex {
      NextCrLfIsFurther(data, i, i + c);
    }
    text := text + [Shown(data[i + c])];
    if nohex && FoundCrLf(data, i + c + 1) {
      BreakLands(data, i, i + c + 1);
      return true, text, Wrap(i + Wrap(c + 3 - width));
    }
    done := false;
  }

  // The text loop of one line. next is the index after the loop, before the outer
  // increment, as a size_t.
  method TextColumn(data: seq<byte>, i: nat, width: nat, nohex: bool) returns (text: seq<byte>, next: nat)
    requires |data| < MAX_OBJECT && i < |data|
    requires width == if nohex then TEXT_WIDTH else HEX_WIDTH
    ensures next < SIZE_MOD
    ensures text == ShownRange(data, i, LineEnd(data, i, nohex))
    ensures Wrap(next + width) == LineNext(data, i, nohex)
  {
    text := [];
    var c := 0;
    while c < width && Wrap(i + c) < |data|
      invariant 0 <= c <= width && OnLine(data, i, i + c, nohex)
      invariant text == ShownRange(data, i, i + c)
    {
      var done;
      done, text, next := TextTurn(data, i, c, width, nohex, text);
      if done {
        return;
      }
      c := c + 1;
    }
    FullLine(data, i, i + c, nohex);
    next := i;
  }

  // dump: data is at most what one object can hold, so no real address wraps.
  method Dump(data: seq<byte>, nohex: bool) returns (out: seq<Line>)
    requires |data| < MAX_OBJECT
    ensures out == Lines(data, 0, nohex)
  {
    var width := if nohex then TEXT_WIDTH else HEX_WIDTH;
    out := [];
    var i := 0;
    while i < |data|
      invariant 0 <= i <= |data| + width
      invariant out + Lines(data, i, nohex) == Lines(data, 0, nohex)
      decreases |data| + width - i
    {
      var hex := [];
      if !nohex {
        hex := HexColumn(data, i);
      }
      var text, next := TextColumn(data, i, width, nohex);
      OneMoreLine(out, data, i, nohex);
      out := out + [Line(i, hex, text)];
      i := Wrap(next + width);
    }
  }
}
