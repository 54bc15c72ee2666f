// What a reader of the dump can rely on.
module DumpProofs {
  import opened Common
  import opened Dump

  // The text columns of all lines, one after the other.
  function JoinText(lines: seq<Line>): seq<byte> {
    if lines == [] then [] else lines[0].text + JoinText(lines[1..])
  }

  // The bytes held by the hex columns.
  function CellBytes(cells: seq<Cell>): seq<byte> {
    if cells == [] then []
    else (match cells[0] case Hex(b) => [b] case Blank => []) + CellBytes(cells[1..])
  }

  function JoinHex(lines: seq<Line>): seq<byte> {
    if lines == [] then [] else CellBytes(lines[0].hex) + JoinHex(lines[1..])
  }

  // 0D 0A stands at k.
  predicate Breaks(data: seq<byte>, k: nat) {
    k + 1 < |data| && data[k] == 13 && data[k + 1] == 10
  }

  // A byte as the text column shows it: from 32 to 127 as it is, else as a dot.
  function Visible(b: byte): byte {
    if 32 <= b < 128 then b else 46
  }

  // The data from a position on as shown, with every CRLF taken out.
  function WithoutCrLf(data: seq<byte>, from: nat): seq<byte>
    decreases |data| - from
  {
    if from >= |data| then []
    else if Breaks(data, from) then WithoutCrLf(data, from + 2)
    else [Visible(data[from])] + WithoutCrLf(data, from + 1)
  }

  lemma {:induction false} PlainRun(data: seq<byte>, i: nat, e: nat)
    requires i <= e <= |data|
    requires forall k :: i <= k < e ==> !CrLfAt(data, k)
    ensures WithoutCrLf(data, i) == ShownRange(data, i, e) + WithoutCrLf(data, e)
  {
    if i == e {
    } else {
      PlainRun(data, i, e - 1);
      assert ShownRange(data, i, e) == ShownRange(data, i, e - 1) + [Shown(data[e - 1])];
      assert !CrLfAt(data, e - 1);
      assert WithoutCrLf(data, e - 1) == [Shown(data[e - 1])] + WithoutCrLf(data, e);
    }
  }

  // What a line skips at its end is a CRLF or nothing.
  lemma NothingBetween(data: seq<byte>, i: nat)
    requires i < |data|
    ensures WithoutCrLf(data, LineEnd(data, i, true)) == WithoutCrLf(data, LineNext(data, i, true))
  {
    var e := LineEnd(data, i, true);
    if CrLfAt(data, e) {
      assert e == NextCrLf(data, i) && LineNext(data, i, true) == e + 2;
      assert WithoutCrLf(data, e) == WithoutCrLf(data, e + 2);
    } else if e == |data| {
      assert WithoutCrLf(data, LineNext(data, i, true)) == [];
    }
  }

  // Text mode shows every byte that is not part of a CRLF once and in order.
  lemma {:induction false} EveryByteShownOnce(data: seq<byte>, i: nat)
    requires i <= |data| + TEXT_WIDTH
    ensures JoinText(TextLines(data, i)) == WithoutCrLf(data, i)
    decreases |data| + TEXT_WIDTH - i
  {
    if i < |data| {
      LinesStep(data, i, true);
      var e, next := LineEnd(data, i, true), LineNext(data, i, true);
      PlainRun(data, i, e);
      EveryByteShownOnce(data, next);
      var rest := TextLines(data, next);
      assert TextLines(data, i)[1..] == rest;
      NothingBetween(data, i);
    }
  }

  // The text column shows the bytes at the printed offset.
  predicate Displays(data: seq<byte>, l: Line) {
    && l.offset + |l.text| <= |data|
    && forall k :: 0 <= k < |l.text| ==> l.text[k] == Visible(data[l.offset + k])
  }

  lemma {:induction false} ShownRangeAt(data: seq<byte>, from: nat, upto: nat)
    requires from <= upto <= |data|
    ensures forall k :: 0 <= k < upto - from ==>
              ShownRange(data, from, upto)[k] == Visible(data[from + k])
    decreases upto
  {
    if from < upto {
      ShownRangeAt(data, from, upto - 1);
    }
  }

  lemma DisplaysIff(data: seq<byte>, l: Line)
    ensures Displays(data, l) <==>
            l.offset + |l.text| <= |data| && l.text == ShownRange(data, l.offset, l.offset + |l.text|)
  {
    if l.offset + |l.text| <= |data| {
      ShownRangeAt(data, l.offset, l.offset + |l.text|);
    }
  }

  // A description of text output line by line: each line starts where the one before
  // left off, shows the bytes at its printed offset, holds no CRLF, and ends at a CRLF
  // (which is skipped), at the full width, or with the data.
  predicate ReadsAsText(data: seq<byte>, i: nat, lines: seq<Line>)
    decreases |lines|
  {
    if i >= |data| then lines == []
    else
      lines != [] &&
      var l := lines[0];
      var e := i + |l.text|;
      && l.offset == i && l.hex == []
      && |l.text| <= 64 && Displays(data, l)
      && (forall k :: i <= k < e ==> !Breaks(data, k))
      && (if Breaks(data, e) then ReadsAsText(data, e + 2, lines[1..])
          else (|l.text| == 64 || e == |data|) && ReadsAsText(data, e, lines[1..]))
  }

  lemma FirstLineIsForced(data: seq<byte>, i: nat, e: nat)
    requires i < |data| && i <= e <= |data| && e - i <= TEXT_WIDTH
    requires forall k :: i <= k < e ==> !CrLfAt(data, k)
    requires CrLfAt(data, e) || e - i == TEXT_WIDTH || e == |data|
    ensures e == LineEnd(data, i, true)
  {
  }

  // Where the description goes on after the first line.
  function Resume(data: seq<byte>, i: nat): (m: nat)
    requires i < |data|
    ensures i < m <= |data|
    ensures TextLines(data, m) == TextLines(data, LineNext(data, i, true))
  {
    var e := LineEnd(data, i, true);
    if CrLfAt(data, e) then e + 2 else e
  }

  lemma FirstLineReads(data: seq<byte>, i: nat, lines: seq<Line>)
    requires i < |data| && lines != []
    ensures ReadsAsText(data, i, lines) <==>
            lines[0] == LineAt(data, i, true) && ReadsAsText(data, Resume(data, i), lines[1..])
  {
    assert forall k: nat :: Breaks(data, k) <==> CrLfAt(data, k);
    DisplaysIff(data, lines[0]);
    if ReadsAsText(data, i, lines) {
      FirstLineIsForced(data, i, i + |lines[0].text|);
    }
  }

  lemma SameByHeadAndTail(a: seq<Line>, b: seq<Line>)
    requires a != [] && b != []
    ensures a == b <==> a[0] == b[0] && a[1..] == b[1..]
  {
  }

  // Nothing but the dump's own lines fits that description.
  lemma {:induction false} TextLinesIff(data: seq<byte>, i: nat, lines: seq<Line>)
    requires i <= |data|
    ensures ReadsAsText(data, i, lines) <==> lines == TextLines(data, i)
    decreases |data| - i
  {
    if i < |data| {
      LinesStep(data, i, true);
      var all := TextLines(data, i);
      assert all[0] == LineAt(data, i, true) && all[1..] == TextLines(data, Resume(data, i));
      if lines != [] {
        FirstLineReads(data, i, lines);
        TextLinesIff(data, Resume(data, i), lines[1..]);
        SameByHeadAndTail(lines, all);
      }
    }
  }

  // Hex mode loses nothing: both columns give back the data.
  lemma {:induction false} HexShowsData(data: seq<byte>, i: nat)
    requires i <= |data| + HEX_WIDTH
    ensures JoinHex(HexLines(data, i)) == if i < |data| then data[i..] else []
    ensures JoinText(HexLines(data, i)) == if i < |data| then ShownRange(data, i, |data|) else []
    decreases |data| + HEX_WIDTH - i
  {
    if i < |data| {
      HexShowsData(data, i + HEX_WIDTH);
      HexLineShows(data, i);
    }
  }

  lemma HexLineShows(data: seq<byte>, i: nat)
    requires i < |data|
    ensures var e, rest := LineEnd(data, i, false), HexLines(data, i + HEX_WIDTH);
      && JoinHex(HexLines(data, i)) == data[i..e] + JoinHex(rest)
      && JoinText(HexLines(data, i)) == ShownRange(data, i, e) + JoinText(rest)
      && data[i..] == data[i..e] + data[e..]
      && ShownRange(data, i, |data|) == ShownRange(data, i, e) + ShownRange(data, e, |data|)
  {
    var first, rest := LineAt(data, i, false), HexLines(data, i + HEX_WIDTH);
    HexLineBytes(data, i);
    assert HexLines(data, i) == [first] + rest;
    JoinFirst(first, rest);
    ShownRangeSplits(data, i, LineEnd(data, i, false), |data|);
  }

  lemma HexLineBytes(data: seq<byte>, i: nat)
    requires i < |data|
    ensures CellBytes(LineAt(data, i, false).hex) == data[i..LineEnd(data, i, false)]
  {
    CellBytesOf(HexCells(data, i), data[i..LineEnd(data, i, false)]);
  }

  lemma JoinFirst(first: Line, rest: seq<Line>)
    ensures JoinHex([first] + rest) == CellBytes(first.hex) + JoinHex(rest)
    ensures JoinText([first] + rest) == first.text + JoinText(rest)
  {
  }

  lemma {:induction false} CellBytesOf(cells: seq<Cell>, bytes: seq<byte>)
    requires |bytes| <= |cells|
    requires forall k :: 0 <= k < |cells| ==> cells[k] == if k < |bytes| then Hex(bytes[k]) else Blank
    ensures CellBytes(cells) == bytes
  {
    if cells != [] {
      CellBytesOf(cells[1..], if bytes == [] then [] else bytes[1..]);
    }
  }

  lemma {:induction false} ShownRangeSplits(data: seq<byte>, a: nat, b: nat, c: nat)
    requires a <= b <= c <= |data|
    ensures ShownRange(data, a, c) == ShownRange(data, a, b) + ShownRange(data, b, c)
    decreases c
  {
    if b < c {
      ShownRangeSplits(data, a, b, c - 1);
    }
  }

  // The same for hex mode: lines of sixteen bytes with a cell for each, blank behind the
  // data, and the text column beside them.
  predicate ReadsAsHex(data: seq<byte>, i: nat, lines: seq<Line>)
    decreases |lines|
  {
    if i >= |data| then lines == []
    else
      lines != [] &&
      var l := lines[0];
      && l.offset == i && |l.hex| == 16
      && (forall k :: 0 <= k < 16 ==> l.hex[k] == if i + k < |data| then Hex(data[i + k]) else Blank)
      && |l.text| == (if |data| - i < 16 then |data| - i else 16) && Displays(data, l)
      && ReadsAsHex(data, i + 16, lines[1..])
  }

  lemma {:induction false} HexLinesIff(data: seq<byte>, i: nat, lines: seq<Line>)
    ensures ReadsAsHex(data, i, lines) <==> lines == HexLines(data, i)
    decreases |lines|
  {
    if i < |data| && lines != [] {
      var all := HexLines(data, i);
      HexLinesIff(data, i + 16, lines[1..]);
      assert all == [LineAt(data, i, false)] + HexLines(data, i + 16);
      HexLineIff(data, i, lines[0]);
      SameByHeadAndTail(lines, all);
    }
  }

  lemma HexLineIff(data: seq<byte>, i: nat, l: Line)
    requires i < |data|
    ensures l == LineAt(data, i, false) <==>
            && l.offset == i && |l.hex| == 16
            && (forall k :: 0 <= k < 16 ==> l.hex[k] == if i + k < |data| then Hex(data[i + k]) else Blank)
            && |l.text| == (if |data| - i < 16 then |data| - i else 16) && Displays(data, l)
  {
    DisplaysIff(data, l);
    var cells := HexCells(data, i);
    assert |cells| == 16;
    assert forall k :: 0 <= k < 16 ==> cells[k] == if i + k < |data| then Hex(data[i + k]) else Blank;
  }

  // Whatever the mode, every line shows its bytes, at most 64 or 16 of them.
  lemma {:induction false} EveryLineDisplays(data: seq<byte>, i: nat, nohex: bool)
    ensures forall k :: 0 <= k < |Lines(data, i, nohex)| ==>
              var l := Lines(data, i, nohex)[k];
              Displays(data, l) && |l.text| <= if nohex then 64 else 16
    decreases |data| + TEXT_WIDTH - i
  {
    if i < |data| {
      LinesStep(data, i, nohex);
      DisplaysIff(data, LineAt(data, i, nohex));
      EveryLineDisplays(data, LineNext(data, i, nohex), nohex);
    } else {
      assert Lines(data, i, nohex) == [];
    }
  }
}
