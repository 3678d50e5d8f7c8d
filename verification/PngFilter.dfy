/** The five PNG row filters of section 6 of RFC 2083 and their reversal in place. */
module PngFilter {
  import Crc

  type Byte = Crc.Byte

  function Abs(x: int): nat {
    if x < 0 then -x else x
  }

  function Paeth(left: Byte, up: Byte, upLeft: Byte): Byte {
    var p := left as int + up as int - upLeft as int;
    var pa, pb, pc := Abs(p - left), Abs(p - up), Abs(p - upLeft);
    if pa <= pb && pa <= pc then left else if pb <= pc then up else upLeft
  }

  /** The neighbour nearest to left + up - upLeft, ties going to left, then up. */
  lemma PaethIsNearest(left: Byte, up: Byte, upLeft: Byte)
    ensures var p, r := left as int + up as int - upLeft as int, Paeth(left, up, upLeft);
            && r in {left, up, upLeft}
            && Abs(p - r) <= Abs(p - left) && Abs(p - r) <= Abs(p - up) && Abs(p - r) <= Abs(p - upLeft)
            && (Abs(p - r) == Abs(p - left) ==> r == left)
            && (r != left && Abs(p - r) == Abs(p - up) ==> r == up)
  {
  }

  function Predictor(filter: Byte, left: Byte, up: Byte, upLeft: Byte): Byte {
    match filter
    case 1 => left
    case 2 => up
    case 3 => (left as int + up as int) / 2
    case 4 => Paeth(left, up, upLeft)
    case _ => 0
  }

  /** The byte `channels` to the left, zero outside the row. */
  function Behind(row: seq<Byte>, x: nat, channels: nat): Byte
    requires x <= |row|
  {
    if channels > 0 && x >= channels then row[x - channels] else 0
  }

  function Wrap(x: int): Byte {
    x % 256
  }

  // ----- One row -----

  /** The coded form of byte `x` of a row. */
  function Coded(filter: Byte, row: seq<Byte>, previous: seq<Byte>, channels: nat, x: nat): Byte
    requires x < |row| == |previous|
  {
    Wrap(row[x] - Predictor(filter, Behind(row, x, channels), previous[x], Behind(previous, x, channels)))
  }

  /** What an encoder writes for a row. */
  function FilterRow(filter: Byte, row: seq<Byte>, previous: seq<Byte>, channels: nat): (line: seq<Byte>)
    requires |previous| == |row|
    ensures |line| == |row| && forall x :: 0 <= x < |row| ==> line[x] == Coded(filter, row, previous, channels, x)
  {
    seq(|row|, x requires 0 <= x < |row| => Coded(filter, row, previous, channels, x))
  }

  /** The next byte of a row whose bytes so far are `front`. */
  function Restored(filter: Byte, coded: Byte, front: seq<Byte>, previous: seq<Byte>, channels: nat): Byte
    requires |front| < |previous|
  {
    var x := |front|;
    Wrap(coded as int + Predictor(filter, Behind(front, x, channels), previous[x], Behind(previous, x, channels)) as int)
  }

  /** The decoder's row, left to right. */
  function UnfilterRow(filter: Byte, line: seq<Byte>, previous: seq<Byte>, channels: nat): (row: seq<Byte>)
    requires |previous| >= |line|
    ensures |row| == |line|
    decreases |line|
  {
    if line == [] then []
    else
      var x := |line| - 1;
      var front := UnfilterRow(filter, line[..x], previous, channels);
      front + [Restored(filter, line[x], front, previous, channels)]
  }

  lemma RowSnoc(filter: Byte, line: seq<Byte>, previous: seq<Byte>, channels: nat, x: nat)
    requires |previous| >= |line| && x < |line|
    ensures var front := UnfilterRow(filter, line[..x], previous, channels);
            UnfilterRow(filter, line[..x + 1], previous, channels) == front + [Restored(filter, line[x], front, previous, channels)]
  {
    hide Restored;
    assert line[..x + 1][..x] == line[..x];
  }

  // ----- The standard's own words -----

  /** The neighbour nearest to left + up - upLeft, in the order left, up, upLeft. */
  predicate Nearest(r: int, left: int, up: int, upLeft: int) {
    var p := left + up - upLeft;
    && r in [left, up, upLeft]
    && Abs(p - r) <= Abs(p - left) && Abs(p - r) <= Abs(p - up) && Abs(p - r) <= Abs(p - upLeft)
    && (Abs(p - r) == Abs(p - left) ==> r == left)
    && (r != left && Abs(p - r) == Abs(p - up) ==> r == up)
  }

  /** Sections 6.2 to 6.6 of RFC 2083: what a coded byte stands for, given its
      neighbours in the decoded image. */
  ghost predicate Stands(filter: int, coded: int, value: int, left: int, up: int, upLeft: int) {
    && (filter == 0 ==> value == coded)
    && (filter == 1 ==> value == (coded + left) % 256)
    && (filter == 2 ==> value == (coded + up) % 256)
    && (filter == 3 ==> value == (coded + (left + up) / 2) % 256)
    && (filter == 4 ==> exists r :: Nearest(r, left, up, upLeft) && value == (coded + r) % 256)
  }

  lemma PredictorStands(filter: Byte, coded: Byte, left: Byte, up: Byte, upLeft: Byte)
    requires filter <= 4
    ensures Stands(filter, coded, Wrap(coded as int + Predictor(filter, left, up, upLeft) as int), left, up, upLeft)
  {
    if filter == 4 {
      PaethIsNearest(left, up, upLeft);
      assert Nearest(Paeth(left, up, upLeft), left, up, upLeft);
    }
  }

  lemma {:induction false} RowFront(filter: Byte, line: seq<Byte>, previous: seq<Byte>, channels: nat, x: nat)
    requires |previous| >= |line| >= x
    ensures UnfilterRow(filter, line, previous, channels)[..x] == UnfilterRow(filter, line[..x], previous, channels)
    decreases |line|
  {
    if x == |line| {
      assert line[..x] == line;
    } else {
      hide Restored;
      var n := |line| - 1;
      RowFront(filter, line[..n], previous, channels, x);
      assert line[..n][..x] == line[..x];
    }
  }

  /** Every decoded byte of a row stands for its coded byte as the standard says. */
  lemma RowStands(filter: Byte, line: seq<Byte>, previous: seq<Byte>, channels: nat, x: nat)
    requires |previous| >= |line| > x && filter <= 4
    ensures var row := UnfilterRow(filter, line, previous, channels);
            var inside := channels > 0 && x >= channels;
            Stands(filter, line[x], row[x], if inside then row[x - channels] else 0, previous[x],
                   if inside then previous[x - channels] else 0)
  {
    hide Stands, Predictor, Wrap;
    var row := UnfilterRow(filter, line, previous, channels);
    RowFront(filter, line, previous, channels, x);
    RowFront(filter, line, previous, channels, x + 1);
    RowSnoc(filter, line, previous, channels, x);
    assert row[x] == row[..x + 1][x] == Restored(filter, line[x], row[..x], previous, channels);
    PredictorStands(filter, line[x], Behind(row[..x], x, channels), previous[x], Behind(previous, x, channels));
  }

  lemma WrapCases(x: int)
    requires -256 <= x < 512
    ensures Wrap(x) as int == if x < 0 then x + 256 else if x < 256 then x else x - 256
  {
  }

  lemma WrapBack(b: Byte, p: Byte)
    ensures Wrap(Wrap(b - p) as int + p as int) == b && Wrap(Wrap(b as int + p as int) - p) == b
  {
    hide Wrap;
    WrapCases(b - p);
    WrapCases(Wrap(b - p) as int + p as int);
    WrapCases(b as int + p as int);
    WrapCases(Wrap(b as int + p as int) - p);
  }

  lemma ByteDecoded(filter: Byte, row: seq<Byte>, previous: seq<Byte>, channels: nat, x: nat)
    requires x < |row| == |previous|
    ensures Restored(filter, Coded(filter, row, previous, channels, x), row[..x], previous, channels) == row[x]
  {
    hide Predictor, Wrap;
    assert Behind(row[..x], x, channels) == Behind(row, x, channels);
    WrapBack(row[x], Predictor(filter, Behind(row, x, channels), previous[x], Behind(previous, x, channels)));
  }

  lemma {:induction false} UnfilterPrefix(filter: Byte, row: seq<Byte>, previous: seq<Byte>, channels: nat, n: nat)
    requires |previous| == |row| && n <= |row|
    ensures UnfilterRow(filter, FilterRow(filter, row, previous, channels)[..n], previous, channels) == row[..n]
    decreases n
  {
    hide FilterRow, Coded, Restored;
    if n > 0 {
      var x, line := n - 1, FilterRow(filter, row, previous, channels);
      UnfilterPrefix(filter, row, previous, channels, x);
      RowSnoc(filter, line, previous, channels, x);
      ByteDecoded(filter, row, previous, channels, x);
      assert row[..n] == row[..x] + [row[x]];
    }
  }

  /** Decoding undoes filtering, whatever the filter. */
  lemma RowRecovered(filter: Byte, row: seq<Byte>, previous: seq<Byte>, channels: nat)
    requires |previous| == |row|
    ensures UnfilterRow(filter, FilterRow(filter, row, previous, channels), previous, channels) == row
  {
    var line := FilterRow(filter, row, previous, channels);
    UnfilterPrefix(filter, row, previous, channels, |row|);
    assert line[..|row|] == line && row[..|row|] == row;
  }

  lemma {:induction false} UnfilterTake(filter: Byte, line: seq<Byte>, previous: seq<Byte>, channels: nat, n: nat)
    requires |previous| >= |line| && n <= |line|
    ensures UnfilterRow(filter, line, previous, channels)[..n] == UnfilterRow(filter, line[..n], previous, channels)
    decreases |line|
  {
    if n < |line| {
      var x := |line| - 1;
      UnfilterTake(filter, line[..x], previous, channels, n);
      assert line[..x][..n] == line[..n];
    } else {
      assert line[..n] == line;
    }
  }

  lemma ByteRecovered(filter: Byte, coded: Byte, row: seq<Byte>, previous: seq<Byte>, channels: nat, x: nat)
    requires x < |row| == |previous| && row[x] == Restored(filter, coded, row[..x], previous, channels)
    ensures Coded(filter, row, previous, channels, x) == coded
  {
    hide Predictor, Wrap;
    assert Behind(row, x, channels) == Behind(row[..x], x, channels);
    WrapBack(coded, Predictor(filter, Behind(row, x, channels), previous[x], Behind(previous, x, channels)));
  }

  /** Filtering undoes decoding: every line is the filtered form of some row. */
  lemma LineRecovered(filter: Byte, line: seq<Byte>, previous: seq<Byte>, channels: nat)
    requires |previous| == |line|
    ensures FilterRow(filter, UnfilterRow(filter, line, previous, channels), previous, channels) == line
  {
    hide FilterRow, Coded, UnfilterRow, Restored;
    var row := UnfilterRow(filter, line, previous, channels);
    forall x: nat | x < |line|
      ensures FilterRow(filter, row, previous, channels)[x] == line[x]
    {
      var n := x + 1;
      UnfilterTake(filter, line, previous, channels, n);
      UnfilterTake(filter, line, previous, channels, x);
      RowSnoc(filter, line, previous, channels, x);
      assert row[..n][x] == row[x];
      ByteRecovered(filter, line[x], row, previous, channels, x);
    }
  }

  // ----- Whole images -----

  /** One row as stored: its filter type and its filtered bytes. */
  datatype Line = Line(filter: Byte, bytes: seq<Byte>)

  predicate Wide(rows: seq<seq<Byte>>, stride: nat) {
    forall y :: 0 <= y < |rows| ==> |rows[y]| == stride
  }

  predicate WideLines(lines: seq<Line>, stride: nat) {
    forall y :: 0 <= y < |lines| ==> |lines[y].bytes| == stride
  }

  function Zeros(n: nat): (z: seq<Byte>)
    ensures |z| == n
  {
    seq(n, i => 0)
  }

  /** The row above row `y`: zeros above the first. */
  function Above(rows: seq<seq<Byte>>, stride: nat): (row: seq<Byte>)
    requires Wide(rows, stride)
    ensures |row| == stride
  {
    if rows == [] then Zeros(stride) else rows[|rows| - 1]
  }

  function Filter(rows: seq<seq<Byte>>, filters: seq<Byte>, stride: nat, channels: nat): (lines: seq<Line>)
    requires Wide(rows, stride) && |filters| == |rows|
    ensures |lines| == |rows| && WideLines(lines, stride)
    decreases |rows|
  {
    if rows == [] then []
    else
      var y := |rows| - 1;
      Filter(rows[..y], filters[..y], stride, channels)
        + [Line(filters[y], FilterRow(filters[y], rows[y], Above(rows[..y], stride), channels))]
  }

  function Unfilter(lines: seq<Line>, stride: nat, channels: nat): (rows: seq<seq<Byte>>)
    requires WideLines(lines, stride)
    ensures |rows| == |lines| && Wide(rows, stride)
    decreases |lines|
  {
    if lines == [] then []
    else
      var y := |lines| - 1;
      var above := Unfilter(lines[..y], stride, channels);
      above + [UnfilterRow(lines[y].filter, lines[y].bytes, Above(above, stride), channels)]
  }

  lemma FilterSnoc(rows: seq<seq<Byte>>, filters: seq<Byte>, row: seq<Byte>, filter: Byte, stride: nat, channels: nat)
    requires Wide(rows, stride) && |filters| == |rows| && |row| == stride
    ensures Wide(rows + [row], stride)
    ensures Filter(rows + [row], filters + [filter], stride, channels)
              == Filter(rows, filters, stride, channels) + [Line(filter, FilterRow(filter, row, Above(rows, stride), channels))]
  {
    hide FilterRow;
    assert (rows + [row])[..|rows|] == rows && (filters + [filter])[..|rows|] == filters;
  }

  lemma UnfilterSnoc(lines: seq<Line>, line: Line, stride: nat, channels: nat)
    requires WideLines(lines, stride) && |line.bytes| == stride
    ensures WideLines(lines + [line], stride)
    ensures Unfilter(lines + [line], stride, channels)
              == Unfilter(lines, stride, channels)
                 + [UnfilterRow(line.filter, line.bytes, Above(Unfilter(lines, stride, channels), stride), channels)]
  {
    hide UnfilterRow;
    assert (lines + [line])[..|lines|] == lines;
  }

  function FilterTypes(lines: seq<Line>): (filters: seq<Byte>)
    ensures |filters| == |lines|
  {
    seq(|lines|, y requires 0 <= y < |lines| => lines[y].filter)
  }

  /** Filtering by any choice of filter type per row and decoding recovers every
      byte. */
  lemma {:induction false} ImageRecovered(rows: seq<seq<Byte>>, filters: seq<Byte>, stride: nat, channels: nat)
    requires Wide(rows, stride) && |filters| == |rows|
    ensures Unfilter(Filter(rows, filters, stride, channels), stride, channels) == rows
    decreases |rows|
  {
    if rows != [] {
      hide FilterRow, UnfilterRow, Filter, Unfilter;
      var y := |rows| - 1;
      var front, row, filter := rows[..y], rows[y], filters[y];
      assert rows == front + [row] && filters == filters[..y] + [filter];
      ImageRecovered(front, filters[..y], stride, channels);
      RowRecovered(filter, row, Above(front, stride), channels);
      FilterSnoc(front, filters[..y], row, filter, stride, channels);
      UnfilterSnoc(Filter(front, filters[..y], stride, channels),
                   Line(filter, FilterRow(filter, row, Above(front, stride), channels)), stride, channels);
    }
  }

  /** Every stream of lines is the filtered form of what it decodes to, so the
      decoded image is the only one it can stand for. */
  lemma {:induction false} LinesRecovered(lines: seq<Line>, stride: nat, channels: nat)
    requires WideLines(lines, stride)
    ensures Filter(Unfilter(lines, stride, channels), FilterTypes(lines), stride, channels) == lines
    decreases |lines|
  {
    if lines != [] {
      hide FilterRow, UnfilterRow, Filter, Unfilter;
      var y := |lines| - 1;
      var front, line := lines[..y], lines[y];
      var above := Unfilter(front, stride, channels);
      assert lines == front + [line] && FilterTypes(lines) == FilterTypes(front) + [line.filter];
      LinesRecovered(front, stride, channels);
      UnfilterSnoc(front, line, stride, channels);
      LineRecovered(line.filter, line.bytes, Above(above, stride), channels);
      FilterSnoc(above, FilterTypes(front), UnfilterRow(line.filter, line.bytes, Above(above, stride), channels), line.filter, stride, channels);
    }
  }

  // ----- The flat stream -----

  function Concat(rows: seq<seq<Byte>>): seq<Byte> {
    if rows == [] then [] else Concat(rows[..|rows| - 1]) + rows[|rows| - 1]
  }

  function Stream(lines: seq<Line>): seq<Byte> {
    if lines == [] then [] else Stream(lines[..|lines| - 1]) + [lines[|lines| - 1].filter] + lines[|lines| - 1].bytes
  }

  /** Where row `y` starts. */
  function Offset(y: nat, size: nat): nat {
    y * size
  }

  /** The lines in a stream, `stride + 1` bytes each. */
  function Cut(stream: seq<Byte>, stride: nat, height: nat): (lines: seq<Line>)
    requires |stream| == Offset(height, stride + 1)
    ensures |lines| == height && WideLines(lines, stride)
    decreases height
  {
    if height == 0 then []
    else
      var at := |stream| - (stride + 1);
      StepBack(height, stride + 1);
      Cut(stream[..at], stride, height - 1) + [Line(stream[at], stream[at + 1..])]
  }

  lemma StepBack(n: nat, size: nat)
    requires n > 0
    ensures n * size - size == (n - 1) * size >= 0
  {
  }

  lemma {:induction false} CutStream(lines: seq<Line>, stride: nat)
    requires WideLines(lines, stride)
    ensures |Stream(lines)| == Offset(|lines|, stride + 1)
    ensures Cut(Stream(lines), stride, |lines|) == lines
    decreases |lines|
  {
    if lines != [] {
      var y := |lines| - 1;
      CutStream(lines[..y], stride);
      StepBack(|lines|, stride + 1);
      var front := Stream(lines[..y]);
      assert Stream(lines) == front + [lines[y].filter] + lines[y].bytes;
      assert Stream(lines)[..|front|] == front;
      assert lines == lines[..y] + [lines[y]];
    }
  }

  lemma {:induction false} ConcatSize(rows: seq<seq<Byte>>, stride: nat)
    requires Wide(rows, stride)
    ensures |Concat(rows)| == |rows| * stride
    decreases |rows|
  {
    if rows != [] {
      ConcatSize(rows[..|rows| - 1], stride);
      StepBack(|rows|, stride);
    }
  }

  lemma CutSnoc(stream: seq<Byte>, stride: nat, height: nat, more: seq<Byte>)
    requires |stream| == Offset(height, stride + 1) && |more| == stride + 1
    ensures |stream + more| == Offset(height + 1, stride + 1)
    ensures Cut(stream + more, stride, height + 1) == Cut(stream, stride, height) + [Line(more[0], more[1..])]
  {
    assert (height + 1) * (stride + 1) == height * (stride + 1) + (stride + 1);
    var both, at := stream + more, |stream|;
    assert both[..at] == stream && both[at] == more[0] && both[at + 1..] == more[1..];
  }

  lemma {:induction false} CutTake(stream: seq<Byte>, stride: nat, height: nat, y: nat)
    requires |stream| == Offset(height, stride + 1) && y <= height
    ensures Offset(y, stride + 1) <= |stream| && Cut(stream[..Offset(y, stride + 1)], stride, y) == Cut(stream, stride, height)[..y]
    decreases height
  {
    if y == height {
      assert stream[..y * (stride + 1)] == stream;
    } else {
      var at := |stream| - (stride + 1);
      StepBack(height, stride + 1);
      CutTake(stream[..at], stride, height - 1, y);
      assert stream[..at][..y * (stride + 1)] == stream[..y * (stride + 1)];
    }
  }

  predicate Supported(lines: seq<Line>) {
    forall y :: 0 <= y < |lines| ==> lines[y].filter <= 4
  }

  /** The bytes above a row that starts right behind `before`. */
  function RowAbove(before: seq<Byte>, first: bool, stride: nat): (row: seq<Byte>)
    requires first || stride <= |before|
    ensures |row| == stride
  {
    if first then Zeros(stride) else before[|before| - stride..]
  }

  /** The three neighbours, found by their offsets in the buffer, are those the
      filter speaks of. */
  lemma Neighbours(filter: Byte, coded: Byte, before: seq<Byte>, front: seq<Byte>, first: bool, stride: nat, channels: nat)
    requires (first || stride <= |before|) && |front| < stride
    ensures var all, x := before + front, |front|;
            var left := if channels > 0 && x >= channels then all[|all| - channels] else 0;
            var up := if first then 0 else all[|all| - stride];
            var upLeft := if !first && channels > 0 && x >= channels then all[|all| - stride - channels] else 0;
            Wrap(coded as int + Predictor(filter, left, up, upLeft) as int)
              == Restored(filter, coded, front, RowAbove(before, first, stride), channels)
  {
    hide Wrap, Predictor;
  }

  /** The next byte, from its neighbours in the buffer. */
  method RestoreByte(filter: Byte, coded: Byte, decoded: array<Byte>, start: nat, x: nat, first: bool, stride: nat, channels: nat)
      returns (value: Byte)
    requires x < stride && start + stride <= decoded.Length && (first || stride <= start)
    ensures value == Restored(filter, coded, decoded[start..start + x], RowAbove(decoded[..start], first, stride), channels)
  {
    hide Predictor, Wrap, Restored, Behind, RowAbove;
    ghost var before, front := decoded[..start], decoded[start..start + x];
    Neighbours(filter, coded, before, front, first, stride, channels);
    assert before + front == decoded[..start + x];
    var left := if channels > 0 && x >= channels then decoded[start + x - channels] else 0;
    var up := if first then 0 else decoded[start + x - stride];
    var upLeft := if !first && channels > 0 && x >= channels then decoded[start + x - stride - channels] else 0;
    value := Wrap(coded as int + Predictor(filter, left, up, upLeft) as int);
  }

  /** One row of the decoder, written into place behind the rows above it. */
  method ReconstructRow(filter: Byte, line: seq<Byte>, decoded: array<Byte>, start: nat, first: bool, channels: nat)
      returns (ok: bool)
    requires start + |line| <= decoded.Length && line != [] && (first || |line| <= start)
    modifies decoded
    ensures ok <==> filter <= 4
    ensures ok ==> decoded[..start + |line|]
                     == old(decoded[..start]) + UnfilterRow(filter, line, RowAbove(old(decoded[..start]), first, |line|), channels)
  {
    hide UnfilterRow, RowAbove, Restored;
    var stride := |line|;
    ghost var before := decoded[..start];
    ghost var above := RowAbove(before, first, stride);
    if filter > 4 { return false; }
    NothingRestored(filter, line, above, channels);
    var x := 0;
    while x < stride
      invariant 0 <= x <= stride
      invariant decoded[..start] == before
      invariant decoded[start..start + x] == UnfilterRow(filter, line[..x], above, channels)
    {
      ghost var front := decoded[start..start + x];
      var value := RestoreByte(filter, line[x], decoded, start, x, first, stride, channels);
      RowSnoc(filter, line, above, channels, x);
      decoded[start + x] := value;
      assert decoded[start..start + x + 1] == front + [value];
      x := x + 1;
    }
    assert line[..stride] == line;
    assert decoded[..start + stride] == before + decoded[start..start + stride];
    ok := true;
  }

  lemma NothingRestored(filter: Byte, line: seq<Byte>, previous: seq<Byte>, channels: nat)
    ensures UnfilterRow(filter, line[..0], previous, channels) == []
  {
  }

  /** The rows of the first `y` lines, one after the other. */
  function Decoded(lines: seq<Line>, stride: nat, channels: nat): seq<Byte>
    requires WideLines(lines, stride)
  {
    Concat(Unfilter(lines, stride, channels))
  }

  lemma DecodedSnoc(lines: seq<Line>, line: Line, stride: nat, channels: nat)
    requires WideLines(lines, stride) && |line.bytes| == stride
    ensures WideLines(lines + [line], stride)
    ensures var before := Decoded(lines, stride, channels);
            && |before| == |lines| * stride && (lines != [] ==> stride <= |before|)
            && Decoded(lines + [line], stride, channels)
                 == before + UnfilterRow(line.filter, line.bytes, RowAbove(before, lines == [], stride), channels)
  {
    hide UnfilterRow, Unfilter, Concat;
    var rows := Unfilter(lines, stride, channels);
    LastRow(rows, stride);
    UnfilterSnoc(lines, line, stride, channels);
    assert Above(rows, stride) == RowAbove(Concat(rows), lines == [], stride);
    ConcatSnoc(rows, UnfilterRow(line.filter, line.bytes, Above(rows, stride), channels));
  }

  /** The line at its offset in the stream. */
  lemma NextLine(inflated: seq<Byte>, stride: nat, height: nat, y: nat)
    requires |inflated| == Offset(height, stride + 1) && y < height
    ensures var at, lines := Offset(y, stride + 1), Cut(inflated, stride, height);
            at + stride + 1 <= |inflated| && lines[y] == Line(inflated[at], inflated[at + 1..at + 1 + stride])
  {
    hide Cut;
    RowFits(y, height, stride);
    var at, lines := y * (stride + 1), Cut(inflated, stride, height);
    CutTake(inflated, stride, height, y);
    CutTake(inflated, stride, height, y + 1);
    var more := inflated[at..at + stride + 1];
    assert inflated[..at + stride + 1] == inflated[..at] + more;
    CutSnoc(inflated[..at], stride, y, more);
    assert lines[y] == lines[..y + 1][y];
    assert more[1..] == inflated[at + 1..at + 1 + stride];
  }

  lemma SupportedSnoc(lines: seq<Line>, y: nat)
    requires y < |lines| && Supported(lines[..y])
    ensures lines[y].filter > 4 ==> !Supported(lines)
    ensures lines[y].filter <= 4 ==> Supported(lines[..y + 1])
  {
  }

  /** Row `y` of an image whose rows above it are done. */
  method NextRow(inflated: seq<Byte>, stride: nat, height: nat, channels: nat, y: nat, at: nat, start: nat, buffer: array<Byte>)
      returns (ok: bool)
    requires stride > 0 && |inflated| == Offset(height, stride + 1) && y < height
    requires at == Offset(y, stride + 1) && start == Offset(y, stride) && start + stride <= buffer.Length
    requires buffer[..start] == Decoded(Cut(inflated, stride, height)[..y], stride, channels)
    modifies buffer
    ensures ok <==> Cut(inflated, stride, height)[y].filter <= 4
    ensures ok ==> buffer[..start + stride] == Decoded(Cut(inflated, stride, height)[..y + 1], stride, channels)
  {
    hide Cut, Decoded, UnfilterRow, Concat, Unfilter, RowAbove, Offset;
    ghost var lines := Cut(inflated, stride, height);
    NextLine(inflated, stride, height, y);
    DecodedSnoc(lines[..y], lines[y], stride, channels);
    assert lines[..y + 1] == lines[..y] + [lines[y]];
    ok := ReconstructRow(inflated[at], inflated[at + 1..at + 1 + stride], buffer, start, y == 0, channels);
  }

  /** Row `y` of what the rows decode to. */
  lemma {:induction false} RowDecoded(lines: seq<Line>, stride: nat, channels: nat, y: nat)
    requires WideLines(lines, stride) && y < |lines|
    ensures var all, start := Decoded(lines, stride, channels), Offset(y, stride);
            && |all| == Offset(|lines|, stride) && start + stride <= |all| && (y > 0 ==> stride <= start)
            && all[start..start + stride]
                 == UnfilterRow(lines[y].filter, lines[y].bytes, RowAbove(all[..start], y == 0, stride), channels)
    decreases |lines|
  {
    hide UnfilterRow, Decoded, RowAbove;
    var n := |lines| - 1;
    var front := lines[..n];
    assert lines == front + [lines[n]];
    DecodedSnoc(front, lines[n], stride, channels);
    RowFits(n, n + 1, stride);
    RowFits(y, |lines|, stride);
    if y < n {
      RowDecoded(front, stride, channels, y);
      RowFits(y, n, stride);
      assert Decoded(lines, stride, channels)[..Offset(y, stride)] == Decoded(front, stride, channels)[..Offset(y, stride)];
    }
    if y > 0 { RowFits(y - 1, y, stride); }
  }

  /** Byte `x` of row `y` of the image stands for its coded byte in the stream, its
      neighbours taken from the image and zero outside it. */
  ghost predicate StandsAt(inflated: seq<Byte>, image: seq<Byte>, stride: nat, channels: nat, y: nat, x: nat) {
    var at, here, inside := Offset(y, stride + 1), Offset(y, stride) + x, channels > 0 && x >= channels;
    && at + 1 + x < |inflated| && here < |image| && (y > 0 ==> stride + x <= here)
    && var left := if inside then image[here - channels] else 0;
       var up := if y > 0 then image[here - stride] else 0;
       var upLeft := if inside && y > 0 then image[here - channels - stride] else 0;
       Stands(inflated[at], inflated[at + 1 + x], image[here], left, up, upLeft)
  }

  lemma ImageStands(inflated: seq<Byte>, stride: nat, height: nat, channels: nat, y: nat, x: nat)
    requires |inflated| == Offset(height, stride + 1) && Supported(Cut(inflated, stride, height)) && y < height && x < stride
    ensures var image := Decoded(Cut(inflated, stride, height), stride, channels);
            |image| == Offset(height, stride) && StandsAt(inflated, image, stride, channels, y, x)
  {
    hide Cut, Decoded, UnfilterRow, Stands, Offset;
    var lines := Cut(inflated, stride, height);
    var image, start := Decoded(lines, stride, channels), Offset(y, stride);
    NextLine(inflated, stride, height, y);
    RowDecoded(lines, stride, channels, y);
    var above := RowAbove(image[..start], y == 0, stride);
    RowStands(lines[y].filter, lines[y].bytes, above, channels, x);
    var row := image[start..start + stride];
    assert row[x] == image[start + x];
    assert channels > 0 && x >= channels ==> row[x - channels] == image[start + x - channels];
  }

  /** The image is what the standard says the stream stands for, byte by byte. */
  ghost predicate Standard(inflated: seq<Byte>, image: seq<Byte>, stride: nat, height: nat, channels: nat) {
    && |image| == Offset(height, stride)
    && forall y: nat, x: nat :: y < height && x < stride ==> StandsAt(inflated, image, stride, channels, y, x)
  }

  lemma DecodedIsStandard(inflated: seq<Byte>, stride: nat, height: nat, channels: nat)
    requires stride > 0 && |inflated| == Offset(height, stride + 1) && Supported(Cut(inflated, stride, height))
    ensures Standard(inflated, Decoded(Cut(inflated, stride, height), stride, channels), stride, height, channels)
  {
    hide Cut, Decoded, StandsAt, Offset;
    var image := Decoded(Cut(inflated, stride, height), stride, channels);
    DecodedSize(Cut(inflated, stride, height), stride, channels);
    forall y: nat, x: nat | y < height && x < stride
      ensures StandsAt(inflated, image, stride, channels, y, x)
    {
      ImageStands(inflated, stride, height, channels, y, x);
    }
  }

  lemma DecodedSize(lines: seq<Line>, stride: nat, channels: nat)
    requires WideLines(lines, stride)
    ensures |Decoded(lines, stride, channels)| == Offset(|lines|, stride)
  {
    hide Unfilter;
    ConcatSize(Unfilter(lines, stride, channels), stride);
  }

  /** The decoder's loop over the inflated bytes: it fails on an unknown filter
      type and otherwise yields the rows, one after the other. */
  method Reconstruct(inflated: seq<Byte>, stride: nat, height: nat, channels: nat) returns (ok: bool, decoded: seq<Byte>)
    requires stride > 0 && |inflated| == Offset(height, stride + 1)
    ensures ok <==> Supported(Cut(inflated, stride, height))
    ensures ok ==> decoded == Decoded(Cut(inflated, stride, height), stride, channels)
    ensures ok ==> Standard(inflated, decoded, stride, height, channels)
  {
    var buffer := new Byte[Offset(height, stride)](i => 0);
    ghost var lines := Cut(inflated, stride, height);
    var y, at, start := 0, 0, 0;
    decoded := [];
    NothingDecoded(stride, channels);
    assert buffer[..0] == [] && lines[..0] == [] && Supported([]);
    assert Offset(0, stride) == 0 == Offset(0, stride + 1);
    hide Cut, Decoded, Supported, Offset;
    while y < height
      invariant 0 <= y <= height && at == Offset(y, stride + 1) && start == Offset(y, stride) <= buffer.Length
      invariant fresh(buffer) && Supported(lines[..y])
      invariant buffer[..start] == Decoded(lines[..y], stride, channels)
    {
      RowFits(y, height, stride);
      SupportedSnoc(lines, y);
      ok := NextRow(inflated, stride, height, channels, y, at, start, buffer);
      if !ok { return; }
      y, at, start := y + 1, at + stride + 1, start + stride;
    }
    assert lines[..height] == lines;
    assert buffer[..start] == buffer[..];
    ok, decoded := true, buffer[..];
    DecodedIsStandard(inflated, stride, height, channels);
  }

  lemma NothingDecoded(stride: nat, channels: nat)
    ensures Decoded([], stride, channels) == []
  {
  }

  lemma RowFits(y: nat, height: nat, stride: nat)
    requires y < height
    ensures y * (stride + 1) + stride + 1 == (y + 1) * (stride + 1) <= height * (stride + 1)
    ensures Offset(y, stride + 1) + stride + 1 == Offset(y + 1, stride + 1)
    ensures Offset(y, stride) + stride == Offset(y + 1, stride) <= Offset(height, stride)
  {
    Times(y + 1, height, stride + 1);
    Times(y + 1, height, stride);
  }

  lemma Times(a: nat, b: nat, c: nat)
    requires a <= b
    ensures a * c <= b * c
  {
  }

  lemma ConcatSnoc(rows: seq<seq<Byte>>, row: seq<Byte>)
    ensures Concat(rows + [row]) == Concat(rows) + row
  {
    assert (rows + [row])[..|rows|] == rows;
  }

  lemma LastRow(rows: seq<seq<Byte>>, stride: nat)
    requires Wide(rows, stride)
    ensures |Concat(rows)| == |rows| * stride
    ensures rows != [] ==> |Concat(rows)| >= stride && Concat(rows)[|Concat(rows)| - stride..] == Above(rows, stride)
  {
    ConcatSize(rows, stride);
    if rows != [] {
      StepBack(|rows|, stride);
      ConcatSize(rows[..|rows| - 1], stride);
    }
  }

  /** For any image and any choice of the five filters per row, what the loop
      yields from the filtered stream is that image. */
  lemma FilteringIsUndone(rows: seq<seq<Byte>>, filters: seq<Byte>, stride: nat, channels: nat)
    requires Wide(rows, stride) && |filters| == |rows| && forall y :: 0 <= y < |filters| ==> filters[y] <= 4
    ensures var stream := Stream(Filter(rows, filters, stride, channels));
            && |stream| == Offset(|rows|, stride + 1)
            && Supported(Cut(stream, stride, |rows|))
            && Decoded(Cut(stream, stride, |rows|), stride, channels) == Concat(rows)
  {
    hide Stream, Cut, Unfilter, Concat;
    var lines := Filter(rows, filters, stride, channels);
    CutStream(lines, stride);
    ImageRecovered(rows, filters, stride, channels);
    KeepsFilters(rows, filters, stride, channels);
  }

  lemma {:induction false} KeepsFilters(rows: seq<seq<Byte>>, filters: seq<Byte>, stride: nat, channels: nat)
    requires Wide(rows, stride) && |filters| == |rows|
    ensures FilterTypes(Filter(rows, filters, stride, channels)) == filters
    ensures (forall y :: 0 <= y < |filters| ==> filters[y] <= 4) ==> Supported(Filter(rows, filters, stride, channels))
    decreases |rows|
  {
    if rows != [] {
      hide FilterRow;
      var y := |rows| - 1;
      KeepsFilters(rows[..y], filters[..y], stride, channels);
      var lines, front := Filter(rows, filters, stride, channels), Filter(rows[..y], filters[..y], stride, channels);
      forall i: nat | i < |rows| ensures lines[i].filter == filters[i] {
        if i < y { assert lines[i] == front[i] && FilterTypes(front)[i] == front[i].filter; }
      }
    }
  }
}
