/** Run scanning: `detectHorizontalLines` and `detectVerticalLines` in
    app.js. Each scans the binary grid one row (or one column) at a time and
    emits every maximal foreground run longer than 10 pixels. */
module RunScan {

  /** A raw line: a horizontal run `{y, x1, x2, length}` on row `y`, or a
      vertical run `{x, y1, y2, length}` on column `x`. */
  datatype Run =
    | HRun(y: int, x1: int, x2: int, length: int)
    | VRun(x: int, y1: int, y2: int, length: int)
  {
    /** The fixed coordinate the grouper keys on (`'y'` for horizontal
        runs, `'x'` for vertical ones). */
    function Pos(): int
    {
      if HRun? then y else x
    }
  }

  /** Runs of at most this many pixels are dropped (`lineLength > 10`). */
  const MinRunLength: int := 10

  /** Pixel (x, y) of the width-`w` grid `g` holds 1; false off the grid. */
  predicate Foreground(g: seq<int>, w: int, x: int, y: int)
  {
    0 <= x < w && 0 <= y && 0 <= y * w + x < |g| && g[y * w + x] == 1
  }

  /** Row `y` as a line of foreground flags. */
  function Row(g: seq<int>, w: nat, y: int): (s: seq<bool>)
    ensures |s| == w
  {
    seq(w, x => Foreground(g, w, x, y))
  }

  /** Column `x` of a `height`-row grid as a line of foreground flags. */
  function Column(g: seq<int>, w: int, h: nat, x: int): (s: seq<bool>)
    ensures |s| == h
  {
    seq(h, y => Foreground(g, w, x, y))
  }

  /** `s[a..b]` (inclusive) is foreground and cannot be extended: it is
      bounded by background or by the end of the line on both sides. */
  predicate IsMaximalRun(s: seq<bool>, a: int, b: int)
  {
    && 0 <= a <= b < |s|
    && (forall k :: a <= k <= b ==> s[k])
    && (a == 0 || !s[a - 1])
    && (b == |s| - 1 || !s[b + 1])
  }

  /** A maximal run ending just before `end` is the foreground stretch of
      length `len` that ends there. */
  lemma StretchRun(s: seq<bool>, a: int, b: int, end: int, len: int)
    requires IsMaximalRun(s, a, b) && b + 1 == end
    requires 0 <= len <= end
    requires forall k :: end - len <= k < end ==> s[k]
    requires end - len == 0 || !s[end - len - 1]
    ensures a == end - len
  {
  }

  lemma MulMonotone(a: int, b: int, n: int)
    requires a <= b && n >= 0
    ensures n * a <= n * b
  {
    assert n * b - n * a == n * (b - a);
  }

  /** Pixel (x, y) of a `w`-by-`h` grid lies at index `y * w + x`. */
  lemma CellIndex(w: int, h: int, x: int, y: int)
    requires 0 <= x < w && 0 <= y < h
    ensures 0 <= y * w + x < w * h
  {
    MulMonotone(0, y, w);
    MulMonotone(y + 1, h, w);
    assert w * (y + 1) == w * y + w;
    assert w * y == y * w;
  }

  /** The flag of row `y` at `x` is the grid cell at `y * w + x`. */
  lemma RowCell(g: seq<int>, w: nat, h: nat, x: int, y: int)
    requires |g| == w * h && 0 <= x < w && 0 <= y < h
    ensures 0 <= y * w + x < |g|
    ensures Row(g, w, y)[x] <==> g[y * w + x] == 1
  {
    CellIndex(w, h, x, y);
  }

  /** The flag of column `x` at `y` is the grid cell at `y * w + x`. */
  lemma ColumnCell(g: seq<int>, w: nat, h: nat, x: int, y: int)
    requires |g| == w * h && 0 <= x < w && 0 <= y < h
    ensures 0 <= y * w + x < |g|
    ensures Column(g, w, h, x)[y] <==> g[y * w + x] == 1
  {
    CellIndex(w, h, x, y);
  }

  /** A horizontal run as the scanner emits it. */
  predicate IsHorizontalLine(g: seq<int>, w: nat, h: nat, l: Run)
  {
    && l.HRun?
    && 0 <= l.y < h
    && l.length > MinRunLength
    && l.x2 == l.x1 + l.length - 1
    && IsMaximalRun(Row(g, w, l.y), l.x1, l.x2)
  }

  /** A vertical run as the scanner emits it. */
  predicate IsVerticalLine(g: seq<int>, w: nat, h: nat, l: Run)
  {
    && l.VRun?
    && 0 <= l.x < w
    && l.length > MinRunLength
    && l.y2 == l.y1 + l.length - 1
    && IsMaximalRun(Column(g, w, h, l.x), l.y1, l.y2)
  }

  /** Row-major order of horizontal runs: by row, then by first column. */
  predicate RowMajorBefore(a: Run, b: Run)
  {
    a.HRun? && b.HRun? && (a.y < b.y || (a.y == b.y && a.x1 < b.x1))
  }

  /** Column-major order of vertical runs: by column, then by first row. */
  predicate ColumnMajorBefore(a: Run, b: Run)
  {
    a.VRun? && b.VRun? && (a.x < b.x || (a.x == b.x && a.y1 < b.y1))
  }

  /** `lines` is exactly the set of maximal horizontal foreground runs longer
      than `MinRunLength`, in strictly row-major order (so each once). */
  ghost predicate RowRuns(g: seq<int>, w: nat, h: nat, lines: seq<Run>)
  {
    && (forall l :: l in lines ==> IsHorizontalLine(g, w, h, l))
    && (forall y, a, b ::
          0 <= y < h && IsMaximalRun(Row(g, w, y), a, b) && b - a + 1 > MinRunLength ==> HRun(y, a, b, b - a + 1) in lines)
    && (forall i, j :: 0 <= i < j < |lines| ==> RowMajorBefore(lines[i], lines[j]))
  }

  /** `lines` is exactly the set of maximal vertical foreground runs longer
      than `MinRunLength`, in strictly column-major order (so each once). */
  ghost predicate ColumnRuns(g: seq<int>, w: nat, h: nat, lines: seq<Run>)
  {
    && (forall l :: l in lines ==> IsVerticalLine(g, w, h, l))
    && (forall x, a, b ::
          0 <= x < w && IsMaximalRun(Column(g, w, h, x), a, b) && b - a + 1 > MinRunLength ==> VRun(x, a, b, b - a + 1) in lines)
    && (forall i, j :: 0 <= i < j < |lines| ==> ColumnMajorBefore(lines[i], lines[j]))
  }

  /** Row-major or column-major precedence: a strict order on runs of one
      orientation. */
  predicate RunBefore(a: Run, b: Run)
  {
    RowMajorBefore(a, b) || ColumnMajorBefore(a, b)
  }

  /** Two run lists, each strictly ordered, with the same members are
      equal. */
  lemma {:induction false} OrderedRunsUnique(l1: seq<Run>, l2: seq<Run>)
    requires forall i, j :: 0 <= i < j < |l1| ==> RunBefore(l1[i], l1[j])
    requires forall i, j :: 0 <= i < j < |l2| ==> RunBefore(l2[i], l2[j])
    requires forall r :: r in l1 <==> r in l2
    ensures l1 == l2
  {
    if l1 == [] {
      assert forall k :: 0 <= k < |l2| ==> l2[k] in l1;
    } else {
      assert l2 != [] by {
        assert l1[0] in l2;
      }
      var a, b := l1[0], l2[0];
      assert b in l1 && a in l2;
      var i :| 0 <= i < |l1| && l1[i] == b;
      var j :| 0 <= j < |l2| && l2[j] == a;
      assert i > 0 ==> RunBefore(a, b);
      assert j > 0 ==> RunBefore(b, a);
      assert a == b;
      var t1, t2 := l1[1..], l2[1..];
      forall r | r in t1 ensures r in t2 {
        var k :| 0 <= k < |t1| && t1[k] == r;
        assert RunBefore(a, l1[k + 1]);
        assert r in l2 && r != b;
      }
      forall r | r in t2 ensures r in t1 {
        var k :| 0 <= k < |t2| && t2[k] == r;
        assert RunBefore(b, l2[k + 1]);
        assert r in l1 && r != a;
      }
      OrderedRunsUnique(t1, t2);
      assert l1 == [a] + t1 && l2 == [b] + t2;
    }
  }

  /** The horizontal runs of a grid are determined by it: two lists that
      both meet `RowRuns` are equal. */
  lemma RowRunsUnique(g: seq<int>, w: nat, h: nat, l1: seq<Run>, l2: seq<Run>)
    requires RowRuns(g, w, h, l1) && RowRuns(g, w, h, l2)
    ensures l1 == l2
  {
    forall r | r in l1 ensures r in l2 {
      assert IsHorizontalLine(g, w, h, r);
      assert r == HRun(r.y, r.x1, r.x2, r.x2 - r.x1 + 1);
    }
    forall r | r in l2 ensures r in l1 {
      assert IsHorizontalLine(g, w, h, r);
      assert r == HRun(r.y, r.x1, r.x2, r.x2 - r.x1 + 1);
    }
    OrderedRunsUnique(l1, l2);
  }

  /** The vertical runs of a grid are determined by it. */
  lemma ColumnRunsUnique(g: seq<int>, w: nat, h: nat, l1: seq<Run>, l2: seq<Run>)
    requires ColumnRuns(g, w, h, l1) && ColumnRuns(g, w, h, l2)
    ensures l1 == l2
  {
    forall r | r in l1 ensures r in l2 {
      assert IsVerticalLine(g, w, h, r);
      assert r == VRun(r.x, r.y1, r.y2, r.y2 - r.y1 + 1);
    }
    forall r | r in l2 ensures r in l1 {
      assert IsVerticalLine(g, w, h, r);
      assert r == VRun(r.x, r.y1, r.y2, r.y2 - r.y1 + 1);
    }
    OrderedRunsUnique(l1, l2);
  }

  /** `detectHorizontalLines` (app.js:231-269). The result is exactly the
      maximal foreground runs longer than 10 pixels, each once, in row-major
      order. */
  method DetectHorizontalLines(binary: array<int>, width: nat, height: nat) returns (lines: seq<Run>)
    requires binary.Length == width * height
    ensures RowRuns(binary[..], width, height, lines)
    ensures (forall i :: 0 <= i < binary.Length ==> binary[i] != 1) ==> lines == []
  {
    lines := [];
    var y := 0;
    while y < height
      invariant 0 <= y <= height
      invariant forall i :: 0 <= i < |lines| ==> IsHorizontalLine(binary[..], width, height, lines[i]) && lines[i].y < y
      invariant forall yy, a, b ::
        (0 <= yy < y && IsMaximalRun(Row(binary[..], width, yy), a, b) && b - a + 1 > MinRunLength
         ==> HRun(yy, a, b, b - a + 1) in lines)
      invariant forall i, j :: 0 <= i < j < |lines| ==> RowMajorBefore(lines[i], lines[j])
    {
      ghost var before := lines;
      lines := ScanRow(binary, width, height, y, lines);
      assert lines == before + lines[|before|..];
      y := y + 1;
    }
    if lines != [] {
      assert Row(binary[..], width, lines[0].y)[lines[0].x1];
    }
  }

  /** The runs emitted before row `y`: valid, on earlier rows, and in
      row-major order. */
  ghost predicate RowsBefore(g: seq<int>, w: nat, h: nat, lines: seq<Run>, y: int)
  {
    && (forall i :: 0 <= i < |lines| ==> IsHorizontalLine(g, w, h, lines[i]) && lines[i].y < y)
    && (forall i, j :: 0 <= i < j < |lines| ==> RowMajorBefore(lines[i], lines[j]))
  }

  /** After row `y`: `lines` extends `lines0` with runs of row `y` only,
      holds valid runs up to row `y` in row-major order, and holds every
      long maximal run of row `y`. */
  ghost predicate RowDone(g: seq<int>, w: nat, h: nat, y: int, lines0: seq<Run>, lines: seq<Run>)
  {
    && |lines0| <= |lines| && lines[..|lines0|] == lines0
    && (forall i :: 0 <= i < |lines| ==> IsHorizontalLine(g, w, h, lines[i]) && lines[i].y <= y)
    && (forall i :: |lines0| <= i < |lines| ==> lines[i].y == y)
    && (forall a, b ::
          IsMaximalRun(Row(g, w, y), a, b) && b - a + 1 > MinRunLength ==> HRun(y, a, b, b - a + 1) in lines)
    && (forall i, j :: 0 <= i < j < |lines| ==> RowMajorBefore(lines[i], lines[j]))
  }

  /** What the walk along row `y` has established once it has looked at the
      pixels left of `x`: the last `len` of them are foreground and start a
      stretch, every run emitted so far is valid and lies before that
      stretch, and every long run already closed off has been emitted. */
  ghost predicate RowScanned(g: seq<int>, w: nat, h: nat, y: int, lines0: seq<Run>, lines: seq<Run>, x: int, len: int)
  {
    var s := Row(g, w, y);
    && 0 <= x <= w && 0 <= len <= x
    && (forall k :: x - len <= k < x ==> s[k])
    && (x - len == 0 || !s[x - len - 1])
    && |lines0| <= |lines| && lines[..|lines0|] == lines0
    && (forall i :: 0 <= i < |lines| ==>
          IsHorizontalLine(g, w, h, lines[i]) &&
          (lines[i].y < y || (lines[i].y == y && lines[i].x2 + 1 < x - len)))
    && (forall i :: |lines0| <= i < |lines| ==> lines[i].y == y)
    && (forall a, b ::
          IsMaximalRun(s, a, b) && b + 1 < x && b - a + 1 > MinRunLength ==> HRun(y, a, b, b - a + 1) in lines)
    && (forall i, j :: 0 <= i < j < |lines| ==> RowMajorBefore(lines[i], lines[j]))
  }

  /** Appending the stretch that ends just before `x` keeps row-major order
      and validity. */
  lemma RowEmit(g: seq<int>, w: nat, h: nat, y: int, lines0: seq<Run>, lines: seq<Run>, x: int, len: int)
    requires RowScanned(g, w, h, y, lines0, lines, x, len) && 0 <= y < h
    requires len > MinRunLength && (x == w || (x < w && !Row(g, w, y)[x]))
    ensures var lines' := lines + [HRun(y, x - len, x - 1, len)];
      && |lines0| <= |lines'| && lines'[..|lines0|] == lines0
      && (forall i :: 0 <= i < |lines'| ==>
            IsHorizontalLine(g, w, h, lines'[i]) && (lines'[i].y < y || (lines'[i].y == y && lines'[i].x2 + 1 < x + 1)))
      && (forall i :: |lines0| <= i < |lines'| ==> lines'[i].y == y)
      && (forall i, j :: 0 <= i < j < |lines'| ==> RowMajorBefore(lines'[i], lines'[j]))
  {
    var s := Row(g, w, y);
    var run := HRun(y, x - len, x - 1, len);
    assert IsMaximalRun(s, x - len, x - 1);
    assert IsHorizontalLine(g, w, h, run);
    forall i | 0 <= i < |lines| ensures RowMajorBefore(lines[i], run) {
      assert IsMaximalRun(Row(g, w, lines[i].y), lines[i].x1, lines[i].x2);
    }
    var lines' := lines + [run];
    assert lines'[..|lines0|] == lines0 by {
      assert lines'[..|lines|] == lines;
    }
  }

  lemma RowStepForeground(g: seq<int>, w: nat, h: nat, y: int, lines0: seq<Run>, lines: seq<Run>, x: int, len: int)
    requires RowScanned(g, w, h, y, lines0, lines, x, len)
    requires x < w && Row(g, w, y)[x]
    ensures RowScanned(g, w, h, y, lines0, lines, x + 1, len + 1)
  {
    var s := Row(g, w, y);
    forall a, b | IsMaximalRun(s, a, b) && b + 1 < x + 1 && b - a + 1 > MinRunLength
      ensures HRun(y, a, b, b - a + 1) in lines
    {
      assert b + 1 != x;
    }
  }

  lemma RowStepBackground(g: seq<int>, w: nat, h: nat, y: int, lines0: seq<Run>, lines: seq<Run>, x: int, len: int,
                          lines': seq<Run>)
    requires RowScanned(g, w, h, y, lines0, lines, x, len) && 0 <= y < h
    requires x < w && !Row(g, w, y)[x]
    requires lines' == if len > MinRunLength then lines + [HRun(y, x - len, x - 1, len)] else lines
    ensures RowScanned(g, w, h, y, lines0, lines', x + 1, 0)
  {
    if len > MinRunLength {
      RowEmit(g, w, h, y, lines0, lines, x, len);
    }
    RowClosedRuns(g, w, h, y, lines, len, x, lines');
  }

  /** Once the walk has looked at the pixels before `e`, every long maximal
      run ending before `e` has been emitted: the one ending just before `e`
      is the stretch closed there. */
  lemma RowClosedRuns(g: seq<int>, w: nat, h: nat, y: int, lines: seq<Run>, len: int, e: int, lines': seq<Run>)
    requires 0 <= len <= e <= w
    requires forall k :: e - len <= k < e ==> Row(g, w, y)[k]
    requires e - len == 0 || !Row(g, w, y)[e - len - 1]
    requires forall a, b ::
      IsMaximalRun(Row(g, w, y), a, b) && b + 1 < e && b - a + 1 > MinRunLength ==> HRun(y, a, b, b - a + 1) in lines
    requires lines' == if len > MinRunLength then lines + [HRun(y, e - len, e - 1, len)] else lines
    ensures forall a, b ::
      IsMaximalRun(Row(g, w, y), a, b) && b + 1 <= e && b - a + 1 > MinRunLength ==> HRun(y, a, b, b - a + 1) in lines'
  {
    var s := Row(g, w, y);
    forall a, b | IsMaximalRun(s, a, b) && b + 1 <= e && b - a + 1 > MinRunLength
      ensures HRun(y, a, b, b - a + 1) in lines'
    {
      if b + 1 == e {
        StretchRun(s, a, b, e, len);
      } else {
        assert HRun(y, a, b, b - a + 1) in lines;
      }
    }
  }

  lemma RowFinish(g: seq<int>, w: nat, h: nat, y: int, lines0: seq<Run>, lines: seq<Run>, len: int, lines': seq<Run>)
    requires RowScanned(g, w, h, y, lines0, lines, w, len) && 0 <= y < h
    requires lines' == if len > MinRunLength then lines + [HRun(y, w - len, w - 1, len)] else lines
    ensures RowDone(g, w, h, y, lines0, lines')
  {
    if len > MinRunLength {
      RowEmit(g, w, h, y, lines0, lines, w, len);
    }
    RowClosedRuns(g, w, h, y, lines, len, w, lines');
  }

  /** One pixel of the walk along row `y` (app.js:238-255): a foreground
      pixel extends the current stretch, starting it when none is open; a
      background pixel closes the stretch, appending it when it is longer
      than 10, and resets the counters. */
  method RowPixel(binary: array<int>, width: nat, height: nat, x: nat, y: nat, lines0: seq<Run>, lines: seq<Run>,
                  lineStart: int, lineLength: int)
    returns (lines': seq<Run>, lineStart': int, lineLength': int)
    requires binary.Length == width * height && x < width && y < height
    requires RowScanned(binary[..], width, height, y, lines0, lines, x, lineLength)
    requires lineStart == if lineLength == 0 then -1 else x - lineLength
    ensures RowScanned(binary[..], width, height, y, lines0, lines', x + 1, lineLength')
    ensures lineStart' == if lineLength' == 0 then -1 else x + 1 - lineLength'
  {
    ghost var g := binary[..];
    RowCell(g, width, height, x, y);
    lines', lineStart', lineLength' := lines, lineStart, lineLength;
    if binary[y * width + x] == 1 {
      if lineStart' == -1 {
        lineStart' := x;
      }
      RowStepForeground(g, width, height, y, lines0, lines, x, lineLength);
      lineLength' := lineLength' + 1;
    } else {
      if lineLength > MinRunLength {
        lines' := lines + [HRun(y, lineStart, lineStart + lineLength - 1, lineLength)];
      }
      RowStepBackground(g, width, height, y, lines0, lines, x, lineLength, lines');
      lineStart' := -1;
      lineLength' := 0;
    }
  }

  /** One pass of the outer loop of `detectHorizontalLines`: walks row `y`
      left to right (app.js:235-265), appending the row's runs to `lines`. */
  method ScanRow(binary: array<int>, width: nat, height: nat, y: nat, lines0: seq<Run>) returns (lines: seq<Run>)
    requires binary.Length == width * height && y < height
    requires RowsBefore(binary[..], width, height, lines0, y)
    ensures RowDone(binary[..], width, height, y, lines0, lines)
  {
    ghost var g := binary[..];
    lines := lines0;
    var lineStart := -1;
    var lineLength := 0;
    var x := 0;
    while x < width
      invariant RowScanned(g, width, height, y, lines0, lines, x, lineLength)
      invariant lineStart == if lineLength == 0 then -1 else x - lineLength
    {
      lines, lineStart, lineLength := RowPixel(binary, width, height, x, y, lines0, lines, lineStart, lineLength);
      x := x + 1;
    }
    ghost var before := lines;
    if lineLength > MinRunLength {
      lines := lines + [HRun(y, lineStart, lineStart + lineLength - 1, lineLength)];
    }
    RowFinish(g, width, height, y, lines0, before, lineLength, lines);
  }

  /** `detectVerticalLines` (app.js:272-310). The result is exactly the
      maximal foreground runs longer than 10 pixels, each once, in column-major
      order. */
  method DetectVerticalLines(binary: array<int>, width: nat, height: nat) returns (lines: seq<Run>)
    requires binary.Length == width * height
    ensures ColumnRuns(binary[..], width, height, lines)
    ensures (forall i :: 0 <= i < binary.Length ==> binary[i] != 1) ==> lines == []
  {
    lines := [];
    var x := 0;
    while x < width
      invariant 0 <= x <= width
      invariant forall i :: 0 <= i < |lines| ==> IsVerticalLine(binary[..], width, height, lines[i]) && lines[i].x < x
      invariant forall xx, a, b ::
        (0 <= xx < x && IsMaximalRun(Column(binary[..], width, height, xx), a, b) && b - a + 1 > MinRunLength
         ==> VRun(xx, a, b, b - a + 1) in lines)
      invariant forall i, j :: 0 <= i < j < |lines| ==> ColumnMajorBefore(lines[i], lines[j])
    {
      ghost var before := lines;
      lines := ScanColumn(binary, width, height, x, lines);
      assert lines == before + lines[|before|..];
      x := x + 1;
    }
    if lines != [] {
      assert Column(binary[..], width, height, lines[0].x)[lines[0].y1];
    }
  }

  /** The runs emitted before column `x`: valid, on earlier columns, and in
      column-major order. */
  ghost predicate ColumnsBefore(g: seq<int>, w: nat, h: nat, lines: seq<Run>, x: int)
  {
    && (forall i :: 0 <= i < |lines| ==> IsVerticalLine(g, w, h, lines[i]) && lines[i].x < x)
    && (forall i, j :: 0 <= i < j < |lines| ==> ColumnMajorBefore(lines[i], lines[j]))
  }

  /** After column `x`: `lines` extends `lines0` with runs of column `x`
      only, holds valid runs up to column `x` in column-major order, and
      holds every long maximal run of column `x`. */
  ghost predicate ColumnDone(g: seq<int>, w: nat, h: nat, x: int, lines0: seq<Run>, lines: seq<Run>)
  {
    && |lines0| <= |lines| && lines[..|lines0|] == lines0
    && (forall i :: 0 <= i < |lines| ==> IsVerticalLine(g, w, h, lines[i]) && lines[i].x <= x)
    && (forall i :: |lines0| <= i < |lines| ==> lines[i].x == x)
    && (forall a, b ::
          IsMaximalRun(Column(g, w, h, x), a, b) && b - a + 1 > MinRunLength ==> VRun(x, a, b, b - a + 1) in lines)
    && (forall i, j :: 0 <= i < j < |lines| ==> ColumnMajorBefore(lines[i], lines[j]))
  }

  /** What the walk down column `x` has established once it has looked at the
      pixels above `y`: the last `len` of them are foreground and start a
      stretch, every run emitted so far is valid and lies before that
      stretch, and every long run already closed off has been emitted. */
  ghost predicate ColumnScanned(g: seq<int>, w: nat, h: nat, x: int, lines0: seq<Run>, lines: seq<Run>, y: int, len: int)
  {
    var s := Column(g, w, h, x);
    && 0 <= y <= h && 0 <= len <= y
    && (forall k :: y - len <= k < y ==> s[k])
    && (y - len == 0 || !s[y - len - 1])
    && |lines0| <= |lines| && lines[..|lines0|] == lines0
    && (forall i :: 0 <= i < |lines| ==>
          IsVerticalLine(g, w, h, lines[i]) &&
          (lines[i].x < x || (lines[i].x == x && lines[i].y2 + 1 < y - len)))
    && (forall i :: |lines0| <= i < |lines| ==> lines[i].x == x)
    && (forall a, b ::
          IsMaximalRun(s, a, b) && b + 1 < y && b - a + 1 > MinRunLength ==> VRun(x, a, b, b - a + 1) in lines)
    && (forall i, j :: 0 <= i < j < |lines| ==> ColumnMajorBefore(lines[i], lines[j]))
  }

  /** Appending the stretch that ends just before `y` keeps column-major order
      and validity. */
  lemma ColumnEmit(g: seq<int>, w: nat, h: nat, x: int, lines0: seq<Run>, lines: seq<Run>, y: int, len: int)
    requires ColumnScanned(g, w, h, x, lines0, lines, y, len) && 0 <= x < w
    requires len > MinRunLength && (y == h || (y < h && !Column(g, w, h, x)[y]))
    ensures var lines' := lines + [VRun(x, y - len, y - 1, len)];
      && |lines0| <= |lines'| && lines'[..|lines0|] == lines0
      && (forall i :: 0 <= i < |lines'| ==>
            IsVerticalLine(g, w, h, lines'[i]) && (lines'[i].x < x || (lines'[i].x == x && lines'[i].y2 + 1 < y + 1)))
      && (forall i :: |lines0| <= i < |lines'| ==> lines'[i].x == x)
      && (forall i, j :: 0 <= i < j < |lines'| ==> ColumnMajorBefore(lines'[i], lines'[j]))
  {
    var s := Column(g, w, h, x);
    var run := VRun(x, y - len, y - 1, len);
    assert IsMaximalRun(s, y - len, y - 1);
    assert IsVerticalLine(g, w, h, run);
    forall i | 0 <= i < |lines| ensures ColumnMajorBefore(lines[i], run) {
      assert IsMaximalRun(Column(g, w, h, lines[i].x), lines[i].y1, lines[i].y2);
    }
    var lines' := lines + [run];
    assert lines'[..|lines0|] == lines0 by {
      assert lines'[..|lines|] == lines;
    }
  }

  lemma ColumnStepForeground(g: seq<int>, w: nat, h: nat, x: int, lines0: seq<Run>, lines: seq<Run>, y: int, len: int)
    requires ColumnScanned(g, w, h, x, lines0, lines, y, len)
    requires y < h && Column(g, w, h, x)[y]
    ensures ColumnScanned(g, w, h, x, lines0, lines, y + 1, len + 1)
  {
    var s := Column(g, w, h, x);
    forall a, b | IsMaximalRun(s, a, b) && b + 1 < y + 1 && b - a + 1 > MinRunLength
      ensures VRun(x, a, b, b - a + 1) in lines
    {
      assert b + 1 != y;
    }
  }

  lemma ColumnStepBackground(g: seq<int>, w: nat, h: nat, x: int, lines0: seq<Run>, lines: seq<Run>, y: int, len: int,
                             lines': seq<Run>)
    requires ColumnScanned(g, w, h, x, lines0, lines, y, len) && 0 <= x < w
    requires y < h && !Column(g, w, h, x)[y]
    requires lines' == if len > MinRunLength then lines + [VRun(x, y - len, y - 1, len)] else lines
    ensures ColumnScanned(g, w, h, x, lines0, lines', y + 1, 0)
  {
    if len > MinRunLength {
      ColumnEmit(g, w, h, x, lines0, lines, y, len);
    }
    ColumnClosedRuns(g, w, h, x, lines, len, y, lines');
  }

  /** Once the walk has looked at the pixels before `e`, every long maximal
      run ending before `e` has been emitted: the one ending just before `e`
      is the stretch closed there. */
  lemma ColumnClosedRuns(g: seq<int>, w: nat, h: nat, x: int, lines: seq<Run>, len: int, e: int, lines': seq<Run>)
    requires 0 <= len <= e <= h
    requires forall k :: e - len <= k < e ==> Column(g, w, h, x)[k]
    requires e - len == 0 || !Column(g, w, h, x)[e - len - 1]
    requires forall a, b ::
      IsMaximalRun(Column(g, w, h, x), a, b) && b + 1 < e && b - a + 1 > MinRunLength ==> VRun(x, a, b, b - a + 1) in lines
    requires lines' == if len > MinRunLength then lines + [VRun(x, e - len, e - 1, len)] else lines
    ensures forall a, b ::
      IsMaximalRun(Column(g, w, h, x), a, b) && b + 1 <= e && b - a + 1 > MinRunLength ==> VRun(x, a, b, b - a + 1) in lines'
  {
    var s := Column(g, w, h, x);
    forall a, b | IsMaximalRun(s, a, b) && b + 1 <= e && b - a + 1 > MinRunLength
      ensures VRun(x, a, b, b - a + 1) in lines'
    {
      if b + 1 == e {
        StretchRun(s, a, b, e, len);
      } else {
        assert VRun(x, a, b, b - a + 1) in lines;
      }
    }
  }

  lemma ColumnFinish(g: seq<int>, w: nat, h: nat, x: int, lines0: seq<Run>, lines: seq<Run>, len: int, lines': seq<Run>)
    requires ColumnScanned(g, w, h, x, lines0, lines, h, len) && 0 <= x < w
    requires lines' == if len > MinRunLength then lines + [VRun(x, h - len, h - 1, len)] else lines
    ensures ColumnDone(g, w, h, x, lines0, lines')
  {
    if len > MinRunLength {
      ColumnEmit(g, w, h, x, lines0, lines, h, len);
    }
    ColumnClosedRuns(g, w, h, x, lines, len, h, lines');
  }

  /** One pixel of the walk down column `x` (app.js:279-296): a foreground
      pixel extends the current stretch, starting it when none is open; a
      background pixel closes the stretch, appending it when it is longer
      than 10, and resets the counters. */
  method ColumnPixel(binary: array<int>, width: nat, height: nat, x: nat, y: nat, lines0: seq<Run>, lines: seq<Run>,
                  lineStart: int, lineLength: int)
    returns (lines': seq<Run>, lineStart': int, lineLength': int)
    requires binary.Length == width * height && x < width && y < height
    requires ColumnScanned(binary[..], width, height, x, lines0, lines, y, lineLength)
    requires lineStart == if lineLength == 0 then -1 else y - lineLength
    ensures ColumnScanned(binary[..], width, height, x, lines0, lines', y + 1, lineLength')
    ensures lineStart' == if lineLength' == 0 then -1 else y + 1 - lineLength'
  {
    ghost var g := binary[..];
    ColumnCell(g, width, height, x, y);
    lines', lineStart', lineLength' := lines, lineStart, lineLength;
    if binary[y * width + x] == 1 {
      if lineStart' == -1 {
        lineStart' := y;
      }
      ColumnStepForeground(g, width, height, x, lines0, lines, y, lineLength);
      lineLength' := lineLength' + 1;
    } else {
      if lineLength > MinRunLength {
        lines' := lines + [VRun(x, lineStart, lineStart + lineLength - 1, lineLength)];
      }
      ColumnStepBackground(g, width, height, x, lines0, lines, y, lineLength, lines');
      lineStart' := -1;
      lineLength' := 0;
    }
  }

  /** One pass of the outer loop of `detectVerticalLines`: walks column `x`
      top to bottom (app.js:276-306), appending the column's runs to `lines`. */
  method ScanColumn(binary: array<int>, width: nat, height: nat, x: nat, lines0: seq<Run>) returns (lines: seq<Run>)
    requires binary.Length == width * height && x < width
    requires ColumnsBefore(binary[..], width, height, lines0, x)
    ensures ColumnDone(binary[..], width, height, x, lines0, lines)
  {
    ghost var g := binary[..];
    lines := lines0;
    var lineStart := -1;
    var lineLength := 0;
    var y := 0;
    while y < height
      invariant ColumnScanned(g, width, height, x, lines0, lines, y, lineLength)
      invariant lineStart == if lineLength == 0 then -1 else y - lineLength
    {
      lines, lineStart, lineLength := ColumnPixel(binary, width, height, x, y, lines0, lines, lineStart, lineLength);
      y := y + 1;
    }
    ghost var before := lines;
    if lineLength > MinRunLength {
      lines := lines + [VRun(x, lineStart, lineStart + lineLength - 1, lineLength)];
    }
    ColumnFinish(g, width, height, x, lines0, before, lineLength, lines);
  }
}
