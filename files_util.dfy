/** Output file names and the order in which the writers of files_util.h emit
    their lines. The stream is the sequence of lines written; a line is either a
    comment (COMMENT_CHARACTER '#' followed by its cells) or a data line of
    numbers. Column widths and number formatting are not modelled: `str` stands
    for `std::to_string`. */
module FilesUtil {
  import opened Numerics

  const CommentCharacter: char := '#'

  /** A parameter of a file name or a comment: strings are written verbatim,
      numbers through `std::to_string`. */
  datatype FileParam = Text(s: string) | Number(x: real)

  datatype Line = Comment(cells: seq<FileParam>) | Data(values: seq<real>)

  datatype FluidParamsOutput = FluidParamsOutput(xLabel: string, yLabel: string, chi: real, w: real)

  datatype FieldParamsOutput = FieldParamsOutput(xLabel: string, yLabel: string, chi: real,
                                                 surfaceSplitsNum: int, internalSplitsNum: int,
                                                 externalSplitsNum: int)

  function Show(str: real -> string, p: FileParam): string
  {
    match p
    case Text(s) => s
    case Number(x) => str(x)
  }

  /** generate_file_postfix: the one-parameter overload writes the delimiter and
      the parameter; the variadic one splits off the first parameter. */
  function Postfix(str: real -> string, delimiter: string, params: seq<FileParam>): string
    requires |params| >= 1
    decreases |params|
  {
    if |params| == 1 then delimiter + Show(str, params[0])
    else Postfix(str, delimiter, params[..1]) + Postfix(str, delimiter, params[1..])
  }

  /** The same text built left to right: each parameter in order, each preceded by
      the delimiter. */
  function Joined(str: real -> string, delimiter: string, params: seq<FileParam>): string
  {
    if params == [] then []
    else Joined(str, delimiter, params[..|params| - 1]) + delimiter + Show(str, params[|params| - 1])
  }

  /** The postfix is every parameter in order, each preceded by the delimiter. */
  lemma {:induction false} PostfixJoined(str: real -> string, delimiter: string, params: seq<FileParam>)
    requires |params| >= 1
    ensures Postfix(str, delimiter, params) == Joined(str, delimiter, params)
    decreases |params|
  {
    if |params| > 1 {
      PostfixJoined(str, delimiter, params[1..]);
      JoinedCons(str, delimiter, params[0], params[1..]);
      assert [params[0]] + params[1..] == params;
      assert params[..1] == [params[0]];
    }
  }

  lemma {:induction false} JoinedCons(str: real -> string, delimiter: string, p: FileParam, rest: seq<FileParam>)
    ensures Joined(str, delimiter, [p] + rest) == delimiter + Show(str, p) + Joined(str, delimiter, rest)
    decreases |rest|
  {
    if rest != [] {
      var all := [p] + rest;
      assert all[..|all| - 1] == [p] + rest[..|rest| - 1];
      JoinedCons(str, delimiter, p, rest[..|rest| - 1]);
    } else {
      assert ([p] + rest)[..0] == [];
    }
  }

  /** generate_file_name with an explicit delimiter. */
  function GenerateFileName(str: real -> string, prefix: string, delimiter: string, extension: string,
                            params: seq<FileParam>): (name: string)
    requires |params| >= 1
    ensures name == prefix + Joined(str, delimiter, params) + "." + extension
  {
    PostfixJoined(str, delimiter, params);
    prefix + Postfix(str, delimiter, params) + "." + extension
  }

  /** The three-argument generate_file_name: the delimiter is "-". */
  function DefaultFileName(str: real -> string, prefix: string, extension: string,
                           params: seq<FileParam>): (name: string)
    requires |params| >= 1
    ensures name == GenerateFileName(str, prefix, "-", extension, params)
  {
    GenerateFileName(str, prefix, "-", extension, params)
  }

  /** A two-parameter name such as write_fluid_data's "fluid-<chi>-<w>.dat". */
  lemma DefaultFileNameOfTwo(str: real -> string, prefix: string, extension: string, a: FileParam, b: FileParam)
    ensures DefaultFileName(str, prefix, extension, [a, b])
            == prefix + "-" + Show(str, a) + "-" + Show(str, b) + "." + extension
  {
    assert [a, b][..1] == [a] && [a][..0] == [];
    assert Joined(str, "-", [a]) == "-" + Show(str, a);
    assert Joined(str, "-", [a, b]) == "-" + Show(str, a) + "-" + Show(str, b);
  }

  /** The four comment lines every writer starts with. */
  function Header(title: seq<FileParam>, values: seq<FileParam>, labels: seq<FileParam>): seq<Line>
  {
    [Comment(title), Comment(values), Comment([Text("########")]), Comment(labels)]
  }

  function PointLine(p: Vec2): Line
  {
    Data([p.r, p.z])
  }

  /** write_fluid_data: the header, then one line per surface point in order. */
  method WriteFluidData(params: FluidParamsOutput, points: array<Vec2>) returns (out: seq<Line>)
    ensures |out| == 4 + points.Length
    ensures out[..4] == Header([Text("Chi"), Text("W")], [Number(params.chi), Number(params.w)],
                               [Text(params.xLabel), Text(params.yLabel)])
    ensures forall i :: 0 <= i < points.Length ==> out[4 + i] == PointLine(points[i])
  {
    out := Header([Text("Chi"), Text("W")], [Number(params.chi), Number(params.w)],
                  [Text(params.xLabel), Text(params.yLabel)]);
    var i := 0;
    while i < points.Length
      invariant 0 <= i <= points.Length && |out| == 4 + i
      invariant out[..4] == Header([Text("Chi"), Text("W")], [Number(params.chi), Number(params.w)],
                                   [Text(params.xLabel), Text(params.yLabel)])
      invariant forall k :: 0 <= k < i ==> out[4 + k] == PointLine(points[k])
    {
      out := out + [PointLine(points[i])];
      i := i + 1;
    }
  }

  function FieldLine(points: array2<Vec2>, field: array2<real>, i: nat, j: nat): Line
    reads points, field
    requires i < points.Length0 && j < points.Length1
    requires field.Length0 >= points.Length0 && field.Length1 >= points.Length1
  {
    Data([points[i, j].r, points[i, j].z, field[i, j]])
  }

  /** The first m lines of row i of the field file. */
  function FieldRowLines(points: array2<Vec2>, field: array2<real>, i: nat, m: nat): (lines: seq<Line>)
    reads points, field
    requires i < points.Length0 && m <= points.Length1
    requires field.Length0 >= points.Length0 && field.Length1 >= points.Length1
    ensures |lines| == m
    ensures forall j :: 0 <= j < m ==> lines[j] == FieldLine(points, field, i, j)
  {
    if m == 0 then [] else FieldRowLines(points, field, i, m - 1) + [FieldLine(points, field, i, m - 1)]
  }

  /** The lines of the first n rows of the field file. */
  function FieldRows(points: array2<Vec2>, field: array2<real>, n: nat): seq<Line>
    reads points, field
    requires n <= points.Length0
    requires field.Length0 >= points.Length0 && field.Length1 >= points.Length1
  {
    if n == 0 then [] else FieldRows(points, field, n - 1) + FieldRowLines(points, field, n - 1, points.Length1)
  }

  /** The field file is row-major: exactly rows x columns data lines, and line
      i * columns + j holds point (i, j) and its potential. */
  lemma {:induction false} FieldRowsRowMajor(points: array2<Vec2>, field: array2<real>, n: nat, i: nat, j: nat,
                                             offset: nat)
    requires n <= points.Length0
    requires field.Length0 >= points.Length0 && field.Length1 >= points.Length1
    requires i < n && j < points.Length1 && offset == i * points.Length1
    ensures |FieldRows(points, field, n)| == n * points.Length1
    ensures FieldRows(points, field, n)[offset + j] == FieldLine(points, field, i, j)
    decreases n
  {
    var cols := points.Length1;
    FieldRowsLength(points, field, n - 1);
    if i < n - 1 {
      FieldRowsRowMajor(points, field, n - 1, i, j, offset);
      assert offset + j < (n - 1) * cols by {
        assert offset + j < i * cols + cols;
        assert i * cols + cols == (i + 1) * cols;
        assert (n - 1) * cols == (i + 1) * cols + (n - 1 - (i + 1)) * cols;
        if n - 1 - (i + 1) >= 1 {
          MultipleBounds(n - 1 - (i + 1), cols);
        }
      }
    } else {
      assert offset == (n - 1) * cols;
    }
    assert n * cols == (n - 1) * cols + cols;
  }

  lemma {:induction false} FieldRowsLength(points: array2<Vec2>, field: array2<real>, n: nat)
    requires n <= points.Length0
    requires field.Length0 >= points.Length0 && field.Length1 >= points.Length1
    ensures |FieldRows(points, field, n)| == n * points.Length1
    decreases n
  {
    if n > 0 {
      FieldRowsLength(points, field, n - 1);
      assert n * points.Length1 == (n - 1) * points.Length1 + points.Length1;
    }
  }

  /** write_field_data: the header, then every point with its potential, row by row. */
  method WriteFieldData(params: FieldParamsOutput, points: array2<Vec2>, field: array2<real>)
    returns (out: seq<Line>)
    requires field.Length0 >= points.Length0 && field.Length1 >= points.Length1
    ensures out == Header([Text("Chi")], [Number(params.chi)],
                          [Text(params.xLabel), Text(params.yLabel), Text("field")])
                   + FieldRows(points, field, points.Length0)
  {
    var header := Header([Text("Chi")], [Number(params.chi)],
                         [Text(params.xLabel), Text(params.yLabel), Text("field")]);
    var body := [];
    var i := 0;
    while i < points.Length0
      invariant 0 <= i <= points.Length0
      invariant body == FieldRows(points, field, i)
    {
      var row := [];
      var j := 0;
      while j < points.Length1
        invariant 0 <= j <= points.Length1
        invariant row == FieldRowLines(points, field, i, j)
      {
        row := row + [FieldLine(points, field, i, j)];
        j := j + 1;
      }
      body := body + row;
      i := i + 1;
    }
    out := header + body;
  }

  function GridPoint(points: array2<Vec2>, i: nat, j: nat): Line
    reads points
    requires i < points.Length0 && j < points.Length1
  {
    PointLine(points[i, j])
  }

  /** Row i from column `from` down to column `first`. */
  function BackSweep(points: array2<Vec2>, i: nat, from: int, first: nat): (lines: seq<Line>)
    reads points
    requires i < points.Length0 && from < points.Length1
    ensures |lines| == if from < first then 0 else from - first + 1
    ensures forall m :: 0 <= m < |lines| ==> from - m >= 0 && lines[m] == GridPoint(points, i, from - m)
    decreases from - first + 1
  {
    if from < first then [] else [GridPoint(points, i, from)] + BackSweep(points, i, from - 1, first)
  }

  /** What the grid writers emit for cell (i, j) of a strip of columns
      first..last: the point; below the last row, either the closed triangle
      (i, j), (i + 1, j), (i, j + 1), (i, j) or, at the last column, the next row
      swept back to the first column. */
  function StripCell(points: array2<Vec2>, first: nat, last: nat, i: nat, j: nat): seq<Line>
    reads points
    requires first <= j <= last < points.Length1 && i < points.Length0
  {
    var rows := points.Length0;
    [GridPoint(points, i, j)]
    + (if i != rows - 1 && j != last then
         [GridPoint(points, i + 1, j), GridPoint(points, i, j + 1), GridPoint(points, i, j)]
       else if i != rows - 1 then BackSweep(points, i + 1, last, first)
       else [])
  }

  /** The cells first..first + m - 1 of row i. */
  function StripRowLines(points: array2<Vec2>, first: nat, last: nat, i: nat, m: nat): seq<Line>
    reads points
    requires first <= last < points.Length1 && i < points.Length0 && m <= last - first + 1
  {
    if m == 0 then [] else StripRowLines(points, first, last, i, m - 1) + StripCell(points, first, last, i, first + m - 1)
  }

  /** The first n rows of a strip. */
  function StripRows(points: array2<Vec2>, first: nat, last: nat, n: nat): seq<Line>
    reads points
    requires first <= last < points.Length1 && n <= points.Length0
  {
    if n == 0 then [] else StripRows(points, first, last, n - 1) + StripRowLines(points, first, last, n - 1, last - first + 1)
  }

  /** Number of lines of one row: every cell writes its point; below the last row
      the w = last - first cells before the last column write three more, and the
      last column writes the w + 1 points of the back-sweep. */
  lemma {:induction false} StripRowLength(points: array2<Vec2>, first: nat, last: nat, i: nat, m: nat)
    requires first <= last < points.Length1 && i < points.Length0 && m <= last - first + 1
    ensures i == points.Length0 - 1 ==> |StripRowLines(points, first, last, i, m)| == m
    ensures i < points.Length0 - 1 ==>
      |StripRowLines(points, first, last, i, m)| ==
        if m == last - first + 1 then 4 * m + (last - first + 1) - 3 else 4 * m
    decreases m
  {
    if m > 0 {
      StripRowLength(points, first, last, i, m - 1);
    }
  }

  /** Rows above the last one hold 5w + 2 lines each, w = last - first. */
  lemma {:induction false} StripFullRowsLength(points: array2<Vec2>, first: nat, last: nat, n: nat, total: int)
    requires first <= last < points.Length1 && n < points.Length0
    requires total == n * (5 * (last - first) + 2)
    ensures |StripRows(points, first, last, n)| == total
    decreases n
  {
    var w := last - first;
    if n > 0 {
      StripFullRowsLength(points, first, last, n - 1, (n - 1) * (5 * w + 2));
      StripRowLength(points, first, last, n - 1, w + 1);
      assert total == (n - 1) * (5 * w + 2) + (5 * w + 2);
    }
  }

  /** The whole strip holds rows * (w + 1) + (rows - 1) * (4w + 1) lines, w = last - first:
      one line per point, three more per triangle and the back-sweeps. */
  lemma StripRowsLength(points: array2<Vec2>, first: nat, last: nat, total: int)
    requires first <= last < points.Length1 && points.Length0 >= 1
    requires total == points.Length0 * (last - first + 1) + (points.Length0 - 1) * (4 * (last - first) + 1)
    ensures |StripRows(points, first, last, points.Length0)| == total
  {
    var w := last - first;
    var rows := points.Length0;
    StripFullRowsLength(points, first, last, rows - 1, (rows - 1) * (5 * w + 2));
    StripRowLength(points, first, last, rows - 1, w + 1);
    StripTotalSplit(rows, w);
  }

  /** The strip total regrouped as the full rows plus the last row. */
  lemma StripTotalSplit(rows: int, w: int)
    ensures rows * (w + 1) + (rows - 1) * (4 * w + 1) == (rows - 1) * (5 * w + 2) + (w + 1)
  {
    calc {
      rows * (w + 1) + (rows - 1) * (4 * w + 1);
      (rows - 1) * (w + 1) + (w + 1) + (rows - 1) * (4 * w + 1);
      (rows - 1) * (5 * w + 2) + (w + 1);
    }
  }

  /** What the loop body writes for one cell. */
  method WriteCell(points: array2<Vec2>, first: nat, last: nat, i: nat, j: nat) returns (lines: seq<Line>)
    requires first <= j <= last < points.Length1 && i < points.Length0
    ensures lines == StripCell(points, first, last, i, j)
  {
    lines := [GridPoint(points, i, j)];
    if i != points.Length0 - 1 && j != last {
      lines := lines + [GridPoint(points, i + 1, j), GridPoint(points, i, j + 1), GridPoint(points, i, j)];
    } else if i != points.Length0 - 1 {
      ghost var sweep := BackSweep(points, i + 1, last, first);
      var k: int := last;
      while k >= first
        invariant first - 1 <= k <= last
        invariant lines == [GridPoint(points, i, j)] + sweep[..last - k]
      {
        assert sweep[..last - k + 1] == sweep[..last - k] + [GridPoint(points, i + 1, k)];
        lines := lines + [GridPoint(points, i + 1, k)];
        k := k - 1;
      }
      assert sweep[..last - k] == sweep;
    }
  }

  /** One row of the strip: the cells first..last of row i in column order. */
  method WriteStripRow(points: array2<Vec2>, first: nat, last: nat, i: nat) returns (row: seq<Line>)
    requires first <= last < points.Length1 && i < points.Length0
    ensures row == StripRowLines(points, first, last, i, last - first + 1)
  {
    row := [];
    var j := first;
    while j <= last
      invariant first <= j <= last + 1
      invariant row == StripRowLines(points, first, last, i, j - first)
    {
      var cell := WriteCell(points, first, last, i, j);
      row := row + cell;
      j := j + 1;
    }
  }

  /** The double loop shared by write_internal_grid_data and
      write_external_grid_data over the columns first..last. */
  method WriteStrip(points: array2<Vec2>, first: nat, last: nat, header: seq<Line>) returns (out: seq<Line>)
    requires first <= last < points.Length1
    ensures out == header + StripRows(points, first, last, points.Length0)
  {
    var body := [];
    var i := 0;
    while i < points.Length0
      invariant 0 <= i <= points.Length0
      invariant body == StripRows(points, first, last, i)
    {
      var row := WriteStripRow(points, first, last, i);
      body := body + row;
      i := i + 1;
    }
    out := header + body;
  }


  function GridHeader(params: FieldParamsOutput): seq<Line>
  {
    Header([Text("Chi")], [Number(params.chi)], [Text(params.xLabel), Text(params.yLabel)])
  }

  /** write_internal_grid_data: the strip from the axis to the surface column. */
  method WriteInternalGridData(params: FieldParamsOutput, points: array2<Vec2>) returns (out: seq<Line>)
    requires 0 <= params.internalSplitsNum < points.Length1
    ensures out == GridHeader(params) + StripRows(points, 0, params.internalSplitsNum, points.Length0)
  {
    out := WriteStrip(points, 0, params.internalSplitsNum, GridHeader(params));
  }

  /** write_external_grid_data: the strip from the surface column to the last column. */
  method WriteExternalGridData(params: FieldParamsOutput, points: array2<Vec2>) returns (out: seq<Line>)
    requires 0 <= params.internalSplitsNum < points.Length1
    ensures out == GridHeader(params) + StripRows(points, params.internalSplitsNum, points.Length1 - 1, points.Length0)
  {
    out := WriteStrip(points, params.internalSplitsNum, points.Length1 - 1, GridHeader(params));
  }
}
