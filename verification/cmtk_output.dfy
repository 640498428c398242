/** Parsing what `streamxform` writes to stdout: one line per point, three
    space-separated coordinates followed by " \n"; a point that failed to
    transform comes back with extra tokens (its original coordinates and a
    `FAILED` flag). Converting a token to a float is left abstract: a
    function that gives `None` where Python's `float()` raises. */
module CmtkOutput {

  import opened Errors
  import Strings

  /** One transformed point. */
  datatype Point<V> = Point(x: V, y: V, z: V)

  /** The rows the pattern `(.*?) \n` finds, in order: every line ended by a
      newline whose last character before the newline is a space, without that
      trailing " \n". Since `.` does not match a newline, a line not ended by
      " \n" (and an unterminated tail) matches nowhere and is skipped. */
  function Rows(s: string): seq<string>
  {
    RowsFrom("", s)
  }

  /** The scan behind `Rows`, with `line` the part of the current line read
      so far. */
  function RowsFrom(line: string, s: string): seq<string>
    requires '\n' !in line
    decreases |s|
  {
    if |s| == 0 then []
    else if s[0] == '\n' then LineRow(line) + RowsFrom("", s[1..])
    else RowsFrom(line + [s[0]], s[1..])
  }

  /** The row a complete line (without its newline) contributes: the line
      without its final space if it ends in one, nothing otherwise. */
  function LineRow(line: string): (r: seq<string>)
    requires '\n' !in line
    ensures |r| <= 1
    ensures forall i :: 0 <= i < |r| ==> '\n' !in r[i]
  {
    if |line| > 0 && line[|line| - 1] == ' ' then
      assert line[..|line| - 1] <= line;
      [line[..|line| - 1]]
    else []
  }

  /** One line of tool output: the row followed by " \n". */
  function Line(row: string): string
  {
    row + " \n"
  }

  /** Tool output made of the given rows. */
  function Output(rows: seq<string>): string
  {
    if |rows| == 0 then "" else Line(rows[0]) + Output(rows[1..])
  }

  /** Scanning through the rest of a line: the line is complete at its
      newline and contributes its row before the rows of what follows. */
  lemma {:induction false} RowsFromLine(line: string, row: string, rest: string)
    requires '\n' !in line && '\n' !in row
    ensures '\n' !in line + row
    ensures RowsFrom(line, row + "\n" + rest) == LineRow(line + row) + Rows(rest)
    decreases |row|
  {
    var s := row + "\n" + rest;
    if |row| == 0 {
      assert s == "\n" + rest;
      assert line + row == line;
    } else {
      assert s[0] == row[0];
      assert s[1..] == row[1..] + "\n" + rest;
      RowsFromLine(line + [row[0]], row[1..], rest);
      assert line + [row[0]] + row[1..] == line + row;
    }
  }

  /** Rows of output that continues after a complete line are the row of that
      line followed by the rows of the rest. */
  lemma RowsOfLine(row: string, rest: string)
    requires '\n' !in row
    ensures Rows(Line(row) + rest) == [row] + Rows(rest)
  {
    var r := row + [' '];
    assert Line(row) + rest == r + "\n" + rest;
    RowsFromLine("", r, rest);
    assert "" + r == r;
    assert r[..|r| - 1] == row;
  }

  /** The rows of formatted output are the rows it was made of: one row per
      " \n"-terminated line, in order. */
  lemma {:induction false} RowsOfOutput(rows: seq<string>)
    requires forall i :: 0 <= i < |rows| ==> '\n' !in rows[i]
    ensures Rows(Output(rows)) == rows
  {
    if |rows| > 0 {
      RowsOfOutput(rows[1..]);
      RowsOfLine(rows[0], Output(rows[1..]));
      assert rows == [rows[0]] + rows[1..];
    }
  }

  /** A line that does not end in " \n" contributes no row. */
  lemma LineWithoutSpaceSkipped(line: string, rest: string)
    requires '\n' !in line
    requires |line| == 0 || line[|line| - 1] != ' '
    ensures Rows(line + "\n" + rest) == Rows(rest)
  {
    RowsFromLine("", line, rest);
    assert "" + line == line;
  }

  /** Scanning complete lines and then more output. */
  lemma {:induction false} RowsFromConcat(line: string, a: string, b: string)
    requires '\n' !in line
    requires |a| > 0 && a[|a| - 1] == '\n'
    ensures RowsFrom(line, a + b) == RowsFrom(line, a) + Rows(b)
    decreases |a|
  {
    assert (a + b)[0] == a[0];
    assert (a + b)[1..] == a[1..] + b;
    if a[0] == '\n' {
      if |a| == 1 {
        assert a[1..] + b == b;
      } else {
        assert a[1..][|a| - 2] == a[|a| - 1];
        RowsFromConcat("", a[1..], b);
      }
    } else {
      assert a[1..][|a| - 2] == a[|a| - 1];
      RowsFromConcat(line + [a[0]], a[1..], b);
    }
  }

  /** Output made of complete lines followed by more output: the rows of the
      first part come first, in order, then those of the rest. */
  lemma RowsConcat(a: string, b: string)
    requires |a| == 0 || a[|a| - 1] == '\n'
    ensures Rows(a + b) == Rows(a) + Rows(b)
  {
    if |a| == 0 {
      assert a + b == b;
    } else {
      RowsFromConcat("", a, b);
    }
  }

  /** The scan of text without a newline finds no row, whatever was read of
      the line before it. */
  lemma {:induction false} TailSkippedFrom(line: string, t: string)
    requires '\n' !in line && '\n' !in t
    ensures RowsFrom(line, t) == []
    decreases |t|
  {
    if |t| > 0 {
      assert t[0] in t;
      assert forall c :: c in t[1..] ==> c in t;
      TailSkippedFrom(line + [t[0]], t[1..]);
    }
  }

  /** Text not ended by a newline, such as an unterminated last line, gives
      no row, even when it ends in a space; after complete lines it adds
      nothing to their rows. */
  lemma TailSkipped(a: string, t: string)
    requires |a| == 0 || a[|a| - 1] == '\n'
    requires '\n' !in t
    ensures Rows(t) == []
    ensures Rows(a + t) == Rows(a)
  {
    TailSkippedFrom("", t);
    RowsConcat(a, t);
  }

  /** The point one row stands for: three tokens are converted, any other
      number of tokens gives three fail values; a token `float()` rejects
      raises `ValueError`. */
  function ParseRow<V>(row: string, parse: string -> Option<V>, fail: V): (r: Result<Point<V>>)
    ensures var tokens := Strings.Split(row, ' ');
            && (|tokens| != 3 ==> r == Ok(Point(fail, fail, fail)))
            && (|tokens| == 3 ==>
                  (r.Ok? <==> parse(tokens[0]).Some? && parse(tokens[1]).Some? && parse(tokens[2]).Some?))
            && (|tokens| == 3 && r.Ok? ==>
                  r.value == Point(parse(tokens[0]).value, parse(tokens[1]).value, parse(tokens[2]).value))
  {
    var values := Strings.Split(row, ' ');
    if |values| != 3 then Ok(Point(fail, fail, fail))
    else
      match (parse(values[0]), parse(values[1]), parse(values[2]))
      case (Some(x), Some(y), Some(z)) => Ok(Point(x, y, z))
      case _ => Err(ValueError)
  }

  /** The points of a list of rows, in order; the first failing conversion
      raises. */
  function ParseRows<V>(rows: seq<string>, parse: string -> Option<V>, fail: V): (r: Result<seq<Point<V>>>)
    ensures r.Ok? <==> forall i :: 0 <= i < |rows| ==> ParseRow(rows[i], parse, fail).Ok?
    ensures r.Err? ==> r.error == ValueError
    ensures r.Ok? ==> |r.value| == |rows|
    ensures r.Ok? ==> forall i :: 0 <= i < |rows| ==> r.value[i] == ParseRow(rows[i], parse, fail).value
  {
    if |rows| == 0 then Ok([])
    else
      match ParseRow(rows[0], parse, fail)
      case Err(e) => Err(e)
      case Ok(p) =>
        match ParseRows(rows[1..], parse, fail)
        case Err(e) => Err(e)
        case Ok(ps) =>
          assert forall i :: 1 <= i < |rows| ==> rows[i] == rows[1..][i - 1];
          Ok([p] + ps)
  }

  /** `parse_cmtk_output(output, fail_value)`: one point per row of the
      decoded stdout, in the order of the rows. A row of three tokens gives
      them converted, any other row gives three fail values, and the call
      raises `ValueError` exactly when some token of a three-token row does
      not convert. */
  function ParseOutput<V>(output: string, parse: string -> Option<V>, fail: V): (r: Result<seq<Point<V>>>)
    ensures r.Ok? <==> forall i :: 0 <= i < |Rows(output)| ==>
                         var tokens := Strings.Split(Rows(output)[i], ' ');
                         |tokens| == 3 ==> parse(tokens[0]).Some? && parse(tokens[1]).Some? && parse(tokens[2]).Some?
    ensures r.Ok? ==> |r.value| == |Rows(output)|
    ensures r.Ok? ==> forall i :: 0 <= i < |r.value| ==>
                        (|Strings.Split(Rows(output)[i], ' ')| != 3 ==> r.value[i] == Point(fail, fail, fail))
    ensures r.Ok? ==> forall i :: 0 <= i < |r.value| ==>
                        var tokens := Strings.Split(Rows(output)[i], ' ');
                        |tokens| == 3 ==> r.value[i] == Point(parse(tokens[0]).value, parse(tokens[1]).value, parse(tokens[2]).value)
    ensures r.Err? ==> r.error == ValueError
  {
    ParseRows(Rows(output), parse, fail)
  }

  /** The row the tool writes for a point: three tokens separated by spaces. */
  function PointRow(p: Point<string>): string
  {
    Strings.Join([p.x, p.y, p.z], ' ')
  }

  predicate PlainToken(t: string) {
    ' ' !in t && '\n' !in t
  }

  /** Output written for a list of points is read back as those points:
      every line is a row, in order, each with its three tokens converted. */
  lemma {:induction false} ParseOutputRoundTrip<V>(points: seq<Point<string>>, parse: string -> Option<V>, fail: V)
    requires forall i :: 0 <= i < |points| ==>
               PlainToken(points[i].x) && PlainToken(points[i].y) && PlainToken(points[i].z)
    requires forall i :: 0 <= i < |points| ==>
               parse(points[i].x).Some? && parse(points[i].y).Some? && parse(points[i].z).Some?
    ensures var rows := seq(|points|, i requires 0 <= i < |points| => PointRow(points[i]));
            ParseOutput(Output(rows), parse, fail)
            == Ok(seq(|points|, i requires 0 <= i < |points| =>
                    Point(parse(points[i].x).value, parse(points[i].y).value, parse(points[i].z).value)))
  {
    var rows := seq(|points|, i requires 0 <= i < |points| => PointRow(points[i]));
    forall i | 0 <= i < |points|
      ensures Strings.Split(rows[i], ' ') == [points[i].x, points[i].y, points[i].z]
      ensures '\n' !in rows[i]
    {
      var ts := [points[i].x, points[i].y, points[i].z];
      Strings.SplitJoin(ts, ' ');
      Strings.JoinExcludes(ts, ' ', '\n');
    }
    RowsOfOutput(rows);
    var expected := seq(|points|, i requires 0 <= i < |points| =>
                      Point(parse(points[i].x).value, parse(points[i].y).value, parse(points[i].z).value));
    forall i | 0 <= i < |points|
      ensures ParseRow(rows[i], parse, fail) == Ok(expected[i])
    {
    }
    var r := ParseRows(rows, parse, fail);
    assert r.Ok? && r.value == expected;
  }

  /** A line carrying the `FAILED` flag after its three coordinates gives
      three fail values. */
  lemma FailedRow<V>(x: string, y: string, z: string, parse: string -> Option<V>, fail: V)
    requires PlainToken(x) && PlainToken(y) && PlainToken(z)
    ensures ParseRow(Strings.Join([x, y, z, "FAILED"], ' '), parse, fail) == Ok(Point(fail, fail, fail))
  {
    Strings.SplitJoin([x, y, z, "FAILED"], ' ');
  }
}
