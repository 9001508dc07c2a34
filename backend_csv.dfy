/** The CSV-backed parts of the FastAPI backend that hold logic: allocating the next
    numeric id, and rewriting the status column of a donation request. A file is the
    list of rows `csv.reader` yields, header first; a row is a list of cells. */
module BackendCsv {
  import opened Wrappers
  import opened Text
  import opened Decimal
  import opened BackendCompatibility

  type Row = seq<string>

  /** The status column of the requests file (`row[7]`). */
  const StatusColumn := 7

  /** What Starlette answers for an exception the handler does not catch. */
  const InternalError := HttpError(500, "Internal Server Error")
  const NotFound := HttpError(404, "Request not found")

  // ---------------------------------------------------------------------------
  // get_next_id

  /** `[int(row[0]) for row in rows if row[0].isdigit()]`, with `isdigit` on ASCII
      digits; a blank line, which `csv.reader` yields as an empty row, makes `row[0]`
      raise `IndexError`. */
  function NumericIds(rows: seq<Row>): Result<seq<nat>, PyException> {
    if rows == [] then Ok([])
    else if rows[0] == [] then Err(IndexError)
    else
      match NumericIds(rows[1..])
      case Err(e) => Err(e)
      case Ok(rest) => Ok(if IsDigits(rows[0][0]) then [Value(rows[0][0])] + rest else rest)
  }

  function Max(xs: seq<nat>): (m: nat)
    requires xs != []
    ensures m in xs && forall i :: 0 <= i < |xs| ==> xs[i] <= m
  {
    if |xs| == 1 then xs[0]
    else
      var m := Max(xs[1..]);
      assert forall i :: 1 <= i < |xs| ==> xs[i] == xs[1..][i - 1];
      if xs[0] >= m then xs[0] else m
  }

  /** `get_next_id(filename)`: skip the header (`next(reader)` on an empty file raises
      `StopIteration`), then one more than the largest all-digit id, or 1 if none. */
  function GetNextId(file: seq<Row>): Result<nat, PyException> {
    if file == [] then Err(StopIteration)
    else
      match NumericIds(file[1..])
      case Err(e) => Err(e)
      case Ok(ids) => Ok(if ids == [] then 1 else Max(ids) + 1)
  }

  /** Row `i` carries an all-digit id. */
  predicate HasNumericId(rows: seq<Row>, i: int)
    requires 0 <= i < |rows| && rows[i] != []
  {
    IsDigits(rows[i][0])
  }

  /** The ids collected are exactly the values of the all-digit ids; rows whose id is not
      all digits are ignored. */
  lemma {:induction false} NumericIdsAre(rows: seq<Row>)
    requires forall i :: 0 <= i < |rows| ==> rows[i] != []
    ensures NumericIds(rows).Ok?
    ensures forall v :: v in NumericIds(rows).value <==>
              exists i :: 0 <= i < |rows| && HasNumericId(rows, i) && Value(rows[i][0]) == v
  {
    if rows != [] {
      NumericIdsAre(rows[1..]);
      forall v | v in NumericIds(rows).value
        ensures exists i :: 0 <= i < |rows| && HasNumericId(rows, i) && Value(rows[i][0]) == v
      {
        if !(IsDigits(rows[0][0]) && Value(rows[0][0]) == v) {
          var j :| 0 <= j < |rows[1..]| && HasNumericId(rows[1..], j) && Value(rows[1..][j][0]) == v;
          assert HasNumericId(rows, j + 1);
        } else {
          assert HasNumericId(rows, 0);
        }
      }
      forall v | exists i :: 0 <= i < |rows| && HasNumericId(rows, i) && Value(rows[i][0]) == v
        ensures v in NumericIds(rows).value
      {
        var i :| 0 <= i < |rows| && HasNumericId(rows, i) && Value(rows[i][0]) == v;
        if i > 0 {
          assert HasNumericId(rows[1..], i - 1);
        }
      }
    }
  }

  /** With a header and no blank line, the next id is 1 when no id is all digits, and
      otherwise one more than the largest all-digit id -- so strictly greater than every
      numeric id in the file. */
  lemma GetNextIdIsFresh(file: seq<Row>)
    requires file != [] && forall i :: 1 <= i < |file| ==> file[i] != []
    ensures GetNextId(file).Ok?
    ensures forall i :: 1 <= i < |file| && IsDigits(file[i][0]) ==> Value(file[i][0]) < GetNextId(file).value
    ensures (forall i :: 1 <= i < |file| ==> !IsDigits(file[i][0])) ==> GetNextId(file).value == 1
    ensures (exists i :: 1 <= i < |file| && IsDigits(file[i][0])) ==>
              exists i :: 1 <= i < |file| && IsDigits(file[i][0]) && Value(file[i][0]) + 1 == GetNextId(file).value
  {
    var rows := file[1..];
    NumericIdsAre(rows);
    var ids := NumericIds(rows).value;
    forall i | 1 <= i < |file| && IsDigits(file[i][0])
      ensures Value(file[i][0]) < GetNextId(file).value
    {
      assert HasNumericId(rows, i - 1);
      assert Value(file[i][0]) in ids;
    }
    if ids != [] {
      var m := Max(ids);
      var j :| 0 <= j < |rows| && HasNumericId(rows, j) && Value(rows[j][0]) == m;
      assert IsDigits(file[j + 1][0]) && Value(file[j + 1][0]) + 1 == GetNextId(file).value;
    }
  }

  /** A blank line after the header makes the comprehension raise. */
  lemma BlankRowRaises(file: seq<Row>, i: int)
    requires 1 <= i < |file| && file[i] == []
    ensures GetNextId(file) == Err(IndexError)
  {
    BlankRowRaisesIn(file[1..], i - 1);
  }

  lemma {:induction false} BlankRowRaisesIn(rows: seq<Row>, i: int)
    requires 0 <= i < |rows| && rows[i] == []
    ensures NumericIds(rows) == Err(IndexError)
  {
    if i > 0 && rows[0] != [] {
      BlankRowRaisesIn(rows[1..], i - 1);
    }
  }

  // ---------------------------------------------------------------------------
  // int() as update_request_status applies it to the id cell

  predicate IsIntBody(t: string) {
    t != [] && IsDigit(t[0]) && IsDigit(t[|t| - 1]) &&
    (forall i :: 0 <= i < |t| ==> IsDigit(t[i]) || t[i] == '_') &&
    (forall i :: 0 <= i < |t| - 1 ==> t[i] == '_' ==> t[i + 1] != '_')
  }

  function WithoutUnderscores(t: string): (r: string)
    requires forall i :: 0 <= i < |t| ==> IsDigit(t[i]) || t[i] == '_'
    ensures AllDigits(r)
  {
    if t == [] then []
    else if t[0] == '_' then WithoutUnderscores(t[1..])
    else [t[0]] + WithoutUnderscores(t[1..])
  }

  /** Python's `int(s)` on a string: surrounding whitespace, an optional sign, and
      ASCII digits that single underscores may separate; anything else is read as
      raising `ValueError` (the other Unicode decimal digits `int` accepts are not
      modelled). */
  function PyInt(s: string): Option<int> {
    var t := Strip(s);
    var negative := t != [] && t[0] == '-';
    var body := if t != [] && (t[0] == '+' || t[0] == '-') then t[1..] else t;
    if IsIntBody(body) then
      var v: int := Value(WithoutUnderscores(body));
      Some(if negative then -v else v)
    else None
  }

  lemma {:induction false} WithoutUnderscoresOfDigits(t: string)
    requires AllDigits(t)
    ensures WithoutUnderscores(t) == t
  {
    if t != [] {
      WithoutUnderscoresOfDigits(t[1..]);
    }
  }

  /** On an all-digit string `int` is the decimal value, as `get_next_id` relies on. */
  lemma PyIntOfDigits(s: string)
    requires IsDigits(s)
    ensures PyInt(s) == Some(Value(s))
  {
    assert !IsPySpace(s[0]) && !IsPySpace(s[|s| - 1]);
    StripUnchanged(s);
    WithoutUnderscoresOfDigits(s);
  }

  // ---------------------------------------------------------------------------
  // update_request_status

  /** One pass of the loop body: `int(row[0]) == request_id`, and for a match
      `row[7] = status`. Yields the row to keep and whether it matched. */
  function RewriteRow(row: Row, requestId: int, status: string): Result<(Row, bool), HttpError> {
    if row == [] then Err(InternalError)
    else
      match PyInt(row[0])
      case None => Err(InternalError)
      case Some(v) =>
        if v != requestId then Ok((row, false))
        else if |row| <= StatusColumn then Err(InternalError)
        else Ok((row[StatusColumn := status], true))
  }

  /** The rows the loop collects in `requests`, and the final `updated` flag. */
  function RewriteRows(rows: seq<Row>, requestId: int, status: string): Result<(seq<Row>, bool), HttpError>
  {
    if rows == [] then Ok(([], false))
    else
      match RewriteRows(rows[..|rows| - 1], requestId, status)
      case Err(e) => Err(e)
      case Ok((done, updated)) =>
        match RewriteRow(rows[|rows| - 1], requestId, status)
        case Err(e) => Err(e)
        case Ok((row, matched)) => Ok((done + [row], updated || matched))
  }

  /** The whole handler: read the header and rows, rewrite, then either 404 without
      writing or the new file contents (header, then the rewritten rows). */
  function UpdateRequestStatusSpec(file: seq<Row>, requestId: int, status: string): Result<seq<Row>, HttpError> {
    if file == [] then Err(InternalError)
    else
      match RewriteRows(file[1..], requestId, status)
      case Err(e) => Err(e)
      case Ok((rows, updated)) => if updated then Ok([file[0]] + rows) else Err(NotFound)
  }

  /** The rows up to `i + 1` are the rows up to `i` followed by row `i`. */
  lemma RewriteRowsStep(rows: seq<Row>, i: nat, requestId: int, status: string)
    requires i < |rows|
    ensures RewriteRows(rows[..i + 1], requestId, status) ==
      match RewriteRows(rows[..i], requestId, status)
      case Err(e) => Err(e)
      case Ok((done, updated)) =>
        match RewriteRow(rows[i], requestId, status)
        case Err(e) => Err(e)
        case Ok((row, matched)) => Ok((done + [row], updated || matched))
  {
    assert rows[..i + 1][..i] == rows[..i];
  }

  /** A row that fails stops the rewrite for good. */
  lemma {:induction false} RewriteRowsErrPersists(rows: seq<Row>, n: nat, requestId: int, status: string)
    requires n <= |rows| && RewriteRows(rows[..n], requestId, status).Err?
    ensures RewriteRows(rows, requestId, status) == RewriteRows(rows[..n], requestId, status)
    decreases |rows| - n
  {
    if n < |rows| {
      RewriteRowsStep(rows, n, requestId, status);
      RewriteRowsErrPersists(rows, n + 1, requestId, status);
    } else {
      assert rows[..n] == rows;
    }
  }

  /** `update_request_status(request_id, status)` on the file's rows: the loop of the
      source, returning the contents written back, or the error response. */
  method UpdateRequestStatus(file: seq<Row>, requestId: int, status: string) returns (r: Result<seq<Row>, HttpError>)
    ensures r == UpdateRequestStatusSpec(file, requestId, status)
  {
    if file == [] {
      return Err(InternalError);
    }
    var header := file[0];
    var rows := file[1..];
    var requests: seq<Row> := [];
    var updated := false;
    var i := 0;
    while i < |rows|
      invariant 0 <= i <= |rows|
      invariant RewriteRows(rows[..i], requestId, status) == Ok((requests, updated))
    {
      var step := RewriteRow(rows[i], requestId, status);
      RewriteRowsStep(rows, i, requestId, status);
      if step.Err? {
        RewriteRowsErrPersists(rows, i + 1, requestId, status);
        return Err(step.error);
      }
      requests := requests + [step.value.0];
      updated := updated || step.value.1;
      i := i + 1;
    }
    assert rows[..i] == rows;
    if !updated {
      return Err(NotFound);
    }
    return Ok([header] + requests);
  }

  /** The id cell of a row holds `requestId` as `int` reads it. */
  predicate IdMatches(row: Row, requestId: int) {
    row != [] && PyInt(row[0]) == Some(requestId)
  }

  /** What a successful rewrite puts at the place of `row`. */
  predicate RewrittenAs(row: Row, out: Row, requestId: int, status: string) {
    if IdMatches(row, requestId)
    then |row| > StatusColumn && out == row[StatusColumn := status]
    else out == row
  }

  /** A successful rewrite keeps the number of rows, and every row is rewritten as
      `RewrittenAs` says. */
  lemma {:induction false} RewriteRowsShape(rows: seq<Row>, requestId: int, status: string)
    requires RewriteRows(rows, requestId, status).Ok?
    ensures |RewriteRows(rows, requestId, status).value.0| == |rows|
    ensures forall i :: 0 <= i < |rows| ==>
              RewrittenAs(rows[i], RewriteRows(rows, requestId, status).value.0[i], requestId, status)
  {
    if rows != [] {
      var front := rows[..|rows| - 1];
      RewriteRowsShape(front, requestId, status);
      var out := RewriteRows(rows, requestId, status).value.0;
      var done := RewriteRows(front, requestId, status).value.0;
      assert out[..|rows| - 1] == done;
      forall i | 0 <= i < |rows|
        ensures RewrittenAs(rows[i], out[i], requestId, status)
      {
        if i < |rows| - 1 {
          assert rows[i] == front[i] && out[i] == done[i];
        }
      }
    }
  }

  /** The `updated` flag is set exactly when some row's id matches. */
  lemma {:induction false} RewriteRowsUpdated(rows: seq<Row>, requestId: int, status: string)
    requires RewriteRows(rows, requestId, status).Ok?
    ensures RewriteRows(rows, requestId, status).value.1 <==>
            exists i :: 0 <= i < |rows| && IdMatches(rows[i], requestId)
  {
    if rows != [] {
      var front := rows[..|rows| - 1];
      RewriteRowsUpdated(front, requestId, status);
      if exists i :: 0 <= i < |rows| && IdMatches(rows[i], requestId) {
        var i :| 0 <= i < |rows| && IdMatches(rows[i], requestId);
        if i < |rows| - 1 {
          assert IdMatches(front[i], requestId);
        }
      }
      if exists i :: 0 <= i < |front| && IdMatches(front[i], requestId) {
        var i :| 0 <= i < |front| && IdMatches(front[i], requestId);
        assert IdMatches(rows[i], requestId);
      }
    }
  }

  /** A successful update writes back a file of the same length with the same header,
      and it happens only when some row's id matches. */
  lemma UpdateRequestStatusKeepsHeader(file: seq<Row>, requestId: int, status: string)
    requires UpdateRequestStatusSpec(file, requestId, status).Ok?
    ensures |UpdateRequestStatusSpec(file, requestId, status).value| == |file|
    ensures UpdateRequestStatusSpec(file, requestId, status).value[0] == file[0]
    ensures exists i :: 1 <= i < |file| && IdMatches(file[i], requestId)
  {
    var rows := file[1..];
    RewriteRowsShape(rows, requestId, status);
    RewriteRowsUpdated(rows, requestId, status);
    var k :| 0 <= k < |rows| && IdMatches(rows[k], requestId);
    assert file[k + 1] == rows[k];
  }

  /** A successful update sets column 7 to `status` in every row whose id matches, and
      leaves the other rows and the other columns as they were. */
  lemma UpdateRequestStatusRows(file: seq<Row>, requestId: int, status: string)
    requires UpdateRequestStatusSpec(file, requestId, status).Ok?
    ensures |UpdateRequestStatusSpec(file, requestId, status).value| == |file|
    ensures forall i :: 1 <= i < |file| ==>
              RewrittenAs(file[i], UpdateRequestStatusSpec(file, requestId, status).value[i], requestId, status)
  {
    var rows := file[1..];
    var res := RewriteRows(rows, requestId, status);
    assert res.Ok?;
    var done := res.value.0;
    var written := UpdateRequestStatusSpec(file, requestId, status).value;
    assert written == [file[0]] + done;
    RewriteRowsShape(rows, requestId, status);
    forall i | 1 <= i < |file|
      ensures RewrittenAs(file[i], written[i], requestId, status)
    {
      RewrittenAtShifted(file, rows, done, written, i, requestId, status);
    }
  }

  lemma RewrittenAtShifted(file: seq<Row>, rows: seq<Row>, done: seq<Row>, written: seq<Row>, i: int,
                           requestId: int, status: string)
    requires 1 <= i < |file| && rows == file[1..] && |done| == |rows| && written == [file[0]] + done
    requires RewrittenAs(rows[i - 1], done[i - 1], requestId, status)
    ensures RewrittenAs(file[i], written[i], requestId, status)
  {
    assert file[i] == rows[i - 1] && written[i] == done[i - 1];
  }

  /** When every row is well formed but none has the id, the answer is 404 and nothing
      is written. */
  lemma NoMatchIsNotFound(file: seq<Row>, requestId: int, status: string)
    requires file != [] && RewriteRows(file[1..], requestId, status).Ok?
    requires forall i :: 1 <= i < |file| ==> !IdMatches(file[i], requestId)
    ensures UpdateRequestStatusSpec(file, requestId, status) == Err(NotFound)
  {
    var rows := file[1..];
    RewriteRowsUpdated(rows, requestId, status);
    assert forall i :: 0 <= i < |rows| ==> rows[i] == file[i + 1];
  }
}
