/** Forcing the isophote fit from an existing profile file: find the header
    line after the `#` comments, skip the units line, read every later line as
    comma-separated numbers under the header's column names, then take the
    ellipticity, the position angle (shifted to the package's convention and
    converted from degrees to radians) and the radius (converted from arcsec to
    pixels), plus the error columns when both are present. */
module ForcedProfile {
  import opened Common
  import opened Text

  const CommentMark: char := '#'

  /** How reading a forcing profile fails: an empty line before the header
      (indexing its first character fails), no header line at all, a field
      that does not parse as a number, or a required column that is absent. */
  datatype ForcedError =
    | EmptyLine(index: nat)
    | NoHeader
    | BadNumber(line: nat, column: nat)
    | MissingColumn(name: string)

  /** Lines `lo` up to `hi` are all comments. */
  predicate Comments(lines: seq<string>, lo: nat, hi: nat)
    requires lo <= hi <= |lines|
  {
    forall k :: lo <= k < hi ==> |lines[k]| > 0 && lines[k][0] == CommentMark
  }

  /** The index of the header: the first line from `i` on that does not start
      with `#`. */
  function HeaderIndex(lines: seq<string>, i: nat): (r: Result<nat, ForcedError>)
    requires i <= |lines|
    ensures r.Success? ==>
      && i <= r.value < |lines| && |lines[r.value]| > 0 && lines[r.value][0] != CommentMark
      && Comments(lines, i, r.value)
    ensures r.Failure? && r.error.EmptyLine? ==>
      && i <= r.error.index < |lines| && lines[r.error.index] == ""
      && Comments(lines, i, r.error.index)
    ensures r.Failure? ==> r.error.EmptyLine? || (r.error == NoHeader && Comments(lines, i, |lines|))
    decreases |lines| - i
  {
    if i == |lines| then Failure(NoHeader)
    else if |lines[i]| == 0 then Failure(EmptyLine(i))
    else if lines[i][0] != CommentMark then Success(i)
    else HeaderIndex(lines, i + 1)
  }

  /** The comma-separated fields of a line, each stripped of surrounding whitespace. */
  function Fields(line: string): (fs: seq<string>)
    ensures |fs| == |Split(line, Comma)|
    ensures forall k :: 0 <= k < |fs| ==> fs[k] == Strip(Split(line, Comma)[k])
  {
    var parts := Split(line, Comma);
    seq(|parts|, k requires 0 <= k < |parts| => Strip(parts[k]))
  }

  /** No column name occurs twice. */
  predicate Distinct(header: seq<string>)
  {
    forall a, b :: 0 <= a < b < |header| ==> header[a] != header[b]
  }

  /** Every name of the header is a key of the table. */
  predicate Covers(t: map<string, seq<real>>, header: seq<string>)
  {
    forall h :: h in header ==> h in t
  }

  /** One empty column per header name. */
  function EmptyTable(header: seq<string>): (t: map<string, seq<real>>)
    ensures t.Keys == set h | h in header
    ensures forall h :: h in t ==> t[h] == []
  {
    map h | h in header :: []
  }

  /** Appends the fields of one data line from column `c` on to the columns
      they sit under. Fields beyond the header, and header names beyond the
      fields, are passed over. */
  function AddRow(t: map<string, seq<real>>, header: seq<string>, fields: seq<string>,
                  parse: string -> Option<real>, line: nat, c: nat): (r: Result<map<string, seq<real>>, ForcedError>)
    requires Covers(t, header)
    ensures r.Success? ==> r.value.Keys == t.Keys
    ensures r.Failure? ==> r.error.BadNumber?
    decreases |fields| - c
  {
    if c >= |fields| || c >= |header| then Success(t)
    else
      match parse(fields[c])
      case None => Failure(BadNumber(line, c))
      case Some(x) => AddRow(t[header[c] := t[header[c]] + [x]], header, fields, parse, line, c + 1)
  }

  /** Appends every data line in turn; `first` is the index of the first one in the file. */
  function AddRows(t: map<string, seq<real>>, header: seq<string>, rows: seq<seq<string>>,
                   parse: string -> Option<real>, first: nat): (r: Result<map<string, seq<real>>, ForcedError>)
    requires Covers(t, header)
    ensures r.Success? ==> r.value.Keys == t.Keys
    ensures r.Failure? ==> r.error.BadNumber?
    decreases |rows|
  {
    if |rows| == 0 then Success(t)
    else
      match AddRow(t, header, rows[0], parse, first, 0)
      case Failure(e) => Failure(e)
      case Success(t1) => AddRows(t1, header, rows[1..], parse, first + 1)
  }

  /** The file read as a table: the stripped header names, and for each name
      the numbers found under it in the data lines, which start two lines
      below the header. */
  function Table(lines: seq<string>, parse: string -> Option<real>): (r: Result<(seq<string>, map<string, seq<real>>), ForcedError>)
    ensures r.Success? ==>
      var h := HeaderIndex(lines, 0);
      && h.Success? && r.value.0 == Fields(lines[h.value])
      && r.value.1.Keys == set name | name in r.value.0
    ensures r.Failure? ==> HeaderIndex(lines, 0).Failure? || r.error.BadNumber?
  {
    match HeaderIndex(lines, 0)
    case Failure(e) => Failure(e)
    case Success(h) => TableOf(Fields(lines[h]), DataRows(lines, h), parse, h + 2)
  }

  /** The table with the given column names, filled from the data rows;
      `first` is the line index of the first data row. */
  function TableOf(header: seq<string>, rows: seq<seq<string>>, parse: string -> Option<real>, first: nat)
    : (r: Result<(seq<string>, map<string, seq<real>>), ForcedError>)
    ensures r.Success? ==> r.value.0 == header && r.value.1.Keys == set name | name in header
    ensures r.Failure? ==> r.error.BadNumber?
  {
    match AddRows(EmptyTable(header), header, rows, parse, first)
    case Failure(e) => Failure(e)
    case Success(t) => Success((header, t))
  }

  /** The fields of the data lines: every line from two below the header on. */
  function DataRows(lines: seq<string>, h: nat): seq<seq<string>>
  {
    var rest := if h + 2 <= |lines| then lines[h + 2..] else [];
    seq(|rest|, k requires 0 <= k < |rest| => Fields(rest[k]))
  }

  /** The numbers in column `j` of the rows that reach that column, or `None`
      when one of them does not parse. */
  function ColumnOf(rows: seq<seq<string>>, j: nat, parse: string -> Option<real>): Option<seq<real>>
    decreases |rows|
  {
    if |rows| == 0 then Some([])
    else
      match ColumnOf(rows[1..], j, parse)
      case None => None
      case Some(rest) =>
        if j < |rows[0]| then
          match parse(rows[0][j])
          case None => None
          case Some(x) => Some([x] + rest)
        else Some(rest)
  }

  /** Every field under a header name parses. */
  predicate AllParse(rows: seq<seq<string>>, header: seq<string>, parse: string -> Option<real>)
  {
    forall k, j :: 0 <= k < |rows| && 0 <= j < |rows[k]| && j < |header| ==> parse(rows[k][j]).Some?
  }

  /** One data line: it is read exactly when its fields under the header
      parse, and then, when no name occurs twice, each column gains the line's field in that column, if
      the line reaches it. */
  lemma {:induction false} AddRowColumn(t: map<string, seq<real>>, header: seq<string>, fields: seq<string>,
                                        parse: string -> Option<real>, line: nat, c: nat)
    requires Covers(t, header)
    ensures AddRow(t, header, fields, parse, line, c).Success? <==>
      forall j :: c <= j < |fields| && j < |header| ==> parse(fields[j]).Some?
    ensures Distinct(header) && AddRow(t, header, fields, parse, line, c).Success? ==>
      forall j :: 0 <= j < |header| ==>
        AddRow(t, header, fields, parse, line, c).value[header[j]]
          == t[header[j]] + (if c <= j < |fields| then [parse(fields[j]).value] else [])
    decreases |fields| - c
  {
    if c >= |fields| || c >= |header| {
    } else {
      match parse(fields[c])
      case None =>
      case Some(x) =>
        var t1 := t[header[c] := t[header[c]] + [x]];
        AddRowColumn(t1, header, fields, parse, line, c + 1);
        if Distinct(header) {
          forall j | 0 <= j < |header| && j != c
            ensures t1[header[j]] == t[header[j]]
          {
            assert header[j] != header[c];
          }
        }
    }
  }

  /** All data lines: they are read exactly when every field under a header
      name parses, and then, when no name occurs twice, each column holds what it held before followed by
      that column of the data, in file order. */
  lemma {:induction false} AddRowsColumns(t: map<string, seq<real>>, header: seq<string>, rows: seq<seq<string>>,
                                          parse: string -> Option<real>, first: nat)
    requires Covers(t, header)
    ensures AddRows(t, header, rows, parse, first).Success? <==> AllParse(rows, header, parse)
    ensures Distinct(header) && AddRows(t, header, rows, parse, first).Success? ==>
      forall j :: 0 <= j < |header| ==>
        && ColumnOf(rows, j, parse).Some?
        && AddRows(t, header, rows, parse, first).value[header[j]] == t[header[j]] + ColumnOf(rows, j, parse).value
    decreases |rows|
  {
    if |rows| > 0 {
      AddRowColumn(t, header, rows[0], parse, first, 0);
      AllParseCons(rows, header, parse);
      var r1 := AddRow(t, header, rows[0], parse, first, 0);
      if r1.Success? {
        AddRowsColumns(r1.value, header, rows[1..], parse, first + 1);
      }
    }
  }

  /** Every field of the rows parses exactly when every field of the first
      row does and every field of the others does. */
  lemma AllParseCons(rows: seq<seq<string>>, header: seq<string>, parse: string -> Option<real>)
    requires |rows| > 0
    ensures AllParse(rows, header, parse) <==>
      (forall j :: 0 <= j < |rows[0]| && j < |header| ==> parse(rows[0][j]).Some?) && AllParse(rows[1..], header, parse)
  {
    if AllParse(rows[1..], header, parse) {
      forall k, j | 0 <= k < |rows| && 0 <= j < |rows[k]| && j < |header| && 0 < k
        ensures parse(rows[k][j]).Some?
      {
        assert rows[k] == rows[1..][k - 1];
      }
    }
    if AllParse(rows, header, parse) {
      forall k, j | 0 <= k < |rows| - 1 && 0 <= j < |rows[1..][k]| && j < |header|
        ensures parse(rows[1..][k][j]).Some?
      {
        assert rows[1..][k] == rows[k + 1];
      }
    }
  }

  /** Filling a table succeeds exactly when every field under a name parses,
      and with distinct column names each column then holds that column of
      the rows. */
  lemma TableOfColumns(header: seq<string>, rows: seq<seq<string>>, parse: string -> Option<real>, first: nat)
    ensures TableOf(header, rows, parse, first).Success? <==> AllParse(rows, header, parse)
    ensures Distinct(header) && TableOf(header, rows, parse, first).Success? ==>
      forall j :: 0 <= j < |header| ==>
        ColumnOf(rows, j, parse).Some? && TableOf(header, rows, parse, first).value.1[header[j]] == ColumnOf(rows, j, parse).value
  {
    var t0 := EmptyTable(header);
    AddRowsColumns(t0, header, rows, parse, first);
    forall j | 0 <= j < |header|
      ensures t0[header[j]] == []
    {
    }
  }

  /** Reading the header and data of a file: the table fails with the header
      search's error when there is no header; otherwise it succeeds exactly
      when every field under a name parses, its keys are the header names, and
      with distinct names each column holds that column of the data lines. */
  lemma TableColumns(lines: seq<string>, parse: string -> Option<real>)
    ensures HeaderIndex(lines, 0).Failure? ==> Table(lines, parse) == Failure(HeaderIndex(lines, 0).error)
    ensures HeaderIndex(lines, 0).Success? ==>
      var h := HeaderIndex(lines, 0).value;
      var header := Fields(lines[h]);
      var rows := DataRows(lines, h);
      && (Table(lines, parse).Success? <==> AllParse(rows, header, parse))
      && (Table(lines, parse).Success? ==> Table(lines, parse).value.1.Keys == set name | name in header)
      && (Distinct(header) && Table(lines, parse).Success? ==>
            forall j :: 0 <= j < |header| ==>
              ColumnOf(rows, j, parse).Some? && Table(lines, parse).value.1[header[j]] == ColumnOf(rows, j, parse).value)
  {
    if HeaderIndex(lines, 0).Success? {
      var h := HeaderIndex(lines, 0).value;
      assert Table(lines, parse) == TableOf(Fields(lines[h]), DataRows(lines, h), parse, h + 2);
      TableOfColumns(Fields(lines[h]), DataRows(lines, h), parse, h + 2);
    }
  }

  /** Degrees to radians, `x * pi / 180`, entry by entry. */
  function ToRadians(xs: seq<real>): (ys: seq<real>)
    ensures |ys| == |xs|
    ensures forall k :: 0 <= k < |xs| ==> ys[k] * 180.0 == xs[k] * Pi
  {
    seq(|xs|, k requires 0 <= k < |xs| => xs[k] * Pi / 180.0)
  }

  /** Arcsec to pixels, entry by entry; scaling back gives the input. */
  function ToPixels(xs: seq<real>, pixscale: real): (ys: seq<real>)
    requires pixscale != 0.0
    ensures |ys| == |xs|
    ensures forall k :: 0 <= k < |xs| ==> ys[k] * pixscale == xs[k]
  {
    seq(|xs|, k requires 0 <= k < |xs| => xs[k] / pixscale)
  }

  /** The error columns, present only when the file has both. */
  datatype ErrorBars = ErrorBars(ellipErr: seq<real>, paErr: seq<real>)

  /** The forced fit: ellipticity per radius, angle in radians, radius in pixels. */
  datatype Forced = Forced(ellip: seq<real>, pa: seq<real>, radii: seq<real>, errors: Option<ErrorBars>)

  /** The columns turned into a fit. They are looked up in the order `pa`,
      `ellip`, `R`, so the first one missing is the one reported. On success
      the ellipticity is the `ellip` column, each angle is the shifted `pa`
      column in radians, each radius times the pixel scale gives back the `R`
      column, and the error columns are reported exactly when both `ellip_e`
      and `pa_e` exist, the angle error in radians. */
  function FromTable(t: map<string, seq<real>>, paShift: seq<real> -> seq<real>, pixscale: real): (r: Result<Forced, ForcedError>)
    requires pixscale != 0.0
    ensures r.Failure? <==> !("pa" in t && "ellip" in t && "R" in t)
    ensures r.Failure? ==> r.error == MissingColumn(if "pa" !in t then "pa" else if "ellip" !in t then "ellip" else "R")
    ensures r.Success? ==>
      var f := r.value;
      var pa := paShift(t["pa"]);
      && f.ellip == t["ellip"]
      && |f.pa| == |pa| && (forall k :: 0 <= k < |pa| ==> f.pa[k] * 180.0 == pa[k] * Pi)
      && |f.radii| == |t["R"]| && (forall k :: 0 <= k < |f.radii| ==> f.radii[k] * pixscale == t["R"][k])
      && (f.errors.Some? <==> "ellip_e" in t && "pa_e" in t)
      && (f.errors.Some? ==>
            && f.errors.value.ellipErr == t["ellip_e"]
            && |f.errors.value.paErr| == |t["pa_e"]|
            && forall k :: 0 <= k < |t["pa_e"]| ==> f.errors.value.paErr[k] * 180.0 == t["pa_e"][k] * Pi)
  {
    if "pa" !in t then Failure(MissingColumn("pa"))
    else if "ellip" !in t then Failure(MissingColumn("ellip"))
    else if "R" !in t then Failure(MissingColumn("R"))
    else
      var errors :=
        if "ellip_e" in t && "pa_e" in t then Some(ErrorBars(t["ellip_e"], ToRadians(t["pa_e"]))) else None;
      Success(Forced(t["ellip"], ToRadians(paShift(t["pa"])), ToPixels(t["R"], pixscale), errors))
  }

  /** The first of `pa`, `ellip` and `R` that is not a header name. */
  function FirstMissing(header: seq<string>): string
  {
    if "pa" !in header then "pa" else if "ellip" !in header then "ellip" else "R"
  }

  /** `f` holds the columns of the data rows under their names: the `ellip`
      column as it is, the shifted `pa` column in radians, the `R` column in
      pixels, and, when present, the `ellip_e` column as it is and the `pa_e`
      column in radians. */
  ghost predicate ReadsColumns(f: Forced, header: seq<string>, rows: seq<seq<string>>, parse: string -> Option<real>,
                               paShift: seq<real> -> seq<real>, pixscale: real)
  {
    forall j :: 0 <= j < |header| ==>
      && ColumnOf(rows, j, parse).Some?
      && var col := ColumnOf(rows, j, parse).value;
         && (header[j] == "ellip" ==> f.ellip == col)
         && (header[j] == "pa" ==> var shifted := paShift(col);
               |f.pa| == |shifted| && forall k :: 0 <= k < |shifted| ==> f.pa[k] * 180.0 == shifted[k] * Pi)
         && (header[j] == "R" ==> |f.radii| == |col| && forall k :: 0 <= k < |col| ==> f.radii[k] * pixscale == col[k])
         && (header[j] == "ellip_e" && f.errors.Some? ==> f.errors.value.ellipErr == col)
         && (header[j] == "pa_e" && f.errors.Some? ==>
               |f.errors.value.paErr| == |col| && forall k :: 0 <= k < |col| ==> f.errors.value.paErr[k] * 180.0 == col[k] * Pi)
  }

  /** `Isophote_Fit_Forced`. `parse` is Python's `float` on a stripped field,
      `paShift` the angle-convention shift in degrees, and `pixscale` the
      arcsec-per-pixel scale. Without a header line the header search's error
      is reported. With one, the fit succeeds exactly when every data field
      under a header name parses and `pa`, `ellip` and `R` are all header
      names; an unparsable field is reported before a missing column, and of
      the missing columns the first of `pa`, `ellip`, `R`. The error columns
      are present exactly when `ellip_e` and `pa_e` both are, and with
      distinct column names every column of the fit is the corresponding
      column of the data lines, converted. */
  function ForcedFit(lines: seq<string>, parse: string -> Option<real>, paShift: seq<real> -> seq<real>,
                     pixscale: real): (r: Result<Forced, ForcedError>)
    requires pixscale != 0.0
    ensures HeaderIndex(lines, 0).Failure? ==> r == Failure(HeaderIndex(lines, 0).error)
    ensures HeaderIndex(lines, 0).Success? ==>
      var header := Fields(lines[HeaderIndex(lines, 0).value]);
      var rows := DataRows(lines, HeaderIndex(lines, 0).value);
      && (r.Success? <==> AllParse(rows, header, parse) && "pa" in header && "ellip" in header && "R" in header)
      && (!AllParse(rows, header, parse) ==> r.Failure? && r.error.BadNumber?)
      && (AllParse(rows, header, parse) && r.Failure? ==> r.error == MissingColumn(FirstMissing(header)))
      && (r.Success? ==> (r.value.errors.Some? <==> "ellip_e" in header && "pa_e" in header))
      && (r.Success? && Distinct(header) ==> ReadsColumns(r.value, header, rows, parse, paShift, pixscale))
  {
    TableColumns(lines, parse);
    match Table(lines, parse)
    case Failure(e) => Failure(e)
    case Success((_, t)) =>
      var h := HeaderIndex(lines, 0).value;
      FromColumns(t, Fields(lines[h]), DataRows(lines, h), parse, paShift, pixscale);
      FromTable(t, paShift, pixscale)
  }

  /** A table keyed by the header names gives a fit exactly when `pa`,
      `ellip` and `R` are among them, and one that holds the data columns when
      each key holds its column. */
  lemma FromColumns(t: map<string, seq<real>>, header: seq<string>, rows: seq<seq<string>>, parse: string -> Option<real>,
                    paShift: seq<real> -> seq<real>, pixscale: real)
    requires pixscale != 0.0
    requires t.Keys == set name | name in header
    requires Distinct(header) ==>
      forall j :: 0 <= j < |header| ==> ColumnOf(rows, j, parse).Some? && t[header[j]] == ColumnOf(rows, j, parse).value
    ensures var r := FromTable(t, paShift, pixscale);
      && (r.Success? <==> "pa" in header && "ellip" in header && "R" in header)
      && (r.Failure? ==> r.error == MissingColumn(FirstMissing(header)))
      && (r.Success? ==> (r.value.errors.Some? <==> "ellip_e" in header && "pa_e" in header))
      && (r.Success? && Distinct(header) ==> ReadsColumns(r.value, header, rows, parse, paShift, pixscale))
  {
    var r := FromTable(t, paShift, pixscale);
    assert forall name :: name in t <==> name in header;
    if r.Success? && Distinct(header) {
      forall j | 0 <= j < |header|
        ensures t[header[j]] == ColumnOf(rows, j, parse).value
      {
      }
    }
  }
}
