/**
 The CSV export as the list builds it: a header line, then one line per
 filtered record, each line the five fields joined by commas without any
 quoting, lines joined by newlines.
 */
module Csv {
  import opened Types
  import Text
  import DisplayDate
  import Seqs

  const HEADERS: seq<string> := ["Email", "Password", "Start Date", "End Date", "Status"]

  const HEADER_LINE: string := "Email,Password,Start Date,End Date,Status"

  /** The five exported values of a record, in column order. */
  function Fields(x: Subscription, toCivil: Instant -> DisplayDate.CivilTime): (r: seq<string>)
    ensures |r| == |HEADERS|
    ensures r[0] == x.email && r[1] == x.password && r[4] == StatusText(x.status)
    ensures r[2] == DisplayDate.Display(x.startDate, toCivil) && r[3] == DisplayDate.Display(x.endDate, toCivil)
  {
    [x.email, x.password, DisplayDate.Display(x.startDate, toCivil),
     DisplayDate.Display(x.endDate, toCivil), StatusText(x.status)]
  }

  /** One data line as written: the fields joined by commas, nothing escaped. */
  function Row(x: Subscription, toCivil: Instant -> DisplayDate.CivilTime): string
  {
    Text.Join(Fields(x, toCivil), ',')
  }

  /** The lines of the export: the header, then the records in list order. */
  function Lines(filtered: seq<Subscription>, toCivil: Instant -> DisplayDate.CivilTime): (r: seq<string>)
    ensures |r| == 1 + |filtered|
    ensures r[0] == HEADER_LINE
    ensures forall i :: 0 <= i < |filtered| ==> r[i + 1] == Row(filtered[i], toCivil)
  {
    var rows := Rows(filtered, toCivil);
    Seqs.Prepend(HEADER_LINE, rows);
    [HEADER_LINE] + rows
  }

  /** The record lines, one per record, in list order. */
  function Rows(filtered: seq<Subscription>, toCivil: Instant -> DisplayDate.CivilTime): (r: seq<string>)
    ensures |r| == |filtered|
    ensures forall i :: 0 <= i < |filtered| ==> r[i] == Row(filtered[i], toCivil)
    decreases |filtered|
  {
    if |filtered| == 0 then []
    else [Row(filtered[0], toCivil)] + Rows(filtered[1..], toCivil)
  }

  /** `exportToCSV`'s text: the lines joined by newlines. */
  function Export(filtered: seq<Subscription>, toCivil: Instant -> DisplayDate.CivilTime): string
  {
    Text.Join(Lines(filtered, toCivil), '\n')
  }

  /** The header line is the column names joined by commas. */
  lemma HeaderLineIsJoinedHeaders()
    ensures Text.Join(HEADERS, ',') == HEADER_LINE
  {
    var h3: seq<string> := ["End Date", "Status"];
    var h2: seq<string> := ["Start Date"] + h3;
    var h1: seq<string> := ["Password"] + h2;
    assert h3[1..] == ["Status"];
    assert Text.Join(h3, ',') == "End Date" + [','] + "Status";
    assert h2[1..] == h3;
    assert Text.Join(h2, ',') == "Start Date" + [','] + Text.Join(h3, ',');
    assert h1[1..] == h2;
    assert Text.Join(h1, ',') == "Password" + [','] + Text.Join(h2, ',');
    assert HEADERS == ["Email"] + h1 && HEADERS[1..] == h1;
    assert Text.Join(HEADERS, ',') == "Email" + [','] + Text.Join(h1, ',');
    HeaderLineSpelled();
  }

  lemma HeaderLineSpelled()
    ensures HEADER_LINE == "Email" + [','] + ("Password" + [','] + ("Start Date" + [','] + ("End Date" + [','] + "Status")))
  {
  }

  /** A record line holds no newline when neither the email nor the password does. */
  lemma RowHasNoNewline(x: Subscription, toCivil: Instant -> DisplayDate.CivilTime)
    requires '\n' !in x.email && '\n' !in x.password
    ensures '\n' !in Row(x, toCivil)
  {
    var f := Fields(x, toCivil);
    DisplayDate.DisplayHasOneComma(x.startDate, toCivil);
    DisplayDate.DisplayHasOneComma(x.endDate, toCivil);
    StatusHasNoNewline(x.status);
    JoinedFiveAvoidNewline(f);
  }

  lemma StatusHasNoNewline(st: Status)
    ensures '\n' !in StatusText(st)
  {
  }

  lemma JoinedFiveAvoidNewline(f: seq<string>)
    requires |f| == 5
    requires '\n' !in f[0] && '\n' !in f[1] && '\n' !in f[2] && '\n' !in f[3] && '\n' !in f[4]
    ensures '\n' !in Text.Join(f, ',')
  {
    Text.JoinAvoids(f, ',', '\n');
  }

  lemma HeaderHasNoNewline()
    ensures '\n' !in HEADER_LINE
  {
  }

  /**
   Splitting the export at newlines gives back its lines: one header and one
   line per record, provided no email or password holds a line break.
   */
  lemma ExportLines(filtered: seq<Subscription>, toCivil: Instant -> DisplayDate.CivilTime)
    requires forall x :: x in filtered ==> '\n' !in x.email && '\n' !in x.password
    ensures Text.Split(Export(filtered, toCivil), '\n') == Lines(filtered, toCivil)
    ensures |Text.Split(Export(filtered, toCivil), '\n')| == 1 + |filtered|
  {
    LinesAvoidNewline(filtered, toCivil);
    Text.SplitJoin(Lines(filtered, toCivil), '\n');
  }

  lemma LinesAvoidNewline(filtered: seq<Subscription>, toCivil: Instant -> DisplayDate.CivilTime)
    requires forall x :: x in filtered ==> '\n' !in x.email && '\n' !in x.password
    ensures forall i :: 0 <= i < |Lines(filtered, toCivil)| ==> '\n' !in Lines(filtered, toCivil)[i]
  {
    var ls := Lines(filtered, toCivil);
    forall i | 0 <= i < |ls| ensures '\n' !in ls[i] {
      if i == 0 {
        HeaderHasNoNewline();
      } else {
        RowHasNoNewline(filtered[i - 1], toCivil);
      }
    }
  }

  /** The header splits back into its five column names. */
  lemma HeaderHasFiveCells()
    ensures Text.Split(HEADER_LINE, ',') == HEADERS
  {
    HeaderLineIsJoinedHeaders();
    forall i | 0 <= i < |HEADERS| ensures ',' !in HEADERS[i] { }
    Text.SplitJoin(HEADERS, ',');
  }

  /** Five values, two of which carry a comma each, join into a line of at least seven cells. */
  lemma {:induction false} JoinedFiveCells(f: seq<string>)
    requires |f| == 5
    requires Text.CountChar(f[2], ',') >= 1 && Text.CountChar(f[3], ',') >= 1
    ensures |Text.Split(Text.Join(f, ','), ',')| >= 7
  {
    Text.JoinCount(f, ',');
    Text.CountAllAtLeastTwo(f, ',', 2, 3);
    Text.SplitCount(Text.Join(f, ','), ',');
  }

  /**
   Every data line holds at least six commas, because each of the two dates
   brings its own, so reading it back by commas yields at least seven cells
   under a five-column header.
   */
  lemma RowHasSevenCells(x: Subscription, toCivil: Instant -> DisplayDate.CivilTime)
    ensures |Text.Split(Row(x, toCivil), ',')| >= 7
    ensures |Text.Split(HEADER_LINE, ',')| == 5
  {
    DisplayDate.DisplayHasOneComma(x.startDate, toCivil);
    DisplayDate.DisplayHasOneComma(x.endDate, toCivil);
    JoinedFiveCells(Fields(x, toCivil));
    HeaderHasFiveCells();
  }
}
