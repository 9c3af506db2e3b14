/**
 The CSV export with the quoting of RFC 4180, section 2: a field holding a
 comma, a line break or a double quote is enclosed in double quotes, with
 its own double quotes doubled. A reader for that format is given too, and
 the writer is proved to be its inverse, so every exported record reads
 back as exactly the five values written.
 */
module QuotedCsv {
  import opened Types
  import Text
  import Csv
  import DisplayDate
  import Seqs

  /** A field that must be enclosed in quotes. */
  predicate NeedsQuotes(f: string)
  {
    ',' in f || '\n' in f || '"' in f
  }

  /** Doubles every double quote. */
  function Escape(f: string): (r: string)
    ensures |r| >= |f|
  {
    if |f| == 0 then ""
    else if f[0] == '"' then "\"\"" + Escape(f[1..])
    else [f[0]] + Escape(f[1..])
  }

  function EncodeField(f: string): string
  {
    if NeedsQuotes(f) then "\"" + Escape(f) + "\"" else f
  }

  function EncodeFields(fs: seq<string>): (r: seq<string>)
    ensures |r| == |fs|
  {
    if |fs| == 0 then [] else [EncodeField(fs[0])] + EncodeFields(fs[1..])
  }

  /** One record: its encoded fields joined by commas. */
  function EncodeRecord(fs: seq<string>): string
  {
    Text.Join(EncodeFields(fs), ',')
  }

  function EncodeRecords(rows: seq<seq<string>>): (r: seq<string>)
    ensures |r| == |rows|
  {
    if |rows| == 0 then [] else [EncodeRecord(rows[0])] + EncodeRecords(rows[1..])
  }

  /** A document: its encoded records joined by line breaks. */
  function Document(rows: seq<seq<string>>): string
  {
    Text.Join(EncodeRecords(rows), '\n')
  }

  /** Reads the rest of a quoted field after its opening quote: the field and what follows the closing quote. */
  function ParseQuoted(s: string): (r: Option<(string, string)>)
    ensures r.Some? ==> |r.value.1| < |s|
  {
    if |s| == 0 then None
    else if s[0] == '"' then
      if |s| >= 2 && s[1] == '"' then
        match ParseQuoted(s[2..])
        case None => None
        case Some((f, rest)) => Some(("\"" + f, rest))
      else Some(("", s[1..]))
    else
      match ParseQuoted(s[1..])
      case None => None
      case Some((f, rest)) => Some(([s[0]] + f, rest))
  }

  /** Reads an unquoted field: everything up to the next comma or line break. */
  function TakePlain(s: string): (r: (string, string))
    ensures r.0 + r.1 == s
  {
    if |s| == 0 || s[0] == ',' || s[0] == '\n' then ("", s)
    else
      var (f, rest) := TakePlain(s[1..]);
      ([s[0]] + f, rest)
  }

  function ParseField(s: string): (r: Option<(string, string)>)
    ensures r.Some? ==> |r.value.1| <= |s|
  {
    if |s| > 0 && s[0] == '"' then ParseQuoted(s[1..])
    else
      var p := TakePlain(s);
      assert |p.0 + p.1| == |s|;
      Some(p)
  }

  /**
   Reads fields from `s`, appending to the record `rec` in progress; a comma
   continues the record, a line break ends it, the end of text ends both.
   */
  function ParseFrom(s: string, rec: seq<string>, done: seq<seq<string>>): Option<seq<seq<string>>>
    decreases |s|
  {
    match ParseField(s)
    case None => None
    case Some((f, rest)) =>
      if |rest| == 0 then Some(done + [rec + [f]])
      else if rest[0] == ',' then ParseFrom(rest[1..], rec + [f], done)
      else if rest[0] == '\n' then ParseFrom(rest[1..], [], done + [rec + [f]])
      else None
  }

  /** The reader: the records of a document, or None when a quoted field is left open or badly closed. */
  function Parse(s: string): Option<seq<seq<string>>>
  {
    ParseFrom(s, [], [])
  }

  lemma {:induction false} QuotedRoundTrip(f: string, tail: string)
    requires |tail| == 0 || tail[0] != '"'
    ensures ParseQuoted(Escape(f) + "\"" + tail) == Some((f, tail))
  {
    if |f| == 0 {
      assert Escape(f) + "\"" + tail == "\"" + tail;
    } else {
      QuotedRoundTrip(f[1..], tail);
      var rest := Escape(f[1..]) + "\"" + tail;
      var front := if f[0] == '"' then "\"\"" else [f[0]];
      EscapeFront(f);
      Seqs.AppendAssoc(front, Escape(f[1..]), "\"");
      Seqs.AppendAssoc(front, Escape(f[1..]) + "\"", tail);
      if f[0] == '"' {
        ParseDoubledQuote(rest, f[1..], tail);
        assert "\"" == [f[0]];
      } else {
        ParseOrdinaryChar(f[0], rest, f[1..], tail);
      }
      Seqs.HeadTail(f);
    }
  }

  /** Escaping works character by character from the front. */
  lemma EscapeFront(f: string)
    requires |f| > 0
    ensures Escape(f) == (if f[0] == '"' then "\"\"" else [f[0]]) + Escape(f[1..])
  {
  }

  /** A doubled quote inside a quoted field reads as one quote. */
  lemma ParseDoubledQuote(rest: string, f: string, tail: string)
    requires ParseQuoted(rest) == Some((f, tail))
    ensures ParseQuoted("\"\"" + rest) == Some(("\"" + f, tail))
  {
    assert ("\"\"" + rest)[2..] == rest;
  }

  /** Any other character inside a quoted field reads as itself. */
  lemma ParseOrdinaryChar(c: char, rest: string, f: string, tail: string)
    requires c != '"'
    requires ParseQuoted(rest) == Some((f, tail))
    ensures ParseQuoted([c] + rest) == Some(([c] + f, tail))
  {
    assert ([c] + rest)[1..] == rest;
  }

  lemma {:induction false} PlainRoundTrip(f: string, tail: string)
    requires ',' !in f && '\n' !in f
    requires |tail| == 0 || tail[0] == ',' || tail[0] == '\n'
    ensures TakePlain(f + tail) == (f, tail)
  {
    if |f| == 0 {
      assert f + tail == tail;
    } else {
      PlainRoundTrip(f[1..], tail);
      Seqs.HeadTail(f);
      Seqs.AppendAssoc([f[0]], f[1..], tail);
      assert f[0] in f;
      TakePlainCons(f[0], f[1..] + tail);
    }
  }

  /** An unquoted field reads character by character. */
  lemma TakePlainCons(c: char, s: string)
    requires c != ',' && c != '\n'
    ensures TakePlain([c] + s) == ([c] + TakePlain(s).0, TakePlain(s).1)
  {
    assert ([c] + s)[1..] == s;
  }

  /** A field followed by a delimiter or the end reads back as itself. */
  lemma FieldRoundTrip(f: string, tail: string)
    requires |tail| == 0 || tail[0] == ',' || tail[0] == '\n'
    ensures ParseField(EncodeField(f) + tail) == Some((f, tail))
  {
    if NeedsQuotes(f) {
      QuotedFieldRoundTrip(f, tail);
    } else {
      PlainFieldRoundTrip(f, tail);
    }
  }

  lemma QuotedFieldRoundTrip(f: string, tail: string)
    requires NeedsQuotes(f)
    requires |tail| == 0 || tail[0] == ',' || tail[0] == '\n'
    ensures ParseField(EncodeField(f) + tail) == Some((f, tail))
  {
    var body := Escape(f) + "\"" + tail;
    var s := EncodeField(f) + tail;
    assert s == "\"" + body;
    assert s[0] == '"' && s[1..] == body;
    assert ParseField(s) == ParseQuoted(body);
    QuotedRoundTrip(f, tail);
  }

  lemma PlainFieldRoundTrip(f: string, tail: string)
    requires !NeedsQuotes(f)
    requires |tail| == 0 || tail[0] == ',' || tail[0] == '\n'
    ensures ParseField(EncodeField(f) + tail) == Some((f, tail))
  {
    var s := f + tail;
    assert EncodeField(f) == f;
    PlainRoundTrip(f, tail);
    if |f| > 0 {
      assert s[0] == f[0] && f[0] in f;
    } else {
      assert s == tail;
    }
    assert !(|s| > 0 && s[0] == '"');
  }

  /** A record followed by a line break or the end is read as that record. */
  lemma {:induction false} RecordRoundTrip(fs: seq<string>, tail: string, rec: seq<string>, done: seq<seq<string>>)
    requires |fs| >= 1
    requires |tail| == 0 || tail[0] == '\n'
    ensures ParseFrom(EncodeRecord(fs) + tail, rec, done)
            == if |tail| == 0 then Some(done + [rec + fs]) else ParseFrom(tail[1..], [], done + [rec + fs])
  {
    if |fs| == 1 {
      OneFieldRecordRoundTrip(fs, tail, rec, done);
    } else {
      var rest := EncodeRecord(fs[1..]) + tail;
      RecordSplits(fs, tail);
      NextFieldRoundTrip(fs[0], rest, rec, done);
      RecordRoundTrip(fs[1..], tail, rec + [fs[0]], done);
      Seqs.ConsAfter(rec, fs);
    }
  }

  lemma OneFieldRecordRoundTrip(fs: seq<string>, tail: string, rec: seq<string>, done: seq<seq<string>>)
    requires |fs| == 1
    requires |tail| == 0 || tail[0] == '\n'
    ensures ParseFrom(EncodeRecord(fs) + tail, rec, done)
            == if |tail| == 0 then Some(done + [rec + fs]) else ParseFrom(tail[1..], [], done + [rec + fs])
  {
    assert EncodeRecord(fs) == EncodeField(fs[0]);
    LastFieldRoundTrip(fs[0], tail, rec, done);
    assert fs == [fs[0]];
  }

  /** A record of two or more fields is its first field, a comma, and the record of the rest. */
  lemma RecordSplits(fs: seq<string>, tail: string)
    requires |fs| >= 2
    ensures EncodeRecord(fs) + tail == EncodeField(fs[0]) + ("," + (EncodeRecord(fs[1..]) + tail))
  {
    var enc := EncodeFields(fs);
    assert enc[1..] == EncodeFields(fs[1..]);
  }

  /** A field followed by a comma is added to the record in progress. */
  lemma NextFieldRoundTrip(f: string, rest: string, rec: seq<string>, done: seq<seq<string>>)
    ensures ParseFrom(EncodeField(f) + ("," + rest), rec, done) == ParseFrom(rest, rec + [f], done)
  {
    FieldRoundTrip(f, "," + rest);
    assert ("," + rest)[1..] == rest;
  }

  /** A field followed by a line break or the end closes the record in progress. */
  lemma LastFieldRoundTrip(f: string, tail: string, rec: seq<string>, done: seq<seq<string>>)
    requires |tail| == 0 || tail[0] == '\n'
    ensures ParseFrom(EncodeField(f) + tail, rec, done)
            == if |tail| == 0 then Some(done + [rec + [f]]) else ParseFrom(tail[1..], [], done + [rec + [f]])
  {
    FieldRoundTrip(f, tail);
  }

  /** A document of non-empty records is read back record by record after those already read. */
  lemma {:induction false} DocumentRoundTrip(rows: seq<seq<string>>, done: seq<seq<string>>)
    requires |rows| >= 1
    requires forall i :: 0 <= i < |rows| ==> |rows[i]| >= 1
    ensures ParseFrom(Document(rows), [], done) == Some(done + rows)
  {
    var enc := EncodeRecords(rows);
    if |rows| == 1 {
      assert Document(rows) == EncodeRecord(rows[0]) + "";
      RecordRoundTrip(rows[0], "", [], done);
      assert [] + rows[0] == rows[0] && rows == [rows[0]];
    } else {
      assert enc[1..] == EncodeRecords(rows[1..]);
      var tail := "\n" + Document(rows[1..]);
      assert Document(rows) == EncodeRecord(rows[0]) + tail;
      RecordRoundTrip(rows[0], tail, [], done);
      assert tail[1..] == Document(rows[1..]);
      assert [] + rows[0] == rows[0];
      DocumentRoundTrip(rows[1..], done + [rows[0]]);
      assert done + [rows[0]] + rows[1..] == done + rows;
    }
  }

  /** The reader inverts the writer on every document with at least one record, none of them empty. */
  lemma ParseDocument(rows: seq<seq<string>>)
    requires |rows| >= 1
    requires forall i :: 0 <= i < |rows| ==> |rows[i]| >= 1
    ensures Parse(Document(rows)) == Some(rows)
  {
    DocumentRoundTrip(rows, []);
    assert [] + rows == rows;
  }

  /** A record none of whose fields needs quotes is written exactly as the unquoted export writes it. */
  lemma {:induction false} PlainRecordUnchanged(fs: seq<string>)
    requires forall i :: 0 <= i < |fs| ==> !NeedsQuotes(fs[i])
    ensures EncodeRecord(fs) == Text.Join(fs, ',')
  {
    if |fs| == 1 {
      assert EncodeFields(fs) == [fs[0]];
    } else if |fs| > 1 {
      PlainRecordUnchanged(fs[1..]);
      assert EncodeFields(fs)[1..] == EncodeFields(fs[1..]);
    }
  }

  /** The records the corrected export writes: the header, then each filtered record's five values. */
  function ExportRecords(filtered: seq<Subscription>, toCivil: Instant -> DisplayDate.CivilTime): (r: seq<seq<string>>)
    ensures |r| == 1 + |filtered|
    ensures r[0] == Csv.HEADERS
    ensures forall i :: 0 <= i < |filtered| ==> r[i + 1] == Csv.Fields(filtered[i], toCivil)
  {
    var recs := Values(filtered, toCivil);
    Seqs.Prepend(Csv.HEADERS, recs);
    [Csv.HEADERS] + recs
  }

  /** The five exported values of each record, in list order. */
  function Values(filtered: seq<Subscription>, toCivil: Instant -> DisplayDate.CivilTime): (r: seq<seq<string>>)
    ensures |r| == |filtered|
    ensures forall i :: 0 <= i < |filtered| ==> r[i] == Csv.Fields(filtered[i], toCivil)
    decreases |filtered|
  {
    if |filtered| == 0 then []
    else [Csv.Fields(filtered[0], toCivil)] + Values(filtered[1..], toCivil)
  }

  /** `exportToCSV` with every field written under the quoting rule. */
  function Export(filtered: seq<Subscription>, toCivil: Instant -> DisplayDate.CivilTime): string
  {
    Document(ExportRecords(filtered, toCivil))
  }

  /** Reading the corrected export back yields the header and exactly the five values of every record. */
  lemma ExportReadsBack(filtered: seq<Subscription>, toCivil: Instant -> DisplayDate.CivilTime)
    ensures Parse(Export(filtered, toCivil)) == Some(ExportRecords(filtered, toCivil))
    ensures var rs := Parse(Export(filtered, toCivil)).value;
            |rs| == 1 + |filtered| && forall i :: 0 <= i < |rs| ==> |rs[i]| == 5
  {
    var recs := ExportRecords(filtered, toCivil);
    forall i | 0 <= i < |recs| ensures |recs[i]| == 5 {
      if i > 0 {
        assert recs[i] == Csv.Fields(filtered[i - 1], toCivil);
      }
    }
    ParseDocument(recs);
  }

  /** The header line is written exactly as before: no column name needs quotes. */
  lemma HeaderUnchanged()
    ensures EncodeRecord(Csv.HEADERS) == Csv.HEADER_LINE
  {
    forall i | 0 <= i < |Csv.HEADERS| ensures !NeedsQuotes(Csv.HEADERS[i]) { }
    PlainRecordUnchanged(Csv.HEADERS);
    Csv.HeaderLineIsJoinedHeaders();
  }
}
