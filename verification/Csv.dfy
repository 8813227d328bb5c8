/**
 The activity log export: a header and one line a log, eight raw fields and a
 quoted description, read back by the format of section 2 of RFC 4180 (a line may
 end in LF alone).
 */
module Csv {
  import opened Options
  import opened Text

  // ----------------------------------------------------------------- printer

  /** `replace(/"/g, '""')` */
  function Doubled(s: string): string {
    if s == "" then "" else (if s[0] == '"' then "\"\"" else [s[0]]) + Doubled(s[1..])
  }

  function Quoted(s: string): string {
    "\"" + (Doubled(s) + "\"")
  }

  datatype Log = Log(
    date: string, time: string, userName: string, email: string, action: string,
    project: Option<string>, status: string, ipAddress: Option<string>, description: Option<string>)

  /** JavaScript's `text || fallback`. */
  function Or(text: Option<string>, fallback: string): string {
    match Filled(text) case Some(t) => t case None => fallback
  }

  function RawFields(log: Log): seq<string> {
    [log.date, log.time, log.userName, log.email, log.action,
     Or(log.project, "System"), log.status, Or(log.ipAddress, "-")]
  }

  function Description(log: Log): string {
    Or(log.description, "")
  }

  const HEADER: seq<string> := ["Date", "Time", "User", "Email", "Action", "Resource", "Status", "IP Address"]

  function Row(log: Log): string {
    Join(RawFields(log) + [Quoted(Description(log))], ",")
  }

  function Rows(logs: seq<Log>): seq<string> {
    if logs == [] then [] else [Row(logs[0])] + Rows(logs[1..])
  }

  function Export(logs: seq<Log>): string {
    Join([Join(HEADER + ["Description"], ",")] + Rows(logs), "\n")
  }

  // ------------------------------------------------------------------ parser

  /** TEXTDATA, for what the grammar is concerned. */
  predicate IsTextData(c: char) {
    c != ',' && c != '"' && c != '\r' && c != '\n'
  }

  predicate IsPlain(s: string) {
    forall i | 0 <= i < |s| :: IsTextData(s[i])
  }

  datatype Read = Read(field: string, rest: string)

  /** The inside of an escaped field, up to its closing quote. */
  function ReadQuoted(s: string): (r: Option<Read>)
    ensures r.Some? ==> |r.value.rest| < |s|
  {
    if s == "" then None
    else if s[0] != '"' then
      match ReadQuoted(s[1..])
      case None => None
      case Some(Read(field, rest)) => Some(Read([s[0]] + field, rest))
    else if |s| > 1 && s[1] == '"' then
      match ReadQuoted(s[2..])
      case None => None
      case Some(Read(field, rest)) => Some(Read("\"" + field, rest))
    else Some(Read("", s[1..]))
  }

  function ReadPlain(s: string): (r: Read)
    ensures s == r.field + r.rest && IsPlain(r.field) && (r.rest == "" || !IsTextData(r.rest[0]))
  {
    if s == "" || !IsTextData(s[0]) then Read("", s)
    else
      var r := ReadPlain(s[1..]);
      Read([s[0]] + r.field, r.rest)
  }

  function ReadField(s: string): (r: Option<Read>)
    ensures r.Some? ==> |r.value.rest| <= |s|
  {
    if s != "" && s[0] == '"' then ReadQuoted(s[1..]) else Some(ReadPlain(s))
  }

  type Records = seq<seq<string>>

  function WithField(field: string, rs: Records): Records
    requires rs != []
  {
    [[field] + rs[0]] + rs[1..]
  }

  /** The records of a file: None if it breaks the grammar. */
  function Parse(s: string): (r: Option<Records>)
    ensures r.Some? ==> r.value != [] && r.value[0] != []
    ensures r.Some? ==> ReadField(s).Some? && r.value[0][0] == ReadField(s).value.field
    decreases |s|
  {
    match ReadField(s)
    case None => None
    case Some(Read(field, rest)) =>
      if rest == "" then Some([[field]])
      else if rest[0] == ',' then
        match Parse(rest[1..]) case None => None case Some(rs) => Some(WithField(field, rs))
      else
        var end := if rest[0] == '\n' then 1 else if rest[0] == '\r' && |rest| > 1 && rest[1] == '\n' then 2 else 0;
        if end == 0 then None
        else if end == |rest| then Some([[field]])
        else match Parse(rest[end..]) case None => None case Some(rs) => Some([[field]] + rs)
  }

  // ---------------------------------------------------------- reading a field

  /** One character more in front of an escaped field. */
  lemma QuotedStep(c: char, tail: string, r: Read)
    requires ReadQuoted(tail) == Some(r)
    ensures ReadQuoted(Doubled([c]) + tail) == Some(Read([c] + r.field, r.rest))
  {
    assert [c][1..] == "" && Doubled("") == "";
    var s := Doubled([c]) + tail;
    assert if c == '"' then s == "\"\"" + tail && s[2..] == tail else s == [c] + tail && s[1..] == tail;
  }

  lemma DoubledFirst(s: string)
    requires s != ""
    ensures Doubled(s) == Doubled([s[0]]) + Doubled(s[1..])
  {
    assert [s[0]][1..] == "" && Doubled("") == "";
  }

  lemma {:induction false} QuotedReadsBack(s: string, rest: string)
    requires rest == "" || rest[0] != '"'
    ensures ReadQuoted(Doubled(s) + ("\"" + rest)) == Some(Read(s, rest))
  {
    if s == "" {
      assert Doubled(s) + ("\"" + rest) == "\"" + rest && ("\"" + rest)[1..] == rest;
    } else {
      hide ReadQuoted, Doubled;
      var tail := Doubled(s[1..]) + ("\"" + rest);
      QuotedReadsBack(s[1..], rest);
      QuotedStep(s[0], tail, Read(s[1..], rest));
      DoubledFirst(s);
      assert Doubled([s[0]]) + tail == Doubled(s) + ("\"" + rest);
      assert [s[0]] + s[1..] == s;
    }
  }

  lemma QuotedFieldReads(q: string, rest: string)
    requires rest == "" || rest[0] != '"'
    ensures ReadField(Quoted(q) + rest) == Some(Read(q, rest))
  {
    QuotedReadsBack(q, rest);
    assert (Quoted(q) + rest)[1..] == Doubled(q) + ("\"" + rest);
  }

  lemma DoubledOf(c: char, text: string)
    ensures Doubled([c] + text) == (if c == '"' then "\"\"" else [c]) + Doubled(text)
  {
    assert ([c] + text)[1..] == text;
  }

  lemma DoubledOfNothing()
    ensures Doubled("") == ""
  {
  }

  /** What is read as an escaped field is the escape of the field read. */
  lemma {:induction false} ReadQuotedInverts(s: string)
    requires ReadQuoted(s).Some?
    ensures var r := ReadQuoted(s).value; s == Doubled(r.field) + ("\"" + r.rest)
  {
    hide Doubled;
    var r := ReadQuoted(s).value;
    if s[0] != '"' {
      ReadQuotedInverts(s[1..]);
      DoubledOf(s[0], ReadQuoted(s[1..]).value.field);
      assert s == [s[0]] + s[1..];
    } else if |s| > 1 && s[1] == '"' {
      ReadQuotedInverts(s[2..]);
      DoubledOf('"', ReadQuoted(s[2..]).value.field);
      assert s == "\"\"" + s[2..];
    } else {
      DoubledOfNothing();
      assert s == "\"" + s[1..] && "" + ("\"" + r.rest) == "\"" + r.rest;
    }
  }

  /** The number of quotes s begins with. */
  function Quotes(s: string): nat {
    if s != "" && s[0] == '"' then 1 + Quotes(s[1..]) else 0
  }

  lemma {:induction false} QuotesOfDoubled(s: string, rest: string)
    ensures Quotes(Doubled(s) + rest) >= 2 * Quotes(s)
  {
    if s != "" && s[0] == '"' {
      QuotesOfDoubled(s[1..], rest);
      var t := Doubled(s) + rest;
      assert t[1..][0] == '"' && t[1..][1..] == Doubled(s[1..]) + rest;
    }
  }

  lemma {:induction false} QuotesBeforeComma(s: string, rest: string)
    ensures Quotes(s + ("," + rest)) == Quotes(s)
  {
    if s != "" && s[0] == '"' {
      QuotesBeforeComma(s[1..], rest);
      assert (s + ("," + rest))[1..] == s[1..] + ("," + rest);
    }
  }

  /** A raw field that begins with a quote is never read as itself: that would take twice the quotes. */
  lemma QuoteNeverReadsBack(f: string, rest: string)
    requires f != "" && f[0] == '"'
    ensures var r := ReadField(f + ("," + rest)); r.Some? ==> r.value.field != f
  {
    var s := f + ("," + rest);
    var r := ReadField(s);
    if r.Some? && r.value.field == f {
      ReadQuotedInverts(s[1..]);
      QuotesOfDoubled(f, "\"" + r.value.rest);
      QuotesBeforeComma(f, rest);
      assert false;
    }
  }

  lemma ReadPlainOfCons(c: char, s: string)
    requires IsTextData(c)
    ensures ReadPlain([c] + s) == Read([c] + ReadPlain(s).field, ReadPlain(s).rest)
  {
    assert ([c] + s)[1..] == s;
  }

  lemma PlainEnds(rest: string)
    requires rest == "" || !IsTextData(rest[0])
    ensures ReadPlain("" + rest) == Read("", rest)
  {
    assert "" + rest == rest;
  }

  lemma {:induction false} PlainReadsBack(f: string, rest: string)
    requires IsPlain(f) && (rest == "" || !IsTextData(rest[0]))
    ensures ReadPlain(f + rest) == Read(f, rest)
  {
    hide ReadPlain, IsTextData;
    if f == "" {
      PlainEnds(rest);
    } else {
      PlainReadsBack(f[1..], rest);
      ReadPlainOfCons(f[0], f[1..] + rest);
      assert f + rest == [f[0]] + (f[1..] + rest) && [f[0]] + f[1..] == f;
    }
  }

  /** A raw field is read as itself exactly when it is plain. */
  lemma RawReadsBackExactlyWhen(f: string, rest: string)
    ensures IsPlain(f) ==> ReadField(f + ("," + rest)) == Some(Read(f, "," + rest))
    ensures !IsPlain(f) ==> ReadField(f + ("," + rest)).None? || ReadField(f + ("," + rest)).value.field != f
  {
    var s := f + ("," + rest);
    assert s[0] == if f == "" then ',' else f[0];
    if f != "" && f[0] == '"' {
      QuoteNeverReadsBack(f, rest);
    } else if IsPlain(f) {
      PlainReadsBack(f, "," + rest);
    }
  }

  // ------------------------------------------------------- reading the file

  /** What follows a record: nothing, or a line break and more records. */
  function ParseTail(t: string): Option<Records>
  {
    if |t| <= 1 then Some([]) else Parse(t[1..])
  }

  predicate AllPlain(fields: seq<string>) {
    forall f | f in fields :: IsPlain(f)
  }

  lemma LastFieldReads(s: string, q: string, tail: string)
    requires ReadField(s) == Some(Read(q, tail)) && (tail == "" || tail[0] == '\n')
    ensures Parse(s) == match ParseTail(tail) case None => None case Some(rs) => Some([[q]] + rs)
  {
    if |tail| <= 1 {
      assert [[q]] + [] == [[q]];
    }
  }

  /** A printed record is read as its fields exactly when its raw fields are plain. */
  lemma {:induction false} RecordReadsBackExactlyWhen(
      fs: seq<string>, last: string, q: string, tail: string, rs: Records)
    requires ReadField(last + tail) == Some(Read(q, tail)) && (tail == "" || tail[0] == '\n')
    ensures Parse(Join(fs + [last], ",") + tail) == Some([fs + [q]] + rs)
      <==> AllPlain(fs) && ParseTail(tail) == Some(rs)
  {
    if fs == [] {
      assert fs + [last] == [last] && fs + [q] == [q];
      LastFieldReads(last + tail, q, tail);
      assert ([[q]] + rs)[1..] == rs;
      assert ParseTail(tail).Some? ==> ([[q]] + ParseTail(tail).value)[1..] == ParseTail(tail).value;
    } else {
      var rest := fs[1..];
      var more := Join(rest + [last], ",") + tail;
      assert (fs + [last])[1..] == rest + [last];
      assert Join(fs + [last], ",") + tail == fs[0] + ("," + more);
      assert [fs[0]] + rest == fs && fs[0] in fs;
      assert ("," + more)[1..] == more;
      RawReadsBackExactlyWhen(fs[0], more);
      RecordReadsBackExactlyWhen(rest, last, q, tail, rs);
      assert ([fs + [q]] + rs)[0][0] == fs[0];
      assert AllPlain(fs) <==> IsPlain(fs[0]) && AllPlain(rest);
      if IsPlain(fs[0]) && Parse(more).Some? {
        OneMoreField(fs[0], Parse(more).value, rest + [q], rs);
        assert fs + [q] == [fs[0]] + (rest + [q]);
      }
    }
  }

  lemma OneMoreField(f: string, got: Records, record: seq<string>, rs: Records)
    requires got != []
    ensures WithField(f, got) == [[f] + record] + rs <==> got == [record] + rs
  {
    assert ([f] + got[0])[1..] == got[0] && ([f] + record)[1..] == record;
    assert WithField(f, got)[1..] == got[1..] && ([[f] + record] + rs)[1..] == rs;
    assert got == [got[0]] + got[1..];
  }

  function RecordsOf(logs: seq<Log>): Records {
    if logs == [] then [] else [RawFields(logs[0]) + [Description(logs[0])]] + RecordsOf(logs[1..])
  }

  predicate RawFieldsPlain(logs: seq<Log>) {
    forall log | log in logs :: AllPlain(RawFields(log))
  }

  lemma {:induction false} JoinIsLong(fs: seq<string>, last: string)
    requires |last| >= 2
    ensures |Join(fs + [last], ",")| >= 2
  {
    if fs == [] {
      assert fs + [last] == [last];
    } else {
      JoinIsLong(fs[1..], last);
      assert (fs + [last])[1..] == fs[1..] + [last];
    }
  }

  lemma {:induction false} RowsReadBackExactlyWhen(logs: seq<Log>)
    requires logs != []
    ensures |Join(Rows(logs), "\n")| >= 2
    ensures Parse(Join(Rows(logs), "\n")) == Some(RecordsOf(logs)) <==> RawFieldsPlain(logs)
  {
    hide ReadField, Parse, Doubled, RawFields, Description, AllPlain;
    var log, rest := logs[0], logs[1..];
    var fs, q := RawFields(log), Description(log);
    var tail := if rest == [] then "" else "\n" + Join(Rows(rest), "\n");
    assert Join(Rows(logs), "\n") == Row(log) + tail;
    JoinIsLong(fs, Quoted(q));
    QuotedFieldReads(q, tail);
    if rest != [] {
      RowsReadBackExactlyWhen(rest);
      assert tail[1..] == Join(Rows(rest), "\n");
    }
    RecordReadsBackExactlyWhen(fs, Quoted(q), q, tail, RecordsOf(rest));
    assert logs == [log] + rest && log in logs;
    assert RawFieldsPlain(logs) <==> AllPlain(fs) && RawFieldsPlain(rest);
  }

  lemma HeaderIsPlain()
    ensures AllPlain(HEADER) && IsPlain("Description")
  {
  }

  /**
   The export reads back as the header and one nine-field record a log, the
   descriptions whatever they were, exactly when no raw field holds a comma, a
   quote or a line break.
   */
  lemma ExportReadsBackExactlyWhen(logs: seq<Log>)
    ensures Parse(Export(logs)) == Some([HEADER + ["Description"]] + RecordsOf(logs)) <==> RawFieldsPlain(logs)
  {
    var tail := if logs == [] then "" else "\n" + Join(Rows(logs), "\n");
    var header := Join(HEADER + ["Description"], ",");
    assert ([header] + Rows(logs))[1..] == Rows(logs);
    assert Export(logs) == header + tail;
    HeaderIsPlain();
    PlainReadsBack("Description", tail);
    assert ("Description" + tail)[0] == 'D';
    if logs != [] {
      RowsReadBackExactlyWhen(logs);
      assert tail[1..] == Join(Rows(logs), "\n");
    }
    RecordReadsBackExactlyWhen(HEADER, "Description", "Description", tail, RecordsOf(logs));
  }

  // ------------------------------------------------------------- what is read

  /** The first position of a column in the header. */
  function Column(header: seq<string>, name: string): nat {
    if header == [] || header[0] == name then 0 else 1 + Column(header[1..], name)
  }

  /** The cell of a record under a column of the header. */
  function Cell(records: Records, name: string, i: nat): Option<string> {
    if i + 1 < |records| && Column(records[0], name) < |records[i + 1]|
    then Some(records[i + 1][Column(records[0], name)]) else None
  }

  lemma {:induction false} RecordAt(logs: seq<Log>, i: nat)
    requires i < |logs|
    ensures |RecordsOf(logs)| == |logs| && RecordsOf(logs)[i] == RawFields(logs[i]) + [Description(logs[i])]
  {
    if i > 0 {
      RecordAt(logs[1..], i - 1);
    } else if |logs| > 1 {
      RecordAt(logs[1..], 0);
    }
  }

  lemma {:induction false} ColumnIsAt(header: seq<string>, k: nat)
    requires k < |header| && forall i | 0 <= i < k :: header[i] != header[k]
    ensures Column(header, header[k]) == k
  {
    if k > 0 {
      ColumnIsAt(header[1..], k - 1);
    }
  }

  /** What the export says of a log: each field under its own column, with the defaults for what is missing. */
  lemma ExportShowsEveryField(logs: seq<Log>, i: nat)
    requires RawFieldsPlain(logs) && i < |logs|
    ensures Parse(Export(logs)).Some?
    ensures var records, log := Parse(Export(logs)).value, logs[i];
      && |records| == |logs| + 1
      && Cell(records, "Date", i) == Some(log.date) && Cell(records, "Time", i) == Some(log.time)
      && Cell(records, "User", i) == Some(log.userName) && Cell(records, "Email", i) == Some(log.email)
      && Cell(records, "Action", i) == Some(log.action)
      && Cell(records, "Resource", i) == Some(if log.project in {None, Some("")} then "System" else log.project.value)
      && Cell(records, "Status", i) == Some(log.status)
      && Cell(records, "IP Address", i) == Some(if log.ipAddress in {None, Some("")} then "-" else log.ipAddress.value)
      && Cell(records, "Description", i) == Some(if log.description.None? then "" else log.description.value)
  {
    hide Parse, Export, RecordsOf, RawFieldsPlain, Column;
    ExportReadsBackExactlyWhen(logs);
    RecordAt(logs, i);
    var header := HEADER + ["Description"];
    assert Parse(Export(logs)).value[i + 1] == RecordsOf(logs)[i];
    HeaderColumns(header);
  }

  lemma HeaderColumns(header: seq<string>)
    requires header == HEADER + ["Description"]
    ensures Column(header, "Date") == 0 && Column(header, "Time") == 1 && Column(header, "User") == 2
    ensures Column(header, "Email") == 3 && Column(header, "Action") == 4 && Column(header, "Resource") == 5
    ensures Column(header, "Status") == 6 && Column(header, "IP Address") == 7 && Column(header, "Description") == 8
  {
    hide Column;
    forall k | 0 <= k < 9 ensures Column(header, header[k]) == k {
      HeaderIsDistinct(header, k);
      ColumnIsAt(header, k);
    }
    assert header[0] == "Date" && header[1] == "Time" && header[2] == "User" && header[3] == "Email";
    assert header[4] == "Action" && header[5] == "Resource" && header[6] == "Status";
    assert header[7] == "IP Address" && header[8] == "Description";
  }

  lemma HeaderIsDistinct(header: seq<string>, k: nat)
    requires header == HEADER + ["Description"] && k < 9
    ensures forall i | 0 <= i < k :: header[i] != header[k]
  {
    forall i | 0 <= i < k ensures header[i] != header[k] {
      assert |header[i]| != |header[k]| || header[i][0] != header[k][0];
    }
  }
}
