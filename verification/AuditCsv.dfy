/**
  The audit trail's CSV export (internal/api/audit.go), against a parser for
  section 2 of RFC 4180. Strings are sequences of valid characters. The
  exporter ends records with LF where the RFC has CRLF; the parser takes both.
*/
module AuditCsv {
  import opened Prelude

  // ------------------------------------------------------------- one field

  predicate Blank(c: char) {
    c == ' ' || c == '\t' || c == '\r'
  }

  /** A spreadsheet would evaluate the value: its first character past blanks is =, +, - or @. */
  predicate Formula(value: string) {
    value != [] &&
    if Blank(value[0]) then Formula(value[1..]) else value[0] in "=+-@"
  }

  function Guard(value: string): string {
    if Formula(value) then "'" + value else value
  }

  function Doubled(value: string): string {
    if value == [] then ""
    else (if value[0] == '"' then "\"\"" else [value[0]]) + Doubled(value[1..])
  }

  predicate Special(c: char) {
    c == ',' || c == '"' || c == '\n' || c == '\r'
  }

  predicate Plain(value: string) {
    forall i :: 0 <= i < |value| ==> !Special(value[i])
  }

  function Field(value: string): string {
    if Formula(value) || !Plain(Guard(value)) then "\"" + Doubled(Guard(value)) + "\"" else value
  }

  /** What a spreadsheet evaluates, at a glance: one of the four signs with nothing but blanks before it. */
  ghost predicate Evaluates(value: string) {
    exists i :: 0 <= i < |value| && value[i] in {'=', '+', '-', '@'} && BlankUpTo(value, i)
  }

  predicate BlankUpTo(value: string, i: nat)
    requires i <= |value|
  {
    forall j :: 0 <= j < i ==> value[j] in {' ', '\t', '\r'}
  }

  /** The guard goes before exactly those values, and leaves every other as it is. */
  lemma {:induction false} GuardIff(value: string)
    ensures Formula(value) <==> Evaluates(value)
    ensures Guard(value) == (if Evaluates(value) then "'" + value else value) && !Evaluates(Guard(value))
  {
    FormulaIff(value);
    FormulaIff(Guard(value));
    hide Evaluates;
  }

  lemma {:induction false} FormulaIff(value: string)
    ensures Formula(value) <==> Evaluates(value)
  {
    if value != [] {
      var rest := value[1..];
      FormulaIff(rest);
      if Evaluates(value) {
        var i :| 0 <= i < |value| && value[i] in {'=', '+', '-', '@'} && BlankUpTo(value, i);
        if i > 0 {
          assert Blank(value[0]) && rest[i - 1] == value[i] && BlankUpTo(rest, i - 1);
        }
      }
      if Evaluates(rest) && Blank(value[0]) {
        var i :| 0 <= i < |rest| && rest[i] in {'=', '+', '-', '@'} && BlankUpTo(rest, i);
        assert value[i + 1] == rest[i] && BlankUpTo(value, i + 1);
      }
      if !Blank(value[0]) && Formula(value) {
        assert BlankUpTo(value, 0);
      }
    }
  }

  // ------------------------------------------------------------ one record

  datatype Event = Event(
    ts: nat, subject: Option<string>, decision: string, reason: Option<string>, action: Option<string>,
    cluster: Option<string>, verb: Option<string>, path: Option<string>, status: Option<nat>,
    latencyMs: Option<nat>, required: Option<Required>, grantedRoles: seq<string>)

  datatype Required = Required(action: string, target: string)

  datatype Row = Row(id: nat, event: Event)

  function Decimal(n: nat): (s: string)
    ensures s != [] && forall i :: 0 <= i < |s| ==> '0' <= s[i] <= '9'
  {
    if n < 10 then ['0' + n as char] else Decimal(n / 10) + ['0' + (n % 10) as char]
  }

  function OptStr(o: Option<string>): string {
    if o.Some? then o.value else ""
  }

  function OptNum(o: Option<nat>): string {
    if o.Some? then Decimal(o.value) else ""
  }

  function Join(parts: seq<string>, sep: string): string {
    if parts == [] then ""
    else if |parts| == 1 then parts[0]
    else parts[0] + sep + Join(parts[1..], sep)
  }

  const COLUMNS := 14

  function Cells(row: Row): (cells: seq<string>)
    ensures |cells| == COLUMNS
  {
    var e := row.event;
    [ Decimal(row.id), Decimal(e.ts), OptStr(e.subject), e.decision, OptStr(e.reason), OptStr(e.action),
      OptStr(e.cluster), OptStr(e.verb), OptStr(e.path), OptNum(e.status), OptNum(e.latencyMs),
      if e.required.Some? then e.required.value.action else "",
      if e.required.Some? then e.required.value.target else "",
      Join(e.grantedRoles, ";") ]
  }

  const HEADER: seq<string> := [
    "seq", "ts", "subject", "decision", "reason", "action", "cluster", "method", "path", "status",
    "latency_ms", "required_action", "required_target", "granted_roles" ]

  function Fields(cells: seq<string>): (fs: seq<string>)
    ensures |fs| == |cells| && forall i :: 0 <= i < |cells| ==> fs[i] == Field(cells[i])
  {
    seq(|cells|, i requires 0 <= i < |cells| => Field(cells[i]))
  }

  function Line(cells: seq<string>): string {
    Join(Fields(cells), ",") + "\n"
  }

  function Lines(table: seq<seq<string>>): string {
    if table == [] then "" else Line(table[0]) + Lines(table[1..])
  }

  function Table(rows: seq<Row>): (table: seq<seq<string>>)
    ensures |table| == |rows| && forall i :: 0 <= i < |rows| ==> table[i] == Cells(rows[i])
  {
    seq(|rows|, i requires 0 <= i < |rows| => Cells(rows[i]))
  }

  function Render(rows: seq<Row>): string {
    Join(HEADER, ",") + "\n" + Lines(Table(rows))
  }

  // ---------------------------------------------------------- the exporter

  /** strings.Builder. */
  class Builder {
    var text: string

    constructor ()
      ensures text == ""
    {
      text := "";
    }

    method Write(s: string)
      modifies this
      ensures text == old(text) + s
    {
      text := text + s;
    }
  }

  method IsFormula(value: string) returns (formula: bool)
    ensures formula == Formula(value)
  {
    formula := false;
    var i := 0;
    while i < |value|
      invariant 0 <= i <= |value| && !formula
      invariant Formula(value) == Formula(value[i..])
    {
      if !Blank(value[i]) {
        formula := value[i] in "=+-@";
        break;
      }
      assert value[i..][1..] == value[i + 1..];
      i := i + 1;
    }
  }

  method WriteDoubled(out: Builder, v: string)
    modifies out
    ensures out.text == old(out.text) + Doubled(v)
  {
    var k := 0;
    while k < |v|
      invariant 0 <= k <= |v|
      invariant out.text + Doubled(v[k..]) == old(out.text) + Doubled(v)
    {
      ghost var before := out.text;
      if v[k] == '"' {
        out.Write("\"");
      }
      out.Write([v[k]]);
      assert v[k..][1..] == v[k + 1..];
      assert out.text == before + if v[k] == '"' then "\"\"" else [v[k]];
      k := k + 1;
    }
    assert v[k..] == [];
  }

  lemma Regroup(a: string, b: string, c: string, d: string)
    ensures a + b + c + d == a + (b + c + d)
  {}

  method CsvField(out: Builder, value: string)
    modifies out
    ensures out.text == old(out.text) + Field(value)
  {
    hide Formula, Doubled, Plain;
    var formula := IsFormula(value);
    var v := if formula then "'" + value else value;
    if formula || !Plain(v) {
      out.Write("\"");
      WriteDoubled(out, v);
      out.Write("\"");
      Regroup(old(out.text), "\"", Doubled(v), "\"");
    } else {
      out.Write(v);
    }
  }

  lemma {:induction false} JoinSnoc(parts: seq<string>, last: string, sep: string)
    ensures Join(parts + [last], sep) == if parts == [] then last else Join(parts, sep) + sep + last
  {
    if |parts| > 1 {
      JoinSnoc(parts[1..], last, sep);
      assert (parts + [last])[1..] == parts[1..] + [last];
    } else if |parts| == 1 {
      assert (parts + [last])[1..] == [last];
    }
  }

  lemma LinesNil()
    ensures Lines([]) == ""
  {}

  lemma {:induction false} LinesSnoc(table: seq<seq<string>>, last: seq<string>)
    ensures Lines(table + [last]) == Lines(table) + Line(last)
  {
    if table == [] {
      assert [last][1..] == [];
    } else {
      LinesSnoc(table[1..], last);
      assert (table + [last])[1..] == table[1..] + [last];
    }
  }

  /** The inner loop of the export: one record. */
  method WriteRecord(out: Builder, cells: seq<string>)
    modifies out
    ensures out.text == old(out.text) + Line(cells)
  {
    hide Field;
    var i := 0;
    while i < |cells|
      invariant 0 <= i <= |cells|
      invariant out.text == old(out.text) + Join(Fields(cells)[..i], ",")
    {
      if i > 0 {
        out.Write(",");
      }
      CsvField(out, cells[i]);
      JoinSnoc(Fields(cells)[..i], Field(cells[i]), ",");
      assert Fields(cells)[..i + 1] == Fields(cells)[..i] + [Field(cells[i])];
      i := i + 1;
    }
    assert Fields(cells)[..i] == Fields(cells);
    out.Write("\n");
  }

  method WriteRows(out: Builder, rows: seq<Row>)
    modifies out
    ensures out.text == old(out.text) + Lines(Table(rows))
  {
    hide Cells, Line, Lines;
    LinesNil();
    ghost var table := Table(rows);
    var n := 0;
    while n < |rows|
      invariant 0 <= n <= |rows|
      invariant out.text == old(out.text) + Lines(table[..n])
    {
      WriteRecord(out, Cells(rows[n]));
      LinesSnoc(table[..n], table[n]);
      assert table[..n + 1] == table[..n] + [table[n]];
      assert out.text == old(out.text) + (Lines(table[..n]) + Line(table[n]));
      n := n + 1;
    }
    assert table[..n] == table;
  }

  method RenderAuditCsv(rows: seq<Row>) returns (text: string)
    ensures text == Render(rows)
  {
    hide Cells, Lines, Join;
    var out := new Builder();
    out.Write(Join(HEADER, ",") + "\n");
    WriteRows(out, rows);
    text := out.text;
  }

  // -------------------------------------------------- RFC 4180, section 2

  datatype Mode = Start | Bare | Quoted | QuoteSeen | Return

  /** Fields read so far: `field` being read, `record` before it, `done` before that. */
  datatype Parser = Reject | At(mode: Mode, field: string, record: seq<string>, done: seq<seq<string>>)

  const BEGIN := At(Start, "", [], [])

  function EndField(p: Parser): Parser
    requires p.At?
  {
    At(Start, "", p.record + [p.field], p.done)
  }

  function EndRecord(p: Parser): Parser
    requires p.At?
  {
    At(Start, "", [], p.done + [p.record + [p.field]])
  }

  function Feed(p: Parser, c: char): Parser {
    if p.Reject? then Reject
    else if p.mode == Quoted then
      if c == '"' then p.(mode := QuoteSeen) else p.(field := p.field + [c])
    else if p.mode == Return then
      if c == '\n' then EndRecord(p) else Reject
    else if c == ',' then EndField(p)
    else if c == '\n' then EndRecord(p)
    else if c == '\r' then p.(mode := Return)
    else if c == '"' then
      match p.mode
      case Start => p.(mode := Quoted)
      case QuoteSeen => p.(mode := Quoted, field := p.field + ['"'])
      case _ => Reject
    else if p.mode == QuoteSeen then Reject
    else p.(mode := Bare, field := p.field + [c])
  }

  function FeedAll(p: Parser, s: string): Parser
    decreases |s|
  {
    if s == [] then p else FeedAll(Feed(p, s[0]), s[1..])
  }

  /** The last record may lack its line break. */
  function Parse(s: string): Option<seq<seq<string>>> {
    match FeedAll(BEGIN, s)
    case Reject => None
    case At(mode, field, record, done) =>
      if mode == Quoted || mode == Return then None
      else if mode == Start && record == [] then Some(done)
      else Some(done + [record + [field]])
  }

  // ------------------------------------------------------------ round trip

  lemma {:induction false} FeedConcat(p: Parser, a: string, b: string)
    ensures FeedAll(p, a + b) == FeedAll(FeedAll(p, a), b)
    decreases |a|
  {
    if a == [] {
      assert a + b == b;
    } else {
      assert (a + b)[0] == a[0] && (a + b)[1..] == a[1..] + b;
      FeedConcat(Feed(p, a[0]), a[1..], b);
    }
  }

  lemma FeedNone(p: Parser)
    ensures FeedAll(p, "") == p
  {}

  lemma FeedOne(p: Parser, c: char)
    ensures FeedAll(p, [c]) == Feed(p, c)
  {
    assert [c][1..] == [];
  }

  lemma {:induction false} FeedDoubled(p: Parser, value: string)
    requires p.At? && p.mode == Quoted
    ensures FeedAll(p, Doubled(value)) == p.(field := p.field + value)
    decreases |value|
  {
    if value == [] {
      assert p.field + value == p.field;
    } else {
      var q := p.(field := p.field + [value[0]]);
      if value[0] == '"' {
        FeedConcat(p, "\"\"", Doubled(value[1..]));
        assert "\"\""[1..] == "\"";
        FeedOne(Feed(p, '"'), '"');
        assert FeedAll(p, "\"\"") == q;
      } else {
        FeedConcat(p, [value[0]], Doubled(value[1..]));
        FeedOne(p, value[0]);
      }
      FeedDoubled(q, value[1..]);
      assert q.field + value[1..] == p.field + value;
    }
  }

  lemma {:induction false} FeedPlain(p: Parser, value: string)
    requires p.At? && (p.mode == Start || p.mode == Bare) && Plain(value)
    ensures FeedAll(p, value) == p.(mode := if value == [] then p.mode else Bare, field := p.field + value)
    decreases |value|
  {
    if value == [] {
      assert p.field + value == p.field;
    } else {
      var q := Feed(p, value[0]);
      FeedPlain(q, value[1..]);
      assert q.field + value[1..] == p.field + value;
    }
  }

  /** A printed field leaves the parser holding exactly the guarded value, ready for `,` or a line break. */
  lemma FeedField(p: Parser, value: string)
    requires p.At? && p.mode == Start && p.field == ""
    ensures var q := FeedAll(p, Field(value));
      q.At? && q == p.(mode := q.mode, field := Guard(value)) && q.mode in {Start, Bare, QuoteSeen}
  {
    hide FeedAll;
    var v := Guard(value);
    if Formula(value) || !Plain(v) {
      var q := p.(mode := Quoted);
      FeedOne(p, '"');
      FeedConcat(p, "\"", Doubled(v) + "\"");
      assert Field(value) == "\"" + (Doubled(v) + "\"");
      FeedConcat(q, Doubled(v), "\"");
      FeedDoubled(q, v);
      assert q.field + v == v;
      FeedOne(q.(field := v), '"');
    } else {
      FeedPlain(p, value);
      assert p.field + value == value;
    }
  }

  function Guarded(cells: seq<string>): (g: seq<string>)
    ensures |g| == |cells| && forall i :: 0 <= i < |g| ==> g[i] == Guard(cells[i])
  {
    seq(|cells|, i requires 0 <= i < |cells| => Guard(cells[i]))
  }

  lemma LineSplit(cells: seq<string>)
    requires cells != []
    ensures Line(cells) == Field(cells[0]) + if |cells| == 1 then "\n" else "," + Line(cells[1..])
  {
    hide Field;
    assert Fields(cells)[1..] == Fields(cells[1..]);
  }

  lemma {:induction false} FeedCells(p: Parser, cells: seq<string>)
    requires p.At? && p.mode == Start && p.field == "" && cells != []
    ensures FeedAll(p, Line(cells)) == At(Start, "", [], p.done + [p.record + Guarded(cells)])
    decreases |cells|
  {
    hide Field, Guard, FeedAll, Line, Guarded;
    var f, rest := Field(cells[0]), cells[1..];
    LineSplit(cells);
    FeedField(p, cells[0]);
    var q := FeedAll(p, f);
    if |cells| == 1 {
      FeedConcat(p, f, "\n");
      FeedOne(q, '\n');
      assert Guarded(cells) == [Guard(cells[0])];
    } else {
      FeedConcat(p, f, "," + Line(rest));
      FeedConcat(q, ",", Line(rest));
      FeedOne(q, ',');
      FeedCells(EndField(q), rest);
      assert p.record + [Guard(cells[0])] + Guarded(rest) == p.record + Guarded(cells);
    }
  }

  function GuardedAll(table: seq<seq<string>>): (rs: seq<seq<string>>)
    ensures |rs| == |table| && forall i :: 0 <= i < |rs| ==> rs[i] == Guarded(table[i])
  {
    seq(|table|, i requires 0 <= i < |table| => Guarded(table[i]))
  }

  lemma {:induction false} FeedLines(done: seq<seq<string>>, table: seq<seq<string>>)
    requires forall i :: 0 <= i < |table| ==> table[i] != []
    ensures FeedAll(At(Start, "", [], done), Lines(table)) == At(Start, "", [], done + GuardedAll(table))
    decreases |table|
  {
    hide Line, Guard, Feed, FeedAll, Guarded;
    var p := At(Start, "", [], done);
    if table == [] {
      FeedNone(p);
      assert done + GuardedAll(table) == done;
    } else {
      FeedConcat(p, Line(table[0]), Lines(table[1..]));
      FeedCells(p, table[0]);
      assert p.record + Guarded(table[0]) == Guarded(table[0]);
      FeedLines(done + [Guarded(table[0])], table[1..]);
      assert done + [Guarded(table[0])] + GuardedAll(table[1..]) == done + GuardedAll(table);
    }
  }

  predicate Word(s: string) {
    s != [] && forall i :: 0 <= i < |s| ==> 'a' <= s[i] <= 'z' || s[i] == '_'
  }

  lemma HeaderWords()
    ensures forall i :: 0 <= i < |HEADER| ==> Word(HEADER[i])
  {
    assert Word("seq") && Word("ts") && Word("subject") && Word("decision") && Word("reason");
    assert Word("action") && Word("cluster") && Word("method") && Word("path") && Word("status");
    assert Word("latency_ms") && Word("required_action") && Word("required_target") && Word("granted_roles");
  }

  lemma WordsPrintAsThemselves(cells: seq<string>)
    requires forall i :: 0 <= i < |cells| ==> Word(cells[i])
    ensures Fields(cells) == cells && Guarded(cells) == cells
    ensures forall c :: c in cells ==> !Formula(c)
  {
    forall i | 0 <= i < |cells|
      ensures Field(cells[i]) == cells[i] && Guard(cells[i]) == cells[i] && !Formula(cells[i])
    {
      assert !Blank(cells[i][0]);
    }
  }

  lemma GuardedIsNoFormula(table: seq<seq<string>>, r: seq<string>, c: string)
    requires r in GuardedAll(table) && c in r
    ensures !Formula(c)
  {
    hide GuardedAll, Guarded;
    var i :| 0 <= i < |table| && r == GuardedAll(table)[i];
    var j :| 0 <= j < |r| && c == r[j];
    assert c == Guard(table[i][j]);
  }

  lemma TableRoundTrip(header: seq<string>, table: seq<seq<string>>)
    requires header != [] && forall i :: 0 <= i < |header| ==> Word(header[i])
    requires forall i :: 0 <= i < |table| ==> table[i] != []
    ensures Parse(Join(header, ",") + "\n" + Lines(table)) == Some([header] + GuardedAll(table))
    ensures forall c :: c in header ==> !Formula(c)
  {
    hide Field, Guard, Word, Join, Lines, Feed, FeedAll, Formula, Fields, Guarded, GuardedAll;
    WordsPrintAsThemselves(header);
    FeedConcat(BEGIN, Line(header), Lines(table));
    FeedCells(BEGIN, header);
    assert BEGIN.record + Guarded(header) == header && BEGIN.done + [header] == [header];
    FeedLines([header], table);
  }

  /**
    A conforming reader gets back the header and one 14-cell record per row, in
    order, each cell being the row's value behind its guard; it gets no cell
    that a spreadsheet would evaluate.
  */
  lemma ExportRoundTrip(rows: seq<Row>)
    ensures Parse(Render(rows)) == Some([HEADER] + GuardedAll(Table(rows)))
    ensures |HEADER| == COLUMNS && forall r :: r in GuardedAll(Table(rows)) ==> |r| == COLUMNS
    ensures forall r, c :: r in [HEADER] + GuardedAll(Table(rows)) && c in r ==> !Evaluates(c)
  {
    hide Cells, Evaluates, Parse, Lines, Join, Word, Formula, GuardedAll, Guarded;
    HeaderWords();
    TableRoundTrip(HEADER, Table(rows));
    forall r, c | r in [HEADER] + GuardedAll(Table(rows)) && c in r
      ensures !Evaluates(c)
    {
      FormulaIff(c);
      if r != HEADER {
        GuardedIsNoFormula(Table(rows), r, c);
      }
    }
  }

  /** The guard is the export's only loss: two values collide exactly when one is the other's guarded form. */
  lemma GuardCollision(a: string, b: string)
    ensures Guard(a) == Guard(b) <==>
      a == b || (Evaluates(a) && b == "'" + a) || (Evaluates(b) && a == "'" + b)
  {
    FormulaIff(a);
    FormulaIff(b);
    hide Evaluates;
    if Formula(a) && Formula(b) && Guard(a) == Guard(b) {
      assert a == Guard(a)[1..] && b == Guard(b)[1..];
    }
  }

  // ------------------------------------------------------- numeric columns

  function Value(digits: string): int {
    if digits == [] then 0
    else 10 * Value(digits[..|digits| - 1]) + (digits[|digits| - 1] as int - '0' as int)
  }

  lemma {:induction false} DecimalValue(n: nat)
    ensures Value(Decimal(n)) == n
  {
    if n >= 10 {
      DecimalValue(n / 10);
      var s := Decimal(n);
      assert s[..|s| - 1] == Decimal(n / 10);
    } else {
      assert Decimal(n)[..0] == [];
    }
  }

  /** The cell of an optional text: its guarded value, or nothing. */
  predicate ShowsText(cell: string, o: Option<string>) {
    cell == match o case Some(s) => Guard(s) case None => ""
  }

  /** The cell of an optional number: digits that read back as it, or nothing. */
  predicate ShowsNumber(cell: string, o: Option<nat>) {
    match o
    case Some(n) => cell != "" && Value(cell) == n && forall i :: 0 <= i < |cell| ==> '0' <= cell[i] <= '9'
    case None => cell == ""
  }

  lemma DigitsSurvive(n: nat)
    ensures ShowsNumber(Guard(Decimal(n)), Some(n))
  {
    DecimalValue(n);
    assert !Blank(Decimal(n)[0]);
  }

  lemma NumberCell(o: Option<nat>)
    ensures ShowsNumber(Guard(OptNum(o)), o)
  {
    if o.Some? {
      DigitsSurvive(o.value);
    }
    hide Decimal, ShowsNumber;
    assert o.None? ==> Guard(OptNum(o)) == "";
  }

  lemma TextCell(o: Option<string>)
    ensures ShowsText(Guard(OptStr(o)), o)
  {
  }

  function Split(s: string, c: char): seq<string>
    decreases |s|
  {
    var i := IndexOf(s, c);
    if i == |s| then [s] else [s[..i]] + Split(s[i + 1..], c)
  }

  /** Joined roles come apart again at the semicolons, so long as no role holds one. */
  lemma {:induction false} JoinSplits(parts: seq<string>, c: char)
    requires parts != [] && forall i :: 0 <= i < |parts| ==> c !in parts[i]
    ensures Split(Join(parts, [c]), c) == parts
  {
    var joined, first := Join(parts, [c]), parts[0];
    assert forall j :: 0 <= j < |first| ==> first[j] in first;
    if |parts| == 1 {
      NotIn(joined, c);
    } else {
      var rest := Join(parts[1..], [c]);
      JoinSplits(parts[1..], c);
      assert joined == first + [c] + rest;
      FirstAt(joined, c, |first|);
      assert joined[..|first|] == first && joined[|first| + 1..] == rest;
      assert [first] + parts[1..] == parts;
    }
  }

  /** The cell of a list of roles, none of which holds a semicolon. */
  ghost predicate ShowsRoles(cell: string, roles: seq<string>) {
    && (roles == [] ==> cell == "")
    && (roles != [] && (forall i :: 0 <= i < |roles| ==> ';' !in roles[i]) ==>
          exists text :: cell == Guard(text) && Split(text, ';') == roles)
  }

  lemma RolesCell(roles: seq<string>)
    ensures ShowsRoles(Guard(Join(roles, ";")), roles)
  {
    assert Guard("") == "";
    if roles != [] && forall i :: 0 <= i < |roles| ==> ';' !in roles[i] {
      JoinSplits(roles, ';');
    }
    hide Guard, Split;
  }

  /** What a conforming reader learns of one row: each column is that field and no other, present or absent. */
  ghost predicate Decodes(r: seq<string>, row: Row)
    requires |r| == COLUMNS
  {
    var e := row.event;
    && ShowsNumber(r[0], Some(row.id)) && ShowsNumber(r[1], Some(e.ts))
    && ShowsText(r[2], e.subject) && r[3] == Guard(e.decision) && ShowsText(r[4], e.reason)
    && ShowsText(r[5], e.action) && ShowsText(r[6], e.cluster) && ShowsText(r[7], e.verb)
    && ShowsText(r[8], e.path) && ShowsNumber(r[9], e.status) && ShowsNumber(r[10], e.latencyMs)
    && (match e.required
        case Some(q) => r[11] == Guard(q.action) && r[12] == Guard(q.target)
        case None => r[11] == "" && r[12] == "")
    && ShowsRoles(r[13], e.grantedRoles)
  }

  lemma CellsAre(row: Row)
    ensures var e, c := row.event, Cells(row);
      && c[0] == Decimal(row.id) && c[1] == Decimal(e.ts) && c[2] == OptStr(e.subject) && c[3] == e.decision
      && c[4] == OptStr(e.reason) && c[5] == OptStr(e.action) && c[6] == OptStr(e.cluster)
      && c[7] == OptStr(e.verb) && c[8] == OptStr(e.path) && c[9] == OptNum(e.status) && c[10] == OptNum(e.latencyMs)
      && c[13] == Join(e.grantedRoles, ";")
    ensures var e, c := row.event, Cells(row);
      && c[11] == (if e.required.Some? then e.required.value.action else "")
      && c[12] == (if e.required.Some? then e.required.value.target else "")
  {
    hide Decimal, OptStr, OptNum, Join;
  }

  lemma RequiredCells(row: Row, r: seq<string>)
    requires r == Guarded(Cells(row))
    ensures match row.event.required
      case Some(q) => r[11] == Guard(q.action) && r[12] == Guard(q.target)
      case None => r[11] == "" && r[12] == ""
  {
    assert Guard("") == "";
    CellsAre(row);
    hide *;
  }

  lemma CellsDecode(row: Row)
    ensures Decodes(Guarded(Cells(row)), row)
  {
    hide Guard, Decimal, OptStr, OptNum, Join, Cells, ShowsText, ShowsNumber, ShowsRoles;
    var e, r := row.event, Guarded(Cells(row));
    CellsAre(row);
    assert ShowsNumber(r[0], Some(row.id)) by { DigitsSurvive(row.id); }
    assert ShowsNumber(r[1], Some(e.ts)) by { DigitsSurvive(e.ts); }
    assert ShowsText(r[2], e.subject) by { TextCell(e.subject); }
    assert ShowsText(r[4], e.reason) by { TextCell(e.reason); }
    assert ShowsText(r[5], e.action) by { TextCell(e.action); }
    assert ShowsText(r[6], e.cluster) by { TextCell(e.cluster); }
    assert ShowsText(r[7], e.verb) by { TextCell(e.verb); }
    assert ShowsText(r[8], e.path) by { TextCell(e.path); }
    assert ShowsNumber(r[9], e.status) by { NumberCell(e.status); }
    assert ShowsNumber(r[10], e.latencyMs) by { NumberCell(e.latencyMs); }
    assert ShowsRoles(r[13], e.grantedRoles) by { RolesCell(e.grantedRoles); }
    RequiredCells(row, r);
  }

  /** The sequence number and timestamp columns decode to the row's own numbers. */
  lemma NumbersSurvive(row: Row)
    ensures var r := Guarded(Cells(row)); Value(r[0]) == row.id && Value(r[1]) == row.event.ts
  {
    CellsDecode(row);
    hide Value, Cells, Guarded;
  }

  /** Every row of the export, read back from the text. */
  lemma RowsDecode(rows: seq<Row>, r: nat)
    requires r < |rows|
    ensures Parse(Render(rows)).Some? && |Parse(Render(rows)).value| == |rows| + 1
    ensures |Parse(Render(rows)).value[r + 1]| == COLUMNS && Decodes(Parse(Render(rows)).value[r + 1], rows[r])
  {
    ExportRoundTrip(rows);
    CellsDecode(rows[r]);
    hide Parse, Render, Guard, Cells, Decodes, HEADER;
    assert Parse(Render(rows)).value[r + 1] == GuardedAll(Table(rows))[r] == Guarded(Cells(rows[r]));
  }

  /** What the column of that name shows of a row. */
  function Shown(row: Row, column: string): Option<string> {
    var e := row.event;
    match column
    case "subject" => Some(OptStr(e.subject))
    case "decision" => Some(e.decision)
    case "reason" => Some(OptStr(e.reason))
    case "action" => Some(OptStr(e.action))
    case "cluster" => Some(OptStr(e.cluster))
    case "method" => Some(OptStr(e.verb))
    case "path" => Some(OptStr(e.path))
    case "status" => Some(OptNum(e.status))
    case "latency_ms" => Some(OptNum(e.latencyMs))
    case "required_action" => Some(if e.required.Some? then e.required.value.action else "")
    case "required_target" => Some(if e.required.Some? then e.required.value.target else "")
    case "granted_roles" => Some(Join(e.grantedRoles, ";"))
    case "seq" => Some(Decimal(row.id))
    case "ts" => Some(Decimal(e.ts))
    case _ => None
  }

  lemma CellShown(row: Row, i: nat)
    requires i < COLUMNS
    ensures |HEADER| == COLUMNS && Shown(row, HEADER[i]) == Some(Cells(row)[i])
  {
    hide OptStr, OptNum, Join, Decimal;
  }

  /** In the parsed export, the cell under each heading shows that row's own field, guarded. */
  lemma ColumnsMatchHeader(rows: seq<Row>, r: nat, i: nat)
    requires r < |rows| && i < COLUMNS
    ensures Parse(Render(rows)).Some? && |Parse(Render(rows)).value| == |rows| + 1
    ensures var table := Parse(Render(rows)).value;
      && |table[0]| == COLUMNS && |table[r + 1]| == COLUMNS
      && Shown(rows[r], table[0][i]).Some? && table[r + 1][i] == Guard(Shown(rows[r], table[0][i]).value)
  {
    ExportRoundTrip(rows);
    CellShown(rows[r], i);
    hide Parse, Render, Guard, Cells, Shown, HEADER;
    var table := Parse(Render(rows)).value;
    assert table[r + 1] == GuardedAll(Table(rows))[r] == Guarded(Cells(rows[r]));
    assert table[0] == HEADER;
  }
}
