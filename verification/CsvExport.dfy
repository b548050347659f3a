/** The export of the incident list and the reading of it back (internal/domain/incident/analytics.go, RFC 4180). */
module CsvExport {
  import opened Base
  import opened Numerals
  import opened Incidents

  // -------- The columns --------

  /** How numbers and instants are written; Go's formatting is taken as given. */
  datatype Format = Format(score: real -> string, stamp: Time -> string)

  const COLUMNS := 18

  function Header(c: nat): string
    requires c < COLUMNS
  {
    match c
    case 0 => "id"
    case 1 => "dispositivo_id"
    case 2 => "dispositivo"
    case 3 => "tipo"
    case 4 => "severidad"
    case 5 => "estado"
    case 6 => "titulo"
    case 7 => "geocerca"
    case 8 => "asignado"
    case 9 => "riesgo"
    case 10 => "veces"
    case 11 => "abierto_en"
    case 12 => "actualizado_en"
    case 13 => "reconocido_en"
    case 14 => "cerrado_en"
    case 15 => "evidencias"
    case 16 => "eventos"
    case 17 => "ultima_nota"
  }

  const HEADER: seq<string> := seq(COLUMNS, c requires 0 <= c < COLUMNS => Header(c))

  function ScoreText(f: Format, v: Option<real>): string {
    if v.None? then "" else f.score(v.value)
  }

  function StampText(f: Format, t: Option<Time>): string {
    if t.None? || t.value == ZERO_TIME then "" else f.stamp(t.value)
  }

  function IntText(n: int): string {
    if n < 0 then "-" + Itoa(-n) else Itoa(n)
  }

  function Joined(parts: seq<string>, sep: string): string {
    if parts == [] then "" else if |parts| == 1 then parts[0] else parts[0] + sep + Joined(parts[1..], sep)
  }

  /** The last entry with a note, with who wrote it. */
  function LastNote(t: seq<Entry>): string {
    if t == [] then ""
    else
      var e := t[|t| - 1];
      if e.note != "" then e.actor + ": " + e.note else LastNote(t[..|t| - 1])
  }

  function Column(f: Format, i: Incident, c: nat): string
    requires c < COLUMNS
  {
    match c
    case 0 => i.id
    case 1 => i.facts.deviceID
    case 2 => i.facts.deviceName
    case 3 => i.facts.kind
    case 4 => i.facts.severity
    case 5 => i.status
    case 6 => i.facts.title
    case 7 => i.facts.fenceID
    case 8 => i.assignee
    case 9 => ScoreText(f, i.facts.riskScore)
    case 10 => IntText(i.count)
    case 11 => StampText(f, Some(i.openedAt))
    case 12 => StampText(f, Some(i.updatedAt))
    case 13 => StampText(f, i.ackedAt)
    case 14 => StampText(f, i.closedAt)
    case 15 => Joined(i.facts.evidence, " | ")
    case 16 => IntText(|i.timeline|)
    case 17 => LastNote(i.timeline)
  }

  function Row(f: Format, i: Incident): (r: seq<string>)
    ensures |r| == COLUMNS
  {
    seq(COLUMNS, c requires 0 <= c < COLUMNS => Column(f, i, c))
  }

  function Table(f: Format, xs: seq<Incident>): seq<seq<string>> {
    [HEADER] + seq(|xs|, k requires 0 <= k < |xs| => Row(f, xs[k]))
  }

  // -------- Printing --------

  predicate Special(c: char) {
    c == ',' || c == '"' || c == '\n' || c == '\r'
  }

  predicate Plain(s: string) {
    forall i :: 0 <= i < |s| ==> !Special(s[i])
  }

  function Doubled(s: string): string {
    if s == "" then "" else (if s[0] == '"' then "\"\"" else [s[0]]) + Doubled(s[1..])
  }

  function Escape(s: string): string {
    if Plain(s) then s else "\"" + Doubled(s) + "\""
  }

  function Fields(fs: seq<string>): string {
    if fs == [] then ""
    else if |fs| == 1 then Escape(fs[0])
    else Fields(fs[..|fs| - 1]) + "," + Escape(fs[|fs| - 1])
  }

  function Lines(rows: seq<seq<string>>): string {
    if rows == [] then "" else Lines(rows[..|rows| - 1]) + Fields(rows[|rows| - 1]) + "\n"
  }

  lemma {:induction false} DoubledGrows(s: string)
    ensures |Doubled(s)| >= |s|
  {
    if s != "" {
      DoubledGrows(s[1..]);
    }
  }

  /** A field is written as it is exactly when it holds no comma, no quote and no line end. */
  lemma BareIff(s: string)
    ensures Escape(s) == s <==> forall i :: 0 <= i < |s| ==> s[i] !in {',', '"', '\n', '\r'}
  {
    DoubledGrows(s);
  }

  lemma FieldsSnoc(fs: seq<string>, x: string)
    ensures Fields(fs + [x]) == if fs == [] then Escape(x) else Fields(fs) + "," + Escape(x)
  {
    assert (fs + [x])[..|fs|] == fs;
  }

  predicate Lower(s: string) {
    forall i :: 0 <= i < |s| ==> s[i] == '_' || 'a' <= s[i] <= 'z'
  }

  lemma LowerConcat(s: string, t: string)
    requires Lower(s) && Lower(t)
    ensures Lower(s + t)
  {
  }

  lemma LowerStart()
    ensures Lower("id") && Lower("dispositivo_id") && Lower("dispositivo") && Lower("tipo")
    ensures Lower("severidad") && Lower("estado")
  {
  }

  lemma LowerMiddle()
    ensures Lower("titulo") && Lower("geocerca") && Lower("asignado") && Lower("riesgo")
    ensures Lower("veces") && Lower("evidencias") && Lower("eventos")
  {
  }

  /** The longer names are put together from their words. */
  lemma HeaderIsLower(i: nat)
    requires i < COLUMNS
    ensures Lower(Header(i))
  {
    LowerStart();
    LowerMiddle();
    LowerWords();
    LowerConcat("abierto", "_en");
    LowerConcat("actualizado", "_en");
    LowerConcat("reconocido", "_en");
    LowerConcat("cerrado", "_en");
    LowerConcat("ultima", "_nota");
    hide Lower;
  }

  lemma LowerWords()
    ensures Lower("_en") && Lower("abierto") && Lower("actualizado") && Lower("reconocido") && Lower("cerrado")
    ensures Lower("ultima") && Lower("_nota")
  {
  }

  /** Every name in the header is made of lower-case letters and underscores, so it needs no quotes. */
  lemma HeaderIsPlain(i: nat)
    requires i < COLUMNS
    ensures Escape(Header(i)) == Header(i)
  {
    hide Header;
    HeaderIsLower(i);
  }

  method HeaderLine() returns (b: string)
    ensures b == Fields(HEADER) + "\n"
  {
    hide Header, Escape;
    b := "";
    for i := 0 to COLUMNS
      invariant b == Fields(HEADER[..i])
    {
      assert HEADER[..i + 1] == HEADER[..i] + [HEADER[i]];
      FieldsSnoc(HEADER[..i], HEADER[i]);
      HeaderIsPlain(i);
      if i > 0 {
        b := b + ",";
      }
      b := b + Header(i);
    }
    assert HEADER[..COLUMNS] == HEADER;
    b := b + "\n";
  }

  method RowLine(f: Format, inc: Incident) returns (b: string)
    ensures b == Fields(Row(f, inc)) + "\n"
  {
    hide Column, Escape;
    ghost var row := Row(f, inc);
    b := "";
    for i := 0 to COLUMNS
      invariant b == Fields(row[..i])
    {
      assert row[..i + 1] == row[..i] + [row[i]];
      FieldsSnoc(row[..i], row[i]);
      if i > 0 {
        b := b + ",";
      }
      b := b + Escape(Column(f, inc, i));
    }
    assert row[..COLUMNS] == row;
    b := b + "\n";
  }

  method ToCSV(f: Format, xs: seq<Incident>) returns (b: string)
    ensures b == Lines(Table(f, xs))
  {
    hide Fields, Row;
    ghost var table := Table(f, xs);
    b := HeaderLine();
    assert table[..1] == [HEADER] && [HEADER][..0] == [];
    for k := 0 to |xs|
      invariant b == Lines(table[..k + 1])
    {
      var line := RowLine(f, xs[k]);
      b := b + line;
      assert table[..k + 2][..k + 1] == table[..k + 1];
    }
    assert table[..|xs| + 1] == table;
  }

  // -------- Reading: section 2 of RFC 4180, with records that end in LF --------

  datatype Mode = FieldStart | Bare | Quoted | AfterQuote

  /** Reads on from a point inside a record; None when the text is not in the format. */
  function Parse(s: string, mode: Mode, field: string, record: seq<string>, done: seq<seq<string>>): Option<seq<seq<string>>>
    decreases |s|
  {
    if s == "" then
      if mode == FieldStart && record == [] then Some(done)
      else if mode == Quoted then None
      else Some(done + [record + [field]])
    else
      var c, rest := s[0], s[1..];
      if mode == Quoted then
        if c == '"' then Parse(rest, AfterQuote, field, record, done) else Parse(rest, Quoted, field + [c], record, done)
      else if c == ',' then Parse(rest, FieldStart, "", record + [field], done)
      else if c == '\n' then Parse(rest, FieldStart, "", [], done + [record + [field]])
      else if c == '"' then
        if mode == FieldStart then Parse(rest, Quoted, "", record, done)
        else if mode == AfterQuote then Parse(rest, Quoted, field + ['"'], record, done)
        else None
      else if mode == AfterQuote || c == '\r' then None
      else Parse(rest, Bare, field + [c], record, done)
  }

  function ParseCSV(s: string): Option<seq<seq<string>>> {
    Parse(s, FieldStart, "", [], [])
  }

  lemma {:induction false} ParseBare(t: string, rest: string, mode: Mode, field: string, record: seq<string>, done: seq<seq<string>>)
    requires Plain(t) && t != "" && (mode == Bare || mode == FieldStart)
    ensures Parse(t + rest, mode, field, record, done) == Parse(rest, Bare, field + t, record, done)
  {
    assert (t + rest)[0] == t[0] && (t + rest)[1..] == t[1..] + rest;
    assert !Special(t[0]);
    if |t| == 1 {
      assert t == [t[0]] && t[1..] + rest == rest;
    } else {
      ParseBare(t[1..], rest, Bare, field + [t[0]], record, done);
      assert field + [t[0]] + t[1..] == field + t;
    }
  }

  lemma {:induction false} ParseQuoted(t: string, rest: string, field: string, record: seq<string>, done: seq<seq<string>>)
    ensures Parse(Doubled(t) + "\"" + rest, Quoted, field, record, done) == Parse(rest, AfterQuote, field + t, record, done)
  {
    var s := Doubled(t) + "\"" + rest;
    if t == "" {
      assert s == "\"" + rest && s[1..] == rest && field + t == field;
    } else {
      var tail := Doubled(t[1..]) + "\"" + rest;
      ParseQuoted(t[1..], rest, field + [t[0]], record, done);
      assert field + [t[0]] + t[1..] == field + t;
      if t[0] == '"' {
        assert s == "\"\"" + tail && s[1..] == "\"" + tail && s[1..][1..] == tail;
        assert Parse(s, Quoted, field, record, done) == Parse(s[1..], AfterQuote, field, record, done);
      } else {
        assert s == [t[0]] + tail && s[1..] == tail;
      }
    }
  }

  /** What a comma or a line end does outside quotes. */
  function Ended(field: string, c: char, rest: string, record: seq<string>, done: seq<seq<string>>): Option<seq<seq<string>>> {
    if c == ',' then Parse(rest, FieldStart, "", record + [field], done)
    else Parse(rest, FieldStart, "", [], done + [record + [field]])
  }

  lemma ParseEnd(mode: Mode, field: string, c: char, rest: string, record: seq<string>, done: seq<seq<string>>)
    requires mode != Quoted && (c == ',' || c == '\n')
    ensures Parse([c] + rest, mode, field, record, done) == Ended(field, c, rest, record, done)
  {
    assert ([c] + rest)[0] == c && ([c] + rest)[1..] == rest;
  }

  lemma ParseOpen(s: string, record: seq<string>, done: seq<seq<string>>)
    ensures Parse("\"" + s, FieldStart, "", record, done) == Parse(s, Quoted, "", record, done)
  {
    assert ("\"" + s)[0] == '"' && ("\"" + s)[1..] == s;
  }

  /** A printed field is read back exactly, whatever commas, quotes and line ends it holds. */
  lemma ParseField(t: string, c: char, rest: string, record: seq<string>, done: seq<seq<string>>)
    requires c == ',' || c == '\n'
    ensures Parse(Escape(t) + [c] + rest, FieldStart, "", record, done) == Ended(t, c, rest, record, done)
  {
    hide Parse, Doubled, Ended;
    var end := [c] + rest;
    assert "" + t == t;
    if !Plain(t) {
      assert Escape(t) + [c] + rest == "\"" + (Doubled(t) + "\"" + end);
      ParseOpen(Doubled(t) + "\"" + end, record, done);
      ParseQuoted(t, end, "", record, done);
      ParseEnd(AfterQuote, t, c, rest, record, done);
    } else if t != "" {
      assert Escape(t) + [c] + rest == t + end;
      ParseBare(t, end, FieldStart, "", record, done);
      ParseEnd(Bare, t, c, rest, record, done);
    } else {
      assert Escape(t) + [c] + rest == end;
      ParseEnd(FieldStart, t, c, rest, record, done);
    }
  }

  lemma {:induction false} ParseFields(fs: seq<string>, c: char, rest: string, record: seq<string>, done: seq<seq<string>>)
    requires fs != [] && (c == ',' || c == '\n')
    ensures Parse(Fields(fs) + [c] + rest, FieldStart, "", record, done)
         == if c == ',' then Parse(rest, FieldStart, "", record + fs, done)
            else Parse(rest, FieldStart, "", [], done + [record + fs])
  {
    hide Parse, Escape;
    var n := |fs| - 1;
    if n == 0 {
      ParseField(fs[0], c, rest, record, done);
      assert fs == [fs[0]];
    } else {
      var last := Escape(fs[n]) + [c] + rest;
      assert Fields(fs) + [c] + rest == Fields(fs[..n]) + [','] + last;
      ParseFields(fs[..n], ',', last, record, done);
      ParseField(fs[n], c, rest, record + fs[..n], done);
      assert record + fs[..n] + [fs[n]] == record + fs;
    }
  }

  lemma ParseRow(row: seq<string>, rest: string, done: seq<seq<string>>)
    requires row != []
    ensures Parse(Fields(row) + ['\n'] + rest, FieldStart, "", [], done) == Parse(rest, FieldStart, "", [], done + [row])
  {
    hide Parse, Fields;
    ParseFields(row, '\n', rest, [], done);
    assert [] + row == row;
  }

  lemma LinesSnoc(rows: seq<seq<string>>, row: seq<string>, rest: string)
    ensures Lines(rows + [row]) + rest == Lines(rows) + (Fields(row) + ['\n'] + rest)
  {
    hide Fields;
    assert (rows + [row])[..|rows|] == rows;
  }

  predicate NoneEmpty(rows: seq<seq<string>>) {
    forall i :: 0 <= i < |rows| ==> rows[i] != []
  }

  lemma {:induction false} ParseLines(rows: seq<seq<string>>, rest: string)
    requires NoneEmpty(rows)
    ensures Parse(Lines(rows) + rest, FieldStart, "", [], []) == Parse(rest, FieldStart, "", [], rows)
  {
    if rows == [] {
      assert Lines(rows) + rest == rest;
    } else {
      var before, row := rows[..|rows| - 1], rows[|rows| - 1];
      assert rows == before + [row] && NoneEmpty(before) && row != [];
      hide Parse, Fields, Lines, NoneEmpty;
      ParseLines(before, Fields(row) + ['\n'] + rest);
      LinesSnoc(before, row, rest);
      ParseRow(row, rest, before);
    }
  }

  /** Whatever the texts hold, the export is read back as the header and every field of every incident. */
  lemma ExportRoundTrips(f: Format, xs: seq<Incident>)
    ensures ParseCSV(Lines(Table(f, xs))) == Some(Table(f, xs))
  {
    var table := Table(f, xs);
    ParseLines(table, "");
    assert Lines(table) + "" == Lines(table);
  }

  /** So two lists that differ in any cell never give the same file. */
  lemma ExportInjective(f: Format, xs: seq<Incident>, g: Format, ys: seq<Incident>)
    requires Lines(Table(f, xs)) == Lines(Table(g, ys))
    ensures |xs| == |ys| && forall k :: 0 <= k < |xs| ==> Row(f, xs[k]) == Row(g, ys[k])
  {
    ExportRoundTrips(f, xs);
    ExportRoundTrips(g, ys);
    var a, b := Table(f, xs), Table(g, ys);
    assert a == b;
    forall k | 0 <= k < |xs| ensures Row(f, xs[k]) == Row(g, ys[k]) {
      assert a[k + 1] == Row(f, xs[k]) && b[k + 1] == Row(g, ys[k]);
    }
  }

  // -------- What stands in the columns --------

  /** A number is read back from its text; only a negative one has a sign. */
  lemma IntTextIs(n: int)
    ensures n >= 0 ==> Digits(IntText(n), 10) == Some(n)
    ensures n < 0 ==> IntText(n)[0] == '-' && Digits(IntText(n)[1..], 10) == Some(-n)
  {
    if n < 0 {
      DigitsOfRender(-n, 10);
      assert IntText(n)[1..] == Itoa(-n);
    } else {
      DigitsOfRender(n, 10);
    }
  }

  /** Evidence is joined piece by piece, with the separator between any two. */
  lemma {:induction false} JoinedConcat(a: seq<string>, b: seq<string>, sep: string)
    ensures Joined([], sep) == ""
    ensures forall x :: Joined([x], sep) == x
    ensures a != [] && b != [] ==> Joined(a + b, sep) == Joined(a, sep) + sep + Joined(b, sep)
  {
    if a != [] && b != [] {
      assert (a + b)[1..] == a[1..] + b;
      if |a| == 1 {
        assert a[1..] + b == b;
      } else {
        JoinedConcat(a[1..], b, sep);
        var x, y, z := a[0], Joined(a[1..], sep), Joined(b, sep);
        assert x + sep + (y + sep + z) == (x + sep + y) + sep + z;
      }
    }
  }

  /** The entry of this index is the last one with a note. */
  predicate LastNoted(t: seq<Entry>, k: nat) {
    k < |t| && t[k].note != "" && forall j :: k < j < |t| ==> t[j].note == ""
  }

  lemma {:induction false} LastNoteIs(t: seq<Entry>, k: nat)
    ensures LastNoted(t, k) ==> LastNote(t) == t[k].actor + ": " + t[k].note
    ensures (forall j :: 0 <= j < |t| ==> t[j].note == "") ==> LastNote(t) == ""
  {
    if t != [] {
      var n := |t| - 1;
      LastNoteIs(t[..n], k);
      assert k < n && LastNoted(t, k) ==> LastNoted(t[..n], k);
    }
  }

  /** A table has this name at the head of a column and this text in a row of it. */
  predicate Says(t: seq<seq<string>>, row: nat, c: nat, name: string, cell: string) {
    0 < row < |t| && c < |t[0]| && c < |t[row]| && t[0][c] == name && t[row][c] == cell
  }

  predicate Exported(f: Format, xs: seq<Incident>, t: seq<seq<string>>) {
    ParseCSV(Lines(Table(f, xs))) == Some(t)
  }

  lemma CellIsRead(f: Format, xs: seq<Incident>, t: seq<seq<string>>, k: nat, c: nat)
    requires Exported(f, xs, t) && k < |xs| && c < COLUMNS
    ensures Says(t, k + 1, c, Header(c), Column(f, xs[k], c))
  {
    ExportRoundTrips(f, xs);
    hide ParseCSV, Lines, Header, Column;
    assert t[0] == HEADER && t[k + 1] == Row(f, xs[k]);
  }

  /** What a reader of the file finds about an incident, column by column, under which name. */
  lemma WhoIsRead(f: Format, xs: seq<Incident>, t: seq<seq<string>>, k: nat)
    requires Exported(f, xs, t) && k < |xs|
    ensures var i, row := xs[k], k + 1;
            && Says(t, row, 0, "id", i.id)
            && Says(t, row, 1, "dispositivo_id", i.facts.deviceID)
            && Says(t, row, 2, "dispositivo", i.facts.deviceName)
            && Says(t, row, 3, "tipo", i.facts.kind)
            && Says(t, row, 4, "severidad", i.facts.severity)
            && Says(t, row, 5, "estado", i.status)
  {
    hide Says, Exported;
    CellIsRead(f, xs, t, k, 0);
    CellIsRead(f, xs, t, k, 1);
    CellIsRead(f, xs, t, k, 2);
    CellIsRead(f, xs, t, k, 3);
    CellIsRead(f, xs, t, k, 4);
    CellIsRead(f, xs, t, k, 5);
  }

  lemma WhatIsRead(f: Format, xs: seq<Incident>, t: seq<seq<string>>, k: nat)
    requires Exported(f, xs, t) && k < |xs|
    ensures var i, row := xs[k], k + 1;
            && Says(t, row, 6, "titulo", i.facts.title)
            && Says(t, row, 7, "geocerca", i.facts.fenceID)
            && Says(t, row, 8, "asignado", i.assignee)
            && Says(t, row, 9, "riesgo", if i.facts.riskScore.Some? then f.score(i.facts.riskScore.value) else "")
            && Says(t, row, 10, "veces", IntText(i.count))
  {
    hide Says, Exported, IntText;
    CellIsRead(f, xs, t, k, 6);
    CellIsRead(f, xs, t, k, 7);
    CellIsRead(f, xs, t, k, 8);
    CellIsRead(f, xs, t, k, 9);
    CellIsRead(f, xs, t, k, 10);
  }

  /** An instant that is absent or the zero one leaves its cell empty. */
  lemma WhenIsRead(f: Format, xs: seq<Incident>, t: seq<seq<string>>, k: nat)
    requires Exported(f, xs, t) && k < |xs|
    ensures var i, row := xs[k], k + 1;
            && Says(t, row, 11, "abierto_en", if i.openedAt != 0 then f.stamp(i.openedAt) else "")
            && Says(t, row, 12, "actualizado_en", if i.updatedAt != 0 then f.stamp(i.updatedAt) else "")
            && Says(t, row, 13, "reconocido_en",
                    if i.ackedAt.Some? && i.ackedAt.value != 0 then f.stamp(i.ackedAt.value) else "")
            && Says(t, row, 14, "cerrado_en",
                    if i.closedAt.Some? && i.closedAt.value != 0 then f.stamp(i.closedAt.value) else "")
  {
    hide Says, Exported;
    CellIsRead(f, xs, t, k, 11);
    CellIsRead(f, xs, t, k, 12);
    CellIsRead(f, xs, t, k, 13);
    CellIsRead(f, xs, t, k, 14);
  }

  lemma WhyIsRead(f: Format, xs: seq<Incident>, t: seq<seq<string>>, k: nat)
    requires Exported(f, xs, t) && k < |xs|
    ensures var i, row := xs[k], k + 1;
            && Says(t, row, 15, "evidencias", Joined(i.facts.evidence, " | "))
            && Says(t, row, 16, "eventos", IntText(|i.timeline|))
            && Says(t, row, 17, "ultima_nota", LastNote(i.timeline))
  {
    hide Says, Exported, IntText, Joined, LastNote;
    CellIsRead(f, xs, t, k, 15);
    CellIsRead(f, xs, t, k, 16);
    CellIsRead(f, xs, t, k, 17);
  }
}
