/** The record parser of `src/utils/csvParser.ts`: a Markdown-style table,
    one header line and one separator line followed by data rows, becomes a
    sequence of `CyberThreat` records. Reading the text from the network is
    not part of this model; `ParseCsv` starts from the text. */
module CsvParser {
  import opened Wrappers
  import opened Text
  import opened Numbers

  /** One incident. Numeric fields hold `None` where `parseInt` or `parseFloat`
      gave `NaN`. */
  datatype CyberThreat = CyberThreat(
    country: string,
    year: Option<int>,
    attackType: string,
    targetIndustry: string,
    financialLoss: Option<real>,
    affectedUsers: Option<int>,
    attackSource: string,
    securityVulnerability: string,
    defenseMechanism: string,
    resolutionTime: Option<int>)

  // The fields the dashboard groups, filters and sums by, as functions.

  function CountryOf(t: CyberThreat): string { t.country }
  function YearOf(t: CyberThreat): Option<int> { t.year }
  function AttackTypeOf(t: CyberThreat): string { t.attackType }
  function IndustryOf(t: CyberThreat): string { t.targetIndustry }
  function LossOf(t: CyberThreat): Option<real> { t.financialLoss }
  function AffectedOf(t: CyberThreat): Option<int> { t.affectedUsers }
  function ResolutionOf(t: CyberThreat): Option<int> { t.resolutionTime }

  /** A year compares under `===` unless it is `NaN`. */
  predicate IsNumber(y: Option<int>)
  {
    y.Some?
  }

  /** `.map(v => v.trim())`. */
  function TrimAll(ps: seq<string>): (r: seq<string>)
    ensures |r| == |ps|
    ensures forall i :: 0 <= i < |ps| ==> r[i] == Trim(ps[i])
  {
    seq(|ps|, i requires 0 <= i < |ps| => Trim(ps[i]))
  }

  /** `.filter(v => v !== '')`. */
  function DropEmpty(ps: seq<string>): (r: seq<string>)
    ensures |r| <= |ps|
    ensures forall c :: c in r ==> c != "" && c in ps
    decreases |ps|
  {
    if ps == [] then []
    else if ps[0] == "" then DropEmpty(ps[1..])
    else [ps[0]] + DropEmpty(ps[1..])
  }

  lemma {:induction false} DropEmptyAppend(a: seq<string>, b: seq<string>)
    ensures DropEmpty(a + b) == DropEmpty(a) + DropEmpty(b)
    decreases |a|
  {
    if a == [] {
      assert a + b == b;
    } else {
      assert (a + b)[1..] == a[1..] + b;
      DropEmptyAppend(a[1..], b);
    }
  }

  /** The cells of a table line: split on `|`, trim each piece, drop the empty
      ones. Every cell is non-empty, trimmed and free of `|`. */
  function Cells(line: string): (cells: seq<string>)
    ensures forall c :: c in cells ==> c != "" && Trimmed(c) && '|' !in c
  {
    var pieces := Split(line, '|');
    var trimmed := TrimAll(pieces);
    forall i | 0 <= i < |trimmed|
      ensures '|' !in trimmed[i]
    {
      assert pieces[i] in pieces;
      TrimKeepsOut(pieces[i], '|');
    }
    DropEmpty(trimmed)
  }

  /** The positional mapping of the first ten cells onto the record's fields;
      later cells are not read. */
  function ToRecord(values: seq<string>): CyberThreat
    requires |values| >= 10
  {
    CyberThreat(
      country := values[0],
      year := ParseInt(values[1]),
      attackType := values[2],
      targetIndustry := values[3],
      financialLoss := ParseFloat(values[4]),
      affectedUsers := ParseInt(values[5]),
      attackSource := values[6],
      securityVulnerability := values[7],
      defenseMechanism := values[8],
      resolutionTime := ParseInt(values[9]))
  }

  /** What one data line contributes: nothing for a blank line, a separator
      line or a line with fewer than ten cells; otherwise one record. */
  function ParseRow(raw: string): Option<CyberThreat>
  {
    var line := Trim(raw);
    if line == "" || StartsWith(line, "|---") then None
    else
      var values := Cells(line);
      if |values| >= 10 then Some(ToRecord(values)) else None
  }

  function RowRecords(raw: string): seq<CyberThreat>
  {
    match ParseRow(raw)
    case Some(r) => [r]
    case None => []
  }

  /** `f` applied to each element, the results concatenated in order. */
  function Collect<A, B>(xs: seq<A>, f: A -> seq<B>): seq<B>
    decreases |xs|
  {
    if xs == [] then [] else Collect(xs[..|xs| - 1], f) + f(xs[|xs| - 1])
  }

  lemma {:induction false} CollectAppend<A, B>(xs: seq<A>, ys: seq<A>, f: A -> seq<B>)
    ensures Collect(xs + ys, f) == Collect(xs, f) + Collect(ys, f)
    decreases |ys|
  {
    if ys == [] {
      assert xs + ys == xs;
    } else {
      var ys' := ys[..|ys| - 1];
      assert (xs + ys)[..|xs + ys| - 1] == xs + ys';
      assert (xs + ys)[|xs + ys| - 1] == ys[|ys| - 1];
      CollectAppend(xs, ys', f);
    }
  }

  lemma {:induction false} CollectOrigin<A, B>(xs: seq<A>, f: A -> seq<B>)
    ensures forall y :: y in Collect(xs, f) <==> exists j :: 0 <= j < |xs| && y in f(xs[j])
    decreases |xs|
  {
    if xs != [] {
      var init := xs[..|xs| - 1];
      CollectOrigin(init, f);
      forall y
        ensures y in Collect(xs, f) <==> exists j :: 0 <= j < |xs| && y in f(xs[j])
      {
        if y in Collect(init, f) {
          var j :| 0 <= j < |init| && y in f(init[j]);
          assert xs[j] == init[j];
        }
        if exists j :: 0 <= j < |xs| && y in f(xs[j]) {
          var j :| 0 <= j < |xs| && y in f(xs[j]);
          if j < |init| {
            assert xs[j] == init[j];
          }
        }
      }
    }
  }

  lemma {:induction false} CollectLength<A, B>(xs: seq<A>, f: A -> seq<B>)
    requires forall x :: |f(x)| <= 1
    ensures |Collect(xs, f)| <= |xs|
    decreases |xs|
  {
    if xs != [] {
      CollectLength(xs[..|xs| - 1], f);
    }
  }

  /** The records of a sequence of data lines, in line order. */
  function Records(lines: seq<string>): seq<CyberThreat>
  {
    Collect(lines, RowRecords)
  }

  /** The lines after the header line and the separator line. */
  function DataLines(lines: seq<string>): seq<string>
  {
    if |lines| <= 2 then [] else lines[2..]
  }

  /** The lines of the table text: the whole text trimmed, then split on
      line feeds. */
  function Lines(text: string): (lines: seq<string>)
    ensures |lines| >= 1
  {
    Split(Trim(text), '\n')
  }

  /** The body of `parseCSV` after the text is read: the trimmed text is split
      into lines, the first two (header and separator) are skipped, and each
      remaining line adds at most one record, in line order. */
  method ParseCsv(text: string) returns (data: seq<CyberThreat>)
    ensures data == Records(DataLines(Lines(text)))
    ensures |data| <= Max(0, |Lines(text)| - 2)
    ensures forall r :: r in data <==>
              exists k :: 2 <= k < |Lines(text)| && ParseRow(Lines(text)[k]) == Some(r)
  {
    var lines := Lines(text);
    data := ParseLines(lines);
  }

  /** The `for` loop of `parseCSV` over the lines from index 2 on. */
  method ParseLines(lines: seq<string>) returns (data: seq<CyberThreat>)
    ensures data == Records(DataLines(lines))
    ensures |data| <= Max(0, |lines| - 2)
    ensures forall r :: r in data <==>
              exists k :: 2 <= k < |lines| && ParseRow(lines[k]) == Some(r)
  {
    data := [];
    var i := 2;
    while i < |lines|
      invariant 2 <= i && i - 2 <= |DataLines(lines)|
      invariant data == Records(DataLines(lines)[..i - 2])
    {
      RecordsStep(lines, i);
      RowStep(lines[i]);
      var line := Trim(lines[i]);
      if line == "" || StartsWith(line, "|---") {
        i := i + 1;
        continue;
      }
      var values := Cells(line);
      if |values| >= 10 {
        data := data + [ToRecord(values)];
      }
      i := i + 1;
    }
    assert DataLines(lines)[..i - 2] == DataLines(lines);
    RecordCountBound(lines);
    DataLinesOrigin(lines);
  }

  /** A record of the data lines is the parse of some line from index 2 on,
      and the other way round. */
  lemma DataLinesOrigin(lines: seq<string>)
    ensures forall r :: r in Records(DataLines(lines)) <==>
              exists k :: 2 <= k < |lines| && ParseRow(lines[k]) == Some(r)
  {
    var d := DataLines(lines);
    RecordsOrigin(d);
    forall r
      ensures (exists j :: 0 <= j < |d| && ParseRow(d[j]) == Some(r)) <==>
              (exists k :: 2 <= k < |lines| && ParseRow(lines[k]) == Some(r))
    {
      DropTwoOrigin(lines, d, ParseRow, Some(r));
    }
  }

  /** A value comes from an element after the first two exactly when it
      comes from an element of the sequence without them. */
  lemma DropTwoOrigin<T, U>(lines: seq<T>, d: seq<T>, f: T -> U, v: U)
    requires d == if |lines| <= 2 then [] else lines[2..]
    ensures (exists j :: 0 <= j < |d| && f(d[j]) == v) <==>
            (exists k :: 2 <= k < |lines| && f(lines[k]) == v)
  {
    if exists j :: 0 <= j < |d| && f(d[j]) == v {
      var j :| 0 <= j < |d| && f(d[j]) == v;
      assert d[j] == lines[j + 2];
    }
    if exists k :: 2 <= k < |lines| && f(lines[k]) == v {
      var k :| 2 <= k < |lines| && f(lines[k]) == v;
      assert d[k - 2] == lines[k];
    }
  }

  lemma RecordsStep(lines: seq<string>, i: nat)
    requires 2 <= i < |lines|
    ensures Records(DataLines(lines)[..i - 1]) == Records(DataLines(lines)[..i - 2]) + RowRecords(lines[i])
  {
    var next := DataLines(lines)[..i - 1];
    assert next[..|next| - 1] == DataLines(lines)[..i - 2] && next[|next| - 1] == lines[i];
  }

  /** The decision `parseCSV` takes for one line, in the order it takes it. */
  lemma RowStep(raw: string)
    ensures var line := Trim(raw);
            RowRecords(raw) ==
              if line == "" || StartsWith(line, "|---") then []
              else if |Cells(line)| >= 10 then [ToRecord(Cells(line))]
              else []
  {
  }

  /** Parsing respects concatenation of line sequences, so records come in
      the order of their lines. */
  lemma RecordsAppend(a: seq<string>, b: seq<string>)
    ensures Records(a + b) == Records(a) + Records(b)
  {
    CollectAppend(a, b, RowRecords);
  }

  /** A line contributes exactly the record it parses to, if any. */
  lemma RecordsOfLine(line: string)
    ensures Records([line]) == if ParseRow(line).Some? then [ParseRow(line).value] else []
  {
    assert [line][..0] == [];
    assert Collect([line], RowRecords) == Collect([], RowRecords) + RowRecords(line);
  }

  /** Every record comes from a line that parses to it, and every line that
      parses contributes its record. */
  lemma RecordsOrigin(lines: seq<string>)
    ensures forall r :: r in Records(lines) <==>
              exists j :: 0 <= j < |lines| && ParseRow(lines[j]) == Some(r)
  {
    CollectOrigin(lines, RowRecords);
    forall r, j | 0 <= j < |lines|
      ensures r in RowRecords(lines[j]) <==> ParseRow(lines[j]) == Some(r)
    {
    }
  }

  /** The number of records never exceeds the number of lines after the
      header and the separator. */
  lemma RecordCountBound(lines: seq<string>)
    ensures |Records(DataLines(lines))| <= Max(0, |lines| - 2)
  {
    CollectLength(DataLines(lines), RowRecords);
  }

  // A rendered table row, for stating what the parser reads back.

  function Padded(cs: seq<string>): (ps: seq<string>)
    ensures |ps| == |cs|
  {
    seq(|cs|, i requires 0 <= i < |cs| => [' '] + cs[i] + [' '])
  }

  /** The Markdown row `| c0 | c1 | ... |`. */
  function RowLine(cs: seq<string>): string
  {
    Join([""] + Padded(cs) + [""], '|')
  }

  predicate PlainCells(cs: seq<string>)
  {
    forall i :: 0 <= i < |cs| ==> Trimmed(cs[i]) && '|' !in cs[i]
  }

  lemma {:induction false} JoinEndsWithSeparator(ps: seq<string>, sep: char)
    requires |ps| >= 1
    ensures Join(ps + [""], sep) == Join(ps, sep) + [sep]
    decreases |ps|
  {
    if |ps| == 1 {
      assert ps + [""] == [ps[0], ""];
    } else {
      assert (ps + [""])[1..] == ps[1..] + [""];
      JoinEndsWithSeparator(ps[1..], sep);
    }
  }

  /** The row of no cells is the lone separator. */
  lemma RowLineEmpty()
    ensures RowLine([]) == "|"
  {
    assert [""] + Padded([]) + [""] == ["", ""];
    assert Join(["", ""], '|') == "" + ['|'] + Join([""], '|');
  }

  /** A row of at least one cell starts with `| `. */
  lemma RowLineStart(cs: seq<string>)
    requires |cs| >= 1
    ensures |RowLine(cs)| >= 2 && RowLine(cs)[0] == '|' && RowLine(cs)[1] == ' '
  {
    var p := Padded(cs);
    var ps := [""] + p + [""];
    assert ps[1..] == p + [""];
    assert RowLine(cs) == "" + ['|'] + Join(p + [""], '|');
    assert p + [""] == [p[0]] + (p[1..] + [""]);
    assert Join(p + [""], '|') == p[0] + ['|'] + Join(p[1..] + [""], '|');
  }

  /** A row ends with the separator. */
  lemma RowLineEnd(cs: seq<string>)
    ensures |RowLine(cs)| >= 1 && RowLine(cs)[|RowLine(cs)| - 1] == '|'
  {
    if cs == [] {
      RowLineEmpty();
    } else {
      var ps := [""] + Padded(cs);
      assert [""] + Padded(cs) + [""] == ps + [""];
      JoinEndsWithSeparator(ps, '|');
    }
  }

  /** Splitting a rendered row on `|` gives its padded cells, between an empty
      piece before the first separator and one after the last. */
  lemma PiecesOfRowLine(cs: seq<string>)
    requires PlainCells(cs)
    ensures Split(RowLine(cs), '|') == [""] + Padded(cs) + [""]
  {
    var p := Padded(cs);
    var pieces := [""] + p + [""];
    forall q | q in pieces
      ensures '|' !in q
    {
      if q in p {
        var i :| 0 <= i < |p| && p[i] == q;
        assert q == [' '] + cs[i] + [' '];
      }
    }
    SplitJoin(pieces, '|');
  }

  /** Trimming the padded cells gives the cells back. */
  lemma TrimAllPadded(cs: seq<string>)
    requires PlainCells(cs)
    ensures TrimAll([""] + Padded(cs) + [""]) == [""] + cs + [""]
  {
    var pieces := [""] + Padded(cs) + [""];
    var expected := [""] + cs + [""];
    var trimmed := TrimAll(pieces);
    forall i | 0 <= i < |pieces|
      ensures trimmed[i] == expected[i]
    {
      if i == 0 || i == |cs| + 1 {
        assert pieces[i] == "" && expected[i] == "";
        TrimTrimmed("");
      } else {
        assert pieces[i] == Padded(cs)[i - 1] == [' '] + cs[i - 1] + [' '];
        assert expected[i] == cs[i - 1];
        TrimPadded(cs[i - 1]);
      }
    }
  }

  lemma DropEmptyBorders(cs: seq<string>)
    ensures DropEmpty([""] + cs + [""]) == DropEmpty(cs)
  {
    DropEmptyAppend([""] + cs, [""]);
    DropEmptyAppend([""], cs);
    assert DropEmpty([""]) == [];
  }

  /** The cells of a rendered row are its non-empty cells, in order. */
  lemma CellsOfRowLine(cs: seq<string>)
    requires PlainCells(cs)
    ensures Cells(RowLine(cs)) == DropEmpty(cs)
  {
    PiecesOfRowLine(cs);
    TrimAllPadded(cs);
    DropEmptyBorders(cs);
  }

  /** A rendered row of cells (trimmed, `|`-free) parses to the record of its
      non-empty cells when there are at least ten of them, and to nothing
      otherwise. */
  lemma ParseRowLine(cs: seq<string>)
    requires PlainCells(cs)
    ensures ParseRow(RowLine(cs)) ==
              if |DropEmpty(cs)| >= 10 then Some(ToRecord(DropEmpty(cs))) else None
  {
    var line := RowLine(cs);
    RowLineEnd(cs);
    if cs == [] {
      RowLineEmpty();
      assert DropEmpty(cs) == [];
      assert Trim("|") == "|";
      assert !StartsWith(line, "|---");
    } else {
      RowLineStart(cs);
      assert Trimmed(line);
      TrimTrimmed(line);
      assert !StartsWith(line, "|---") by {
        assert line[1] != "|---"[1];
      }
    }
    CellsOfRowLine(cs);
  }

  /** The fields of a parsed row: text fields are cells 0, 2, 3, 6, 7 and 8,
      numeric fields are read from cells 1, 4, 5 and 9; an empty cell does not
      count, so it shifts the later columns. */
  lemma RowFields(cs: seq<string>)
    requires PlainCells(cs)
    requires |DropEmpty(cs)| >= 10
    ensures var v := DropEmpty(cs);
            var r := ParseRow(RowLine(cs));
            r.Some? &&
            r.value.country == v[0] && r.value.year == ParseInt(v[1]) &&
            r.value.attackType == v[2] && r.value.targetIndustry == v[3] &&
            r.value.financialLoss == ParseFloat(v[4]) && r.value.affectedUsers == ParseInt(v[5]) &&
            r.value.attackSource == v[6] && r.value.securityVulnerability == v[7] &&
            r.value.defenseMechanism == v[8] && r.value.resolutionTime == ParseInt(v[9])
  {
    ParseRowLine(cs);
  }

  /** Cells after the tenth do not affect the record. */
  lemma ExtraCellsIgnored(cs: seq<string>, extra: seq<string>)
    requires PlainCells(cs) && PlainCells(extra)
    requires |DropEmpty(cs)| == 10
    ensures ParseRow(RowLine(cs + extra)) == ParseRow(RowLine(cs))
  {
    assert PlainCells(cs + extra) by {
      forall i | 0 <= i < |cs + extra|
        ensures Trimmed((cs + extra)[i]) && '|' !in (cs + extra)[i]
      {
        if i >= |cs| {
          assert (cs + extra)[i] == extra[i - |cs|];
        }
      }
    }
    ParseRowLine(cs + extra);
    ParseRowLine(cs);
    DropEmptyAppend(cs, extra);
  }

  /** A row with fewer than ten non-empty cells gives no record. */
  lemma ShortRowDropped(cs: seq<string>)
    requires PlainCells(cs)
    requires |DropEmpty(cs)| < 10
    ensures ParseRow(RowLine(cs)) == None
  {
    ParseRowLine(cs);
  }

  /** A line that is blank after trimming gives no record. */
  lemma BlankRowIgnored(raw: string)
    requires Trim(raw) == ""
    ensures ParseRow(raw) == None
  {
  }

  /** A separator line gives no record, whatever follows its marker. */
  lemma SeparatorRowIgnored(raw: string, rest: string)
    requires Trim(raw) == "|---" + rest
    ensures ParseRow(raw) == None
  {
    assert StartsWith(Trim(raw), "|---") by {
      assert Trim(raw)[..4] == "|---";
    }
  }
  // Writing a record as a row and reading it back.

  /** A text field that survives a row: non-empty, trimmed, without `|`. */
  predicate PlainText(s: string)
  {
    s != [] && Trimmed(s) && '|' !in s
  }

  predicate Integral(x: real)
  {
    x == x.Floor as real
  }

  /** A record whose fields a table row can carry exactly: plain text, and
      numbers that are present and integers. */
  predicate Writable(t: CyberThreat)
  {
    PlainText(t.country) && PlainText(t.attackType) && PlainText(t.targetIndustry) &&
    PlainText(t.attackSource) && PlainText(t.securityVulnerability) &&
    PlainText(t.defenseMechanism) &&
    t.year.Some? && t.affectedUsers.Some? && t.resolutionTime.Some? &&
    t.financialLoss.Some? && Integral(t.financialLoss.value)
  }

  /** The ten cells of a writable record, in column order. */
  function Render(t: CyberThreat): (cs: seq<string>)
    requires Writable(t)
    ensures |cs| == 10
  {
    [t.country, ShowInt(t.year.value), t.attackType, t.targetIndustry,
     ShowInt(t.financialLoss.value.Floor), ShowInt(t.affectedUsers.value),
     t.attackSource, t.securityVulnerability, t.defenseMechanism,
     ShowInt(t.resolutionTime.value)]
  }

  lemma ShowIntPlain(n: int)
    ensures PlainText(ShowInt(n))
  {
    var m: nat := if n < 0 then -n else n;
    var d := ShowNat(m);
    forall i | 0 <= i < |d|
      ensures !IsWhiteSpace(d[i]) && d[i] != '|'
    {
      assert DigitValue(d[i], 10).Some?;
    }
    var s := ShowInt(n);
    if n < 0 {
      assert s == "-" + d;
      assert s[|s| - 1] == d[|d| - 1];
      assert forall i :: 1 <= i < |s| ==> s[i] == d[i - 1];
    }
  }

  lemma {:induction false} DropEmptyNone(cs: seq<string>)
    requires forall i :: 0 <= i < |cs| ==> cs[i] != ""
    ensures DropEmpty(cs) == cs
    decreases |cs|
  {
    if cs != [] {
      DropEmptyNone(cs[1..]);
    }
  }

  /** A writable record, written as a table row, parses back to itself. */
  lemma RecordRoundTrip(t: CyberThreat)
    requires Writable(t)
    ensures ParseRow(RowLine(Render(t))) == Some(t)
  {
    var cs := Render(t);
    ShowIntPlain(t.year.value);
    ShowIntPlain(t.financialLoss.value.Floor);
    ShowIntPlain(t.affectedUsers.value);
    ShowIntPlain(t.resolutionTime.value);
    assert forall i :: 0 <= i < |cs| ==> PlainText(cs[i]);
    DropEmptyNone(cs);
    ParseRowLine(cs);
    ParseIntShowInt(t.year.value, []);
    ParseIntShowInt(t.affectedUsers.value, []);
    ParseIntShowInt(t.resolutionTime.value, []);
    ParseFloatShowInt(t.financialLoss.value.Floor);
    assert ShowInt(t.year.value) + [] == ShowInt(t.year.value);
    assert ShowInt(t.affectedUsers.value) + [] == ShowInt(t.affectedUsers.value);
    assert ShowInt(t.resolutionTime.value) + [] == ShowInt(t.resolutionTime.value);
  }
}
