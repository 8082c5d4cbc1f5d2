/** The case detail page (PageParserProbateList.extractCaseDetails): a table
    read row by row by a counter-driven state machine, the raw fiduciary lines
    it collects, their partition into blank-line separated groups, and the
    ascending replay of those groups into a list of fiduciaries. The functions
    here are the specification; the methods at the end do the same work step
    by step, with Fiduciary objects and a cursor on the current one. */
module DetailPage {
  import opened Errors
  import opened Text
  import opened Fiduciaries

  // ---------------------------------------------------------------------------
  // The table as parsed: a row is its td cells, a cell its text and the texts
  // of the span elements inside it.
  // ---------------------------------------------------------------------------

  datatype Cell = Cell(text: string, spans: seq<string>)
  type Row = seq<Cell>

  const FiduciaryLabel: string := "Fiduciary:"
  const FiduciariesLabel: string := "Fiduciaries:"
  const PhoneLabel: string := "Phone:"
  const FaxLabel: string := "Fax:"

  /** What the row loop has gathered so far. A header field is None until its
      row has been read (Java leaves the local null). */
  datatype Scan = Scan(
    decedentName: Option<string>,
    caseNumber: Option<string>,
    caseType: Option<string>,
    dateFiled: Option<string>,
    hasFiduciaries: bool,
    rawLines: seq<string>)

  const Start: Scan := Scan(None, None, None, None, false, [])

  /** Row 4 announces fiduciaries when its trimmed text starts, case-sensitively,
      with one of the two labels. */
  predicate AnnouncesFiduciaries(text: string)
  {
    StartsWith(Trim(text), FiduciaryLabel) || StartsWith(Trim(text), FiduciariesLabel)
  }

  /** A cell of a fiduciary row whose text begins with one of these labels is
      read from its second span instead. */
  predicate IsContactCell(cell: Cell)
  {
    StartsWith(cell.text, PhoneLabel) || StartsWith(cell.text, FaxLabel)
  }

  /** The exception row `n` (counted from 1) raises, if any: rows 1 and 2 need
      two cells and a second span in the second cell, row 3 is never looked at,
      every later row needs a first cell, and a Phone:/Fax: cell of row 5 or
      later needs a second span. */
  function RowError(n: nat, row: Row): Option<ExtractError>
    requires n >= 1
  {
    if n == 3 then None
    else if |row| == 0 then Some(MissingCell(n, 0))
    else if n <= 2 then
      if |row| == 1 then Some(MissingCell(n, 1))
      else if |row[1].spans| < 2 then Some(MissingSpan(n, 1, 1))
      else None
    else if n >= 5 && IsContactCell(row[0]) && |row[0].spans| < 2 then Some(MissingSpan(n, 0, 1))
    else None
  }

  /** A row can be read exactly when it has every cell and span its position
      asks for. */
  lemma RowReadable(n: nat, row: Row)
    requires n >= 1
    ensures RowError(n, row).None? <==>
      (n == 3 || (|row| >= 1 && (n <= 2 ==> |row| >= 2 && |row[1].spans| >= 2)
                             && (n >= 5 && IsContactCell(row[0]) ==> |row[0].spans| >= 2)))
  {
  }

  /** The raw line a fiduciary row contributes: a Phone:/Fax: cell gives the
      label followed by its second span, any other cell its trimmed, then
      cleaned, text. */
  function RawLine(cell: Cell): string
    requires IsContactCell(cell) ==> |cell.spans| >= 2
  {
    if StartsWith(cell.text, PhoneLabel) then PhoneLabel + cell.spans[1]
    else if StartsWith(cell.text, FaxLabel) then FaxLabel + cell.spans[1]
    else CleanText(Some(Trim(cell.text)))
  }

  /** One turn of the switch on the row counter. */
  function RowStep(st: Scan, n: nat, row: Row): Scan
    requires n >= 1 && RowError(n, row).None?
  {
    if n == 1 then
      st.(decedentName := Some(CleanText(Some(row[0].text))), caseNumber := Some(row[1].spans[1]))
    else if n == 2 then
      st.(caseType := Some(row[0].text), dateFiled := Some(row[1].spans[1]))
    else if n == 3 then
      st
    else if n == 4 then
      st.(hasFiduciaries := st.hasFiduciaries || AnnouncesFiduciaries(row[0].text))
    else
      st.(rawLines := st.rawLines + [RawLine(row[0])])
  }

  /** The row loop over the whole table; the first failing row ends it. */
  function ScanRows(rows: seq<Row>): Result<Scan>
  {
    if rows == [] then Ok(Start)
    else
      var n := |rows|;
      match ScanRows(rows[..n - 1])
      case Err(e) => Err(e)
      case Ok(st) =>
        match RowError(n, rows[n - 1])
        case Some(e) => Err(e)
        case None => Ok(RowStep(st, n, rows[n - 1]))
  }

  /** Every row of the table can be read. */
  predicate RowsReadable(rows: seq<Row>)
  {
    forall i :: 0 <= i < |rows| ==> RowError(i + 1, rows[i]).None?
  }

  /** The scan fails exactly when some row cannot be read, and then with the
      exception of the first such row. */
  lemma {:induction false} ScanRowsFailsAtFirstBadRow(rows: seq<Row>, i: nat)
    requires i < |rows| && RowError(i + 1, rows[i]).Some?
    requires forall j :: 0 <= j < i ==> RowError(j + 1, rows[j]).None?
    ensures ScanRows(rows) == Err(RowError(i + 1, rows[i]).value)
  {
    var prefix := rows[..|rows| - 1];
    if i < |rows| - 1 {
      assert prefix[i] == rows[i];
      forall j | 0 <= j < i ensures RowError(j + 1, prefix[j]).None? {
        assert prefix[j] == rows[j];
      }
      ScanRowsFailsAtFirstBadRow(prefix, i);
    } else {
      assert prefix == rows[..i];
      forall j | 0 <= j < i ensures RowError(j + 1, prefix[j]).None? {
        assert prefix[j] == rows[j];
      }
      ScanRowsSucceeds(prefix);
    }
  }

  lemma {:induction false} ScanRowsSucceeds(rows: seq<Row>)
    ensures ScanRows(rows).Ok? <==> RowsReadable(rows)
  {
    if rows != [] {
      ScanRowsSucceeds(rows[..|rows| - 1]);
      ReadableSplit(rows);
    }
  }

  /** A table is readable when all but its last row are and the last row is. */
  lemma ReadableSplit(rows: seq<Row>)
    requires rows != []
    ensures RowsReadable(rows) <==>
      RowsReadable(rows[..|rows| - 1]) && RowError(|rows|, rows[|rows| - 1]).None?
  {
    var prefix := rows[..|rows| - 1];
    forall j | 0 <= j < |prefix| ensures prefix[j] == rows[j] { }
  }

  /** The scan of a readable table is the scan of all but its last row, followed
      by one step on the last row. */
  lemma ScanRowsLast(rows: seq<Row>)
    requires rows != [] && RowsReadable(rows)
    ensures ScanRows(rows[..|rows| - 1]).Ok?
    ensures RowError(|rows|, rows[|rows| - 1]).None?
    ensures ScanRows(rows) == Ok(RowStep(ScanRows(rows[..|rows| - 1]).value, |rows|, rows[|rows| - 1]))
  {
    ReadableSplit(rows);
    ScanRowsSucceeds(rows[..|rows| - 1]);
  }

  /** The cells and spans a readable table is known to have. */
  lemma ReadableShape(rows: seq<Row>)
    requires RowsReadable(rows)
    ensures |rows| >= 1 ==> |rows[0]| >= 2 && |rows[0][1].spans| >= 2
    ensures |rows| >= 2 ==> |rows[1]| >= 2 && |rows[1][1].spans| >= 2
    ensures |rows| >= 4 ==> |rows[3]| >= 1
    ensures forall k :: 4 <= k < |rows| ==> |rows[k]| >= 1 && (IsContactCell(rows[k][0]) ==> |rows[k][0].spans| >= 2)
  {
    forall i | 0 <= i < |rows| ensures RowError(i + 1, rows[i]).None? {
      RowReadable(i + 1, rows[i]);
    }
  }

  /** What one step does to each part of the scan. */
  lemma RowStepParts(st: Scan, n: nat, row: Row)
    requires n >= 1 && RowError(n, row).None?
    ensures n != 3 ==> |row| >= 1
    ensures n <= 2 ==> |row| >= 2 && |row[1].spans| >= 2
    ensures n >= 5 ==> (IsContactCell(row[0]) ==> |row[0].spans| >= 2)
    ensures var r := RowStep(st, n, row);
      && r.decedentName == (if n == 1 then Some(CleanText(Some(row[0].text))) else st.decedentName)
      && r.caseNumber == (if n == 1 then Some(row[1].spans[1]) else st.caseNumber)
      && r.caseType == (if n == 2 then Some(row[0].text) else st.caseType)
      && r.dateFiled == (if n == 2 then Some(row[1].spans[1]) else st.dateFiled)
      && r.hasFiduciaries == (st.hasFiduciaries || (n == 4 && AnnouncesFiduciaries(row[0].text)))
      && r.rawLines == st.rawLines + (if n >= 5 then [RawLine(row[0])] else [])
  {
    RowReadable(n, row);
  }

  /** On a readable table the header fields hold the cleaned first-cell text
      and the second span of the second cell of row 1, and the first-cell text
      and the same span of row 2; fields of rows not present stay None. */
  lemma {:induction false} ScanRowsHeader(rows: seq<Row>)
    requires RowsReadable(rows)
    ensures ScanRows(rows).Ok?
    ensures |rows| >= 1 ==> |rows[0]| >= 2 && |rows[0][1].spans| >= 2
    ensures |rows| >= 2 ==> |rows[1]| >= 2 && |rows[1][1].spans| >= 2
    ensures var st := ScanRows(rows).value;
      && st.decedentName == (if |rows| >= 1 then Some(CleanText(Some(rows[0][0].text))) else None)
      && st.caseNumber == (if |rows| >= 1 then Some(rows[0][1].spans[1]) else None)
      && st.caseType == (if |rows| >= 2 then Some(rows[1][0].text) else None)
      && st.dateFiled == (if |rows| >= 2 then Some(rows[1][1].spans[1]) else None)
  {
    ScanRowsSucceeds(rows);
    ReadableShape(rows);
    if rows != [] {
      var prefix := rows[..|rows| - 1];
      ScanRowsLast(rows);
      ReadablePrefix(rows);
      ScanRowsHeader(prefix);
      RowStepParts(ScanRows(prefix).value, |rows|, rows[|rows| - 1]);
      if |rows| >= 2 {
        assert prefix[0] == rows[0];
      }
      if |rows| >= 3 {
        assert prefix[1] == rows[1];
      }
    }
  }

  /** A readable table stays readable when its last row is dropped. */
  lemma ReadablePrefix(rows: seq<Row>)
    requires rows != [] && RowsReadable(rows)
    ensures RowsReadable(rows[..|rows| - 1])
  {
    ReadableSplit(rows);
  }

  /** The fiduciary flag is set exactly when there is a fourth row and its
      trimmed text starts with one of the labels. */
  lemma {:induction false} ScanRowsFlag(rows: seq<Row>)
    requires RowsReadable(rows)
    ensures ScanRows(rows).Ok?
    ensures |rows| >= 4 ==> |rows[3]| >= 1
    ensures ScanRows(rows).value.hasFiduciaries == (|rows| >= 4 && AnnouncesFiduciaries(rows[3][0].text))
  {
    ScanRowsSucceeds(rows);
    ReadableShape(rows);
    if rows != [] {
      var prefix := rows[..|rows| - 1];
      ScanRowsLast(rows);
      ReadablePrefix(rows);
      ScanRowsFlag(prefix);
      RowStepParts(ScanRows(prefix).value, |rows|, rows[|rows| - 1]);
      if |rows| >= 5 {
        assert prefix[3] == rows[3];
      }
    }
  }

  /** Every row from row 5 on contributes exactly one raw line, in row order. */
  lemma {:induction false} ScanRowsRawLines(rows: seq<Row>)
    requires RowsReadable(rows)
    ensures ScanRows(rows).Ok?
    ensures forall k :: 4 <= k < |rows| ==> |rows[k]| >= 1 && (IsContactCell(rows[k][0]) ==> |rows[k][0].spans| >= 2)
    ensures var lines := ScanRows(rows).value.rawLines;
      && |lines| == (if |rows| > 4 then |rows| - 4 else 0)
      && forall k :: 0 <= k < |lines| ==> lines[k] == RawLine(rows[k + 4][0])
  {
    ScanRowsSucceeds(rows);
    ReadableShape(rows);
    if rows != [] {
      var prefix := rows[..|rows| - 1];
      ScanRowsLast(rows);
      ReadablePrefix(rows);
      ScanRowsRawLines(prefix);
      var before, after := ScanRows(prefix).value.rawLines, ScanRows(rows).value.rawLines;
      RowStepParts(ScanRows(prefix).value, |rows|, rows[|rows| - 1]);
      RawLinesStep(rows, prefix, before, after);
    }
  }

  lemma RawLinesStep(rows: seq<Row>, prefix: seq<Row>, before: seq<string>, after: seq<string>)
    requires rows != [] && prefix == rows[..|rows| - 1]
    requires forall k :: 4 <= k < |rows| ==> |rows[k]| >= 1 && (IsContactCell(rows[k][0]) ==> |rows[k][0].spans| >= 2)
    requires |before| == (if |prefix| > 4 then |prefix| - 4 else 0)
    requires forall k :: 0 <= k < |before| ==> before[k] == RawLine(prefix[k + 4][0])
    requires after == before + (if |rows| >= 5 then [RawLine(rows[|rows| - 1][0])] else [])
    ensures forall k :: 0 <= k < |after| ==> after[k] == RawLine(rows[k + 4][0])
  {
    forall k | 0 <= k < |after| ensures after[k] == RawLine(rows[k + 4][0]) {
      if k < |before| {
        assert after[k] == before[k];
        assert prefix[k + 4] == rows[k + 4];
      } else {
        assert k + 4 == |rows| - 1;
      }
    }
  }

  /** A raw line is empty, and so separates groups, exactly when its cell is not
      a Phone:/Fax: cell and its text is made only of trimmable characters. A
      cell of commas or quotes therefore gives spaces, not a separator. */
  lemma RawLineIsBlank(cell: Cell)
    requires IsContactCell(cell) ==> |cell.spans| >= 2
    ensures RawLine(cell) == [] <==>
      !IsContactCell(cell) && forall k :: 0 <= k < |cell.text| ==> IsTrimmable(cell.text[k])
  {
    TrimSlice(cell.text);
  }

  /** A cell holding only commas and quotes becomes a line of as many spaces. */
  lemma SeparatorCharactersBecomeSpaces(cell: Cell)
    requires cell.text != []
    requires forall k :: 0 <= k < |cell.text| ==> cell.text[k] == ',' || cell.text[k] == '"'
    ensures !IsContactCell(cell)
    ensures RawLine(cell) == seq(|cell.text|, _ => ' ')
  {
    TrimUntrimmed(cell.text);
    assert cell.text[0] != 'P' && cell.text[0] != 'F';
  }

  // ---------------------------------------------------------------------------
  // Grouping: blank lines separate groups, numbered by a counter
  // ---------------------------------------------------------------------------

  /** The Hashtable of groups and the counter, after some raw lines. */
  datatype Grouping = Grouping(groups: map<nat, seq<string>>, counter: nat)

  /** The number of blank lines. */
  function Blanks(lines: seq<string>): nat
  {
    if lines == [] then 0
    else Blanks(lines[..|lines| - 1]) + (if lines[|lines| - 1] == [] then 1 else 0)
  }

  /** The non-blank lines, in order. */
  function NonBlank(lines: seq<string>): seq<string>
  {
    if lines == [] then []
    else NonBlank(lines[..|lines| - 1]) + (if lines[|lines| - 1] == [] then [] else [lines[|lines| - 1]])
  }

  /** The partition loop: a blank line only advances the counter; any other
      line is appended to the group under the current counter, which is
      created the first time. */
  function Partition(lines: seq<string>): Grouping
  {
    if lines == [] then Grouping(map[], 0)
    else
      var p := Partition(lines[..|lines| - 1]);
      var line := lines[|lines| - 1];
      if line == [] then p.(counter := p.counter + 1)
      else
        var group := if p.counter in p.groups then p.groups[p.counter] else [];
        p.(groups := p.groups[p.counter := group + [line]])
  }

  /** The non-blank lines with exactly `k` blank lines before them, in order:
      the lines the partition loop appends while its counter is `k`. */
  function LinesAt(lines: seq<string>, k: nat): seq<string>
  {
    if lines == [] then []
    else
      var prefix := lines[..|lines| - 1];
      var line := lines[|lines| - 1];
      LinesAt(prefix, k) + (if line != [] && Blanks(prefix) == k then [line] else [])
  }

  /** Which lines land in which group: the group stored under `k` holds exactly
      the non-blank lines preceded by `k` blank lines, in input order; when no
      group is stored under `k`, there is no such line. */
  lemma {:induction false} PartitionGroups(lines: seq<string>, k: nat)
    ensures k in Partition(lines).groups ==> Partition(lines).groups[k] == LinesAt(lines, k)
    ensures k !in Partition(lines).groups ==> LinesAt(lines, k) == []
  {
    if lines != [] {
      var prefix := lines[..|lines| - 1];
      PartitionGroups(prefix, k);
      PartitionCounter(prefix);
    }
  }

  /** The counter ends at the number of blank lines, a group is stored only
      under an index the counter reached, and every stored group and every line
      in it is non-empty. */
  lemma {:induction false} PartitionShape(lines: seq<string>)
    ensures var r := Partition(lines);
      && r.counter == Blanks(lines)
      && forall k :: k in r.groups ==>
           && k <= r.counter
           && r.groups[k] != []
           && forall j :: 0 <= j < |r.groups[k]| ==> r.groups[k][j] != []
  {
    if lines != [] {
      var prefix := lines[..|lines| - 1];
      PartitionShape(prefix);
      PartitionAppend(prefix, lines[|lines| - 1]);
      assert prefix + [lines[|lines| - 1]] == lines;
    }
  }

  /** The groups under indices below `n`, concatenated in ascending order. */
  function Concat(groups: map<nat, seq<string>>, n: nat): seq<string>
  {
    if n == 0 then []
    else Concat(groups, n - 1) + (if n - 1 in groups then groups[n - 1] else [])
  }

  lemma {:induction false} ConcatAgrees(g: map<nat, seq<string>>, h: map<nat, seq<string>>, n: nat)
    requires forall k :: k < n ==> (k in g <==> k in h) && (k in g ==> g[k] == h[k])
    ensures Concat(g, n) == Concat(h, n)
  {
    if n > 0 {
      ConcatAgrees(g, h, n - 1);
    }
  }

  /** Reading the groups back in ascending index order gives the non-blank
      lines in their original order: no line is lost, duplicated or moved. */
  lemma {:induction false} PartitionKeepsLines(lines: seq<string>)
    ensures var p := Partition(lines); Concat(p.groups, p.counter + 1) == NonBlank(lines)
  {
    if lines != [] {
      var prefix := lines[..|lines| - 1];
      var line := lines[|lines| - 1];
      var p := Partition(prefix);
      PartitionKeepsLines(prefix);
      PartitionShape(prefix);
      if line != [] {
        var q := Partition(lines);
        ConcatAgrees(p.groups, q.groups, p.counter);
      }
    }
  }

  /** A group exists under index k exactly when some non-blank line has k
      blank lines before it. */
  lemma {:induction false} PartitionKeys(lines: seq<string>, k: nat)
    ensures k in Partition(lines).groups <==> exists i: nat :: Opens(lines, i, k)
  {
    if lines != [] {
      var n := |lines|;
      var prefix, line := lines[..n - 1], lines[n - 1];
      PartitionKeys(prefix, k);
      PartitionCounter(prefix);
      assert prefix + [line] == lines;
      PartitionAppend(prefix, line);
      assert lines[..n - 1] == prefix;
      assert k in Partition(lines).groups <==>
        k in Partition(prefix).groups || (line != [] && Blanks(prefix) == k);
      PrefixWitnesses(lines, prefix, k);
    }
  }

  lemma PartitionCounter(lines: seq<string>)
    ensures Partition(lines).counter == Blanks(lines)
  {
    if lines != [] {
      PartitionCounter(lines[..|lines| - 1]);
    }
  }

  /** Line `i` is non-blank and has `k` blank lines before it. */
  predicate Opens(lines: seq<string>, i: nat, k: nat)
  {
    i < |lines| && lines[i] != [] && Blanks(lines[..i]) == k
  }

  /** A witness among all lines is one among the earlier lines or the last line. */
  lemma PrefixWitnesses(lines: seq<string>, prefix: seq<string>, k: nat)
    requires lines != [] && prefix == lines[..|lines| - 1]
    ensures (exists i: nat :: Opens(lines, i, k)) ==>
      (exists i: nat :: Opens(prefix, i, k)) || Opens(lines, |prefix|, k)
    ensures (exists i: nat :: Opens(prefix, i, k)) ==> (exists i: nat :: Opens(lines, i, k))
    ensures Opens(lines, |prefix|, k) ==> (exists i: nat :: Opens(lines, i, k))
  {
    if exists i: nat :: Opens(lines, i, k) {
      var i: nat :| Opens(lines, i, k);
      if i < |prefix| {
        assert prefix[..i] == lines[..i];
        assert Opens(prefix, i, k);
      }
    }
    if exists i: nat :: Opens(prefix, i, k) {
      var i: nat :| Opens(prefix, i, k);
      assert prefix[..i] == lines[..i];
      assert Opens(lines, i, k);
    }
  }

  // ---------------------------------------------------------------------------
  // Replay: indices 0 .. size-1 in ascending order, with a cursor on the most
  // recent fiduciary
  // ---------------------------------------------------------------------------

  /** One turn of the replay loop on the fiduciaries built so far (the last one
      is the cursor): an empty group is skipped, a phone/fax group amends the
      cursor or is dropped when there is none, any other group starts a new
      fiduciary. */
  function Step(acc: seq<FiduciaryFields>, group: seq<string>): seq<FiduciaryFields>
  {
    if group == [] then acc
    else if IsPhoneFaxGroup(Some(group)) then
      if acc == [] then acc
      else acc[..|acc| - 1] + [PhoneFaxInfo(acc[|acc| - 1], group)]
    else acc + [GroupInfo(Blank, Some(group))]
  }

  /** The replay loop run for indices below `n`. Looking up an index with no
      group gives null, and the isEmpty() call on it throws. */
  function ReplayUpTo(groups: map<nat, seq<string>>, n: nat): Result<seq<FiduciaryFields>>
  {
    if n == 0 then Ok([])
    else
      match ReplayUpTo(groups, n - 1)
      case Err(e) => Err(e)
      case Ok(acc) =>
        if n - 1 in groups then Ok(Step(acc, groups[n - 1])) else Err(NullGroup(n - 1))
  }

  /** The loop bound is the number of groups stored. */
  function Replay(groups: map<nat, seq<string>>): Result<seq<FiduciaryFields>>
  {
    ReplayUpTo(groups, |groups|)
  }

  /** A group that starts a new fiduciary. */
  predicate IsNewFiduciaryGroup(groups: map<nat, seq<string>>, k: nat)
  {
    k in groups && groups[k] != [] && !IsPhoneFaxGroup(Some(groups[k]))
  }

  /** The number of groups below `n` that start a new fiduciary. */
  function NewFiduciaryGroups(groups: map<nat, seq<string>>, n: nat): nat
  {
    if n == 0 then 0
    else NewFiduciaryGroups(groups, n - 1) + (if IsNewFiduciaryGroup(groups, n - 1) then 1 else 0)
  }

  /** The replay succeeds exactly when every index it visits holds a group. */
  lemma {:induction false} ReplaySucceeds(groups: map<nat, seq<string>>, n: nat)
    ensures ReplayUpTo(groups, n).Ok? <==> forall k :: 0 <= k < n ==> k in groups
  {
    if n > 0 {
      ReplaySucceeds(groups, n - 1);
    }
  }

  /** Otherwise it fails on the first missing index. */
  lemma {:induction false} ReplayFailsAtFirstGap(groups: map<nat, seq<string>>, n: nat, k: nat)
    requires k < n && k !in groups
    requires forall j :: 0 <= j < k ==> j in groups
    ensures ReplayUpTo(groups, n) == Err(NullGroup(k))
  {
    if k < n - 1 {
      ReplayFailsAtFirstGap(groups, n - 1, k);
    } else {
      ReplaySucceeds(groups, k);
    }
  }

  /** The replay builds one fiduciary per group that is neither empty nor a
      phone/fax group; every other group adds none. */
  lemma {:induction false} ReplayCount(groups: map<nat, seq<string>>, n: nat)
    requires ReplayUpTo(groups, n).Ok?
    ensures |ReplayUpTo(groups, n).value| == NewFiduciaryGroups(groups, n)
  {
    if n > 0 {
      ReplayCount(groups, n - 1);
    }
  }

  /** Fiduciary number NewFiduciaryGroups(groups, k) is the one group k
      started: apart from phone and fax, which later groups may amend, it is
      the record built from that group. */
  lemma {:induction false} ReplayFiduciaryOrigin(groups: map<nat, seq<string>>, n: nat, k: nat)
    requires ReplayUpTo(groups, n).Ok? && k < n && IsNewFiduciaryGroup(groups, k)
    ensures var fs := ReplayUpTo(groups, n).value;
      NewFiduciaryGroups(groups, k) < |fs| &&
      fs[NewFiduciaryGroups(groups, k)].(phone := "", fax := "") == GroupInfo(Blank, Some(groups[k]))
  {
    ReplayCount(groups, n);
    if k < n - 1 {
      ReplayFiduciaryOrigin(groups, n - 1, k);
      StepKeepsAddresses(ReplayUpTo(groups, n - 1).value, groups[n - 1]);
    } else {
      ReplayCount(groups, k);
    }
  }

  /** A step keeps every fiduciary built so far, except that a phone/fax group
      amends the phone and fax of the last one. */
  lemma StepKeepsAddresses(acc: seq<FiduciaryFields>, group: seq<string>)
    ensures |Step(acc, group)| >= |acc|
    ensures forall i :: 0 <= i < |acc| - 1 ==> Step(acc, group)[i] == acc[i]
    ensures forall i :: 0 <= i < |acc| ==>
      Step(acc, group)[i].(phone := "", fax := "") == acc[i].(phone := "", fax := "")
    ensures group != [] && IsPhoneFaxGroup(Some(group)) && acc != [] ==>
      Step(acc, group) == acc[..|acc| - 1] + [PhoneFaxInfo(acc[|acc| - 1], group)]
    ensures !(group != [] && IsPhoneFaxGroup(Some(group)) && acc != []) ==> Step(acc, group)[..|acc|] == acc
  {
    if group != [] && IsPhoneFaxGroup(Some(group)) && acc != [] {
      var last := acc[|acc| - 1];
      assert PhoneFaxInfo(last, group).(phone := last.phone, fax := last.fax) == last;
    }
  }

  /** The record `f` started by group `k` after the groups at indices k+1 to
      n-1 amend it in order: every non-empty phone/fax group among them applies
      setPhoneFaxGroupInfo, and every other group leaves it alone. */
  function Amended(groups: map<nat, seq<string>>, f: FiduciaryFields, k: nat, n: nat): FiduciaryFields
    decreases n
  {
    if n <= k + 1 then f
    else
      var g := Amended(groups, f, k, n - 1);
      if n - 1 in groups && groups[n - 1] != [] && IsPhoneFaxGroup(Some(groups[n - 1]))
      then PhoneFaxInfo(g, groups[n - 1])
      else g
  }

  /** While no later group has started a new fiduciary, the one group k
      started is the cursor, amended by every phone/fax group since. */
  lemma {:induction false} ReplayCursor(groups: map<nat, seq<string>>, n: nat, k: nat)
    requires ReplayUpTo(groups, n).Ok? && k < n && IsNewFiduciaryGroup(groups, k)
    requires forall j :: k < j < n ==> !IsNewFiduciaryGroup(groups, j)
    ensures var fs := ReplayUpTo(groups, n).value;
      |fs| == NewFiduciaryGroups(groups, k) + 1 &&
      fs[|fs| - 1] == Amended(groups, GroupInfo(Blank, Some(groups[k])), k, n)
  {
    if n == k + 1 {
      assert ReplayUpTo(groups, k).Ok?;
      ReplayCount(groups, k);
    } else {
      assert ReplayUpTo(groups, n - 1).Ok?;
      ReplayCursor(groups, n - 1, k);
      var acc, group := ReplayUpTo(groups, n - 1).value, groups[n - 1];
      assert ReplayUpTo(groups, n) == Ok(Step(acc, group));
      assert !IsNewFiduciaryGroup(groups, n - 1);
      StepOnCursor(acc, group);
    }
  }

  /** A group that starts no fiduciary keeps the list's length and at most
      amends its last element. */
  lemma StepOnCursor(acc: seq<FiduciaryFields>, group: seq<string>)
    requires acc != [] && (group == [] || IsPhoneFaxGroup(Some(group)))
    ensures |Step(acc, group)| == |acc|
    ensures Step(acc, group)[|acc| - 1] ==
      if group != [] && IsPhoneFaxGroup(Some(group)) then PhoneFaxInfo(acc[|acc| - 1], group) else acc[|acc| - 1]
  {
  }

  /** Each fiduciary's final record, phone and fax included: the fiduciary
      group k started ends as that group's record amended, in order, by the
      phone/fax groups after k up to the next group that starts a fiduciary
      (index m), or up to the end of the replay (m == n). */
  lemma {:induction false} ReplayFiduciaryFinal(groups: map<nat, seq<string>>, n: nat, k: nat, m: nat)
    requires ReplayUpTo(groups, n).Ok? && k < m <= n && IsNewFiduciaryGroup(groups, k)
    requires forall j :: k < j < m ==> !IsNewFiduciaryGroup(groups, j)
    requires m == n || IsNewFiduciaryGroup(groups, m)
    ensures var fs := ReplayUpTo(groups, n).value;
      NewFiduciaryGroups(groups, k) < |fs| &&
      fs[NewFiduciaryGroups(groups, k)] == Amended(groups, GroupInfo(Blank, Some(groups[k])), k, m)
    ensures m < n ==> NewFiduciaryGroups(groups, k) + 1 < |ReplayUpTo(groups, n).value|
  {
    if n == m {
      ReplayCursor(groups, n, k);
    } else {
      assert ReplayUpTo(groups, n - 1).Ok?;
      var acc, i := ReplayUpTo(groups, n - 1).value, NewFiduciaryGroups(groups, k);
      assert ReplayUpTo(groups, n) == Ok(Step(acc, groups[n - 1]));
      if n - 1 == m {
        ReplayCursor(groups, m, k);
      } else {
        ReplayFiduciaryFinal(groups, n - 1, k, m);
      }
      StepKeepsEarlier(acc, groups[n - 1], i);
    }
  }

  /** A step keeps a fiduciary that it cannot amend: one before the last, or
      the last when the group starts a new fiduciary, which also appends. */
  lemma StepKeepsEarlier(acc: seq<FiduciaryFields>, group: seq<string>, i: nat)
    requires i < |acc| && (i + 1 < |acc| || (group != [] && !IsPhoneFaxGroup(Some(group))))
    ensures i < |Step(acc, group)| && Step(acc, group)[i] == acc[i]
    ensures group != [] && !IsPhoneFaxGroup(Some(group)) ==> i + 1 < |Step(acc, group)|
  {
  }

  /** Phone/fax groups before the first ordinary group have no fiduciary to
      amend: they are dropped and create nothing. */
  lemma {:induction false} LeadingContinuationsDiscarded(groups: map<nat, seq<string>>, n: nat)
    requires forall k :: 0 <= k < n ==> k in groups && IsPhoneFaxGroup(Some(groups[k]))
    ensures ReplayUpTo(groups, n) == Ok([])
  {
    if n > 0 {
      LeadingContinuationsDiscarded(groups, n - 1);
    }
  }

  /** The indices below `n`. */
  function Below(n: nat): set<nat>
  {
    if n == 0 then {} else Below(n - 1) + {n - 1}
  }

  lemma {:induction false} BelowMembers(n: nat)
    ensures forall k: nat :: k in Below(n) <==> k < n
  {
    if n > 0 {
      BelowMembers(n - 1);
    }
  }

  lemma {:induction false} BelowSize(n: nat)
    ensures |Below(n)| == n
  {
    if n > 0 {
      BelowSize(n - 1);
      BelowMembers(n - 1);
    }
  }

  /** When every index below the number of groups holds a group, those are all
      the groups. */
  lemma DenseKeysBelowSize(groups: map<nat, seq<string>>)
    ensures (forall j :: 0 <= j < |groups| ==> j in groups) ==> groups.Keys == Below(|groups|)
  {
    if forall j :: 0 <= j < |groups| ==> j in groups {
      var keys, low := groups.Keys, Below(|groups|);
      BelowSize(|groups|);
      BelowMembers(|groups|);
      assert low <= keys;
      var extra := keys - low;
      assert keys == low + extra;
      assert |keys| == |low| + |extra|;
      assert extra == {};
    }
  }

  /** When an index is missing while a higher one holds a group, the indices
      are not dense and the replay, which runs up to the number of groups,
      meets a missing index and fails. */
  lemma ReplayFailsOnGap(groups: map<nat, seq<string>>, k: nat, m: nat)
    requires k < m && k !in groups && m in groups
    ensures Replay(groups).Err?
  {
    ReplaySucceeds(groups, |groups|);
    DenseKeysBelowSize(groups);
    BelowMembers(|groups|);
  }

  lemma BlanksStep(lines: seq<string>, a: nat)
    requires a < |lines|
    ensures Blanks(lines[..a + 1]) == Blanks(lines[..a]) + (if lines[a] == [] then 1 else 0)
  {
    assert lines[..a + 1][..a] == lines[..a];
  }

  lemma {:induction false} BlanksMonotone(lines: seq<string>, a: nat, b: nat)
    requires a <= b <= |lines|
    ensures Blanks(lines[..a]) <= Blanks(lines[..b])
  {
    if a < b {
      BlanksMonotone(lines, a, b - 1);
      BlanksStep(lines, b - 1);
    }
  }

  /** A blank line that is the first line, or that follows another blank line,
      skips the group index it moves past: no line is stored under it. */
  lemma BlankRunSkipsIndex(lines: seq<string>, i: nat)
    requires i < |lines| && lines[i] == [] && (i == 0 || lines[i - 1] == [])
    ensures Blanks(lines[..i]) !in Partition(lines).groups
  {
    NoLineAtSkippedIndex(lines, i);
    PartitionKeys(lines, Blanks(lines[..i]));
  }

  lemma NoLineAtSkippedIndex(lines: seq<string>, i: nat)
    requires i < |lines| && lines[i] == [] && (i == 0 || lines[i - 1] == [])
    ensures forall q :: 0 <= q < |lines| && lines[q] != [] ==> Blanks(lines[..q]) != Blanks(lines[..i])
  {
    BlanksStep(lines, i);
    forall q | 0 <= q < |lines| && lines[q] != [] ensures Blanks(lines[..q]) != Blanks(lines[..i]) {
      if q < i {
        BlanksMonotone(lines, q, i - 1);
        BlanksStep(lines, i - 1);
      } else {
        BlanksMonotone(lines, i + 1, q);
      }
    }
  }

  /** A non-blank line is stored under the number of blank lines before it. */
  lemma LineIndexStored(lines: seq<string>, j: nat)
    requires j < |lines| && lines[j] != []
    ensures Blanks(lines[..j]) in Partition(lines).groups
  {
    PartitionKeys(lines, Blanks(lines[..j]));
    assert Opens(lines, j, Blanks(lines[..j]));
  }

  /** If a non-blank line comes after such a skip, a group is stored above the
      skipped index, and the replay dereferences the missing group. */
  lemma BlankRunBreaksReplay(lines: seq<string>, i: nat, j: nat)
    requires i < j < |lines| && lines[j] != []
    requires lines[i] == [] && (i == 0 || lines[i - 1] == [])
    ensures Replay(Partition(lines).groups).Err?
  {
    BlankRunSkipsIndex(lines, i);
    LineIndexStored(lines, j);
    BlanksStep(lines, i);
    BlanksMonotone(lines, i + 1, j);
    ReplayFailsOnGap(Partition(lines).groups, Blanks(lines[..i]), Blanks(lines[..j]));
  }

  // ---------------------------------------------------------------------------
  // The whole page
  // ---------------------------------------------------------------------------

  /** What extractCaseDetails prints, before it is turned into text. */
  datatype CaseDetail = CaseDetail(
    decedentName: Option<string>,
    caseNumber: Option<string>,
    caseType: Option<string>,
    dateFiled: Option<string>,
    fiduciaries: seq<FiduciaryFields>)

  /** Grouping and replay run only when row 4 announced fiduciaries and at
      least one raw line was collected. */
  function FiduciaryList(st: Scan): Result<seq<FiduciaryFields>>
  {
    if st.hasFiduciaries && st.rawLines != [] then Replay(Partition(st.rawLines).groups)
    else Ok([])
  }

  function CaseDetails(rows: seq<Row>): Result<CaseDetail>
  {
    match ScanRows(rows)
    case Err(e) => Err(e)
    case Ok(st) =>
      match FiduciaryList(st)
      case Err(e) => Err(e)
      case Ok(fs) => Ok(CaseDetail(st.decedentName, st.caseNumber, st.caseType, st.dateFiled, fs))
  }

  /** A fourth row that does not announce fiduciaries (such as "Notes:") leaves
      the list empty, whatever the later rows hold. */
  lemma UnannouncedFiduciariesAreIgnored(rows: seq<Row>)
    requires RowsReadable(rows) && |rows| >= 4 && |rows[3]| >= 1
    requires !AnnouncesFiduciaries(rows[3][0].text)
    ensures CaseDetails(rows).Ok? && CaseDetails(rows).value.fiduciaries == []
  {
    ScanRowsFlag(rows);
  }

  lemma NotesIsNoAnnouncement()
    ensures !AnnouncesFiduciaries("Notes:")
  {
    TrimUntrimmed("Notes:");
  }

  /** Lines with no blank among them form the single group 0. */
  lemma {:induction false} PartitionWithoutBlanks(lines: seq<string>)
    requires lines != [] && forall i :: 0 <= i < |lines| ==> lines[i] != []
    ensures Partition(lines) == Grouping(map[0 := lines], 0)
  {
    var prefix := lines[..|lines| - 1];
    if prefix != [] {
      PartitionWithoutBlanks(prefix);
    }
    assert prefix + [lines[|lines| - 1]] == lines;
  }

  /** One more raw line: a blank one advances the counter, any other joins the
      current group. */
  lemma PartitionAppend(lines: seq<string>, line: string)
    ensures var p := Partition(lines);
      Partition(lines + [line]) ==
        if line == [] then p.(counter := p.counter + 1)
        else p.(groups := p.groups[p.counter := (if p.counter in p.groups then p.groups[p.counter] else []) + [line]])
  {
    assert (lines + [line])[..|lines|] == lines;
  }

  lemma PartitionOfTwoGroups(first: seq<string>, second: string)
    requires first != [] && forall i :: 0 <= i < |first| ==> first[i] != []
    requires second != []
    ensures Partition(first + [[], second]) == Grouping(map[0 := first, 1 := [second]], 1)
  {
    PartitionWithoutBlanks(first);
    PartitionAppend(first, []);
    var p := Partition(first + [[]]);
    assert p == Grouping(map[0 := first], 1);
    PartitionAppend(first + [[]], second);
    assert first + [[]] + [second] == first + [[], second];
    assert Partition(first + [[], second]) == Grouping(p.groups[1 := [] + [second]], 1);
    assert [] + [second] == [second];
  }

  lemma ReplayOfTwoGroups(first: seq<string>, second: seq<string>)
    requires first != [] && !IsPhoneFaxGroup(Some(first))
    requires second != [] && IsPhoneFaxGroup(Some(second))
    ensures Replay(map[0 := first, 1 := second]) == Ok([PhoneFaxInfo(GroupInfo(Blank, Some(first)), second)])
  {
    var groups := map[0 := first, 1 := second];
    assert groups.Keys == {0, 1};
    assert |groups| == 2;
    var f := GroupInfo(Blank, Some(first));
    assert ReplayUpTo(groups, 0) == Ok([]);
    assert Step([], first) == [f];
    assert ReplayUpTo(groups, 1) == Ok([f]);
    assert Step([f], second) == [PhoneFaxInfo(f, second)];
  }

  /** An address group, a blank line and a phone/fax line make one fiduciary:
      the one the group describes, amended by the phone/fax line. */
  lemma AddressThenContactLine(address: seq<string>, contact: string)
    requires address != [] && forall i :: 0 <= i < |address| ==> address[i] != []
    requires !IsPhoneFaxGroup(Some(address))
    requires contact != [] && IsPhoneFaxGroup(Some([contact]))
    ensures Replay(Partition(address + [[], contact]).groups)
         == Ok([PhoneFaxInfo(GroupInfo(Blank, Some(address)), [contact])])
  {
    PartitionOfTwoGroups(address, contact);
    ReplayOfTwoGroups(address, [contact]);
  }

  /** A raw phone line, "Phone:" and the number, forms a phone/fax group on its
      own and sets the phone to the number (blanks at its ends aside). */
  lemma PhoneLineSetsPhone(f: FiduciaryFields, number: string)
    requires number == [] || (!IsTrimmable(number[0]) && !IsTrimmable(number[|number| - 1]))
    ensures IsPhoneFaxGroup(Some([PhoneLabel + number]))
    ensures PhoneFaxInfo(f, [PhoneLabel + number]) == f.(phone := number)
  {
    var line := PhoneLabel + number;
    forall i | 0 <= i < |PhonePrefix| ensures Lower(line[i]) == PhonePrefix[i] {
      assert line[i] == PhoneLabel[i];
    }
    LowerStartsWith(line, PhonePrefix);
    assert line[|PhonePrefix|..] == number;
    TrimUntrimmed(number);
    assert [line][..0] == [];
  }

  /** The raw lines of a typical page: an address group naming a
      representative, a blank line, and the phone number, which amends the
      fiduciary the group describes. */
  lemma RepresentedFiduciaryWithPhone(who: string, rep: string, street: string, cityStateZip: string, number: string)
    requires forall q :: 0 <= q < |who| ==> !MatchAt(LowerStr(who + RepresentedBy + rep), RepresentedBy, q)
    requires !IsPhoneFaxGroup(Some([who + RepresentedBy + rep, street, cityStateZip]))
    requires street != [] && cityStateZip != []
    requires number == [] || (!IsTrimmable(number[0]) && !IsTrimmable(number[|number| - 1]))
    ensures Replay(Partition([who + RepresentedBy + rep, street, cityStateZip, "", PhoneLabel + number]).groups)
         == Ok([FiduciaryFields(who, rep, street, "", cityStateZip, number, "")])
  {
    var address := [who + RepresentedBy + rep, street, cityStateZip];
    var contact := PhoneLabel + number;
    ThreeLineGroupWithRepresentative(who, rep, street, cityStateZip);
    assert |address[0]| >= |RepresentedBy|;
    PhoneLineSetsPhone(GroupInfo(Blank, Some(address)), number);
    assert |address| == 3 && address[1] == street && address[2] == cityStateZip;
    assert forall i :: 0 <= i < |address| ==> address[i] != [];
    AddressThenContactLine(address, contact);
    assert address + [[], contact] == [who + RepresentedBy + rep, street, cityStateZip, "", contact];
  }

  lemma GroupingExample()
    ensures Replay(Partition(["Jane Doe " + RepresentedBy + " John Smith", "123 Main St", "Town CT 06000",
                              "", PhoneLabel + "2035551212"]).groups)
         == Ok([FiduciaryFields("Jane Doe ", " John Smith", "123 Main St", "", "Town CT 06000", "2035551212", "")])
  {
    var line := "Jane Doe " + RepresentedBy + " John Smith";
    NoMatchInside("Jane Doe ", " John Smith");
    assert line[0] == 'J';
    FirstLetterNotPhoneFax([line, "123 Main St", "Town CT 06000"]);
    RepresentedFiduciaryWithPhone("Jane Doe ", " John Smith", "123 Main St", "Town CT 06000", "2035551212");
  }

  // ---------------------------------------------------------------------------
  // The printed record
  // ---------------------------------------------------------------------------

  /** PrintWriter.print(String): a null string prints as "null". */
  function Show(value: Option<string>): string
  {
    match value
    case None => "null"
    case Some(s) => s
  }

  /** The seven getters, in the order the fields are printed. */
  function Columns(f: FiduciaryFields): seq<string>
  {
    [f.name, f.representedBy, f.addrLn1, f.addrLn2, f.cityStateZip, f.phone, f.fax]
  }

  function FiduciaryColumns(fs: seq<FiduciaryFields>): (r: seq<string>)
    ensures |r| == 7 * |fs|
  {
    if fs == [] then [] else FiduciaryColumns(fs[..|fs| - 1]) + Columns(fs[|fs| - 1])
  }

  /** The fields of the printed line: the four header values, then seven
      columns per fiduciary. */
  function DetailRecord(d: CaseDetail): seq<string>
  {
    [Show(d.decedentName), Show(d.caseNumber), Show(d.caseType), Show(d.dateFiled)]
      + FiduciaryColumns(d.fiduciaries)
  }

  /** Fiduciary i occupies columns 7i to 7i+6 after the header, in getter order. */
  lemma {:induction false} FiduciaryColumnsLayout(fs: seq<FiduciaryFields>, i: nat)
    requires i < |fs|
    ensures 7 * i + 7 <= |FiduciaryColumns(fs)|
    ensures FiduciaryColumns(fs)[7 * i..7 * i + 7] == Columns(fs[i])
  {
    var n := |fs|;
    var prefix := fs[..n - 1];
    if i < n - 1 {
      FiduciaryColumnsLayout(prefix, i);
      assert FiduciaryColumns(fs)[..7 * (n - 1)] == FiduciaryColumns(prefix);
    } else {
      assert FiduciaryColumns(fs)[7 * i..] == Columns(fs[i]);
    }
  }

  /** The result of extractCaseDetails: the printed fields, or the exception
      that ended it. */
  function DetailOutput(rows: seq<Row>): Result<seq<string>>
  {
    match CaseDetails(rows)
    case Err(e) => Err(e)
    case Ok(d) => Ok(DetailRecord(d))
  }

  // ---------------------------------------------------------------------------
  // extractCaseDetails, step by step
  // ---------------------------------------------------------------------------

  lemma {:induction false} ScanRowsErrorStays(rows: seq<Row>, k: nat)
    requires k <= |rows| && ScanRows(rows[..k]).Err?
    ensures ScanRows(rows) == ScanRows(rows[..k])
  {
    if k < |rows| {
      var prefix := rows[..|rows| - 1];
      assert prefix[..k] == rows[..k];
      ScanRowsErrorStays(prefix, k);
    } else {
      assert rows[..k] == rows;
    }
  }

  lemma ScanRowsNext(rows: seq<Row>, k: nat)
    requires k < |rows|
    ensures ScanRows(rows[..k + 1]) ==
      match ScanRows(rows[..k])
      case Err(e) => Err(e)
      case Ok(st) =>
        match RowError(k + 1, rows[k])
        case Some(e) => Err(e)
        case None => Ok(RowStep(st, k + 1, rows[k]))
  {
    assert rows[..k + 1][..k] == rows[..k];
  }

  lemma {:induction false} ReplayErrorStays(groups: map<nat, seq<string>>, k: nat, n: nat)
    requires k <= n && ReplayUpTo(groups, k).Err?
    ensures ReplayUpTo(groups, n) == ReplayUpTo(groups, k)
  {
    if k < n {
      ReplayErrorStays(groups, k, n - 1);
    }
  }

  /** The partition loop over the raw lines, filling a map. */
  method PartitionLines(fiduciaryRows: seq<string>) returns (fidGroups: map<nat, seq<string>>)
    ensures fidGroups == Partition(fiduciaryRows).groups
  {
    fidGroups := map[];
    var groupCount: nat := 0;
    var i := 0;
    while i < |fiduciaryRows|
      invariant 0 <= i <= |fiduciaryRows|
      invariant Partition(fiduciaryRows[..i]) == Grouping(fidGroups, groupCount)
    {
      var row := fiduciaryRows[i];
      PartitionAppend(fiduciaryRows[..i], row);
      assert fiduciaryRows[..i + 1] == fiduciaryRows[..i] + [row];
      i := i + 1;
      if row == [] {
        // a spacing row
        groupCount := groupCount + 1;
        continue;
      }
      var group: seq<string>;
      if groupCount in fidGroups {
        group := fidGroups[groupCount];
      } else {
        group := [];
        fidGroups := fidGroups[groupCount := group];
      }
      fidGroups := fidGroups[groupCount := group + [row]];
    }
    assert fiduciaryRows[..i] == fiduciaryRows;
  }

  /** The values of a list of records. */
  function Views(fs: seq<Fiduciary>): (r: seq<FiduciaryFields>)
    reads fs
    ensures |r| == |fs| && forall i :: 0 <= i < |fs| ==> r[i] == fs[i].Fields()
  {
    if fs == [] then [] else Views(fs[..|fs| - 1]) + [fs[|fs| - 1].Fields()]
  }

  /** The replay loop: groups visited by ascending index up to the number of
      groups, a new Fiduciary for each ordinary group, and the cursor
      `fiduciary` on the most recent one, which phone/fax groups amend. */
  method ReplayGroups(fidGroups: map<nat, seq<string>>) returns (r: Result<seq<Fiduciary>>)
    ensures r.Err? ==> Replay(fidGroups) == Err(r.error)
    ensures r.Ok? ==> Replay(fidGroups) == Ok(Views(r.value))
  {
    var fiduciaries: seq<Fiduciary> := [];
    var fiduciary: Fiduciary? := null;
    var groupCount := 0;
    while groupCount < |fidGroups|
      invariant 0 <= groupCount <= |fidGroups|
      invariant ReplayUpTo(fidGroups, groupCount) == Ok(Views(fiduciaries))
      invariant Cursor(fiduciaries, fiduciary)
      invariant fiduciary != null ==> fresh(fiduciary)
    {
      if groupCount !in fidGroups {
        // get returns null and isEmpty() dereferences it
        ReplayErrorStays(fidGroups, groupCount + 1, |fidGroups|);
        return Err(NullGroup(groupCount));
      }
      var groupedInfo := fidGroups[groupCount];
      assert ReplayUpTo(fidGroups, groupCount + 1) == Ok(Step(Views(fiduciaries), groupedInfo));
      groupCount := groupCount + 1;
      fiduciaries, fiduciary := ApplyGroup(fiduciaries, fiduciary, groupedInfo);
    }
    return Ok(fiduciaries);
  }

  /** `fiduciary` is the cursor on `fiduciaries`: null while the list is empty,
      otherwise its last element, which occurs nowhere earlier in the list. */
  predicate Cursor(fiduciaries: seq<Fiduciary>, fiduciary: Fiduciary?)
  {
    && (fiduciary == null <==> fiduciaries == [])
    && (fiduciary != null ==> fiduciary == fiduciaries[|fiduciaries| - 1])
    && forall i :: 0 <= i < |fiduciaries| - 1 ==> fiduciaries[i] != fiduciary
  }

  /** The body of the replay loop for one stored group. */
  method ApplyGroup(fiduciaries: seq<Fiduciary>, fiduciary: Fiduciary?, groupedInfo: seq<string>)
    returns (fiduciaries': seq<Fiduciary>, fiduciary': Fiduciary?)
    requires Cursor(fiduciaries, fiduciary)
    modifies fiduciary
    ensures Cursor(fiduciaries', fiduciary')
    ensures fiduciary' == fiduciary || fresh(fiduciary')
    ensures Views(fiduciaries') == Step(old(Views(fiduciaries)), groupedInfo)
  {
    fiduciaries', fiduciary' := fiduciaries, fiduciary;
    ghost var before := Views(fiduciaries);
    if groupedInfo == [] {
      assert Step(before, groupedInfo) == before;
    } else if IsPhoneFaxGroup(Some(groupedInfo)) {
      if fiduciary != null {
        AmendCursor(fiduciaries, fiduciary, groupedInfo);
      }
      assert Step(before, groupedInfo) ==
        if before == [] then before else before[..|before| - 1] + [PhoneFaxInfo(before[|before| - 1], groupedInfo)];
    } else {
      fiduciaries', fiduciary' := AddFiduciary(fiduciaries, groupedInfo);
      assert Step(before, groupedInfo) == before + [GroupInfo(Blank, Some(groupedInfo))];
    }
  }

  /** A phone/fax group amends the fiduciary under the cursor. */
  method AmendCursor(fiduciaries: seq<Fiduciary>, fiduciary: Fiduciary, groupedInfo: seq<string>)
    requires Cursor(fiduciaries, fiduciary)
    modifies fiduciary
    ensures var before := old(Views(fiduciaries));
      Views(fiduciaries) == before[..|before| - 1] + [PhoneFaxInfo(before[|before| - 1], groupedInfo)]
  {
    ghost var before := Views(fiduciaries);
    fiduciary.SetPhoneFaxGroupInfo(groupedInfo);
    AmendedLast(before, Views(fiduciaries), PhoneFaxInfo(before[|before| - 1], groupedInfo));
  }

  /** Any other group makes a new fiduciary, which is appended and becomes
      the cursor. */
  method AddFiduciary(fiduciaries: seq<Fiduciary>, groupedInfo: seq<string>)
    returns (fiduciaries': seq<Fiduciary>, fiduciary': Fiduciary)
    ensures fresh(fiduciary') && fiduciaries' == fiduciaries + [fiduciary']
    ensures Cursor(fiduciaries', fiduciary')
    ensures Views(fiduciaries') == Views(fiduciaries) + [GroupInfo(Blank, Some(groupedInfo))]
  {
    fiduciary' := new Fiduciary.FromGroup(Some(groupedInfo));
    fiduciaries' := fiduciaries + [fiduciary'];
    assert forall i :: 0 <= i < |fiduciaries| ==> fiduciaries'[i] == fiduciaries[i];
    assert Views(fiduciaries') == Views(fiduciaries) + [fiduciary'.Fields()];
  }

  lemma AmendedLast(before: seq<FiduciaryFields>, after: seq<FiduciaryFields>, last: FiduciaryFields)
    requires before != [] && |after| == |before|
    requires forall i :: 0 <= i < |before| - 1 ==> after[i] == before[i]
    requires after[|after| - 1] == last
    ensures after == before[..|before| - 1] + [last]
  {
  }

  /** extractCaseDetails: the row loop with its switch on the row counter, the
      partition and replay when fiduciaries were announced, and the printed
      fields: the four header values, then seven per fiduciary. An exception
      ends it with the error instead. */
  method ExtractCaseDetails(rows: seq<Row>) returns (r: Result<seq<string>>)
    ensures r == DetailOutput(rows)
  {
    var scanned := ReadRows(rows);
    if scanned.Err? {
      return Err(scanned.error);
    }
    var st := scanned.value;
    var fiduciaries := BuildFiduciaries(st);
    if fiduciaries.Err? {
      return Err(fiduciaries.error);
    }
    var output := DumpResults(st, fiduciaries.value);
    return Ok(output);
  }

  /** The row loop of extractCaseDetails, with its locals gathered in a Scan. */
  method ReadRows(rows: seq<Row>) returns (r: Result<Scan>)
    ensures r == ScanRows(rows)
  {
    var rowCount := 0;
    var fullName: Option<string> := None;
    var caseNumber: Option<string> := None;
    var caseType: Option<string> := None;
    var dateFiled: Option<string> := None;
    var hasFiduciaries := false;
    var fiduciaryRows: seq<string> := [];
    while rowCount < |rows|
      invariant 0 <= rowCount <= |rows|
      invariant ScanRows(rows[..rowCount]) ==
        Ok(Scan(fullName, caseNumber, caseType, dateFiled, hasFiduciaries, fiduciaryRows))
    {
      var row := rows[rowCount];
      ScanRowsNext(rows, rowCount);
      rowCount := rowCount + 1;
      var failure := RowError(rowCount, row);
      if failure.Some? {
        // the get that finds no such cell or span throws
        ScanRowsErrorStays(rows, rowCount);
        return Err(failure.value);
      }
      RowStepParts(Scan(fullName, caseNumber, caseType, dateFiled, hasFiduciaries, fiduciaryRows), rowCount, row);
      if rowCount == 1 {
        fullName := Some(CleanText(Some(row[0].text)));
        caseNumber := Some(row[1].spans[1]);
      } else if rowCount == 2 {
        caseType := Some(row[0].text);
        dateFiled := Some(row[1].spans[1]);
      } else if rowCount == 3 {
      } else if rowCount == 4 {
        var fiduciaries := Trim(row[0].text);
        if StartsWith(fiduciaries, FiduciaryLabel) || StartsWith(fiduciaries, FiduciariesLabel) {
          hasFiduciaries := true;
        }
      } else {
        var tester := row[0].text;
        if StartsWith(tester, PhoneLabel) {
          fiduciaryRows := fiduciaryRows + [PhoneLabel + row[0].spans[1]];
        } else if StartsWith(tester, FaxLabel) {
          fiduciaryRows := fiduciaryRows + [FaxLabel + row[0].spans[1]];
        } else {
          fiduciaryRows := fiduciaryRows + [CleanText(Some(Trim(row[0].text)))];
        }
      }
    }
    assert rows[..rowCount] == rows;
    return Ok(Scan(fullName, caseNumber, caseType, dateFiled, hasFiduciaries, fiduciaryRows));
  }

  /** The fiduciary objects: none unless fiduciaries were announced and some
      raw line was collected, otherwise the partition and the replay. */
  method BuildFiduciaries(st: Scan) returns (r: Result<seq<Fiduciary>>)
    ensures r.Err? ==> FiduciaryList(st) == Err(r.error)
    ensures r.Ok? ==> FiduciaryList(st) == Ok(Views(r.value))
  {
    if st.hasFiduciaries && st.rawLines != [] {
      var fidGroups := PartitionLines(st.rawLines);
      r := ReplayGroups(fidGroups);
    } else {
      r := Ok([]);
    }
  }

  /** The printed fields: the four header values ("null" for one never read),
      then the seven getters of every fiduciary in list order. */
  method DumpResults(st: Scan, fiduciaries: seq<Fiduciary>) returns (output: seq<string>)
    ensures output == DetailRecord(CaseDetail(st.decedentName, st.caseNumber, st.caseType, st.dateFiled,
                                              Views(fiduciaries)))
  {
    ghost var values := Views(fiduciaries);
    output := [Show(st.decedentName), Show(st.caseNumber), Show(st.caseType), Show(st.dateFiled)];
    var i := 0;
    while i < |fiduciaries|
      invariant 0 <= i <= |fiduciaries|
      invariant output == [Show(st.decedentName), Show(st.caseNumber), Show(st.caseType), Show(st.dateFiled)]
                          + FiduciaryColumns(values[..i])
    {
      var fiduciary := fiduciaries[i];
      output := output + [fiduciary.name, fiduciary.representedBy, fiduciary.addrLn1, fiduciary.addrLn2,
                          fiduciary.cityStateZip, fiduciary.phone, fiduciary.fax];
      assert values[..i + 1][..i] == values[..i];
      i := i + 1;
    }
    assert values[..i] == values;
  }
}
