/** The record shapes of an Entratel receipt file and the fixed-width line
    decoder: the classification by record type, the field slices at fixed
    offsets, and the bounded table of 80-byte text rows that ends at the
    first row of kind 'F'.

    A slice past the end of a line makes the Go program panic; here it is an
    explicit error result (LineResult.OutOfRange, StoreResult.Panic), so
    ParseLine, DecodeLine, ParseAll and ParseLines have no precondition on the
    length of a line; only the field helpers DecodeSummary and DecodeDetail,
    which ParseLine calls once the length is checked, have one. */
module Records {
  import opened Fields
  import opened Dates

  /** The prefix every line carries: the 17-byte transmission protocol and
      the 1-byte record type. */
  datatype Header = Header(protocolloTelematico: string, tipoRecord: char)

  /** One row of a record's text table: its 1-byte kind and its trimmed text. */
  datatype RigaTesto = RigaTesto(tipoRiga: char, testo: string)

  /** A type-'P' line: the summary of the receipt. */
  datatype RecordP = RecordP(
    header: Header,
    codiceFornitura: string,
    nomeFileCorto: string,
    dataRicezione: CalendarDate,
    totaleDocumentiAccolti: int,
    totaleDocumentiRespinti: int,
    versione: int,
    nomeFileLungo: string,
    totaleRecordRicevuta: int,
    titolo: string,
    tabellaTesto: seq<RigaTesto>)

  /** A type-'R' (accepted) or type-'Q' (rejected) line: one document. */
  datatype RecordRQ = RecordRQ(
    header: Header,
    primaPagina: bool,
    progressivoProtocollo: string,
    codiceFiscalePartitaIva: string,
    denominazione: string,
    tabellaTesto: seq<RigaTesto>)

  /** The heterogeneous record list of the program, tagged by shape. */
  datatype Record = SummaryRecord(p: RecordP) | DetailRecord(rq: RecordRQ)

  // ------------------------------------------------------------ layout

  const ProtocolLength: nat := 17
  const HeaderLength: nat := 18

  /** Record types. */
  const SummaryType: char := 'P'
  const AcceptedType: char := 'R'
  const RejectedType: char := 'Q'

  /** Row kinds: the terminator, the first-page marker, and the kind the
      rendering passes refuse. */
  const Terminator: char := 'F'
  const FirstPageKind: char := 'P'
  const ForbiddenKind: char := 'T'

  /** Every row is 80 bytes: the kind byte, then text read up to (not
      including) byte 79 of the row. */
  const RowWidth: nat := 80
  const RowTextEnd: nat := 79

  const SummaryTableBase: nat := 400
  const SummaryTableRows: nat := 20
  const DetailTableBase: nat := 480
  const DetailTableRows: nat := 19

  /** The end of the last fixed field of each shape (title, denomination). */
  const SummaryFieldsEnd: nat := 400
  const DetailFieldsEnd: nat := 114

  predicate IsRecordType(c: char) {
    c == SummaryType || c == AcceptedType || c == RejectedType
  }

  // ------------------------------------------------------------ text rows

  function RowOffset(base: nat, i: nat): nat {
    base + RowWidth * i
  }

  /** Both slices of row i lie inside the line. */
  predicate RowFits(line: string, base: nat, i: nat) {
    RowOffset(base, i) + RowTextEnd <= |line|
  }

  function RowKind(line: string, base: nat, i: nat): char
    requires RowFits(line, base, i)
  {
    line[RowOffset(base, i)]
  }

  /** Row i of the table that starts at base. */
  function RowAt(line: string, base: nat, i: nat): (r: RigaTesto)
    requires RowFits(line, base, i)
  {
    var offset := RowOffset(base, i);
    RigaTesto(line[offset], TrimSpace(line[offset + 1..offset + RowTextEnd]))
  }

  /** The kept rows, or the index of the row whose slices run past the end. */
  datatype TableResult = Rows(rows: seq<RigaTesto>) | RowOutOfRange(row: nat)

  function Prepend(rows: seq<RigaTesto>, t: TableResult): TableResult {
    match t
    case Rows(rest) => Rows(rows + rest)
    case RowOutOfRange(n) => RowOutOfRange(n)
  }

  /** Rows i, i+1, ... below count, up to the first terminator row. */
  function TableFrom(line: string, base: nat, i: nat, count: nat): TableResult
    decreases count - i
  {
    if i >= count then Rows([])
    else if !RowFits(line, base, i) then RowOutOfRange(i)
    else if RowKind(line, base, i) == Terminator then Rows([])
    else Prepend([RowAt(line, base, i)], TableFrom(line, base, i + 1, count))
  }

  /** The text table of a record: at most count rows from base, stopping
      before the first row of kind 'F'. */
  function TextTable(line: string, base: nat, count: nat): TableResult {
    TableFrom(line, base, 0, count)
  }

  predicate HasKind(rows: seq<RigaTesto>, kind: char) {
    exists k :: 0 <= k < |rows| && rows[k].tipoRiga == kind
  }

  /** Rows i .. n - 1 are present and none of them is a terminator. */
  predicate RowsPresent(line: string, base: nat, i: nat, n: nat) {
    forall k :: i <= k < n ==> RowFits(line, base, k) && RowKind(line, base, k) != Terminator
  }

  /** Rows i .. n - 1 of the line, in order. */
  function RowSeq(line: string, base: nat, i: nat, n: nat): (rows: seq<RigaTesto>)
    requires i <= n && RowsPresent(line, base, i, n)
    ensures |rows| == n - i
    decreases n - i
  {
    if i == n then [] else [RowAt(line, base, i)] + RowSeq(line, base, i + 1, n)
  }

  lemma {:induction false} RowSeqAt(line: string, base: nat, i: nat, n: nat, k: nat)
    requires i <= n && RowsPresent(line, base, i, n) && k < n - i
    ensures RowSeq(line, base, i, n)[k] == RowAt(line, base, i + k)
    decreases n - i
  {
    var rest := RowSeq(line, base, i + 1, n);
    assert RowSeq(line, base, i, n) == [RowAt(line, base, i)] + rest;
    if k > 0 {
      RowSeqAt(line, base, i + 1, n, k - 1);
      assert rest[k - 1] == RowAt(line, base, i + k);
    }
  }

  lemma {:induction false} TableFromRows(line: string, base: nat, i: nat, count: nat)
    requires i <= count && TableFrom(line, base, i, count).Rows?
    ensures var rows := TableFrom(line, base, i, count).rows;
      i + |rows| <= count && RowsPresent(line, base, i, i + |rows|) &&
      rows == RowSeq(line, base, i, i + |rows|) &&
      (i + |rows| < count ==> RowFits(line, base, i + |rows|) && RowKind(line, base, i + |rows|) == Terminator)
    decreases count - i
  {
    if i < count && RowFits(line, base, i) && RowKind(line, base, i) != Terminator {
      TableFromRows(line, base, i + 1, count);
    }
  }

  lemma {:induction false} TableFromOutOfRange(line: string, base: nat, i: nat, count: nat)
    requires i <= count && TableFrom(line, base, i, count).RowOutOfRange?
    ensures var n := TableFrom(line, base, i, count).row;
      i <= n < count && !RowFits(line, base, n) && RowsPresent(line, base, i, n)
    decreases count - i
  {
    if i < count && RowFits(line, base, i) && RowKind(line, base, i) != Terminator {
      TableFromOutOfRange(line, base, i + 1, count);
    }
  }

  /** The text table, characterised without the recursion: row k of the
      result is row k of the line, no kept row is a terminator, at most count
      rows are kept, and fewer are kept only because the next row is a
      terminator. An error names the first row that does not fit, all rows
      before it being present and not terminators. */
  lemma TextTableShape(line: string, base: nat, count: nat)
    ensures TextTable(line, base, count).Rows? ==>
      var rows := TextTable(line, base, count).rows;
      |rows| <= count &&
      (forall k :: 0 <= k < |rows| ==>
        RowFits(line, base, k) && rows[k] == RowAt(line, base, k) && rows[k].tipoRiga != Terminator) &&
      (|rows| < count ==> RowFits(line, base, |rows|) && RowKind(line, base, |rows|) == Terminator)
    ensures TextTable(line, base, count).RowOutOfRange? ==>
      var n := TextTable(line, base, count).row;
      n < count && !RowFits(line, base, n) && RowsPresent(line, base, 0, n)
  {
    if TextTable(line, base, count).Rows? {
      TableFromRows(line, base, 0, count);
      var rows := TextTable(line, base, count).rows;
      forall k | 0 <= k < |rows|
        ensures RowFits(line, base, k) && rows[k] == RowAt(line, base, k) && rows[k].tipoRiga != Terminator
      {
        RowSeqAt(line, base, 0, |rows|, k);
      }
    } else {
      TableFromOutOfRange(line, base, 0, count);
    }
  }

  /** Rows that are present and not terminators are all kept, in order, and
      the table goes on with row n. */
  lemma {:induction false} TableFromSkip(line: string, base: nat, i: nat, n: nat, count: nat)
    requires i <= n <= count && RowsPresent(line, base, i, n)
    ensures TableFrom(line, base, i, count) == Prepend(RowSeq(line, base, i, n), TableFrom(line, base, n, count))
    decreases n - i
  {
    var t := TableFrom(line, base, n, count);
    if i < n {
      var head := [RowAt(line, base, i)];
      var mid := RowSeq(line, base, i + 1, n);
      TableFromSkip(line, base, i + 1, n, count);
      assert TableFrom(line, base, i, count) == Prepend(head, TableFrom(line, base, i + 1, count));
      assert RowSeq(line, base, i, n) == head + mid;
      PrependTwice(head, mid, t);
    } else {
      PrependEmpty(t);
    }
  }

  lemma PrependTwice(a: seq<RigaTesto>, b: seq<RigaTesto>, t: TableResult)
    ensures Prepend(a, Prepend(b, t)) == Prepend(a + b, t)
  {
    if t.Rows? {
      assert a + (b + t.rows) == (a + b) + t.rows;
    }
  }

  lemma PrependEmpty(t: TableResult)
    ensures Prepend([], t) == t
  {
    if t.Rows? {
      assert [] + t.rows == t.rows;
    }
  }

  /** A terminator at row n, every earlier row being present and not a
      terminator, leaves exactly the n rows before it (given n is below the
      bound). */
  lemma TerminatorAt(line: string, base: nat, n: nat, count: nat)
    requires n < count && RowsPresent(line, base, 0, n)
    requires RowFits(line, base, n) && RowKind(line, base, n) == Terminator
    ensures TextTable(line, base, count) == Rows(RowSeq(line, base, 0, n))
  {
    TableFromSkip(line, base, 0, n, count);
    assert RowSeq(line, base, 0, n) + [] == RowSeq(line, base, 0, n);
  }

  lemma {:induction false} TableFromIgnoresRest(line: string, other: string, base: nat, i: nat, n: nat, count: nat)
    requires i <= n < count && RowsPresent(line, base, i, n)
    requires RowFits(line, base, n) && RowKind(line, base, n) == Terminator
    requires RowOffset(base, n) + RowTextEnd <= |other|
    requires line[..RowOffset(base, n) + RowTextEnd] == other[..RowOffset(base, n) + RowTextEnd]
    ensures TableFrom(other, base, i, count) == TableFrom(line, base, i, count)
    decreases n - i
  {
    var cut := RowOffset(base, n) + RowTextEnd;
    var offset := RowOffset(base, i);
    assert RowFits(line, base, i) && RowFits(other, base, i) && offset + RowTextEnd <= cut;
    assert forall k :: 0 <= k < cut ==> line[k] == line[..cut][k] && other[k] == other[..cut][k];
    if i < n {
      assert line[offset + 1..offset + RowTextEnd] == other[offset + 1..offset + RowTextEnd];
      assert RowAt(line, base, i) == RowAt(other, base, i);
      TableFromIgnoresRest(line, other, base, i + 1, n, count);
      assert TableFrom(line, base, i, count) == Prepend([RowAt(line, base, i)], TableFrom(line, base, i + 1, count));
      assert TableFrom(other, base, i, count) == Prepend([RowAt(other, base, i)], TableFrom(other, base, i + 1, count));
    } else {
      assert TableFrom(line, base, i, count) == Rows([]);
      assert TableFrom(other, base, i, count) == Rows([]);
    }
  }

  /** Whatever follows a terminator row is never read: a line that agrees
      with this one up to the end of the terminating row has the same table. */
  lemma TableIgnoresRest(line: string, other: string, base: nat, count: nat)
    requires TextTable(line, base, count).Rows?
    requires var n := |TextTable(line, base, count).rows|;
      n < count &&
      RowOffset(base, n) + RowTextEnd <= |line| && RowOffset(base, n) + RowTextEnd <= |other| &&
      line[..RowOffset(base, n) + RowTextEnd] == other[..RowOffset(base, n) + RowTextEnd]
    ensures TextTable(other, base, count) == TextTable(line, base, count)
  {
    TableFromRows(line, base, 0, count);
    TableFromIgnoresRest(line, other, base, 0, |TextTable(line, base, count).rows|, count);
  }

  // ------------------------------------------------------------ lines

  /** The outcome of decoding one line: a record, nothing (an unknown record
      type), or a slice past the end of the line. */
  datatype LineResult = Parsed(record: Record) | Skipped | OutOfRange

  /** The summary fields of a type-'P' line (main.go, case "P"). */
  function DecodeSummary(h: Header, line: string, rows: seq<RigaTesto>): (p: RecordP)
    requires |line| >= SummaryFieldsEnd
  {
    RecordP(
      header := h,
      codiceFornitura := line[27..27 + 5],
      nomeFileCorto := TrimSpace(line[38..38 + 8]),
      dataRicezione := ParseDate(line[46..46 + 8]),
      totaleDocumentiAccolti := Atoi(line[54..54 + 6]),
      totaleDocumentiRespinti := Atoi(line[60..60 + 6]),
      versione := Atoi(line[115..115 + 6]),
      nomeFileLungo := TrimSpace(line[68..68 + 47]),
      totaleRecordRicevuta := Atoi(line[121..121 + 6]),
      titolo := TrimSpace(line[250..250 + 150]),
      tabellaTesto := rows)
  }

  /** The detail fields of a type-'R' or type-'Q' line (main.go, case "R", "Q"). */
  function DecodeDetail(h: Header, line: string, rows: seq<RigaTesto>): (rq: RecordRQ)
    requires |line| >= DetailFieldsEnd
  {
    RecordRQ(
      header := h,
      primaPagina := HasKind(rows, FirstPageKind),
      progressivoProtocollo := line[18..18 + 9],
      codiceFiscalePartitaIva := TrimSpace(line[38..38 + 16]),
      denominazione := TrimSpace(line[54..54 + 60]),
      tabellaTesto := rows)
  }

  /** One iteration of the scanner loop: read the header, dispatch on the
      record type, decode the fields and the text table. */
  function ParseLine(line: string): LineResult {
    if |line| < HeaderLength then OutOfRange
    else
      var h := Header(line[..ProtocolLength], line[ProtocolLength]);
      if h.tipoRecord == SummaryType then
        if |line| < SummaryFieldsEnd then OutOfRange
        else match TextTable(line, SummaryTableBase, SummaryTableRows)
          case Rows(rows) => Parsed(SummaryRecord(DecodeSummary(h, line, rows)))
          case RowOutOfRange(_) => OutOfRange
      else if h.tipoRecord == AcceptedType || h.tipoRecord == RejectedType then
        if |line| < DetailFieldsEnd then OutOfRange
        else match TextTable(line, DetailTableBase, DetailTableRows)
          case Rows(rows) => Parsed(DetailRecord(DecodeDetail(h, line, rows)))
          case RowOutOfRange(_) => OutOfRange
      else Skipped
  }

  /** A line shorter than the header cannot be decoded. */
  lemma ParseLineLength(line: string)
    requires !ParseLine(line).OutOfRange?
    ensures |line| >= HeaderLength
  {
  }

  /** A line of a known type yields exactly one record, of the shape its
      type selects and carrying its header; a line of any other type yields
      nothing. */
  lemma ParseLineClassifies(line: string)
    requires |line| >= HeaderLength
    ensures ParseLine(line).Skipped? <==> !IsRecordType(line[ProtocolLength])
    ensures ParseLine(line).Parsed? ==>
      match ParseLine(line).record
      case SummaryRecord(p) =>
        line[ProtocolLength] == SummaryType && p.header == Header(line[..ProtocolLength], line[ProtocolLength])
      case DetailRecord(rq) =>
        (line[ProtocolLength] == AcceptedType || line[ProtocolLength] == RejectedType) &&
        rq.header == Header(line[..ProtocolLength], line[ProtocolLength])
  {
  }

  /** The summary fields sit at fixed offsets and are trimmed only where the
      program trims them; the text table starts at byte 400, at most 20 rows. */
  lemma SummaryFieldPositions(line: string)
    requires ParseLine(line).Parsed? && ParseLine(line).record.SummaryRecord?
    ensures var p := ParseLine(line).record.p;
      |line| >= SummaryFieldsEnd &&
      p.codiceFornitura == line[27..32] &&
      p.nomeFileCorto == TrimSpace(line[38..46]) &&
      p.dataRicezione == ParseDate(line[46..54]) &&
      p.totaleDocumentiAccolti == Atoi(line[54..60]) &&
      p.totaleDocumentiRespinti == Atoi(line[60..66]) &&
      p.nomeFileLungo == TrimSpace(line[68..115]) &&
      p.versione == Atoi(line[115..121]) &&
      p.totaleRecordRicevuta == Atoi(line[121..127]) &&
      p.titolo == TrimSpace(line[250..400]) &&
      TextTable(line, 400, 20) == Rows(p.tabellaTesto)
  {
  }

  /** The detail fields sit at fixed offsets; the text table starts at byte
      480, at most 19 rows, and PrimaPagina says whether one of the kept
      rows is a first-page row. */
  lemma DetailFieldPositions(line: string)
    requires ParseLine(line).Parsed? && ParseLine(line).record.DetailRecord?
    ensures var rq := ParseLine(line).record.rq;
      |line| >= DetailFieldsEnd &&
      rq.progressivoProtocollo == line[18..27] &&
      rq.codiceFiscalePartitaIva == TrimSpace(line[38..54]) &&
      rq.denominazione == TrimSpace(line[54..114]) &&
      TextTable(line, 480, 19) == Rows(rq.tabellaTesto) &&
      (rq.primaPagina <==> exists k :: 0 <= k < |rq.tabellaTesto| && rq.tabellaTesto[k].tipoRiga == 'P')
  {
  }

  /** Every record a line yields has a bounded table of non-terminator rows. */
  lemma ParsedTableBounded(line: string)
    requires ParseLine(line).Parsed?
    ensures match ParseLine(line).record
      case SummaryRecord(p) =>
        |p.tabellaTesto| <= SummaryTableRows && !HasKind(p.tabellaTesto, Terminator)
      case DetailRecord(rq) =>
        |rq.tabellaTesto| <= DetailTableRows && !HasKind(rq.tabellaTesto, Terminator)
  {
    if line[ProtocolLength] == SummaryType {
      TextTableShape(line, SummaryTableBase, SummaryTableRows);
    } else {
      TextTableShape(line, DetailTableBase, DetailTableRows);
    }
  }

  // ------------------------------------------------------------ the record store

  /** The record list after the scanner loop, or the index of the line whose
      decoding ran past its end (the program stops there). */
  datatype StoreResult = Store(records: seq<Record>) | Panic(line: nat)

  /** The scanner loop over all lines, in order. */
  function ParseAll(lines: seq<string>): StoreResult
    decreases |lines|
  {
    if lines == [] then Store([])
    else match ParseAll(lines[..|lines| - 1])
      case Panic(i) => Panic(i)
      case Store(records) =>
        match ParseLine(lines[|lines| - 1])
        case Parsed(r) => Store(records + [r])
        case Skipped => Store(records)
        case OutOfRange => Panic(|lines| - 1)
  }

  /** The results of two consecutive runs of lines, combined. */
  function Combine(a: StoreResult, b: StoreResult, offset: nat): StoreResult {
    match a
    case Panic(i) => Panic(i)
    case Store(x) =>
      match b
      case Panic(j) => Panic(offset + j)
      case Store(y) => Store(x + y)
  }

  /** Parsing distributes over concatenation of the input: the records of
      a + b are those of a followed by those of b, and the first failing
      line of a + b is the first failing line of a, else of b. */
  lemma {:induction false} ParseAllAppend(a: seq<string>, b: seq<string>)
    ensures ParseAll(a + b) == Combine(ParseAll(a), ParseAll(b), |a|)
    decreases |b|
  {
    if b == [] {
      assert a + b == a;
      match ParseAll(a)
      case Store(x) => assert x + [] == x;
      case Panic(_) =>
    } else {
      var b' := b[..|b| - 1];
      assert (a + b)[..|a + b| - 1] == a + b';
      assert (a + b)[|a + b| - 1] == b[|b| - 1];
      ParseAllAppend(a, b');
      match ParseAll(a)
      case Panic(_) =>
      case Store(x) =>
        match ParseAll(b')
        case Panic(_) =>
        case Store(y) =>
          match ParseLine(b[|b| - 1])
          case Parsed(r) => assert x + (y + [r]) == (x + y) + [r];
          case Skipped =>
          case OutOfRange =>
    }
  }

  /** A line of an unknown type adds nothing and leaves the records of the
      lines around it, and their order, unchanged. */
  lemma SkippedLineInvisible(a: seq<string>, line: string, b: seq<string>)
    requires ParseLine(line).Skipped?
    ensures ParseAll(a + [line] + b).Store? <==> ParseAll(a + b).Store?
    ensures ParseAll(a + [line] + b).Store? ==> ParseAll(a + [line] + b) == ParseAll(a + b)
  {
    assert ParseAll([line]) == Store([]) by {
      assert [line][..0] == [];
    }
    ParseAllAppend(a, [line]);
    ParseAllAppend(a + [line], b);
    ParseAllAppend(a, b);
    match ParseAll(a)
    case Store(x) => assert x + [] == x;
    case Panic(_) =>
  }

  /** The lines whose record type is P, R or Q, in input order. */
  function RecognizedLines(lines: seq<string>): seq<string>
    requires forall i :: 0 <= i < |lines| ==> |lines[i]| >= HeaderLength
    decreases |lines|
  {
    if lines == [] then []
    else
      var last := lines[|lines| - 1];
      RecognizedLines(lines[..|lines| - 1]) + (if IsRecordType(last[ProtocolLength]) then [last] else [])
  }

  /** When no line fails, the record store holds one record per line of a
      known type, in input line order, each decoded from its own line. */
  lemma {:induction false} ParseAllOrder(lines: seq<string>)
    requires ParseAll(lines).Store?
    ensures forall i :: 0 <= i < |lines| ==> |lines[i]| >= HeaderLength
    ensures |ParseAll(lines).records| == |RecognizedLines(lines)|
    ensures forall k :: 0 <= k < |RecognizedLines(lines)| ==>
      ParseLine(RecognizedLines(lines)[k]) == Parsed(ParseAll(lines).records[k])
    decreases |lines|
  {
    if lines != [] {
      var init := lines[..|lines| - 1];
      var last := lines[|lines| - 1];
      assert ParseAll(init).Store?;
      ParseAllOrder(init);
      var recs := ParseAll(init).records;
      var known := RecognizedLines(init);
      assert ParseLine(last) != OutOfRange;
      ParseLineLength(last);
      forall i | 0 <= i < |lines| ensures |lines[i]| >= HeaderLength {
        if i < |init| {
          assert lines[i] == init[i];
        }
      }
      ParseLineClassifies(last);
      if IsRecordType(last[ProtocolLength]) {
        var r := ParseLine(last).record;
        assert ParseAll(lines).records == recs + [r];
        assert RecognizedLines(lines) == known + [last];
        forall k | 0 <= k < |known| + 1
          ensures ParseLine((known + [last])[k]) == Parsed((recs + [r])[k])
        {
          if k < |known| {
            assert (known + [last])[k] == known[k] && (recs + [r])[k] == recs[k];
          }
        }
      } else {
        assert ParseAll(lines).records == recs;
        assert RecognizedLines(lines) == known + [] == known;
      }
    }
  }

  /** The scanner loop stops at a line exactly when some line fails to
      decode, and it is the first such line. */
  lemma {:induction false} ParseAllPanic(lines: seq<string>)
    ensures ParseAll(lines).Panic? <==> exists i :: 0 <= i < |lines| && ParseLine(lines[i]).OutOfRange?
    ensures ParseAll(lines).Panic? ==>
      var i := ParseAll(lines).line;
      i < |lines| && ParseLine(lines[i]).OutOfRange? &&
      forall j :: 0 <= j < i ==> !ParseLine(lines[j]).OutOfRange?
    decreases |lines|
  {
    if lines != [] {
      var init := lines[..|lines| - 1];
      ParseAllPanic(init);
      assert forall i :: 0 <= i < |init| ==> lines[i] == init[i];
    }
  }

  // ------------------------------------------------------------ the parse loop

  /** The bounded row loop of the scanner (main.go, the two "for i" loops):
      row i is read at base + 80 * i, the loop stops before the first row of
      kind 'F', and the first-page flag is raised by every kept row of kind
      'P'. A row that runs past the end of the line stops the decoding. */
  method ReadTextTable(line: string, base: nat, count: nat) returns (res: TableResult, primaPagina: bool)
    ensures res == TextTable(line, base, count)
    ensures res.Rows? ==> primaPagina == HasKind(res.rows, FirstPageKind)
  {
    var rows: seq<RigaTesto> := [];
    primaPagina := false;
    for i := 0 to count
      invariant TextTable(line, base, count) == Prepend(rows, TableFrom(line, base, i, count))
      invariant primaPagina == HasKind(rows, FirstPageKind)
    {
      var offset := RowOffset(base, i);
      if offset + RowTextEnd > |line| {
        assert TableFrom(line, base, i, count) == RowOutOfRange(i);
        return RowOutOfRange(i), primaPagina;
      }
      var rt := RigaTesto(line[offset], TrimSpace(line[offset + 1..offset + RowTextEnd]));
      assert rt == RowAt(line, base, i);
      if rt.tipoRiga == Terminator {
        assert TableFrom(line, base, i, count) == Rows([]);
        PrependNothing(rows);
        return Rows(rows), primaPagina;
      }
      if rt.tipoRiga == FirstPageKind {
        primaPagina := true;
      }
      assert TableFrom(line, base, i, count) == Prepend([rt], TableFrom(line, base, i + 1, count));
      PrependAppend(rows, rt, TableFrom(line, base, i + 1, count));
      HasKindAppend(rows, rt, FirstPageKind);
      rows := rows + [rt];
    }
    assert TableFrom(line, base, count, count) == Rows([]);
    PrependNothing(rows);
    res := Rows(rows);
  }

  lemma PrependNothing(rows: seq<RigaTesto>)
    ensures Prepend(rows, Rows([])) == Rows(rows)
  {
    assert rows + [] == rows;
  }

  lemma PrependAppend(rows: seq<RigaTesto>, rt: RigaTesto, t: TableResult)
    ensures Prepend(rows, Prepend([rt], t)) == Prepend(rows + [rt], t)
  {
    match t
    case Rows(rest) => assert rows + ([rt] + rest) == (rows + [rt]) + rest;
    case RowOutOfRange(_) =>
  }

  lemma HasKindAppend(rows: seq<RigaTesto>, rt: RigaTesto, kind: char)
    ensures HasKind(rows + [rt], kind) == (HasKind(rows, kind) || rt.tipoRiga == kind)
  {
    var s := rows + [rt];
    assert s[|rows|] == rt;
    assert forall k :: 0 <= k < |rows| ==> s[k] == rows[k];
  }

  /** One line of the scanner loop, decoded by the loop above. */
  method DecodeLine(line: string) returns (r: LineResult)
    ensures r == ParseLine(line)
  {
    if |line| < HeaderLength {
      return OutOfRange;
    }
    var h := Header(line[..ProtocolLength], line[ProtocolLength]);
    if h.tipoRecord == SummaryType {
      if |line| < SummaryFieldsEnd {
        return OutOfRange;
      }
      var table, _ := ReadTextTable(line, SummaryTableBase, SummaryTableRows);
      match table
      case Rows(rows) => r := Parsed(SummaryRecord(DecodeSummary(h, line, rows)));
      case RowOutOfRange(_) => r := OutOfRange;
    } else if h.tipoRecord == AcceptedType || h.tipoRecord == RejectedType {
      if |line| < DetailFieldsEnd {
        return OutOfRange;
      }
      var table, primaPagina := ReadTextTable(line, DetailTableBase, DetailTableRows);
      match table
      case Rows(rows) =>
        var rq := DecodeDetail(h, line, rows).(primaPagina := primaPagina);
        r := Parsed(DetailRecord(rq));
      case RowOutOfRange(_) => r := OutOfRange;
    } else {
      r := Skipped;
    }
  }

  /** The scanner loop: the records of all lines, appended in input order;
      the first line that runs out of bytes stops the program. */
  method ParseLines(lines: seq<string>) returns (r: StoreResult)
    ensures r == ParseAll(lines)
  {
    var records: seq<Record> := [];
    var i := 0;
    while i < |lines|
      invariant 0 <= i <= |lines|
      invariant ParseAll(lines[..i]) == Store(records)
    {
      assert lines[..i + 1][..i] == lines[..i];
      var decoded := DecodeLine(lines[i]);
      match decoded {
        case Parsed(rec) => records := records + [rec];
        case Skipped =>
        case OutOfRange =>
          ParseAllAppend(lines[..i + 1], lines[i + 1..]);
          assert lines[..i + 1] + lines[i + 1..] == lines;
          return Panic(i);
      }
      i := i + 1;
    }
    assert lines[..i] == lines;
    r := Store(records);
  }
}
