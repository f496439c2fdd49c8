/** What the four rendering passes produce, as values. The PDF library is
    reduced to two events: "start a new page" and "emit a text cell on the
    current page". A Document records the text cells of every page in order;
    cells emitted before the first page exists are kept apart, in `loose`.
    A row of kind 'T' met by a pass that refuses it ends the program
    (log.Fatal); that is the Fatal outcome, which keeps the document as it
    was at that moment and the offending row. */
module Layout {
  import opened Fields
  import opened Dates
  import opened Records
  import opened Paths

  type Page = seq<string>

  datatype Document = Document(loose: seq<string>, pages: seq<Page>)

  const EmptyDocument: Document := Document([], [])

  /** pdf.AddPage. */
  function NewPage(d: Document): Document {
    d.(pages := d.pages + [[]])
  }

  /** pdf.CellFormat with each of the given texts, in order. */
  function EmitAll(d: Document, cells: seq<string>): Document {
    if d.pages == [] then d.(loose := d.loose + cells)
    else d.(pages := d.pages[..|d.pages| - 1] + [d.pages[|d.pages| - 1] + cells])
  }

  /** pdf.CellFormat with one text. */
  function Emit(d: Document, cell: string): Document {
    EmitAll(d, [cell])
  }

  lemma EmitAllAppend(d: Document, a: seq<string>, b: seq<string>)
    ensures EmitAll(EmitAll(d, a), b) == EmitAll(d, a + b)
  {
    if d.pages == [] {
      assert d.loose + a + b == d.loose + (a + b);
    } else {
      var n := |d.pages|;
      var e := EmitAll(d, a);
      assert e.pages[..n - 1] == d.pages[..n - 1];
      assert e.pages[n - 1] + b == d.pages[n - 1] + (a + b);
    }
  }

  lemma EmitAllNothing(d: Document)
    ensures EmitAll(d, []) == d
  {
    if d.pages != [] {
      var n := |d.pages|;
      assert d.pages[n - 1] + [] == d.pages[n - 1];
      assert d.pages[..n - 1] + [d.pages[n - 1]] == d.pages;
    } else {
      assert d.loose + [] == d.loose;
    }
  }

  /** d' is d with cells added at the end of pages or of the loose cells,
      and possibly more pages after: nothing emitted earlier is lost or
      reordered. */
  predicate Extends(d: Document, d': Document) {
    d.loose <= d'.loose && |d.pages| <= |d'.pages| &&
    forall i {:trigger d'.pages[i]} :: 0 <= i < |d.pages| ==> d.pages[i] <= d'.pages[i]
  }

  lemma ExtendsTransitive(a: Document, b: Document, c: Document)
    requires Extends(a, b) && Extends(b, c)
    ensures Extends(a, c)
  {
  }

  lemma EmitAllExtends(d: Document, cells: seq<string>)
    ensures Extends(d, EmitAll(d, cells)) && |EmitAll(d, cells).pages| == |d.pages|
    ensures d.pages != [] ==> EmitAll(d, cells).loose == d.loose
  {
    var e := EmitAll(d, cells);
    if d.pages != [] {
      assert forall i :: 0 <= i < |d.pages| - 1 ==> e.pages[i] == d.pages[i];
    }
  }

  // ------------------------------------------------------------ cells

  /** The texts of some rows, in order. */
  function Texts(rows: seq<RigaTesto>): (texts: seq<string>)
    ensures |texts| == |rows|
    decreases |rows|
  {
    if rows == [] then [] else Texts(rows[..|rows| - 1]) + [rows[|rows| - 1].testo]
  }

  lemma {:induction false} TextsAppend(a: seq<RigaTesto>, b: seq<RigaTesto>)
    ensures Texts(a + b) == Texts(a) + Texts(b)
    decreases |b|
  {
    if b == [] {
      assert a + b == a;
    } else {
      var b' := b[..|b| - 1];
      assert (a + b)[..|a + b| - 1] == a + b';
      TextsAppend(a, b');
    }
  }

  lemma TextsAt(rows: seq<RigaTesto>, k: nat)
    requires k < |rows|
    ensures Texts(rows)[k] == rows[k].testo
  {
    TextsAppend(rows[..k + 1], rows[k + 1..]);
    assert rows[..k + 1] + rows[k + 1..] == rows;
    assert rows[..k + 1][..k] == rows[..k];
  }

  /** The rows of one kind, in order. */
  function OfKind(rows: seq<RigaTesto>, kind: char): (r: seq<RigaTesto>)
    ensures |r| <= |rows|
    decreases |rows|
  {
    if rows == [] then []
    else (if rows[0].tipoRiga == kind then [rows[0]] else []) + OfKind(rows[1..], kind)
  }

  /** The text cells of the opening page of a summary record: the title, the
      text of every row, and the place and date line (main.go, startDocument). */
  function StartDocumentCells(p: RecordP): seq<string> {
    [p.titolo] + Texts(p.tabellaTesto) + ["Li, " + FormatDate(p.dataRicezione)]
  }

  /** The outcome label of a detail record: accepted for type R, rejected
      for every other type. */
  function Esito(rq: RecordRQ): (text: string)
    ensures text == "acquisito" <==> rq.header.tipoRecord == AcceptedType
    ensures text == "scartato" <==> rq.header.tipoRecord != AcceptedType
  {
    if rq.header.tipoRecord == AcceptedType then "acquisito" else "scartato"
  }

  const F24SupplyCode: string := "I24A0"

  /** The document-type caption: present only for the F24 payment supply code. */
  function DocTypeCaption(codiceFornitura: string): (cells: seq<string>)
    ensures |cells| <= 1
    ensures cells != [] <==> codiceFornitura == F24SupplyCode
    ensures cells != [] ==> cells[0] == "Esito versamento F24"
  {
    if codiceFornitura == F24SupplyCode then ["Esito versamento F24"] else []
  }

  /** The text cells of the closing summary page (main.go, addLastPage). */
  function SummaryCells(p: RecordP): seq<string> {
    ["ELENCO DEI DOCUMENTI ACQUISITI E/O SCARTATI",
     "PROTOCOLLO DI RICEZIONE:", p.header.protocolloTelematico,
     "NOME DEL FILE:", p.nomeFileLungo,
     "TIPO DOCUMENTO:"] + DocTypeCaption(p.codiceFornitura) +
    ["DOCUMENTI ACQUISITI:", Itoa(p.totaleDocumentiAccolti),
     "DOCUMENTI SCARTATI:", Itoa(p.totaleDocumentiRespinti),
     "Esito", "Protocollo Documenti", "Codice Fiscale", "Denominazione"]
  }

  /** The table row of one detail record under the summary (main.go,
      addInLastPageDetails). */
  function DetailCells(rq: RecordRQ): seq<string> {
    [Esito(rq), rq.progressivoProtocollo, rq.codiceFiscalePartitaIva, rq.denominazione]
  }

  // ------------------------------------------------------------ helpers

  datatype Outcome = Done(doc: Document) | Fatal(doc: Document, row: RigaTesto)

  /** startDocument: a new page with the opening cells. */
  function StartDocument(d: Document, p: RecordP): Document {
    EmitAll(NewPage(d), StartDocumentCells(p))
  }

  /** The row loop of addInFirstPage: stop at a row of kind 'T', emit the
      text of each row of kind 'P'. */
  function FirstPageRows(d: Document, rows: seq<RigaTesto>): Outcome
    decreases |rows|
  {
    if rows == [] then Done(d)
    else if rows[0].tipoRiga == ForbiddenKind then Fatal(d, rows[0])
    else FirstPageRows(if rows[0].tipoRiga == FirstPageKind then Emit(d, rows[0].testo) else d, rows[1..])
  }

  /** addInFirstPage: cells on the current page, no new page. */
  function AddInFirstPage(d: Document, rq: RecordRQ): Outcome {
    FirstPageRows(d, rq.tabellaTesto)
  }

  /** The row loop of addPage: stop at a row of kind 'T', emit every text. */
  function PageRows(d: Document, rows: seq<RigaTesto>): Outcome
    decreases |rows|
  {
    if rows == [] then Done(d)
    else if rows[0].tipoRiga == ForbiddenKind then Fatal(d, rows[0])
    else PageRows(Emit(d, rows[0].testo), rows[1..])
  }

  /** addPage: a new page with the texts of the record's rows. */
  function AddPage(d: Document, rq: RecordRQ): Outcome {
    PageRows(NewPage(d), rq.tabellaTesto)
  }

  /** addLastPage: a new page with the summary block and the table header. */
  function AddLastPage(d: Document, p: RecordP): Document {
    EmitAll(NewPage(d), SummaryCells(p))
  }

  /** addInLastPageDetails: one table row on the current page. */
  function AddInLastPageDetails(d: Document, rq: RecordRQ): Document {
    EmitAll(d, DetailCells(rq))
  }

  lemma {:induction false} FirstPageRowsSpec(d: Document, rows: seq<RigaTesto>)
    ensures FirstPageRows(d, rows).Fatal? <==> HasKind(rows, ForbiddenKind)
    ensures FirstPageRows(d, rows).Fatal? ==> FirstPageRows(d, rows).row.tipoRiga == ForbiddenKind
    ensures FirstPageRows(d, rows).Fatal? ==>
      HasKind(rows, ForbiddenKind) && FirstPageRows(d, rows).row == FirstForbiddenRow(rows)
    ensures !HasKind(rows, ForbiddenKind) ==>
      FirstPageRows(d, rows) == Done(EmitAll(d, Texts(OfKind(rows, FirstPageKind))))
    decreases |rows|
  {
    if rows == [] {
      EmitAllNothing(d);
    } else {
      var rest := rows[1..];
      assert forall k :: 0 <= k < |rest| ==> rest[k] == rows[k + 1];
      if rows[0].tipoRiga != ForbiddenKind {
        var r := rows[0];
        var d' := if r.tipoRiga == FirstPageKind then Emit(d, r.testo) else d;
        FirstPageRowsSpec(d', rest);
        assert HasKind(rows, ForbiddenKind) <==> HasKind(rest, ForbiddenKind);
        if r.tipoRiga == FirstPageKind {
          assert OfKind(rows, FirstPageKind) == [r] + OfKind(rest, FirstPageKind);
          TextsAppend([r], OfKind(rest, FirstPageKind));
          assert Texts([r]) == [r.testo] by { assert [r][..0] == []; }
          EmitAllAppend(d, [r.testo], Texts(OfKind(rest, FirstPageKind)));
        } else {
          assert OfKind(rows, FirstPageKind) == [] + OfKind(rest, FirstPageKind);
          assert [] + OfKind(rest, FirstPageKind) == OfKind(rest, FirstPageKind);
        }
      }
    }
  }

  lemma {:induction false} PageRowsSpec(d: Document, rows: seq<RigaTesto>)
    ensures PageRows(d, rows).Fatal? <==> HasKind(rows, ForbiddenKind)
    ensures PageRows(d, rows).Fatal? ==> PageRows(d, rows).row.tipoRiga == ForbiddenKind
    ensures PageRows(d, rows).Fatal? ==>
      HasKind(rows, ForbiddenKind) && PageRows(d, rows).row == FirstForbiddenRow(rows)
    ensures !HasKind(rows, ForbiddenKind) ==> PageRows(d, rows) == Done(EmitAll(d, Texts(rows)))
    decreases |rows|
  {
    if rows == [] {
      EmitAllNothing(d);
    } else {
      var rest := rows[1..];
      assert forall k :: 0 <= k < |rest| ==> rest[k] == rows[k + 1];
      if rows[0].tipoRiga != ForbiddenKind {
        var r := rows[0];
        PageRowsSpec(Emit(d, r.testo), rest);
        assert HasKind(rows, ForbiddenKind) <==> HasKind(rest, ForbiddenKind);
        assert rows == [r] + rest;
        TextsAppend([r], rest);
        assert Texts([r]) == [r.testo] by { assert [r][..0] == []; }
        EmitAllAppend(d, [r.testo], Texts(rest));
      }
    }
  }

  // ------------------------------------------------------------ the passes

  /** The summary records, in record order. */
  function Summaries(recs: seq<Record>): (ps: seq<RecordP>)
    ensures |ps| <= |recs|
    decreases |recs|
  {
    if recs == [] then []
    else (if recs[0].SummaryRecord? then [recs[0].p] else []) + Summaries(recs[1..])
  }

  /** The detail records, in record order. */
  function Details(recs: seq<Record>): (rqs: seq<RecordRQ>)
    ensures |rqs| <= |recs|
    decreases |recs|
  {
    if recs == [] then []
    else (if recs[0].DetailRecord? then [recs[0].rq] else []) + Details(recs[1..])
  }

  /** Pass 1: startDocument for every summary record. */
  function Pass1(d: Document, recs: seq<Record>): Document
    decreases |recs|
  {
    if recs == [] then d
    else Pass1(if recs[0].SummaryRecord? then StartDocument(d, recs[0].p) else d, recs[1..])
  }

  /** Pass 2: addInFirstPage for every detail record with PrimaPagina. */
  function Pass2(d: Document, recs: seq<Record>): Outcome
    decreases |recs|
  {
    if recs == [] then Done(d)
    else if recs[0].DetailRecord? && recs[0].rq.primaPagina then
      match AddInFirstPage(d, recs[0].rq)
      case Done(d') => Pass2(d', recs[1..])
      case Fatal(d', row) => Fatal(d', row)
    else Pass2(d, recs[1..])
  }

  /** Pass 3: addPage for every detail record. */
  function Pass3(d: Document, recs: seq<Record>): Outcome
    decreases |recs|
  {
    if recs == [] then Done(d)
    else if recs[0].DetailRecord? then
      match AddPage(d, recs[0].rq)
      case Done(d') => Pass3(d', recs[1..])
      case Fatal(d', row) => Fatal(d', row)
    else Pass3(d, recs[1..])
  }

  /** One record of pass 4: addLastPage for a summary record,
      addInLastPageDetails for a detail record. */
  function Step4(d: Document, r: Record): Document {
    match r
    case SummaryRecord(p) => AddLastPage(d, p)
    case DetailRecord(rq) => AddInLastPageDetails(d, rq)
  }

  /** Pass 4: one walk over all records in record order. */
  function Pass4(d: Document, recs: seq<Record>): Document
    decreases |recs|
  {
    if recs == [] then d else Pass4(Step4(d, recs[0]), recs[1..])
  }

  /** The four passes, one after the other; a fatal row ends the run. */
  function Render(d: Document, recs: seq<Record>): Outcome {
    var d1 := Pass1(d, recs);
    match Pass2(d1, recs)
    case Fatal(d2, row) => Fatal(d2, row)
    case Done(d2) =>
      match Pass3(d2, recs)
      case Fatal(d3, row) => Fatal(d3, row)
      case Done(d3) => Done(Pass4(d3, recs))
  }

  /** The whole program on the lines of one input file. */
  datatype RunResult =
    | Written(fileName: string, doc: Document)
    | ParsePanic(line: nat)
    | FatalRow(row: RigaTesto)

  function Run(path: string, lines: seq<string>): RunResult {
    match ParseAll(lines)
    case Panic(i) => ParsePanic(i)
    case Store(recs) =>
      match Render(EmptyDocument, recs)
      case Fatal(_, row) => FatalRow(row)
      case Done(doc) => Written(PdfFileName(path), doc)
  }

  // ------------------------------------------------------------ what the passes produce

  /** A detail record with a row of kind 'T': the passes that walk its rows
      stop there. */
  predicate Refuses(r: Record) {
    r.DetailRecord? && HasKind(r.rq.tabellaTesto, ForbiddenKind)
  }

  predicate HasRefused(recs: seq<Record>) {
    exists j :: 0 <= j < |recs| && Refuses(recs[j])
  }

  /** Some record has a 'T' row and is walked by pass 2 (it has PrimaPagina). */
  predicate HasRefusedFirstPage(recs: seq<Record>) {
    exists j :: 0 <= j < |recs| && Refuses(recs[j]) && recs[j].rq.primaPagina
  }

  /** The index of the first row of a kind, among rows that hold one. */
  function FirstIndexOf(rows: seq<RigaTesto>, kind: char): (k: nat)
    requires HasKind(rows, kind)
    ensures k < |rows| && rows[k].tipoRiga == kind
    ensures forall j :: 0 <= j < k ==> rows[j].tipoRiga != kind
    decreases |rows|
  {
    if rows[0].tipoRiga == kind then 0
    else
      assert HasKind(rows[1..], kind) by {
        var k :| 0 <= k < |rows| && rows[k].tipoRiga == kind;
        assert rows[1..][k - 1] == rows[k];
      }
      1 + FirstIndexOf(rows[1..], kind)
  }

  /** The row log.Fatal reports for a record's rows: the first of kind 'T'. */
  function FirstForbiddenRow(rows: seq<RigaTesto>): RigaTesto
    requires HasKind(rows, ForbiddenKind)
  {
    rows[FirstIndexOf(rows, ForbiddenKind)]
  }

  /** The row pass 3 stops at: the first 'T' row of the first detail record
      that holds one. */
  function RefusedRow(recs: seq<Record>): RigaTesto
    requires HasRefused(recs)
    decreases |recs|
  {
    RefusedSplit(recs);
    if Refuses(recs[0]) then FirstForbiddenRow(recs[0].rq.tabellaTesto) else RefusedRow(recs[1..])
  }

  /** The row pass 2 stops at: the first 'T' row of the first detail record
      with PrimaPagina that holds one. */
  function FirstPageRefusedRow(recs: seq<Record>): RigaTesto
    requires HasRefusedFirstPage(recs)
    decreases |recs|
  {
    RefusedSplit(recs);
    if Refuses(recs[0]) && recs[0].rq.primaPagina then FirstForbiddenRow(recs[0].rq.tabellaTesto)
    else FirstPageRefusedRow(recs[1..])
  }

  lemma RefusedSplit(recs: seq<Record>)
    requires recs != []
    ensures HasRefused(recs) <==> Refuses(recs[0]) || HasRefused(recs[1..])
    ensures HasRefusedFirstPage(recs) <==>
      (Refuses(recs[0]) && recs[0].rq.primaPagina) || HasRefusedFirstPage(recs[1..])
  {
    var rest := recs[1..];
    if HasRefused(rest) {
      var j :| 0 <= j < |rest| && Refuses(rest[j]);
      assert recs[j + 1] == rest[j];
    }
    if HasRefusedFirstPage(rest) {
      var j :| 0 <= j < |rest| && Refuses(rest[j]) && rest[j].rq.primaPagina;
      assert recs[j + 1] == rest[j];
    }
    if HasRefused(recs) && !Refuses(recs[0]) {
      var j :| 0 <= j < |recs| && Refuses(recs[j]);
      assert rest[j - 1] == recs[j];
    }
    if HasRefusedFirstPage(recs) && !(Refuses(recs[0]) && recs[0].rq.primaPagina) {
      var j :| 0 <= j < |recs| && Refuses(recs[j]) && recs[j].rq.primaPagina;
      assert rest[j - 1] == recs[j];
    }
  }

  lemma FirstPageRefusal(recs: seq<Record>)
    ensures HasRefusedFirstPage(recs) ==> HasRefused(recs)
  {
    if HasRefusedFirstPage(recs) {
      var j :| 0 <= j < |recs| && Refuses(recs[j]) && recs[j].rq.primaPagina;
      assert Refuses(recs[j]);
    }
  }

  /** A new page followed by cells: one more page holding exactly those cells. */
  lemma NewPageEmitAll(d: Document, cells: seq<string>)
    ensures EmitAll(NewPage(d), cells) == Document(d.loose, d.pages + [cells])
  {
    var n := NewPage(d);
    assert n.pages[..|n.pages| - 1] == d.pages;
    assert n.pages[|n.pages| - 1] + cells == cells;
  }

  /** The opening pages of some summary records, in order. */
  function StartPages(ps: seq<RecordP>): (pages: seq<Page>)
    ensures |pages| == |ps|
    decreases |ps|
  {
    if ps == [] then [] else [StartDocumentCells(ps[0])] + StartPages(ps[1..])
  }

  lemma {:induction false} StartPagesAt(ps: seq<RecordP>, k: nat)
    requires k < |ps|
    ensures StartPages(ps)[k] == StartDocumentCells(ps[k])
    decreases k
  {
    if k > 0 {
      StartPagesAt(ps[1..], k - 1);
    }
  }

  /** One page per detail record holding the texts of its rows, in order. */
  function DetailPages(rqs: seq<RecordRQ>): (pages: seq<Page>)
    ensures |pages| == |rqs|
    decreases |rqs|
  {
    if rqs == [] then [] else [Texts(rqs[0].tabellaTesto)] + DetailPages(rqs[1..])
  }

  lemma {:induction false} DetailPagesAt(rqs: seq<RecordRQ>, k: nat)
    requires k < |rqs|
    ensures DetailPages(rqs)[k] == Texts(rqs[k].tabellaTesto)
    decreases k
  {
    if k > 0 {
      DetailPagesAt(rqs[1..], k - 1);
    }
  }

  /** The closing pages of some summary records, as pass 4 opens them. */
  function SummaryPages(ps: seq<RecordP>): (pages: seq<Page>)
    ensures |pages| == |ps|
    decreases |ps|
  {
    if ps == [] then [] else [SummaryCells(ps[0])] + SummaryPages(ps[1..])
  }

  lemma {:induction false} SummaryPagesAt(ps: seq<RecordP>, k: nat)
    requires k < |ps|
    ensures SummaryPages(ps)[k] == SummaryCells(ps[k])
    decreases k
  {
    if k > 0 {
      SummaryPagesAt(ps[1..], k - 1);
    }
  }

  /** From index `from` on, the pages begin with the pages of `starts`,
      one for one. */
  predicate PagesBeginAt(pages: seq<Page>, from: nat, starts: seq<Page>) {
    from + |starts| <= |pages| && forall k :: 0 <= k < |starts| ==> starts[k] <= pages[from + k]
  }

  /** What pass 2 adds to the current page: for every detail record with
      PrimaPagina, the texts of its rows of kind 'P', in record order. */
  function FirstPageTexts(recs: seq<Record>): seq<string>
    decreases |recs|
  {
    if recs == [] then []
    else
      (if recs[0].DetailRecord? && recs[0].rq.primaPagina
       then Texts(OfKind(recs[0].rq.tabellaTesto, FirstPageKind)) else []) +
      FirstPageTexts(recs[1..])
  }

  /** The table rows of some detail records under a summary, in order. */
  function DetailRows(rqs: seq<RecordRQ>): seq<string>
    decreases |rqs|
  {
    if rqs == [] then [] else DetailCells(rqs[0]) + DetailRows(rqs[1..])
  }

  /** Pass 1 opens one page per summary record, in record order, and adds
      nothing anywhere else. */
  lemma {:induction false} Pass1Spec(d: Document, recs: seq<Record>)
    ensures Pass1(d, recs) == Document(d.loose, d.pages + StartPages(Summaries(recs)))
    decreases |recs|
  {
    if recs == [] {
      assert d.pages + [] == d.pages;
    } else if recs[0].SummaryRecord? {
      var cells := StartDocumentCells(recs[0].p);
      NewPageEmitAll(d, cells);
      assert Pass1(d, recs) == Pass1(Document(d.loose, d.pages + [cells]), recs[1..]);
      Pass1Spec(Document(d.loose, d.pages + [cells]), recs[1..]);
      Pass1SummaryStep(d, recs);
    } else {
      assert Pass1(d, recs) == Pass1(d, recs[1..]);
      Pass1Spec(d, recs[1..]);
      assert Summaries(recs) == [] + Summaries(recs[1..]) == Summaries(recs[1..]);
    }
  }

  lemma Pass1SummaryStep(d: Document, recs: seq<Record>)
    requires recs != [] && recs[0].SummaryRecord?
    ensures var cells := StartDocumentCells(recs[0].p);
      d.pages + [cells] + StartPages(Summaries(recs[1..])) == d.pages + StartPages(Summaries(recs))
  {
    var p := recs[0].p;
    var ss := Summaries(recs[1..]);
    assert Summaries(recs) == [p] + ss;
    assert ([p] + ss)[1..] == ss;
  }

  /** Pass 2 opens no page; it stops at the first 'T' row of a record with
      PrimaPagina, and otherwise adds that record's 'P' row texts to the
      current page. */
  lemma {:induction false} Pass2Spec(d: Document, recs: seq<Record>)
    ensures Pass2(d, recs).Fatal? <==> HasRefusedFirstPage(recs)
    ensures Pass2(d, recs).Fatal? ==> Pass2(d, recs).row.tipoRiga == ForbiddenKind
    ensures Pass2(d, recs).Fatal? ==>
      HasRefusedFirstPage(recs) && Pass2(d, recs).row == FirstPageRefusedRow(recs)
    ensures !HasRefusedFirstPage(recs) ==> Pass2(d, recs) == Done(EmitAll(d, FirstPageTexts(recs)))
    decreases |recs|
  {
    if recs == [] {
      EmitAllNothing(d);
    } else {
      var r := recs[0];
      var rest := recs[1..];
      RefusedSplit(recs);
      if r.DetailRecord? && r.rq.primaPagina {
        var rows := r.rq.tabellaTesto;
        FirstPageRowsSpec(d, rows);
        if !HasKind(rows, ForbiddenKind) {
          var texts := Texts(OfKind(rows, FirstPageKind));
          Pass2Spec(EmitAll(d, texts), rest);
          EmitAllAppend(d, texts, FirstPageTexts(rest));
        }
      } else {
        Pass2Spec(d, rest);
        assert FirstPageTexts(recs) == [] + FirstPageTexts(rest) == FirstPageTexts(rest);
      }
    }
  }

  /** Pass 3 opens one page per detail record holding the texts of its rows,
      and stops at the first 'T' row of any detail record. */
  lemma {:induction false} Pass3Spec(d: Document, recs: seq<Record>)
    ensures Pass3(d, recs).Fatal? <==> HasRefused(recs)
    ensures Pass3(d, recs).Fatal? ==> Pass3(d, recs).row.tipoRiga == ForbiddenKind
    ensures Pass3(d, recs).Fatal? ==> HasRefused(recs) && Pass3(d, recs).row == RefusedRow(recs)
    ensures !HasRefused(recs) ==>
      Pass3(d, recs) == Done(Document(d.loose, d.pages + DetailPages(Details(recs))))
    decreases |recs|
  {
    if recs == [] {
      assert d.pages + [] == d.pages;
    } else {
      var r := recs[0];
      var rest := recs[1..];
      var ds := Details(rest);
      RefusedSplit(recs);
      if r.DetailRecord? {
        var rows := r.rq.tabellaTesto;
        PageRowsSpec(NewPage(d), rows);
        if !HasKind(rows, ForbiddenKind) {
          NewPageEmitAll(d, Texts(rows));
          Pass3Spec(Document(d.loose, d.pages + [Texts(rows)]), rest);
          assert Details(recs) == [r.rq] + ds;
          assert ([r.rq] + ds)[1..] == ds;
          assert d.pages + [Texts(rows)] + DetailPages(ds) == d.pages + DetailPages([r.rq] + ds);
        }
      } else {
        Pass3Spec(d, rest);
        assert Details(recs) == [] + ds == ds;
      }
    }
  }

  lemma Step4Facts(d: Document, r: Record)
    ensures Extends(d, Step4(d, r))
    ensures r.DetailRecord? ==> |Step4(d, r).pages| == |d.pages|
    ensures r.SummaryRecord? ==> Step4(d, r).pages == d.pages + SummaryPages([r.p])
  {
    match r {
      case SummaryRecord(p) =>
        NewPageEmitAll(d, SummaryCells(p));
        assert [p][1..] == [];
      case DetailRecord(rq) =>
        EmitAllExtends(d, DetailCells(rq));
    }
  }

  lemma PagesBeginAtCons(pages: seq<Page>, from: nat, first: Page, rest: seq<Page>)
    requires from < |pages| && first <= pages[from] && PagesBeginAt(pages, from + 1, rest)
    ensures PagesBeginAt(pages, from, [first] + rest)
  {
    forall k | 0 < k < |rest| + 1 ensures ([first] + rest)[k] <= pages[from + k] {
      assert ([first] + rest)[k] == rest[k - 1];
      assert pages[from + k] == pages[(from + 1) + (k - 1)];
    }
  }

  lemma Pass4SummaryStep(d: Document, p: RecordP, rest: seq<Record>, out: Document)
    requires |out.pages| == |d.pages| + 1 + |Summaries(rest)|
    requires Step4(d, SummaryRecord(p)).pages == d.pages + SummaryPages([p])
    requires Extends(Step4(d, SummaryRecord(p)), out)
    requires PagesBeginAt(out.pages, |d.pages| + 1, SummaryPages(Summaries(rest)))
    ensures PagesBeginAt(out.pages, |d.pages|, SummaryPages([p] + Summaries(rest)))
  {
    var n := |d.pages|;
    var ss := Summaries(rest);
    var one := SummaryPages([p]);
    assert ([p] + ss)[1..] == ss;
    assert SummaryPages([p] + ss) == [one[0]] + SummaryPages(ss);
    assert Step4(d, SummaryRecord(p)).pages[n] == one[0];
    PagesBeginAtCons(out.pages, n, one[0], SummaryPages(ss));
  }

  /** Pass 4 opens one page per summary record. */
  lemma {:induction false} Pass4PageCount(d: Document, recs: seq<Record>)
    ensures |Pass4(d, recs).pages| == |d.pages| + |Summaries(recs)|
    decreases |recs|
  {
    if recs != [] {
      var r := recs[0];
      var d1 := Step4(d, r);
      assert Pass4(d, recs) == Pass4(d1, recs[1..]);
      Step4Facts(d, r);
      Pass4PageCount(d1, recs[1..]);
      if r.SummaryRecord? {
        assert Summaries(recs) == [r.p] + Summaries(recs[1..]);
      } else {
        assert Summaries(recs) == [] + Summaries(recs[1..]) == Summaries(recs[1..]);
      }
    }
  }

  /** Pass 4 only ever adds cells after what is already there. */
  lemma {:induction false} Pass4Keeps(d: Document, recs: seq<Record>)
    ensures Extends(d, Pass4(d, recs))
    decreases |recs|
  {
    if recs != [] {
      var d1 := Step4(d, recs[0]);
      assert Pass4(d, recs) == Pass4(d1, recs[1..]);
      Step4Facts(d, recs[0]);
      Pass4Keeps(d1, recs[1..]);
      ExtendsTransitive(d, d1, Pass4(d1, recs[1..]));
    }
  }

  /** The pages pass 4 opens begin with the summary blocks, in record order. */
  lemma {:induction false} Pass4ClosingPages(d: Document, recs: seq<Record>, from: nat)
    requires from == |d.pages|
    ensures PagesBeginAt(Pass4(d, recs).pages, from, SummaryPages(Summaries(recs)))
    decreases |recs|
  {
    if recs == [] {
      assert SummaryPages(Summaries(recs)) == [];
    } else {
      var r := recs[0];
      var d1 := Step4(d, r);
      var out := Pass4(d1, recs[1..]);
      assert Pass4(d, recs) == out;
      Step4Facts(d, r);
      if r.SummaryRecord? {
        Pass4ClosingPages(d1, recs[1..], from + 1);
        Pass4PageCount(d1, recs[1..]);
        Pass4Keeps(d1, recs[1..]);
        Pass4SummaryStep(d, r.p, recs[1..], out);
        assert Summaries(recs) == [r.p] + Summaries(recs[1..]);
      } else {
        Pass4ClosingPages(d1, recs[1..], from);
        assert Summaries(recs) == [] + Summaries(recs[1..]) == Summaries(recs[1..]);
      }
    }
  }

  lemma Pass4KeepsBegin(d: Document, recs: seq<Record>, from: nat, starts: seq<Page>)
    requires PagesBeginAt(d.pages, from, starts)
    ensures PagesBeginAt(Pass4(d, recs).pages, from, starts)
  {
    Pass4Keeps(d, recs);
    ExtendsKeepsBegin(d, Pass4(d, recs), from, starts);
  }

  /** Records that are all detail records hold no summary, and their detail
      records are all of them. */
  lemma {:induction false} OnlyDetails(ds: seq<Record>)
    requires forall k :: 0 <= k < |ds| ==> ds[k].DetailRecord?
    ensures Summaries(ds) == []
    ensures |Details(ds)| == |ds| && forall k :: 0 <= k < |ds| ==> Details(ds)[k] == ds[k].rq
    decreases |ds|
  {
    if ds != [] {
      OnlyDetails(ds[1..]);
      assert Details(ds) == [ds[0].rq] + Details(ds[1..]);
    }
  }

  lemma {:induction false} Pass4Append(d: Document, a: seq<Record>, b: seq<Record>)
    ensures Pass4(d, a + b) == Pass4(Pass4(d, a), b)
    decreases |a|
  {
    if a == [] {
      assert a + b == b;
    } else {
      assert (a + b)[0] == a[0];
      assert (a + b)[1..] == a[1..] + b;
      Pass4Append(Step4(d, a[0]), a[1..], b);
    }
  }

  /** Detail records alone add their table rows to the current page. */
  lemma {:induction false} Pass4OnDetails(d: Document, ds: seq<Record>)
    requires forall k :: 0 <= k < |ds| ==> ds[k].DetailRecord?
    ensures Pass4(d, ds) == EmitAll(d, DetailRows(Details(ds)))
    decreases |ds|
  {
    if ds == [] {
      EmitAllNothing(d);
    } else {
      var rq := ds[0].rq;
      var rest := ds[1..];
      Pass4OnDetails(AddInLastPageDetails(d, rq), rest);
      assert Details(ds) == [rq] + Details(rest);
      assert ([rq] + Details(rest))[1..] == Details(rest);
      EmitAllAppend(d, DetailCells(rq), DetailRows(Details(rest)));
    }
  }

  /** The page a summary record opens in pass 4 holds the summary block and
      then the rows of the detail records that follow it, up to the next
      summary record. */
  lemma Pass4SummaryGroup(d: Document, pre: seq<Record>, p: RecordP, ds: seq<Record>)
    requires forall k :: 0 <= k < |ds| ==> ds[k].DetailRecord?
    ensures Pass4(d, pre + [SummaryRecord(p)] + ds) ==
      Document(Pass4(d, pre).loose, Pass4(d, pre).pages + [SummaryCells(p) + DetailRows(Details(ds))])
  {
    var d0 := Pass4(d, pre);
    Pass4Append(d, pre + [SummaryRecord(p)], ds);
    Pass4Append(d, pre, [SummaryRecord(p)]);
    var d1 := Pass4(d0, [SummaryRecord(p)]);
    assert [SummaryRecord(p)][1..] == [];
    NewPageEmitAll(d0, SummaryCells(p));
    assert d1 == Document(d0.loose, d0.pages + [SummaryCells(p)]);
    Pass4OnDetails(d1, ds);
    var e := EmitAll(d1, DetailRows(Details(ds)));
    assert e.pages[..|d1.pages| - 1] == d0.pages;
  }

  /** The run stops at a 'T' row exactly when some detail record has one. */
  lemma RenderFatal(d: Document, recs: seq<Record>)
    ensures Render(d, recs).Fatal? <==> HasRefused(recs)
    ensures Render(d, recs).Fatal? ==> Render(d, recs).row.tipoRiga == ForbiddenKind
    ensures Render(d, recs).Fatal? ==>
      HasRefused(recs) &&
      Render(d, recs).row == (if HasRefusedFirstPage(recs) then FirstPageRefusedRow(recs) else RefusedRow(recs))
  {
    var d1 := Pass1(d, recs);
    Pass2Spec(d1, recs);
    FirstPageRefusal(recs);
    if !HasRefusedFirstPage(recs) {
      Pass3Spec(Pass2(d1, recs).doc, recs);
    }
  }

  lemma ExtendsKeepsBegin(a: Document, b: Document, from: nat, starts: seq<Page>)
    requires Extends(a, b) && PagesBeginAt(a.pages, from, starts)
    ensures PagesBeginAt(b.pages, from, starts)
  {
    forall k | 0 <= k < |starts| ensures starts[k] <= b.pages[from + k] {
      assert a.pages[from + k] <= b.pages[from + k];
    }
  }

  lemma BeginsWithOwnPages(pages: seq<Page>, front: seq<Page>, starts: seq<Page>)
    ensures PagesBeginAt(front + starts, |front|, starts)
  {
    forall k | 0 <= k < |starts| ensures starts[k] <= (front + starts)[|front| + k] {
      assert (front + starts)[|front| + k] == starts[k];
    }
  }

  /** The document after passes 1 and 2 when no record is refused. */
  function OpeningDocument(d: Document, recs: seq<Record>): Document {
    EmitAll(Document(d.loose, d.pages + StartPages(Summaries(recs))), FirstPageTexts(recs))
  }

  /** The document after passes 1 to 3 when no record is refused. */
  function BeforeClosing(d: Document, recs: seq<Record>): Document {
    var d2 := OpeningDocument(d, recs);
    Document(d2.loose, d2.pages + DetailPages(Details(recs)))
  }

  /** Passes 1 to 3 of a run without a 'T' row, and what they leave for
      pass 4. */
  lemma RenderStages(d: Document, recs: seq<Record>)
    requires !HasRefused(recs)
    ensures Render(d, recs) == Done(Pass4(BeforeClosing(d, recs), recs))
  {
    var d1 := Pass1(d, recs);
    Pass1Spec(d, recs);
    Pass2Spec(d1, recs);
    FirstPageRefusal(recs);
    Pass3Spec(OpeningDocument(d, recs), recs);
  }

  lemma OpeningLayout(d: Document, recs: seq<Record>)
    ensures var d2 := OpeningDocument(d, recs); var ss := Summaries(recs);
      Extends(d, d2) && |d2.pages| == |d.pages| + |ss| &&
      PagesBeginAt(d2.pages, |d.pages|, StartPages(ss))
  {
    var ss := Summaries(recs);
    var d1 := Document(d.loose, d.pages + StartPages(ss));
    EmitAllExtends(d1, FirstPageTexts(recs));
    assert Extends(d, d1);
    ExtendsTransitive(d, d1, OpeningDocument(d, recs));
    BeginsWithOwnPages(d1.pages, d.pages, StartPages(ss));
    ExtendsKeepsBegin(d1, OpeningDocument(d, recs), |d.pages|, StartPages(ss));
  }

  lemma OpeningPageCount(d: Document, recs: seq<Record>)
    ensures |OpeningDocument(d, recs).pages| == |d.pages| + |Summaries(recs)|
  {
    OpeningLayout(d, recs);
  }

  lemma OpeningBegins(d: Document, recs: seq<Record>)
    ensures PagesBeginAt(OpeningDocument(d, recs).pages, |d.pages|, StartPages(Summaries(recs)))
  {
    OpeningLayout(d, recs);
  }

  lemma BeforeClosingPageCount(d: Document, recs: seq<Record>)
    ensures |BeforeClosing(d, recs).pages| == |d.pages| + |Summaries(recs)| + |Details(recs)|
  {
    OpeningPageCount(d, recs);
  }

  lemma BeforeClosingExtends(d: Document, recs: seq<Record>)
    ensures Extends(d, BeforeClosing(d, recs))
  {
    var d2 := OpeningDocument(d, recs);
    OpeningLayout(d, recs);
    assert Extends(d2, BeforeClosing(d, recs));
    ExtendsTransitive(d, d2, BeforeClosing(d, recs));
  }

  lemma BeforeClosingOpening(d: Document, recs: seq<Record>)
    ensures PagesBeginAt(BeforeClosing(d, recs).pages, |d.pages|, StartPages(Summaries(recs)))
  {
    var d2 := OpeningDocument(d, recs);
    OpeningBegins(d, recs);
    assert Extends(d2, BeforeClosing(d, recs));
    ExtendsKeepsBegin(d2, BeforeClosing(d, recs), |d.pages|, StartPages(Summaries(recs)));
  }

  lemma BeforeClosingDetails(d: Document, recs: seq<Record>)
    ensures PagesBeginAt(BeforeClosing(d, recs).pages, |d.pages| + |Summaries(recs)|, DetailPages(Details(recs)))
  {
    var d2 := OpeningDocument(d, recs);
    OpeningPageCount(d, recs);
    BeginsWithOwnPages(BeforeClosing(d, recs).pages, d2.pages, DetailPages(Details(recs)));
  }

  /** A run ends normally exactly when no record is refused. */
  lemma RenderDone(d: Document, recs: seq<Record>)
    ensures Render(d, recs).Done? <==> !HasRefused(recs)
  {
    RenderFatal(d, recs);
  }

  /** A completed run has two pages per summary record and one per detail
      record, after the pages it started with. */
  lemma RenderPageCount(d: Document, recs: seq<Record>, out: Document)
    requires Render(d, recs) == Done(out)
    ensures |out.pages| == |d.pages| + 2 * |Summaries(recs)| + |Details(recs)|
  {
    RenderFatal(d, recs);
    RenderStages(d, recs);
    RenderedPageCount(d, recs, out);
  }

  lemma RenderedPageCount(d: Document, recs: seq<Record>, out: Document)
    requires out == Pass4(BeforeClosing(d, recs), recs)
    ensures |out.pages| == |d.pages| + 2 * |Summaries(recs)| + |Details(recs)|
  {
    BeforeClosingPageCount(d, recs);
    Pass4PageCount(BeforeClosing(d, recs), recs);
  }

  /** Nothing the document held before the run is lost or reordered. */
  lemma RenderKeepsDocument(d: Document, recs: seq<Record>, out: Document)
    requires Render(d, recs) == Done(out)
    ensures Extends(d, out)
  {
    RenderFatal(d, recs);
    RenderStages(d, recs);
    RenderedKeepsDocument(d, recs, out);
  }

  lemma RenderedKeepsDocument(d: Document, recs: seq<Record>, out: Document)
    requires out == Pass4(BeforeClosing(d, recs), recs)
    ensures Extends(d, out)
  {
    var b := BeforeClosing(d, recs);
    BeforeClosingExtends(d, recs);
    Pass4Keeps(b, recs);
    ExtendsTransitive(d, b, out);
  }

  /** The opening pages come first: page k after the old ones begins with
      startDocument's cells for the k-th summary record. */
  lemma RenderOpeningPages(d: Document, recs: seq<Record>, out: Document, starts: seq<Page>)
    requires Render(d, recs) == Done(out) && starts == StartPages(Summaries(recs))
    ensures PagesBeginAt(out.pages, |d.pages|, starts)
  {
    RenderFatal(d, recs);
    RenderStages(d, recs);
    RenderedOpeningPages(d, recs, out, |d.pages|, starts);
  }

  lemma RenderedOpeningPages(d: Document, recs: seq<Record>, out: Document, from: nat, starts: seq<Page>)
    requires out == Pass4(BeforeClosing(d, recs), recs)
    requires from == |d.pages| && starts == StartPages(Summaries(recs))
    ensures PagesBeginAt(out.pages, from, starts)
  {
    BeforeClosingOpening(d, recs);
    Pass4KeepsBegin(BeforeClosing(d, recs), recs, from, starts);
  }

  /** Then one page per detail record, beginning with its row texts. */
  lemma RenderDetailPages(d: Document, recs: seq<Record>, out: Document, starts: seq<Page>)
    requires Render(d, recs) == Done(out) && starts == DetailPages(Details(recs))
    ensures PagesBeginAt(out.pages, |d.pages| + |Summaries(recs)|, starts)
  {
    RenderFatal(d, recs);
    RenderStages(d, recs);
    RenderedDetailPages(d, recs, out, |d.pages| + |Summaries(recs)|, starts);
  }

  lemma RenderedDetailPages(d: Document, recs: seq<Record>, out: Document, from: nat, starts: seq<Page>)
    requires out == Pass4(BeforeClosing(d, recs), recs)
    requires from == |d.pages| + |Summaries(recs)| && starts == DetailPages(Details(recs))
    ensures PagesBeginAt(out.pages, from, starts)
  {
    BeforeClosingDetails(d, recs);
    Pass4KeepsBegin(BeforeClosing(d, recs), recs, from, starts);
  }

  /** The run ends with the closing page of each summary record, beginning
      with the summary block; with the page count, these follow the detail
      pages. */
  lemma RenderClosingPages(d: Document, recs: seq<Record>, out: Document, starts: seq<Page>)
    requires Render(d, recs) == Done(out) && starts == SummaryPages(Summaries(recs))
    ensures |starts| <= |out.pages| && PagesBeginAt(out.pages, |out.pages| - |starts|, starts)
  {
    RenderFatal(d, recs);
    RenderStages(d, recs);
    Pass4EndsWithClosing(BeforeClosing(d, recs), recs, out, starts);
  }

  lemma PageAt(pages: seq<Page>, from: nat, starts: seq<Page>, k: nat)
    requires PagesBeginAt(pages, from, starts) && k < |starts|
    ensures from + k < |pages| && starts[k] <= pages[from + k]
  {
  }

  /** Page k of those a completed run adds begins with the opening cells of
      the k-th summary record: its title, its row texts and its date line. */
  lemma RenderOpeningPage(d: Document, recs: seq<Record>, out: Document, ps: seq<RecordP>, k: nat)
    requires Render(d, recs) == Done(out) && ps == Summaries(recs) && k < |ps|
    ensures |d.pages| + k < |out.pages| && StartDocumentCells(ps[k]) <= out.pages[|d.pages| + k]
  {
    RenderOpeningPages(d, recs, out, StartPages(ps));
    PageAt(out.pages, |d.pages|, StartPages(ps), k);
    StartPagesAt(ps, k);
  }

  /** The k-th detail record's page begins with the texts of all its rows. */
  lemma RenderDetailPage(d: Document, recs: seq<Record>, out: Document, ps: seq<RecordP>, qs: seq<RecordRQ>, k: nat)
    requires Render(d, recs) == Done(out) && ps == Summaries(recs) && qs == Details(recs) && k < |qs|
    ensures |d.pages| + |ps| + k < |out.pages| && Texts(qs[k].tabellaTesto) <= out.pages[|d.pages| + |ps| + k]
  {
    RenderDetailPages(d, recs, out, DetailPages(qs));
    PageAt(out.pages, |d.pages| + |ps|, DetailPages(qs), k);
    DetailPagesAt(qs, k);
  }

  /** The k-th of the last |ps| pages begins with the summary block of the
      k-th summary record. */
  lemma RenderClosingPage(d: Document, recs: seq<Record>, out: Document, ps: seq<RecordP>, k: nat)
    requires Render(d, recs) == Done(out) && ps == Summaries(recs) && k < |ps|
    ensures |ps| <= |out.pages| && SummaryCells(ps[k]) <= out.pages[|out.pages| - |ps| + k]
  {
    var starts := SummaryPages(ps);
    RenderClosingPages(d, recs, out, starts);
    PageAt(out.pages, |out.pages| - |starts|, starts, k);
    SummaryPagesAt(ps, k);
  }

  /** Pass 4 ends the document with the closing pages it opens. */
  lemma Pass4EndsWithClosing(b: Document, recs: seq<Record>, out: Document, starts: seq<Page>)
    requires out == Pass4(b, recs) && starts == SummaryPages(Summaries(recs))
    ensures |starts| <= |out.pages| && PagesBeginAt(out.pages, |out.pages| - |starts|, starts)
  {
    Pass4PageCount(b, recs);
    Pass4ClosingPages(b, recs, |out.pages| - |starts|);
  }

  /** One summary record followed by two detail records, no 'T' row: four
      pages, the opening page, one page per detail record, and the closing
      page holding the summary block and both table rows. */
  lemma OneSummaryTwoDetails(p: RecordP, q1: RecordRQ, q2: RecordRQ)
    requires !HasKind(q1.tabellaTesto, ForbiddenKind) && !HasKind(q2.tabellaTesto, ForbiddenKind)
    ensures var recs := [SummaryRecord(p), DetailRecord(q1), DetailRecord(q2)];
      Render(EmptyDocument, recs) == Done(Document([], [
        StartDocumentCells(p) + FirstPageTexts(recs),
        Texts(q1.tabellaTesto),
        Texts(q2.tabellaTesto),
        SummaryCells(p) + DetailCells(q1) + DetailCells(q2)]))
  {
    var recs := [SummaryRecord(p), DetailRecord(q1), DetailRecord(q2)];
    ScenarioRecords(p, q1, q2);
    RenderStages(EmptyDocument, recs);
    ScenarioRendered(p, q1, q2);
  }

  lemma ScenarioRendered(p: RecordP, q1: RecordRQ, q2: RecordRQ)
    requires !HasKind(q1.tabellaTesto, ForbiddenKind) && !HasKind(q2.tabellaTesto, ForbiddenKind)
    ensures var recs := [SummaryRecord(p), DetailRecord(q1), DetailRecord(q2)];
      Pass4(BeforeClosing(EmptyDocument, recs), recs) == Document([], [
        StartDocumentCells(p) + FirstPageTexts(recs),
        Texts(q1.tabellaTesto),
        Texts(q2.tabellaTesto),
        SummaryCells(p) + DetailCells(q1) + DetailCells(q2)])
  {
    var recs := [SummaryRecord(p), DetailRecord(q1), DetailRecord(q2)];
    ScenarioBeforeClosing(p, q1, q2);
    ScenarioClosing(StartDocumentCells(p) + FirstPageTexts(recs), Texts(q1.tabellaTesto), Texts(q2.tabellaTesto), p, q1, q2);
  }

  /** What passes 1 to 3 leave for pass 4 in the scenario. */
  lemma ScenarioBeforeClosing(p: RecordP, q1: RecordRQ, q2: RecordRQ)
    requires !HasKind(q1.tabellaTesto, ForbiddenKind) && !HasKind(q2.tabellaTesto, ForbiddenKind)
    ensures var recs := [SummaryRecord(p), DetailRecord(q1), DetailRecord(q2)];
      BeforeClosing(EmptyDocument, recs) == Document([], [
        StartDocumentCells(p) + FirstPageTexts(recs),
        Texts(q1.tabellaTesto),
        Texts(q2.tabellaTesto)])
  {
    var recs := [SummaryRecord(p), DetailRecord(q1), DetailRecord(q2)];
    ScenarioRecords(p, q1, q2);
    var first := StartDocumentCells(p) + FirstPageTexts(recs);
    var t1 := Texts(q1.tabellaTesto);
    var t2 := Texts(q2.tabellaTesto);
    ScenarioOpening(p, recs);
    assert DetailPages([q1, q2]) == [t1, t2] by {
      assert [q1, q2][1..] == [q2] && [q2][1..] == [];
    }
    assert [first] + [t1, t2] == [first, t1, t2];
  }

  lemma ScenarioRecords(p: RecordP, q1: RecordRQ, q2: RecordRQ)
    requires !HasKind(q1.tabellaTesto, ForbiddenKind) && !HasKind(q2.tabellaTesto, ForbiddenKind)
    ensures var recs := [SummaryRecord(p), DetailRecord(q1), DetailRecord(q2)];
      !HasRefused(recs) && Summaries(recs) == [p] && Details(recs) == [q1, q2]
  {
    var recs := [SummaryRecord(p), DetailRecord(q1), DetailRecord(q2)];
    var ds := [DetailRecord(q1), DetailRecord(q2)];
    RefusedSplit(recs);
    RefusedSplit(recs[1..]);
    RefusedSplit(recs[2..]);
    assert recs[3..] == [];
    assert recs[1..] == ds;
    OnlyDetails(ds);
    assert Summaries(recs) == [p] + Summaries(ds);
    assert Details(recs) == [] + Details(ds);
  }

  lemma ScenarioOpening(p: RecordP, recs: seq<Record>)
    requires Summaries(recs) == [p]
    ensures OpeningDocument(EmptyDocument, recs) == Document([], [StartDocumentCells(p) + FirstPageTexts(recs)])
  {
    assert StartPages([p]) == [StartDocumentCells(p)] by {
      assert [p][1..] == [];
    }
  }

  lemma ScenarioClosing(a: Page, b: Page, c: Page, p: RecordP, q1: RecordRQ, q2: RecordRQ)
    ensures Pass4(Document([], [a, b, c]), [SummaryRecord(p), DetailRecord(q1), DetailRecord(q2)]) ==
      Document([], [a, b, c, SummaryCells(p) + DetailCells(q1) + DetailCells(q2)])
  {
    var d3 := Document([], [a, b, c]);
    var ds := [DetailRecord(q1), DetailRecord(q2)];
    Pass4SummaryGroup(d3, [], p, ds);
    assert [] + [SummaryRecord(p)] + ds == [SummaryRecord(p), DetailRecord(q1), DetailRecord(q2)];
    assert Pass4(d3, []) == d3;
    OnlyDetails(ds);
    assert Details(ds) == [q1, q2];
    var c1 := DetailCells(q1);
    var c2 := DetailCells(q2);
    assert DetailRows([q1, q2]) == c1 + c2 by {
      assert [q1, q2][1..] == [q2] && [q2][1..] == [];
      assert DetailRows([q2]) == c2 + DetailRows([]);
      assert c2 + [] == c2;
    }
    assert SummaryCells(p) + (c1 + c2) == SummaryCells(p) + c1 + c2;
    assert [a, b, c] + [SummaryCells(p) + c1 + c2] == [a, b, c, SummaryCells(p) + c1 + c2];
  }

  /** The outcome of the whole program on one input file. */
  lemma RunOutcome(path: string, lines: seq<string>)
    ensures Run(path, lines).ParsePanic? <==> ParseAll(lines).Panic?
    ensures Run(path, lines).ParsePanic? ==> Run(path, lines).line == ParseAll(lines).line
    ensures Run(path, lines).FatalRow? <==> ParseAll(lines).Store? && HasRefused(ParseAll(lines).records)
    ensures Run(path, lines).FatalRow? ==> Run(path, lines).row.tipoRiga == ForbiddenKind
    ensures Run(path, lines).FatalRow? ==>
      ParseAll(lines).Store? && HasRefused(ParseAll(lines).records) &&
      Run(path, lines).row ==
        (if HasRefusedFirstPage(ParseAll(lines).records) then FirstPageRefusedRow(ParseAll(lines).records)
         else RefusedRow(ParseAll(lines).records))
    ensures Run(path, lines).Written? ==>
      Run(path, lines).fileName == PdfFileName(path) &&
      Render(EmptyDocument, ParseAll(lines).records) == Done(Run(path, lines).doc)
  {
    if ParseAll(lines).Store? {
      RenderFatal(EmptyDocument, ParseAll(lines).records);
    }
  }
}
