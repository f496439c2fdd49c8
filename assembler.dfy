/** The program as it runs: a PDF builder object whose page list the helper
    procedures extend call by call, the four passes over the record store,
    and the conversion of one input file. Every method is proved to leave
    the builder holding exactly the document the Layout functions describe. */
module Assembler {
  import opened Fields
  import opened Dates
  import opened Records
  import opened Paths
  import Layout

  /** The PDF builder (gofpdf.Fpdf) as the program observes it: the text
      cells of every page in order, and the cells written before any page
      exists. */
  class Pdf {
    var loose: seq<string>
    var pages: seq<Layout.Page>

    function Contents(): Layout.Document
      reads this
    {
      Layout.Document(loose, pages)
    }

    /** gofpdf.New: no page yet. */
    constructor ()
      ensures Contents() == Layout.EmptyDocument
    {
      loose := [];
      pages := [];
    }

    /** Fpdf.AddPage: a new, empty current page. */
    method AddPage()
      modifies this
      ensures Contents() == Layout.NewPage(old(Contents()))
    {
      pages := pages + [[]];
    }

    /** Fpdf.CellFormat: one text cell on the current page. */
    method CellFormat(text: string)
      modifies this
      ensures Contents() == Layout.Emit(old(Contents()), text)
    {
      if pages == [] {
        loose := loose + [text];
      } else {
        pages := pages[..|pages| - 1] + [pages[|pages| - 1] + [text]];
      }
    }
  }

  /** Whether a helper returned normally or hit log.Fatal on a row. */
  datatype Exit = Running | Stopped(row: RigaTesto)

  /** The outcome a helper's exit and the builder's contents stand for. */
  function Observed(exit: Exit, d: Layout.Document): Layout.Outcome {
    match exit
    case Running => Layout.Done(d)
    case Stopped(row) => Layout.Fatal(d, row)
  }

  /** CellFormat, carrying the cells written since `base`. */
  method Cell(pdf: Pdf, ghost base: Layout.Document, ghost written: seq<string>, text: string)
    requires pdf.Contents() == Layout.EmitAll(base, written)
    modifies pdf
    ensures pdf.Contents() == Layout.EmitAll(base, written + [text])
  {
    Layout.EmitAllAppend(base, written, [text]);
    pdf.CellFormat(text);
  }

  /** startDocument. */
  method StartDocument(pdf: Pdf, p: RecordP)
    modifies pdf
    ensures pdf.Contents() == Layout.StartDocument(old(pdf.Contents()), p)
  {
    ghost var base := Layout.NewPage(pdf.Contents());
    var rows := p.tabellaTesto;
    pdf.AddPage();
    Layout.EmitAllNothing(base);
    Cell(pdf, base, [], p.titolo);
    assert rows[..0] == [] && [] + [p.titolo] == [p.titolo] + Layout.Texts([]);
    for i := 0 to |rows|
      invariant pdf.Contents() == Layout.EmitAll(base, [p.titolo] + Layout.Texts(rows[..i]))
    {
      assert rows[..i + 1][..i] == rows[..i];
      assert [p.titolo] + Layout.Texts(rows[..i + 1]) == [p.titolo] + Layout.Texts(rows[..i]) + [rows[i].testo];
      Cell(pdf, base, [p.titolo] + Layout.Texts(rows[..i]), rows[i].testo);
    }
    assert rows[..|rows|] == rows;
    Cell(pdf, base, [p.titolo] + Layout.Texts(rows), "Li, " + FormatDate(p.dataRicezione));
  }

  /** addInFirstPage: the texts of the rows of kind 'P' on the current page;
      a row of kind 'T' stops the program. */
  method AddInFirstPage(pdf: Pdf, rq: RecordRQ) returns (exit: Exit)
    modifies pdf
    ensures Observed(exit, pdf.Contents()) == Layout.AddInFirstPage(old(pdf.Contents()), rq)
  {
    var rows := rq.tabellaTesto;
    for i := 0 to |rows|
      invariant Layout.AddInFirstPage(old(pdf.Contents()), rq) ==
        Layout.FirstPageRows(pdf.Contents(), rows[i..])
    {
      var t := rows[i];
      assert rows[i..][0] == t && rows[i..][1..] == rows[i + 1..];
      if t.tipoRiga == ForbiddenKind {
        return Stopped(t);
      }
      if t.tipoRiga == FirstPageKind {
        pdf.CellFormat(t.testo);
      }
    }
    assert rows[|rows|..] == [];
    exit := Running;
  }

  /** addPage: a new page with the texts of all rows; a row of kind 'T'
      stops the program. */
  method AddPage(pdf: Pdf, rq: RecordRQ) returns (exit: Exit)
    modifies pdf
    ensures Observed(exit, pdf.Contents()) == Layout.AddPage(old(pdf.Contents()), rq)
  {
    var rows := rq.tabellaTesto;
    pdf.AddPage();
    for i := 0 to |rows|
      invariant Layout.AddPage(old(pdf.Contents()), rq) == Layout.PageRows(pdf.Contents(), rows[i..])
    {
      var t := rows[i];
      assert rows[i..][0] == t && rows[i..][1..] == rows[i + 1..];
      if t.tipoRiga == ForbiddenKind {
        return Stopped(t);
      }
      pdf.CellFormat(t.testo);
    }
    assert rows[|rows|..] == [];
    exit := Running;
  }

  /** addLastPage: a new page with the summary block and the table header. */
  method AddLastPage(pdf: Pdf, p: RecordP)
    modifies pdf
    ensures pdf.Contents() == Layout.AddLastPage(old(pdf.Contents()), p)
  {
    ghost var base := Layout.NewPage(pdf.Contents());
    ghost var head := ["ELENCO DEI DOCUMENTI ACQUISITI E/O SCARTATI",
      "PROTOCOLLO DI RICEZIONE:", p.header.protocolloTelematico,
      "NOME DEL FILE:", p.nomeFileLungo, "TIPO DOCUMENTO:"];
    ghost var caption := Layout.DocTypeCaption(p.codiceFornitura);
    ghost var tail := ["DOCUMENTI ACQUISITI:", Itoa(p.totaleDocumentiAccolti),
      "DOCUMENTI SCARTATI:", Itoa(p.totaleDocumentiRespinti),
      "Esito", "Protocollo Documenti", "Codice Fiscale", "Denominazione"];
    pdf.AddPage();
    // the summary block
    Layout.EmitAllNothing(base);
    ghost var w: seq<string> := [];
    Cell(pdf, base, w, "ELENCO DEI DOCUMENTI ACQUISITI E/O SCARTATI");
    w := w + ["ELENCO DEI DOCUMENTI ACQUISITI E/O SCARTATI"];
    Cell(pdf, base, w, "PROTOCOLLO DI RICEZIONE:");
    w := w + ["PROTOCOLLO DI RICEZIONE:"];
    Cell(pdf, base, w, p.header.protocolloTelematico);
    w := w + [p.header.protocolloTelematico];
    Cell(pdf, base, w, "NOME DEL FILE:");
    w := w + ["NOME DEL FILE:"];
    Cell(pdf, base, w, p.nomeFileLungo);
    w := w + [p.nomeFileLungo];
    Cell(pdf, base, w, "TIPO DOCUMENTO:");
    w := w + ["TIPO DOCUMENTO:"];
    assert w == head;
    // the document type, for F24 supplies only
    ghost var base2 := pdf.Contents();
    Layout.EmitAllNothing(base2);
    if p.codiceFornitura == Layout.F24SupplyCode {
      Cell(pdf, base2, [], "Esito versamento F24");
      assert [] + ["Esito versamento F24"] == caption;
    } else {
      assert caption == [];
    }
    // the counts and the header of the table
    ghost var base3 := pdf.Contents();
    Layout.EmitAllNothing(base3);
    w := [];
    Cell(pdf, base3, w, "DOCUMENTI ACQUISITI:");
    w := w + ["DOCUMENTI ACQUISITI:"];
    Cell(pdf, base3, w, Itoa(p.totaleDocumentiAccolti));
    w := w + [Itoa(p.totaleDocumentiAccolti)];
    Cell(pdf, base3, w, "DOCUMENTI SCARTATI:");
    w := w + ["DOCUMENTI SCARTATI:"];
    Cell(pdf, base3, w, Itoa(p.totaleDocumentiRespinti));
    w := w + [Itoa(p.totaleDocumentiRespinti)];
    Cell(pdf, base3, w, "Esito");
    w := w + ["Esito"];
    Cell(pdf, base3, w, "Protocollo Documenti");
    w := w + ["Protocollo Documenti"];
    Cell(pdf, base3, w, "Codice Fiscale");
    w := w + ["Codice Fiscale"];
    Cell(pdf, base3, w, "Denominazione");
    w := w + ["Denominazione"];
    assert w == tail;
    Layout.EmitAllAppend(base, head, caption);
    Layout.EmitAllAppend(base, head + caption, tail);
    assert Layout.SummaryCells(p) == head + caption + tail;
  }

  /** addInLastPageDetails: one table row on the current page. */
  method AddInLastPageDetails(pdf: Pdf, rq: RecordRQ)
    modifies pdf
    ensures pdf.Contents() == Layout.AddInLastPageDetails(old(pdf.Contents()), rq)
  {
    ghost var base := pdf.Contents();
    var esito: string;
    if rq.header.tipoRecord == AcceptedType {
      esito := "acquisito";
    } else {
      esito := "scartato";
    }
    Layout.EmitAllNothing(base);
    ghost var w: seq<string> := [];
    Cell(pdf, base, w, esito);
    w := w + [esito];
    Cell(pdf, base, w, rq.progressivoProtocollo);
    w := w + [rq.progressivoProtocollo];
    Cell(pdf, base, w, rq.codiceFiscalePartitaIva);
    w := w + [rq.codiceFiscalePartitaIva];
    Cell(pdf, base, w, rq.denominazione);
    w := w + [rq.denominazione];
    assert w == Layout.DetailCells(rq);
  }

  /** Pass 1: the opening page of every summary record. */
  method StartDocuments(pdf: Pdf, records: seq<Record>)
    modifies pdf
    ensures pdf.Contents() == Layout.Pass1(old(pdf.Contents()), records)
  {
    for i := 0 to |records|
      invariant Layout.Pass1(old(pdf.Contents()), records) == Layout.Pass1(pdf.Contents(), records[i..])
    {
      assert records[i..][0] == records[i] && records[i..][1..] == records[i + 1..];
      if records[i].SummaryRecord? {
        StartDocument(pdf, records[i].p);
      }
    }
    assert records[|records|..] == [];
  }

  /** Pass 2: the first-page rows of every detail record that asks for them. */
  method FillFirstPages(pdf: Pdf, records: seq<Record>) returns (exit: Exit)
    modifies pdf
    ensures Observed(exit, pdf.Contents()) == Layout.Pass2(old(pdf.Contents()), records)
  {
    for i := 0 to |records|
      invariant Layout.Pass2(old(pdf.Contents()), records) == Layout.Pass2(pdf.Contents(), records[i..])
    {
      assert records[i..][0] == records[i] && records[i..][1..] == records[i + 1..];
      if records[i].DetailRecord? && records[i].rq.primaPagina {
        var e := AddInFirstPage(pdf, records[i].rq);
        if e.Stopped? {
          return e;
        }
      }
    }
    assert records[|records|..] == [];
    exit := Running;
  }

  /** Pass 3: one page per detail record. */
  method AddDetailPages(pdf: Pdf, records: seq<Record>) returns (exit: Exit)
    modifies pdf
    ensures Observed(exit, pdf.Contents()) == Layout.Pass3(old(pdf.Contents()), records)
  {
    for i := 0 to |records|
      invariant Layout.Pass3(old(pdf.Contents()), records) == Layout.Pass3(pdf.Contents(), records[i..])
    {
      assert records[i..][0] == records[i] && records[i..][1..] == records[i + 1..];
      if records[i].DetailRecord? {
        var e := AddPage(pdf, records[i].rq);
        if e.Stopped? {
          return e;
        }
      }
    }
    assert records[|records|..] == [];
    exit := Running;
  }

  /** Pass 4: the closing page of every summary record and, on the page
      current at that point, one table row per detail record. */
  method CloseDocuments(pdf: Pdf, records: seq<Record>)
    modifies pdf
    ensures pdf.Contents() == Layout.Pass4(old(pdf.Contents()), records)
  {
    for i := 0 to |records|
      invariant Layout.Pass4(old(pdf.Contents()), records) == Layout.Pass4(pdf.Contents(), records[i..])
    {
      assert records[i..][0] == records[i] && records[i..][1..] == records[i + 1..];
      match records[i] {
        case SummaryRecord(p) => AddLastPage(pdf, p);
        case DetailRecord(rq) => AddInLastPageDetails(pdf, rq);
      }
    }
    assert records[|records|..] == [];
  }

  /** The four passes over the record store, in the program's order; a
      fatal row ends the run. */
  method Assemble(pdf: Pdf, records: seq<Record>) returns (exit: Exit)
    modifies pdf
    ensures Observed(exit, pdf.Contents()) == Layout.Render(old(pdf.Contents()), records)
  {
    StartDocuments(pdf, records);
    exit := FillFirstPages(pdf, records);
    if exit.Stopped? {
      return;
    }
    exit := AddDetailPages(pdf, records);
    if exit.Stopped? {
      return;
    }
    CloseDocuments(pdf, records);
  }

  /** The program on one input file: read the records, render them into a
      fresh builder, and name the output after the input. */
  method Convert(path: string, lines: seq<string>) returns (result: Layout.RunResult)
    ensures result == Layout.Run(path, lines)
  {
    var store := ParseLines(lines);
    match store {
      case Panic(i) =>
        result := Layout.ParsePanic(i);
      case Store(records) =>
        var pdf := new Pdf();
        var exit := Assemble(pdf, records);
        match exit {
          case Stopped(row) =>
            result := Layout.FatalRow(row);
          case Running =>
            result := Layout.Written(PdfFileName(path), pdf.Contents());
        }
    }
  }
}
