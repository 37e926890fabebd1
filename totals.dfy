/** The arithmetic of a shift closing: the totals a submission computes and
    writes into the attendant's child closing, the fold that recomputes the
    parent closing's aggregate, the credit-note lines, and the row mapping of
    the attendant's history screen. */
module Totals {
  import opened Common
  import opened Rows

  /** `totalInformado`: the seven payment inputs added up. */
  function TotalInformado(d: SubmitClosingData): int
  {
    d.debito + d.credito + d.nota + d.pix + d.dinheiro + d.moedas + d.baratao
  }

  /** The columns a submission writes into the child closing. The stored
      breakdown accounts for the declared total except for the coins, which
      have no column; the checked amount plus the shortage and the meter
      reading minus the variance both give the declared total back. */
  function ChildValuesOf(d: SubmitClosingData): (v: ChildValues)
    ensures v.valorCartao == v.debito + v.credito
    ensures v.valorCartao + v.nota + v.pix + v.dinheiro + v.baratao + d.moedas == TotalInformado(d)
    ensures v.conferido + d.faltaCaixa == TotalInformado(d)
    ensures v.encerrante - v.diferencaCalculada == TotalInformado(d)
    ensures v.debito == d.debito && v.credito == d.credito && v.nota == d.nota && v.pix == d.pix
    ensures v.dinheiro == d.dinheiro && v.baratao == d.baratao && v.encerrante == d.encerrante
    ensures v.observacoes.None? <==> d.observacoes == ""
    ensures v.observacoes.Some? ==> v.observacoes.value == d.observacoes
  {
    var total := TotalInformado(d);
    ChildValues(
      valorCartao := d.debito + d.credito,
      debito := d.debito,
      credito := d.credito,
      nota := d.nota,
      pix := d.pix,
      dinheiro := d.dinheiro,
      conferido := total - d.faltaCaixa,
      baratao := d.baratao,
      encerrante := d.encerrante,
      diferencaCalculada := d.encerrante - total,
      observacoes := if d.observacoes == "" then None else Some(d.observacoes))
  }

  /** The amount columns of `row` hold the values `v` (the notes aside). */
  predicate Written(row: FechamentoFrentista, v: ChildValues)
  {
    && row.valorCartao == Some(v.valorCartao)
    && row.debito == Some(v.debito)
    && row.credito == Some(v.credito)
    && row.nota == Some(v.nota)
    && row.pix == Some(v.pix)
    && row.dinheiro == Some(v.dinheiro)
    && row.conferido == Some(v.conferido)
    && row.baratao == Some(v.baratao)
    && row.encerrante == Some(v.encerrante)
    && row.diferencaCalculada == Some(v.diferencaCalculada)
  }

  // ---------------------------------------------------------------------
  // The parent's aggregate.

  /** What one child closing contributes to the parent's `total_recebido`:
      debit, credit, notes, PIX and cash, a null column counting as 0. */
  function Received(c: FechamentoFrentista): int
  {
    OrZero(c.debito) + OrZero(c.credito) + OrZero(c.nota) + OrZero(c.pix) + OrZero(c.dinheiro)
  }

  /** The reference sum of `Received` over a list of children. */
  function SumReceived(rows: seq<FechamentoFrentista>): int
  {
    if |rows| == 0 then 0 else Received(rows[0]) + SumReceived(rows[1..])
  }

  /** The `reduce` the source runs: a left fold from the accumulator `acc`. */
  function ReduceReceived(acc: int, rows: seq<FechamentoFrentista>): int
    decreases |rows|
  {
    if |rows| == 0 then acc else ReduceReceived(acc + Received(rows[0]), rows[1..])
  }

  /** The fold computes the reference sum. */
  lemma {:induction false} ReduceIsSum(acc: int, rows: seq<FechamentoFrentista>)
    ensures ReduceReceived(acc, rows) == acc + SumReceived(rows)
    decreases |rows|
  {
    if |rows| > 0 {
      ReduceIsSum(acc + Received(rows[0]), rows[1..]);
    }
  }

  lemma {:induction false} SumReceivedConcat(a: seq<FechamentoFrentista>, b: seq<FechamentoFrentista>)
    ensures SumReceived(a + b) == SumReceived(a) + SumReceived(b)
  {
    if |a| == 0 {
      assert a + b == b;
    } else {
      assert (a + b)[1..] == a[1..] + b;
      SumReceivedConcat(a[1..], b);
    }
  }

  /** The aggregate does not depend on the order the backend returns the
      children in: any permutation gives the same sum. */
  lemma {:induction false} SumReceivedPermutation(a: seq<FechamentoFrentista>, b: seq<FechamentoFrentista>)
    requires multiset(a) == multiset(b)
    ensures SumReceived(a) == SumReceived(b)
    decreases |a|
  {
    if |a| == 0 {
      assert |b| == |multiset(b)| == 0;
    } else {
      var x := a[0];
      assert x in multiset(b);
      var i :| 0 <= i < |b| && b[i] == x;
      var rest := b[..i] + b[i + 1..];
      assert b == b[..i] + [x] + b[i + 1..];
      assert a == [x] + a[1..];
      assert multiset(b) == multiset(b[..i]) + multiset([x]) + multiset(b[i + 1..]);
      assert multiset(a) == multiset([x]) + multiset(a[1..]);
      assert multiset(rest) == multiset(b[..i]) + multiset(b[i + 1..]);
      assert multiset(a[1..]) == multiset(a) - multiset{x};
      assert multiset(rest) == multiset(b) - multiset{x};
      SumReceivedPermutation(a[1..], rest);
      SumReceivedConcat(b[..i] + [x], b[i + 1..]);
      SumReceivedConcat(b[..i], [x]);
      SumReceivedConcat(b[..i], b[i + 1..]);
    }
  }

  /** `totalVendasManual || currentShift?.total_vendas || 0`. */
  function TotalVendas(manual: int, stored: Option<int>): int
  {
    if manual != 0 then manual else OrZero(stored)
  }

  // ---------------------------------------------------------------------
  // Credit-note lines.

  /** The `NotaFrentista` rows a submission inserts for its credit notes: one
      pending line per entry, dated with the closing's date, pointing at the
      child closing, with consecutive ids from `firstId`. */
  function NotaLines(firstId: int, notas: seq<NotaInput>, childId: int, frentistaId: int, postoId: int, data: string): (r: seq<NotaFrentista>)
    ensures |r| == |notas|
    ensures forall i :: 0 <= i < |r| ==> r[i].id == firstId + i
    ensures forall i :: 0 <= i < |r| ==> r[i].clienteId == notas[i].clienteId && r[i].valor == notas[i].valor
    ensures forall i :: 0 <= i < |r| ==>
      r[i].fechamentoFrentistaId == childId && r[i].frentistaId == frentistaId && r[i].postoId == postoId
    ensures forall i :: 0 <= i < |r| ==> r[i].status == "pendente" && r[i].data == data
    decreases |notas|
  {
    if |notas| == 0 then []
    else
      [NotaFrentista(firstId, childId, frentistaId, notas[0].clienteId, notas[0].valor, postoId, "pendente", data)]
      + NotaLines(firstId + 1, notas[1..], childId, frentistaId, postoId, data)
  }

  // ---------------------------------------------------------------------
  // The history screen (`getHistorico`).

  datatype Status = Ok | Divergente

  datatype HistoricoItem = HistoricoItem(
    id: int,
    data: string,
    turno: string,
    totalInformado: int,
    encerrante: int,
    diferenca: int,
    status: Status,
    observacoes: Option<string>)

  /** The parent closing embedded in a history row: its date and, by alias,
      the name of its shift. */
  datatype ParentEmbed = ParentEmbed(data: string, embeds: map<string, string>)

  /** A history row as the backend returns it: the child closing's columns
      and, by alias, its embedded parent. */
  datatype HistoricoRow = HistoricoRow(row: FechamentoFrentista, embeds: map<string, ParentEmbed>)

  /** The aliases the history query gives the embedded parent and shift. */
  const ParentAlias := "fechamento"
  const ShiftAlias := "turno"

  /** The history row the query returns for a child whose parent has date
      `data` and whose shift is named `nome`. */
  function Joined(row: FechamentoFrentista, data: string, nome: string): HistoricoRow
  {
    HistoricoRow(row, map[ParentAlias := ParentEmbed(data, map[ShiftAlias := nome])])
  }

  /** `totalInformado` of a history row: card, notes, PIX and cash. */
  function HistoricoTotal(row: FechamentoFrentista): int
  {
    OrZero(row.valorCartao) + OrZero(row.nota) + OrZero(row.pix) + OrZero(row.dinheiro)
  }

  /** The card total shown: the stored card total, or debit plus credit when it is 0. */
  function CartaoReal(row: FechamentoFrentista): int
  {
    if OrZero(row.valorCartao) != 0 then OrZero(row.valorCartao) else OrZero(row.debito) + OrZero(row.credito)
  }

  function TotalCorrigido(row: FechamentoFrentista): int
  {
    CartaoReal(row) + OrZero(row.nota) + OrZero(row.pix) + OrZero(row.dinheiro)
  }

  function ObservacoesShown(row: FechamentoFrentista): Option<string>
  {
    if row.observacoes.Some? && row.observacoes.value != "" then row.observacoes else None
  }

  /** The history mapping as the source writes it. It reads the embedded
      parent and shift under the keys "Fechamento" and "Turno", and it falls
      back to recomputing the variance whenever the stored one is 0. */
  function HistoricoItemAsWritten(j: HistoricoRow): HistoricoItem
  {
    var row := j.row;
    var encerrante := OrZero(row.encerrante);
    var diferenca := if OrZero(row.diferencaCalculada) != 0 then OrZero(row.diferencaCalculada)
                     else encerrante - HistoricoTotal(row);
    var parent := if "Fechamento" in j.embeds then Some(j.embeds["Fechamento"]) else None;
    var data := if parent.Some? then parent.value.data else "";
    var turno := if parent.Some? && "Turno" in parent.value.embeds && parent.value.embeds["Turno"] != ""
                 then parent.value.embeds["Turno"] else "N/A";
    HistoricoItem(row.id, data, turno, TotalCorrigido(row), encerrante, diferenca,
      if diferenca == 0 then Ok else Divergente, ObservacoesShown(row))
  }

  /** The history mapping as intended: the parent and shift are read under
      the query's own aliases, and a stored variance is used whenever it is
      present, 0 included. */
  function HistoricoItemOf(j: HistoricoRow): HistoricoItem
  {
    var row := j.row;
    var encerrante := OrZero(row.encerrante);
    var diferenca := if row.diferencaCalculada.Some? then row.diferencaCalculada.value
                     else encerrante - HistoricoTotal(row);
    var parent := if ParentAlias in j.embeds then Some(j.embeds[ParentAlias]) else None;
    var data := if parent.Some? then parent.value.data else "";
    var turno := if parent.Some? && ShiftAlias in parent.value.embeds && parent.value.embeds[ShiftAlias] != ""
                 then parent.value.embeds[ShiftAlias] else "N/A";
    HistoricoItem(row.id, data, turno, TotalCorrigido(row), encerrante, diferenca,
      if diferenca == 0 then Ok else Divergente, ObservacoesShown(row))
  }

  /** `getHistorico`'s mapping over the rows the query returns. */
  function Historico(rows: seq<HistoricoRow>): (r: seq<HistoricoItem>)
    ensures |r| == |rows|
    ensures forall i :: 0 <= i < |r| ==> r[i] == HistoricoItemOf(rows[i])
  {
    if |rows| == 0 then [] else [HistoricoItemOf(rows[0])] + Historico(rows[1..])
  }

  /** As written, every history item loses its date and its shift name. */
  lemma AsWrittenLosesDateAndShift(row: FechamentoFrentista, data: string, nome: string)
    ensures HistoricoItemAsWritten(Joined(row, data, nome)).data == ""
    ensures HistoricoItemAsWritten(Joined(row, data, nome)).turno == "N/A"
  {
    assert "Fechamento" != ParentAlias by {
      assert "Fechamento"[0] != ParentAlias[0];
    }
  }

  /** As intended, the item shows the parent's date and the shift's name. */
  lemma HistoricoShowsDateAndShift(row: FechamentoFrentista, data: string, nome: string)
    ensures HistoricoItemOf(Joined(row, data, nome)).data == data
    ensures HistoricoItemOf(Joined(row, data, nome)).turno == if nome == "" then "N/A" else nome
  {
  }

  /** As written, a balanced submission (meter reading equal to the declared
      total) shows in the history with the coins and voucher as its variance. */
  lemma AsWrittenBalancedShowsCoins(d: SubmitClosingData, j: HistoricoRow)
    requires Written(j.row, ChildValuesOf(d))
    requires d.encerrante == TotalInformado(d)
    ensures HistoricoItemAsWritten(j).diferenca == d.moedas + d.baratao
    ensures d.moedas + d.baratao != 0 ==> HistoricoItemAsWritten(j).status == Divergente
  {
  }

  /** A concrete case: debit 100.00, coins 10.00, meter reading 110.00. */
  lemma AsWrittenBalancedExample(j: HistoricoRow)
    requires Written(j.row, ChildValuesOf(SubmitClosingData("2025-01-10", 1, 10000, 0, 0, 0, 0, 1000, 0, 11000, 0, "", 1, 0, [])))
    ensures HistoricoItemAsWritten(j).status == Divergente
    ensures HistoricoItemAsWritten(j).diferenca == 1000
  {
    var d := SubmitClosingData("2025-01-10", 1, 10000, 0, 0, 0, 0, 1000, 0, 11000, 0, "", 1, 0, []);
    AsWrittenBalancedShowsCoins(d, j);
  }

  /** As intended, the history of a row a submission wrote shows that
      submission's variance, and shows it balanced exactly when it was. */
  lemma HistoricoReflectsSubmission(d: SubmitClosingData, j: HistoricoRow)
    requires Written(j.row, ChildValuesOf(d))
    ensures HistoricoItemOf(j).encerrante == d.encerrante
    ensures HistoricoItemOf(j).diferenca == d.encerrante - TotalInformado(d)
    ensures HistoricoItemOf(j).status == Ok <==> d.encerrante == TotalInformado(d)
    ensures HistoricoItemOf(j).totalInformado == TotalInformado(d) - d.moedas - d.baratao
  {
  }
}
