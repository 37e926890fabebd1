/** The backend tables as one mutable object, and the service calls of the
    closing workflow as methods that write into it step by step, in the
    order the services do. Each method is proved to leave the object in the
    state, and to return the value, that the corresponding function of
    `Backend` or `Submission` computes from the state before the call. */
module Api {
  import opened Common
  import opened Rows
  import opened Totals
  import Backend
  import opened Submission

  class Database {
    var usuarios: seq<Usuario>
    var frentistas: seq<Frentista>
    var fechamentos: seq<Fechamento>
    var children: seq<FechamentoFrentista>
    var notas: seq<NotaFrentista>
    var produtos: seq<Produto>
    var vendas: seq<VendaProduto>
    var movimentacoes: seq<Movimentacao>
    var nextId: int

    /** The tables as a value. */
    function Snapshot(): Backend.Tables
      reads this
    {
      Backend.Tables(usuarios, frentistas, fechamentos, children, notas, produtos, vendas, movimentacoes, nextId)
    }

    /** The identity columns are consistent (`Backend.WellFormed`): a
        backend built from well-formed tables has it, and every method keeps
        it (the child insert, for a parent id already handed out). */
    ghost predicate Valid()
      reads this
    {
      Backend.WellFormed(Snapshot())
    }

    /** A backend holding the tables `t`. */
    constructor (t: Backend.Tables)
      ensures Snapshot() == t
      ensures Valid() <==> Backend.WellFormed(t)
    {
      usuarios, frentistas, fechamentos, children := t.usuarios, t.frentistas, t.fechamentos, t.children;
      notas, produtos, vendas, movimentacoes := t.notas, t.produtos, t.vendas, t.movimentacoes;
      nextId := t.nextId;
    }

    /** `fechamentoService.getOrCreate`. */
    method GetOrCreate(data: string, turnoId: int, usuarioId: Option<int>, totalRecebido: int, totalVendas: int,
                       postoId: int, searchFails: bool, insertError: Option<string>) returns (r: Result<Fechamento>)
      modifies this`fechamentos, this`nextId
      ensures Backend.Step(r, Snapshot()) ==
        Backend.GetOrCreate(old(Snapshot()), data, turnoId, usuarioId, totalRecebido, totalVendas, postoId,
                            searchFails, insertError)
      ensures old(Valid()) ==> Valid()
    {
      var found := if searchFails then None else Backend.FindClosing(fechamentos, data, turnoId, postoId);
      if found.Some? {
        return Success(found.value);
      }
      if insertError.Some? {
        return Failure(Backend.CreateClosingError + insertError.value);
      }
      var row := Fechamento(nextId, data, usuarioId, turnoId, Backend.Fechado, Some(totalVendas),
                            Some(totalRecebido), Some(totalRecebido - totalVendas), None, postoId);
      fechamentos := fechamentos + [row];
      nextId := nextId + 1;
      r := Success(row);
    }

    /** `fechamentoService.updateTotals`. */
    method UpdateTotals(fid: int, manual: int, obs: Option<string>, readError: Option<string>,
                        currentReadFails: bool, updateError: Option<string>) returns (r: Result<()>)
      modifies this`fechamentos
      ensures Backend.Step(r, Snapshot()) ==
        Backend.UpdateTotals(old(Snapshot()), fid, manual, obs, readError, currentReadFails, updateError)
      ensures old(Valid()) ==> Valid()
    {
      if readError.Some? {
        return Failure(Backend.ReadChildrenError + readError.value);
      }
      var recebido := ReduceReceived(0, Where(children, ParentOf, fid));
      var current := if currentReadFails then None else Single(fechamentos, ClosingIdOf, fid);
      var vendas := TotalVendas(manual, if current.Some? then current.value.totalVendas else None);
      if updateError.Some? {
        return Failure(Backend.UpdateClosingError + updateError.value);
      }
      fechamentos := Backend.WithTotals(fechamentos, fid, recebido, vendas, obs);
      r := Success(());
    }

    /** `fechamentoFrentistaService.create`. */
    method CreateChild(fid: int, frid: int, postoId: int, v: ChildValues, writeError: Option<string>)
      returns (r: Result<FechamentoFrentista>)
      modifies this`children, this`nextId
      ensures Backend.Step(r, Snapshot()) == Backend.CreateChild(old(Snapshot()), fid, frid, postoId, v, writeError)
      ensures old(Valid()) && fid < old(nextId) ==> Valid()
    {
      if writeError.Some? {
        return Failure(Backend.CreateChildError + writeError.value);
      }
      var row := FechamentoFrentista(nextId, fid, frid, postoId,
        Some(v.valorCartao), Some(v.debito), Some(v.credito), Some(v.nota), Some(v.pix),
        Some(v.dinheiro), Some(v.conferido), Some(v.baratao), Some(v.encerrante),
        Some(v.diferencaCalculada), v.observacoes);
      children := children + [row];
      nextId := nextId + 1;
      r := Success(row);
    }

    /** `fechamentoFrentistaService.update`. */
    method UpdateChild(id: int, v: ChildValues, writeError: Option<string>) returns (r: Result<FechamentoFrentista>)
      modifies this`children
      ensures Backend.Step(r, Snapshot()) == Backend.UpdateChild(old(Snapshot()), id, v, writeError)
      ensures old(Valid()) ==> Valid()
    {
      if writeError.Some? {
        return Failure(Backend.UpdateChildError + writeError.value);
      }
      var m := Single(children, ChildIdOf, id);
      if m.None? {
        return Failure(Backend.UpdateChildError + Backend.SingleRowError);
      }
      children := Backend.Overwritten(children, id, v);
      r := Success(Backend.OverwriteOf(id, v)(m.value));
    }

    /** The credit-note insert of a submission. */
    method InsertNotas(lines: seq<NotaInput>, childId: int, frentistaId: int, postoId: int, data: string, fails: bool)
      modifies this`notas, this`nextId
      ensures Snapshot() == Backend.InsertNotas(old(Snapshot()), lines, childId, frentistaId, postoId, data, fails)
      ensures old(Valid()) ==> Valid()
    {
      if !fails {
        notas := notas + NotaLines(nextId, lines, childId, frentistaId, postoId, data);
        nextId := nextId + |lines|;
      }
    }

    /** `frentistaService.update(id, { turno_id })`. */
    method SetFrentistaTurno(id: int, turnoId: int, fails: bool)
      modifies this`frentistas
      ensures Snapshot() == Backend.SetFrentistaTurno(old(Snapshot()), id, turnoId, fails)
      ensures old(Valid()) ==> Valid()
    {
      if !fails {
        frentistas := MapSeq(frentistas, Backend.TurnoOf(id, turnoId));
      }
    }

    /** `submitMobileClosing`: the attendant, the parent closing, the child
        closing, the notes, the aggregate and the attendant's shift, in that
        order; the first thrown error is caught and reported. */
    method SubmitMobileClosing(d: SubmitClosingData, auth: Option<AuthUser>, faults: SubmitFaults)
      returns (outcome: Outcome)
      modifies this
      ensures outcome == Submit(old(Snapshot()), d, auth, faults).outcome
      ensures Snapshot() == Submit(old(Snapshot()), d, auth, faults).tables
      ensures old(Valid()) ==> Valid()
    {
      var usuarioId := ResolveUsuario(usuarios, auth, faults);
      var frentista := ResolveFrentista(frentistas, d.frentistaId, auth, faults.frentistaRead);
      if frentista.Failure? {
        return Outcome(false, frentista.error, None);
      }
      var fr := frentista.value;
      var total := TotalInformado(d);
      var fechamento := GetOrCreate(d.data, d.turnoId, usuarioId, total, total, fr.postoId,
                                    faults.closingSearch, faults.closingInsert);
      if fechamento.Failure? {
        return Failed(fechamento.error);
      }
      outcome := WriteClosing(d, fechamento.value, fr, faults);
    }

    /** The rest of a submission once the parent closing `f` is known: the
        child closing of the attendant `fr` is updated when one is found and
        created otherwise. */
    method WriteClosing(d: SubmitClosingData, f: Fechamento, fr: Frentista, faults: SubmitFaults)
      returns (outcome: Outcome)
      modifies this
      ensures outcome == WriteChild(old(Snapshot()), d, f, fr, faults).outcome
      ensures Snapshot() == WriteChild(old(Snapshot()), d, f, fr, faults).tables
      ensures old(Valid()) && f.id < old(nextId) ==> Valid()
    {
      var existing := if faults.childLookup then None else Backend.FindChild(children, f.id, fr.id);
      var child;
      if Truthy(existing) {
        child := UpdateChild(existing.value, ChildValuesOf(d), faults.childWrite);
      } else {
        child := CreateChild(f.id, fr.id, d.postoId, ChildValuesOf(d), faults.childWrite);
      }
      if child.Failure? {
        return Failed(child.error);
      }
      outcome := FinishClosing(d, f, fr, child.value.id, Truthy(existing), faults);
    }

    /** The last writes of a submission once the child closing `childId` is
        stored: the credit notes, the aggregate of the parent closing and
        the attendant's current shift. */
    method FinishClosing(d: SubmitClosingData, f: Fechamento, fr: Frentista, childId: int, updated: bool,
                         faults: SubmitFaults) returns (outcome: Outcome)
      modifies this
      ensures outcome == Finish(old(Snapshot()), d, f, fr, childId, updated, faults).outcome
      ensures Snapshot() == Finish(old(Snapshot()), d, f, fr, childId, updated, faults).tables
      ensures old(Valid()) ==> Valid()
    {
      ghost var c := Snapshot();
      if |d.notas| > 0 {
        InsertNotas(d.notas, childId, fr.id, fr.postoId, d.data, faults.notasInsert);
      }
      var totals := UpdateTotals(f.id, OrZero(f.totalVendas), Some(d.observacoes),
                                 faults.childrenRead, faults.closingRead, faults.closingUpdate);
      assert Backend.Step(totals, Snapshot()) == Settle(c, d, f, fr, childId, faults);
      if totals.Failure? {
        return Failed(totals.error);
      }
      SetFrentistaTurno(fr.id, d.turnoId, faults.frentistaUpdate);
      outcome := Outcome(true, if updated then UpdatedMessage else SentMessage, Some(f.id));
    }

    /** `vendaProdutoService.create`. */
    method CreateVenda(frentistaId: int, produtoId: int, quantidade: int, valorUnitario: int, postoId: int,
                       faults: Backend.VendaFaults) returns (r: Result<VendaProduto>)
      modifies this`vendas, this`produtos, this`movimentacoes, this`nextId
      ensures Backend.Step(r, Snapshot()) ==
        Backend.CreateVenda(old(Snapshot()), frentistaId, produtoId, quantidade, valorUnitario, postoId, faults)
      ensures old(Valid()) ==> Valid()
    {
      if faults.insert.Some? {
        return Failure(faults.insert.value);
      }
      var venda := Backend.VendaOf(nextId, frentistaId, produtoId, quantidade, valorUnitario, postoId);
      vendas := vendas + [venda];
      nextId := nextId + 1;
      var produto := if faults.produtoRead then None else Single(produtos, ProdutoIdOf, produtoId);
      UpdateStock(venda, produto, faults);
      r := Success(venda);
    }

    /** The stock side of the sale `venda`, given the product row read for
        it, as `Backend.UpdateStock`. */
    method UpdateStock(venda: VendaProduto, produto: Option<Produto>, faults: Backend.VendaFaults)
      modifies this`produtos, this`movimentacoes, this`nextId
      ensures Snapshot() == Backend.UpdateStock(old(Snapshot()), venda, produto, faults)
      ensures old(Valid()) ==> Valid()
    {
      if produto.Some? {
        var newStock := OrZero(produto.value.estoqueAtual) - venda.quantidade;
        if !faults.produtoUpdate {
          produtos := MapSeq(produtos, Backend.StockOf(venda.produtoId, newStock));
        }
        if !faults.movimentoInsert {
          movimentacoes := movimentacoes + [Movimentacao(nextId, venda.produtoId, Backend.Saida, venda.quantidade, venda.id, venda.frentistaId)];
          nextId := nextId + 1;
        }
      }
    }
  }
}
