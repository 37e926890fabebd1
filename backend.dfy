/** The backend as in-memory tables, and each service call of the closing
    workflow as a step from the tables before the call to the tables after
    it. A backend error that a step can meet is a parameter: an
    `Option<string>` carries the message of an error the code throws, a
    `bool` marks an error the code swallows. The class `Api.Database`
    performs the same steps in place and is proved equal to these functions. */
module Backend {
  import opened Common
  import opened Rows
  import opened Totals

  /** Every table the core reads or writes. Ids are drawn from one counter,
      `nextId`, standing in for the backend's identity columns. */
  datatype Tables = Tables(
    usuarios: seq<Usuario>,
    frentistas: seq<Frentista>,
    fechamentos: seq<Fechamento>,
    children: seq<FechamentoFrentista>,
    notas: seq<NotaFrentista>,
    produtos: seq<Produto>,
    vendas: seq<VendaProduto>,
    movimentacoes: seq<Movimentacao>,
    nextId: int)

  /** What a service call returns (or throws), and the tables after it. */
  datatype Step<+T> = Step(result: Result<T>, tables: Tables)

  const CreateClosingError := "Erro ao criar fechamento: "
  const ReadChildrenError := "Erro ao buscar totais de frentistas: "
  const UpdateClosingError := "Erro ao atualizar fechamento: "
  const CreateChildError := "Erro ao criar fechamento frentista: "
  const UpdateChildError := "Erro ao atualizar fechamento frentista: "
  /** The backend's message when `.single()` meets no row. */
  const SingleRowError := "JSON object requested, multiple (or no) rows returned"
  const Fechado := "FECHADO"
  const Saida := "SAIDA"

  /** Identity columns: every closing and child closing has a positive id
      below `nextId`, no id occurs twice, and a child closing points at an
      id already handed out. */
  predicate WellFormed(t: Tables)
  {
    && t.nextId > 0
    && (forall i :: 0 <= i < |t.fechamentos| ==> 0 < t.fechamentos[i].id < t.nextId)
    && (forall i :: 0 <= i < |t.children| ==>
          0 < t.children[i].id < t.nextId && t.children[i].fechamentoId < t.nextId)
    && Distinct(t.fechamentos, ClosingIdOf)
    && Distinct(t.children, ChildIdOf)
  }

  // ---------------------------------------------------------------------
  // Row updates: `.update(values).eq('id', id)` applied to every row.

  /** Writes the recomputed aggregate onto the closing `fid`; an undefined
      `observacoes` (None) leaves that column as it was. */
  function TotalsOf(fid: int, recebido: int, vendas: int, obs: Option<string>): Fechamento -> Fechamento
  {
    (f: Fechamento) => if f.id != fid then f
         else f.(totalRecebido := Some(recebido), totalVendas := Some(vendas),
                 diferenca := Some(recebido - vendas), status := Fechado,
                 observacoes := if obs.Some? then obs else f.observacoes)
  }

  /** The closings table after the aggregate update of `fid`: that closing
      carries the new totals, their difference and the closed status; every
      row keeps its id and key; other rows are unchanged. */
  function WithTotals(rows: seq<Fechamento>, fid: int, recebido: int, vendas: int, obs: Option<string>): (r: seq<Fechamento>)
    ensures |r| == |rows|
    ensures forall i :: 0 <= i < |rows| ==>
      r[i].id == rows[i].id && ClosingKeyOf(r[i]) == ClosingKeyOf(rows[i])
    ensures forall i :: 0 <= i < |rows| && rows[i].id != fid ==> r[i] == rows[i]
    ensures forall i :: 0 <= i < |rows| && rows[i].id == fid ==>
      && Aggregated(r[i], recebido)
      && r[i].totalVendas == Some(vendas)
      && r[i].observacoes == (if obs.Some? then obs else rows[i].observacoes)
  {
    MapSeq(rows, TotalsOf(fid, recebido, vendas, obs))
  }

  /** Writes the submitted values onto the child closing `id`. */
  function OverwriteOf(id: int, v: ChildValues): FechamentoFrentista -> FechamentoFrentista
  {
    (c: FechamentoFrentista) => if c.id != id then c
         else c.(valorCartao := Some(v.valorCartao), debito := Some(v.debito),
                 credito := Some(v.credito), nota := Some(v.nota), pix := Some(v.pix),
                 dinheiro := Some(v.dinheiro), conferido := Some(v.conferido),
                 baratao := Some(v.baratao), encerrante := Some(v.encerrante),
                 diferencaCalculada := Some(v.diferencaCalculada),
                 observacoes := if v.observacoes.Some? then v.observacoes else c.observacoes)
  }

  /** The child closings after the overwrite of `id`: that row holds the
      submitted values; every row keeps its id and key; other rows are
      unchanged. */
  function Overwritten(rows: seq<FechamentoFrentista>, id: int, v: ChildValues): (r: seq<FechamentoFrentista>)
    ensures |r| == |rows|
    ensures forall i :: 0 <= i < |rows| ==>
      r[i].id == rows[i].id && ChildKeyOf(r[i]) == ChildKeyOf(rows[i])
    ensures forall i :: 0 <= i < |rows| && rows[i].id != id ==> r[i] == rows[i]
    ensures forall i :: 0 <= i < |rows| && rows[i].id == id ==>
      Written(r[i], v) && r[i].observacoes == (if v.observacoes.Some? then v.observacoes else rows[i].observacoes)
  {
    MapSeq(rows, OverwriteOf(id, v))
  }

  /** Sets the current shift of the attendant `id`. */
  function TurnoOf(id: int, turnoId: int): Frentista -> Frentista
  {
    (f: Frentista) => if f.id != id then f else f.(turnoId := Some(turnoId))
  }

  /** Sets the stock of the product `id`. */
  function StockOf(id: int, stock: int): Produto -> Produto
  {
    (p: Produto) => if p.id != id then p else p.(estoqueAtual := Some(stock))
  }

  // ---------------------------------------------------------------------
  // Queries.

  /** The closing search of `getOrCreate`: date and shift, and the station
      only when `postoId` is truthy; `.single()` on the matches. */
  function FindClosing(rows: seq<Fechamento>, data: string, turnoId: int, postoId: int): (r: Option<Fechamento>)
    ensures r.Some? ==> r.value in rows && r.value.data == data && r.value.turnoId == turnoId
    ensures r.Some? && postoId != 0 ==> r.value.postoId == postoId
  {
    if postoId != 0 then Single(rows, ClosingKeyOf, ClosingKey(data, turnoId, postoId))
    else Single(rows, DayShiftOf, DayShift(data, turnoId))
  }

  /** With the station given and (date, shift, station) unique, the search
      finds the closing exactly when one with that key exists. */
  lemma FindClosingExact(rows: seq<Fechamento>, data: string, turnoId: int, postoId: int)
    requires postoId != 0 && Distinct(rows, ClosingKeyOf)
    ensures FindClosing(rows, data, turnoId, postoId).None? <==>
      forall i :: 0 <= i < |rows| ==> ClosingKeyOf(rows[i]) != ClosingKey(data, turnoId, postoId)
    ensures forall i :: 0 <= i < |rows| && ClosingKeyOf(rows[i]) == ClosingKey(data, turnoId, postoId) ==>
      FindClosing(rows, data, turnoId, postoId) == Some(rows[i])
  {
    SingleMisses(rows, ClosingKeyOf, ClosingKey(data, turnoId, postoId));
    forall i | 0 <= i < |rows| && ClosingKeyOf(rows[i]) == ClosingKey(data, turnoId, postoId)
      ensures FindClosing(rows, data, turnoId, postoId) == Some(rows[i])
    {
      SingleFinds(rows, ClosingKeyOf, i);
    }
  }

  /** `fechamentoFrentistaService.getExisting`: the id of the child closing
      of (closing, attendant), or null when `.single()` finds none or several. */
  function FindChild(rows: seq<FechamentoFrentista>, fechamentoId: int, frentistaId: int): (r: Option<int>)
    ensures r.Some? ==> exists c :: c in rows && c.id == r.value && ChildKeyOf(c) == ChildKey(fechamentoId, frentistaId)
  {
    var m := Single(rows, ChildKeyOf, ChildKey(fechamentoId, frentistaId));
    if m.Some? then Some(m.value.id) else None
  }

  /** With (closing, attendant) unique, `getExisting` returns the id of the
      child closing with that key, and null exactly when there is none. */
  lemma FindChildExact(rows: seq<FechamentoFrentista>, fechamentoId: int, frentistaId: int)
    requires Distinct(rows, ChildKeyOf)
    ensures FindChild(rows, fechamentoId, frentistaId).None? <==>
      forall i :: 0 <= i < |rows| ==> ChildKeyOf(rows[i]) != ChildKey(fechamentoId, frentistaId)
    ensures forall i :: 0 <= i < |rows| && ChildKeyOf(rows[i]) == ChildKey(fechamentoId, frentistaId) ==>
      FindChild(rows, fechamentoId, frentistaId) == Some(rows[i].id)
  {
    SingleMisses(rows, ChildKeyOf, ChildKey(fechamentoId, frentistaId));
    forall i | 0 <= i < |rows| && ChildKeyOf(rows[i]) == ChildKey(fechamentoId, frentistaId)
      ensures FindChild(rows, fechamentoId, frentistaId) == Some(rows[i].id)
    {
      SingleFinds(rows, ChildKeyOf, i);
    }
  }

  /** `fechamentoFrentistaService.exists`: `getExisting` found an id. With
      (closing, attendant) unique this is exactly "a child closing with that
      key is stored". */
  function ChildExists(rows: seq<FechamentoFrentista>, fechamentoId: int, frentistaId: int): (r: bool)
    ensures Distinct(rows, ChildKeyOf) ==>
      (r <==> exists i :: 0 <= i < |rows| && ChildKeyOf(rows[i]) == ChildKey(fechamentoId, frentistaId))
  {
    if Distinct(rows, ChildKeyOf) then
      FindChildExact(rows, fechamentoId, frentistaId);
      FindChild(rows, fechamentoId, frentistaId).Some?
    else FindChild(rows, fechamentoId, frentistaId).Some?
  }

  // ---------------------------------------------------------------------
  // fechamentoService.

  /** `fechamentoService.getOrCreate`: reuse the closing the search finds
      (unless the search errs), else insert one closed with the given totals. */
  function GetOrCreate(t: Tables, data: string, turnoId: int, usuarioId: Option<int>,
                       totalRecebido: int, totalVendas: int, postoId: int,
                       searchFails: bool, insertError: Option<string>): (s: Step<Fechamento>)
    ensures WellFormed(t) ==> WellFormed(s.tables)
    ensures s.tables == t.(fechamentos := s.tables.fechamentos, nextId := s.tables.nextId)
    ensures s.result.Failure? ==>
      s.tables == t && insertError.Some? && s.result.error == CreateClosingError + insertError.value
    ensures s.result.Success? ==>
      s.result.value in s.tables.fechamentos && s.result.value.data == data && s.result.value.turnoId == turnoId
    ensures s.result.Success? && postoId != 0 ==> s.result.value.postoId == postoId
    ensures s.tables.fechamentos == t.fechamentos || (
      && s.result.Success?
      && s.tables.fechamentos == t.fechamentos + [s.result.value]
      && s.tables.nextId == t.nextId + 1
      && s.result.value.id == t.nextId
      && s.result.value.status == Fechado
      && s.result.value.totalRecebido == Some(totalRecebido)
      && s.result.value.totalVendas == Some(totalVendas)
      && s.result.value.diferenca == Some(totalRecebido - totalVendas)
      && s.result.value.usuarioId == usuarioId
      && s.result.value.postoId == postoId)
    ensures s.tables.fechamentos == t.fechamentos ==> s.tables == t
  {
    var found := if searchFails then None else FindClosing(t.fechamentos, data, turnoId, postoId);
    if found.Some? then Step(Success(found.value), t)
    else if insertError.Some? then Step(Failure(CreateClosingError + insertError.value), t)
    else
      var row := Fechamento(t.nextId, data, usuarioId, turnoId, Fechado, Some(totalVendas),
                            Some(totalRecebido), Some(totalRecebido - totalVendas), None, postoId);
      Step(Success(row), t.(fechamentos := t.fechamentos + [row], nextId := t.nextId + 1))
  }

  /** An existing (date, shift, station) closing is returned as it is and
      nothing is inserted. */
  lemma GetOrCreateReuses(t: Tables, data: string, turnoId: int, usuarioId: Option<int>,
                          totalRecebido: int, totalVendas: int, postoId: int,
                          insertError: Option<string>, i: int)
    requires postoId != 0 && Distinct(t.fechamentos, ClosingKeyOf)
    requires 0 <= i < |t.fechamentos| && ClosingKeyOf(t.fechamentos[i]) == ClosingKey(data, turnoId, postoId)
    ensures GetOrCreate(t, data, turnoId, usuarioId, totalRecebido, totalVendas, postoId, false, insertError)
      == Step(Success(t.fechamentos[i]), t)
  {
    FindClosingExact(t.fechamentos, data, turnoId, postoId);
  }

  /** When the station is given and the search does not err, no second
      closing for a (date, shift, station) is ever created. */
  lemma GetOrCreateKeepsKeysUnique(t: Tables, data: string, turnoId: int, usuarioId: Option<int>,
                                   totalRecebido: int, totalVendas: int, postoId: int,
                                   insertError: Option<string>)
    requires postoId != 0 && Distinct(t.fechamentos, ClosingKeyOf)
    ensures Distinct(GetOrCreate(t, data, turnoId, usuarioId, totalRecebido, totalVendas, postoId, false, insertError)
                       .tables.fechamentos, ClosingKeyOf)
  {
    FindClosingExact(t.fechamentos, data, turnoId, postoId);
    var s := GetOrCreate(t, data, turnoId, usuarioId, totalRecebido, totalVendas, postoId, false, insertError);
    if s.tables.fechamentos != t.fechamentos {
      DistinctAppend(t.fechamentos, s.result.value, ClosingKeyOf);
    }
  }

  /** The aggregate a successful `updateTotals` leaves on the closing:
      `recebido` received, some sales total, their difference, closed. */
  predicate Aggregated(f: Fechamento, recebido: int)
  {
    && f.totalRecebido == Some(recebido)
    && f.totalVendas.Some?
    && f.diferenca == Some(recebido - f.totalVendas.value)
    && f.status == Fechado
  }

  /** `fechamentoService.updateTotals`: fold the received amounts of every
      child of `fid`, take the manual sales total or else the stored one
      (a failed read of it counts as none), and write both and their
      difference onto the closing. */
  function UpdateTotals(t: Tables, fid: int, manual: int, obs: Option<string>,
                        readError: Option<string>, currentReadFails: bool,
                        updateError: Option<string>): (s: Step<()>)
    ensures WellFormed(t) ==> WellFormed(s.tables)
    ensures s.tables == t.(fechamentos := s.tables.fechamentos)
    ensures s.result.Failure? ==> s.tables == t
    ensures s.result.Failure? ==>
      (readError.Some? && s.result.error == ReadChildrenError + readError.value) ||
      (updateError.Some? && s.result.error == UpdateClosingError + updateError.value)
    ensures s.result.Success? <==> readError.None? && updateError.None?
    ensures |s.tables.fechamentos| == |t.fechamentos|
    ensures forall i :: 0 <= i < |t.fechamentos| ==>
      s.tables.fechamentos[i].id == t.fechamentos[i].id &&
      ClosingKeyOf(s.tables.fechamentos[i]) == ClosingKeyOf(t.fechamentos[i])
    ensures forall i :: 0 <= i < |t.fechamentos| && t.fechamentos[i].id != fid ==>
      s.tables.fechamentos[i] == t.fechamentos[i]
    ensures s.result.Success? ==> forall i :: 0 <= i < |t.fechamentos| && t.fechamentos[i].id == fid ==>
      Aggregated(s.tables.fechamentos[i], SumReceived(Where(t.children, ParentOf, fid)))
    ensures s.result.Success? && manual != 0 ==> forall i :: 0 <= i < |t.fechamentos| && t.fechamentos[i].id == fid ==>
      s.tables.fechamentos[i].totalVendas == Some(manual)
    ensures s.result.Success? ==> forall i :: 0 <= i < |t.fechamentos| && t.fechamentos[i].id == fid ==>
      s.tables.fechamentos[i].observacoes == (if obs.Some? then obs else t.fechamentos[i].observacoes)
  {
    if readError.Some? then Step(Failure(ReadChildrenError + readError.value), t)
    else
      var mine := Where(t.children, ParentOf, fid);
      var recebido := ReduceReceived(0, mine);
      var current := if currentReadFails then None else Single(t.fechamentos, ClosingIdOf, fid);
      var vendas := TotalVendas(manual, if current.Some? then current.value.totalVendas else None);
      if updateError.Some? then Step(Failure(UpdateClosingError + updateError.value), t)
      else
        ReduceIsSum(0, mine);
        Step(Success(()), t.(fechamentos := WithTotals(t.fechamentos, fid, recebido, vendas, obs)))
  }

  /** Without a manual value, a successful recompute keeps the stored sales
      total (null as 0) when its read succeeds, and writes 0 when it fails. */
  lemma UpdateTotalsKeepsStoredVendas(t: Tables, fid: int, obs: Option<string>, readError: Option<string>,
                                      currentReadFails: bool, updateError: Option<string>)
    ensures var s := UpdateTotals(t, fid, 0, obs, readError, currentReadFails, updateError);
      WellFormed(t) && s.result.Success? ==> forall i :: 0 <= i < |t.fechamentos| && t.fechamentos[i].id == fid ==>
        s.tables.fechamentos[i].totalVendas == Some(if currentReadFails then 0 else OrZero(t.fechamentos[i].totalVendas))
  {
    if WellFormed(t) {
      forall i | 0 <= i < |t.fechamentos| && t.fechamentos[i].id == fid
        ensures Single(t.fechamentos, ClosingIdOf, fid) == Some(t.fechamentos[i])
      {
        SingleFinds(t.fechamentos, ClosingIdOf, i);
      }
    }
  }

  // ---------------------------------------------------------------------
  // fechamentoFrentistaService.

  /** `fechamentoFrentistaService.create`: insert the child closing. */
  function CreateChild(t: Tables, fid: int, frid: int, postoId: int, v: ChildValues,
                       writeError: Option<string>): (s: Step<FechamentoFrentista>)
    ensures WellFormed(t) && fid < t.nextId ==> WellFormed(s.tables)
    ensures s.tables == t.(children := s.tables.children, nextId := s.tables.nextId)
    ensures s.result.Failure? <==> writeError.Some?
    ensures s.result.Failure? ==> s.tables == t && s.result.error == CreateChildError + writeError.value
    ensures s.result.Success? ==>
      && s.tables.children == t.children + [s.result.value]
      && s.tables.nextId == t.nextId + 1
      && s.result.value.id == t.nextId
      && ChildKeyOf(s.result.value) == ChildKey(fid, frid)
      && s.result.value.postoId == postoId
      && Written(s.result.value, v)
      && s.result.value.observacoes == v.observacoes
  {
    if writeError.Some? then Step(Failure(CreateChildError + writeError.value), t)
    else
      var row := FechamentoFrentista(t.nextId, fid, frid, postoId,
        Some(v.valorCartao), Some(v.debito), Some(v.credito), Some(v.nota), Some(v.pix),
        Some(v.dinheiro), Some(v.conferido), Some(v.baratao), Some(v.encerrante),
        Some(v.diferencaCalculada), v.observacoes);
      Step(Success(row), t.(children := t.children + [row], nextId := t.nextId + 1))
  }

  /** `fechamentoFrentistaService.update`: overwrite the child closing `id`;
      `.single()` fails when no row has that id. */
  function UpdateChild(t: Tables, id: int, v: ChildValues, writeError: Option<string>): (s: Step<FechamentoFrentista>)
    ensures WellFormed(t) ==> WellFormed(s.tables)
    ensures s.tables == t.(children := s.tables.children)
    ensures s.result.Failure? ==> s.tables == t
    ensures s.result.Failure? ==>
      s.result.error == UpdateChildError + (if writeError.Some? then writeError.value else SingleRowError)
    ensures writeError.None? && WellFormed(t) ==>
      (s.result.Success? <==> exists i :: 0 <= i < |t.children| && t.children[i].id == id)
    ensures |s.tables.children| == |t.children|
    ensures forall i :: 0 <= i < |t.children| ==>
      s.tables.children[i].id == t.children[i].id && ChildKeyOf(s.tables.children[i]) == ChildKeyOf(t.children[i])
    ensures forall i :: 0 <= i < |t.children| && t.children[i].id != id ==> s.tables.children[i] == t.children[i]
    ensures s.result.Success? ==>
      s.result.value.id == id && Written(s.result.value, v)
    ensures s.result.Success? ==> forall i :: 0 <= i < |t.children| && t.children[i].id == id ==>
      Written(s.tables.children[i], v) &&
      s.tables.children[i].observacoes == (if v.observacoes.Some? then v.observacoes else t.children[i].observacoes)
  {
    if writeError.Some? then Step(Failure(UpdateChildError + writeError.value), t)
    else
      var m := Single(t.children, ChildIdOf, id);
      if m.None? then
        if WellFormed(t) then SingleMisses(t.children, ChildIdOf, id); Step(Failure(UpdateChildError + SingleRowError), t)
        else Step(Failure(UpdateChildError + SingleRowError), t)
      else
        Step(Success(OverwriteOf(id, v)(m.value)), t.(children := Overwritten(t.children, id, v)))
  }

  // ---------------------------------------------------------------------
  // The other writes of a submission, and the product sale.

  /** The credit-note insert of a submission: all lines or, on error, none. */
  function InsertNotas(t: Tables, notas: seq<NotaInput>, childId: int, frentistaId: int,
                       postoId: int, data: string, fails: bool): (r: Tables)
    ensures WellFormed(t) ==> WellFormed(r)
    ensures r == t.(notas := r.notas, nextId := r.nextId)
    ensures fails ==> r == t
    ensures |r.notas| >= |t.notas| && r.notas[..|t.notas|] == t.notas
    ensures !fails ==> |r.notas| == |t.notas| + |notas|
    ensures !fails ==> forall i :: |t.notas| <= i < |r.notas| ==>
      && r.notas[i].clienteId == notas[i - |t.notas|].clienteId
      && r.notas[i].valor == notas[i - |t.notas|].valor
      && r.notas[i].fechamentoFrentistaId == childId
      && r.notas[i].frentistaId == frentistaId
      && r.notas[i].postoId == postoId
      && r.notas[i].status == "pendente"
      && r.notas[i].data == data
  {
    if fails then t
    else
      var lines := NotaLines(t.nextId, notas, childId, frentistaId, postoId, data);
      t.(notas := t.notas + lines, nextId := t.nextId + |notas|)
  }

  /** `frentistaService.update(id, { turno_id })`; an error is swallowed. */
  function SetFrentistaTurno(t: Tables, id: int, turnoId: int, fails: bool): (r: Tables)
    ensures r == t.(frentistas := r.frentistas)
    ensures |r.frentistas| == |t.frentistas|
    ensures forall i :: 0 <= i < |t.frentistas| ==>
      r.frentistas[i] == t.frentistas[i].(turnoId := r.frentistas[i].turnoId)
    ensures forall i :: 0 <= i < |t.frentistas| && t.frentistas[i].id != id ==> r.frentistas[i] == t.frentistas[i]
    ensures !fails ==> forall i :: 0 <= i < |t.frentistas| && t.frentistas[i].id == id ==>
      r.frentistas[i].turnoId == Some(turnoId)
  {
    if fails then t else t.(frentistas := MapSeq(t.frentistas, TurnoOf(id, turnoId)))
  }

  /** The errors a product sale can meet: the sale insert's (thrown), and
      the product read, stock update and movement insert (all ignored). */
  datatype VendaFaults = VendaFaults(insert: Option<string>, produtoRead: bool, produtoUpdate: bool, movimentoInsert: bool)

  /** The sale row `vendaProdutoService.create` inserts under the id `id`:
      the total is quantity times unit price, and a missing station is 1. */
  function VendaOf(id: int, frentistaId: int, produtoId: int, quantidade: int, valorUnitario: int,
                   postoId: int): VendaProduto
  {
    VendaProduto(id, frentistaId, produtoId, quantidade, valorUnitario,
                 quantidade * valorUnitario, if postoId != 0 then postoId else 1)
  }

  /** `vendaProdutoService.create`: record the sale (station 1 when none is
      given), read the product sold by id, then adjust its stock. */
  function CreateVenda(t: Tables, frentistaId: int, produtoId: int, quantidade: int,
                       valorUnitario: int, postoId: int, faults: VendaFaults): (s: Step<VendaProduto>)
    ensures s.result.Success? <==> faults.insert.None?
    ensures s.result.Failure? ==> s.tables == t && s.result.error == faults.insert.value
    ensures s.tables.usuarios == t.usuarios && s.tables.frentistas == t.frentistas
    ensures s.tables.fechamentos == t.fechamentos && s.tables.children == t.children && s.tables.notas == t.notas
    ensures WellFormed(t) ==> WellFormed(s.tables)
    ensures s.result.Success? ==>
      && s.tables.vendas == t.vendas + [s.result.value]
      && s.result.value.id == t.nextId
      && s.result.value.valorTotal == quantidade * valorUnitario
      && s.result.value.quantidade == quantidade
      && s.result.value.frentistaId == frentistaId
      && s.result.value.produtoId == produtoId
      && s.result.value.postoId == (if postoId != 0 then postoId else 1)
    ensures |s.tables.produtos| == |t.produtos|
    ensures forall i :: 0 <= i < |t.produtos| && t.produtos[i].id != produtoId ==> s.tables.produtos[i] == t.produtos[i]
    ensures |t.movimentacoes| <= |s.tables.movimentacoes| <= |t.movimentacoes| + 1
    ensures s.tables.movimentacoes[..|t.movimentacoes|] == t.movimentacoes
  {
    if faults.insert.Some? then Step(Failure(faults.insert.value), t)
    else
      var venda := VendaOf(t.nextId, frentistaId, produtoId, quantidade, valorUnitario, postoId);
      var prod := if faults.produtoRead then None else Single(t.produtos, ProdutoIdOf, produtoId);
      Step(Success(venda), UpdateStock(t.(vendas := t.vendas + [venda], nextId := t.nextId + 1), venda, prod, faults))
  }

  /** The stock side of a recorded sale `venda`, given the product row read
      for it: when there is one, set its stock to the stock read less the
      quantity sold and log an outgoing stock movement; each of the two
      writes can fail on its own, and a failure is not reported. */
  function UpdateStock(t: Tables, venda: VendaProduto, prod: Option<Produto>, faults: VendaFaults): (s: Tables)
    ensures s.usuarios == t.usuarios && s.frentistas == t.frentistas && s.fechamentos == t.fechamentos
    ensures s.children == t.children && s.notas == t.notas && s.vendas == t.vendas && s.nextId >= t.nextId
    ensures |s.produtos| == |t.produtos|
    ensures forall i :: 0 <= i < |t.produtos| && t.produtos[i].id != venda.produtoId ==> s.produtos[i] == t.produtos[i]
    ensures |t.movimentacoes| <= |s.movimentacoes| <= |t.movimentacoes| + 1
    ensures s.movimentacoes[..|t.movimentacoes|] == t.movimentacoes
  {
    if prod.None? then t
    else
      var newStock := OrZero(prod.value.estoqueAtual) - venda.quantidade;
      var t1 := if faults.produtoUpdate then t else t.(produtos := MapSeq(t.produtos, StockOf(venda.produtoId, newStock)));
      if faults.movimentoInsert then t1
      else t1.(movimentacoes := t1.movimentacoes + [Movimentacao(t1.nextId, venda.produtoId, Saida, venda.quantidade, venda.id, venda.frentistaId)],
               nextId := t1.nextId + 1)
  }

  /** A sale of a stored product lowers its stock by exactly the quantity
      sold (a null stock counting as 0) and logs one outgoing movement of
      that quantity referring to the sale. */
  lemma VendaDecrementsStock(t: Tables, frentistaId: int, produtoId: int, quantidade: int,
                             valorUnitario: int, postoId: int, i: int)
    requires Distinct(t.produtos, ProdutoIdOf)
    requires 0 <= i < |t.produtos| && t.produtos[i].id == produtoId
    ensures var s := CreateVenda(t, frentistaId, produtoId, quantidade, valorUnitario, postoId, VendaFaults(None, false, false, false));
      && s.tables.produtos[i].estoqueAtual == Some(OrZero(t.produtos[i].estoqueAtual) - quantidade)
      && |s.tables.movimentacoes| == |t.movimentacoes| + 1
      && var m := s.tables.movimentacoes[|t.movimentacoes|];
         m.tipo == Saida && m.quantidade == quantidade && m.produtoId == produtoId && m.vendaId == s.result.value.id
  {
    SingleFinds(t.produtos, ProdutoIdOf, i);
  }
}
