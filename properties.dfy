/** What a submission guarantees about the tables it leaves behind: one child
    closing per (closing, attendant), credit notes appended, the parent's
    aggregate recomputed over its children, and a resubmission that updates
    in place. */
module SubmissionProperties {
  import opened Common
  import opened Rows
  import opened Totals
  import opened Backend
  import opened Submission

  /** Under the parent `f`, writing the attendant's child closing leaves
      exactly one row for (closing, attendant), holding the submitted values;
      the message says "atualizado" exactly when such a row existed, and the
      credit notes point at that row. */
  lemma WriteChildLeavesOneChild(t: Tables, d: SubmitClosingData, f: Fechamento, fr: Frentista, faults: SubmitFaults)
    requires WellFormed(t) && Distinct(t.children, ChildKeyOf) && f.id < t.nextId && !faults.childLookup
    ensures var s := WriteChild(t, d, f, fr, faults);
      var k := ChildKey(f.id, fr.id);
      && Distinct(s.tables.children, ChildKeyOf)
      && (s.outcome.success ==>
           && |Where(s.tables.children, ChildKeyOf, k)| == 1
           && Written(Where(s.tables.children, ChildKeyOf, k)[0], ChildValuesOf(d))
           && (s.outcome.message == UpdatedMessage <==> |Where(t.children, ChildKeyOf, k)| == 1)
           && (s.outcome.message == UpdatedMessage ==> |s.tables.children| == |t.children|)
           && (s.outcome.message == SentMessage ==> |s.tables.children| == |t.children| + 1)
           && (!faults.notasInsert ==>
                 NotesAppended(t.notas, s.tables.notas, d, Where(s.tables.children, ChildKeyOf, k)[0].id, fr)))
  {
    var existing := FindChild(t.children, f.id, fr.id);
    var c := Upsert(t, existing, f.id, fr.id, d.postoId, ChildValuesOf(d), faults.childWrite);
    UpsertLeavesOneChild(t, f.id, fr.id, d.postoId, ChildValuesOf(d), faults.childWrite);
    if c.result.Success? {
      assert WriteChild(t, d, f, fr, faults) == Finish(c.tables, d, f, fr, c.result.value.id, Truthy(existing), faults);
    }
  }

  /** `getExisting` reads an erring lookup as "no row", so when the lookup
      errs and a child closing for (closing, attendant) already exists, the
      write inserts a second one; the later steps keep it, whatever the
      outcome. */
  lemma LookupErrorDuplicatesChild(t: Tables, d: SubmitClosingData, f: Fechamento, fr: Frentista, faults: SubmitFaults)
    requires faults.childLookup && faults.childWrite.None?
    requires |Where(t.children, ChildKeyOf, ChildKey(f.id, fr.id))| >= 1
    ensures var s := WriteChild(t, d, f, fr, faults);
      && |Where(s.tables.children, ChildKeyOf, ChildKey(f.id, fr.id))| >= 2
      && !Distinct(s.tables.children, ChildKeyOf)
  {
    var k := ChildKey(f.id, fr.id);
    var c := CreateChild(t, f.id, fr.id, d.postoId, ChildValuesOf(d), faults.childWrite);
    WhereAppend(t.children, c.result.value, ChildKeyOf, k);
    var s := WriteChild(t, d, f, fr, faults);
    assert s.tables.children == c.tables.children;
    if Distinct(s.tables.children, ChildKeyOf) {
      WhereAtMostOne(s.tables.children, ChildKeyOf, k);
    }
  }

  /** After a successful submission exactly one child closing exists for
      (closing, attendant) and it holds the submitted values; the message
      says "atualizado" exactly when one existed before, in which case no
      row was added, and "enviado" when one row was added. */
  lemma SubmitLeavesOneChild(t: Tables, d: SubmitClosingData, auth: Option<AuthUser>, faults: SubmitFaults)
    requires WellFormed(t) && Distinct(t.children, ChildKeyOf) && !faults.childLookup
    requires Submit(t, d, auth, faults).outcome.success
    ensures var s := Submit(t, d, auth, faults);
      var fr := ResolveFrentista(t.frentistas, d.frentistaId, auth, faults.frentistaRead).value;
      var k := ChildKey(s.outcome.fechamentoId.value, fr.id);
      && Distinct(s.tables.children, ChildKeyOf)
      && |Where(s.tables.children, ChildKeyOf, k)| == 1
      && Written(Where(s.tables.children, ChildKeyOf, k)[0], ChildValuesOf(d))
      && (s.outcome.message == UpdatedMessage <==> |Where(t.children, ChildKeyOf, k)| == 1)
      && (s.outcome.message == UpdatedMessage ==> |s.tables.children| == |t.children|)
      && (s.outcome.message == SentMessage ==> |s.tables.children| == |t.children| + 1)
  {
    var p, f, fr := FirstStep(t, d, auth, faults);
    WriteChildLeavesOneChild(p, d, f, fr, faults);
  }

  /** The parent closing and attendant a successful submission works with:
      the submission is the child-closing write under them. */
  lemma FirstStep(t: Tables, d: SubmitClosingData, auth: Option<AuthUser>, faults: SubmitFaults)
    returns (p: Tables, f: Fechamento, fr: Frentista)
    requires WellFormed(t)
    requires Submit(t, d, auth, faults).outcome.success
    ensures fr == ResolveFrentista(t.frentistas, d.frentistaId, auth, faults.frentistaRead).value
    ensures WellFormed(p) && f.id < p.nextId && p.children == t.children && p.notas == t.notas
    ensures f in p.fechamentos && f.data == d.data && f.turnoId == d.turnoId
    ensures Submit(t, d, auth, faults) == WriteChild(p, d, f, fr, faults)
    ensures var total := TotalInformado(d);
      Step(Success(f), p) == GetOrCreate(t, d.data, d.turnoId, ResolveUsuario(t.usuarios, auth, faults), total, total,
                                         fr.postoId, faults.closingSearch, faults.closingInsert)
  {
    fr := ResolveFrentista(t.frentistas, d.frentistaId, auth, faults.frentistaRead).value;
    var total := TotalInformado(d);
    var g := GetOrCreate(t, d.data, d.turnoId, ResolveUsuario(t.usuarios, auth, faults), total, total, fr.postoId,
                         faults.closingSearch, faults.closingInsert);
    p, f := g.tables, g.result.value;
  }

  /** Whatever its outcome, a submission whose child lookup does not err
      never creates a second child closing for a (closing, attendant). */
  lemma SubmitKeepsChildKeysUnique(t: Tables, d: SubmitClosingData, auth: Option<AuthUser>, faults: SubmitFaults)
    requires WellFormed(t) && Distinct(t.children, ChildKeyOf) && !faults.childLookup
    ensures Distinct(Submit(t, d, auth, faults).tables.children, ChildKeyOf)
  {
    var r := ResolveFrentista(t.frentistas, d.frentistaId, auth, faults.frentistaRead);
    if r.Success? {
      var fr := r.value;
      var total := TotalInformado(d);
      var p := GetOrCreate(t, d.data, d.turnoId, ResolveUsuario(t.usuarios, auth, faults), total, total, fr.postoId,
                           faults.closingSearch, faults.closingInsert);
      if p.result.Success? {
        var f := p.result.value;
        assert f.id < p.tables.nextId;
        WriteChildLeavesOneChild(p.tables, d, f, fr, faults);
      }
    }
  }

  /** When the attendant's station is known and the closing search does not
      err, a submission never creates a second closing for a (date, shift,
      station). */
  lemma SubmitKeepsClosingKeysUnique(t: Tables, d: SubmitClosingData, auth: Option<AuthUser>, faults: SubmitFaults)
    requires Distinct(t.fechamentos, ClosingKeyOf) && !faults.closingSearch
    requires ResolveFrentista(t.frentistas, d.frentistaId, auth, faults.frentistaRead).Success? ==>
      ResolveFrentista(t.frentistas, d.frentistaId, auth, faults.frentistaRead).value.postoId != 0
    ensures Distinct(Submit(t, d, auth, faults).tables.fechamentos, ClosingKeyOf)
  {
    var s := Submit(t, d, auth, faults);
    var r := ResolveFrentista(t.frentistas, d.frentistaId, auth, faults.frentistaRead);
    if r.Success? {
      var fr := r.value;
      var usuarioId := ResolveUsuario(t.usuarios, auth, faults);
      var total := TotalInformado(d);
      var p := GetOrCreate(t, d.data, d.turnoId, usuarioId, total, total, fr.postoId, false, faults.closingInsert);
      GetOrCreateKeepsKeysUnique(t, d.data, d.turnoId, usuarioId, total, total, fr.postoId, faults.closingInsert);
      if p.result.Failure? {
        assert s.tables == p.tables;
      } else {
        assert s == WriteChild(p.tables, d, p.result.value, fr, faults);
        DistinctSameKeys(p.tables.fechamentos, s.tables.fechamentos, ClosingKeyOf);
      }
    }
  }

  /** A successful submission whose note insert does not err appends one
      pending line per credit note, in order, dated with the closing's date
      and pointing at the attendant's child closing; earlier lines stay. */
  lemma SubmitAppendsNotes(t: Tables, d: SubmitClosingData, auth: Option<AuthUser>, faults: SubmitFaults)
    requires WellFormed(t) && Distinct(t.children, ChildKeyOf) && !faults.childLookup && !faults.notasInsert
    requires Submit(t, d, auth, faults).outcome.success
    ensures var s := Submit(t, d, auth, faults);
      var fr := ResolveFrentista(t.frentistas, d.frentistaId, auth, faults.frentistaRead).value;
      var k := ChildKey(s.outcome.fechamentoId.value, fr.id);
      && |Where(s.tables.children, ChildKeyOf, k)| == 1
      && NotesAppended(t.notas, s.tables.notas, d, Where(s.tables.children, ChildKeyOf, k)[0].id, fr)
  {
    var p, f, fr := FirstStep(t, d, auth, faults);
    WriteChildLeavesOneChild(p, d, f, fr, faults);
  }

  /** After a successful submission the parent closing is stored, under the
      submitted date and shift, with its aggregate recomputed over all its
      children as they now stand. */
  lemma SubmitRecomputesAggregate(t: Tables, d: SubmitClosingData, auth: Option<AuthUser>, faults: SubmitFaults)
    requires WellFormed(t)
    requires Submit(t, d, auth, faults).outcome.success
    ensures var s := Submit(t, d, auth, faults);
      var fid := s.outcome.fechamentoId.value;
      && (exists i :: 0 <= i < |s.tables.fechamentos| && s.tables.fechamentos[i].id == fid)
      && forall i :: 0 <= i < |s.tables.fechamentos| && s.tables.fechamentos[i].id == fid ==>
           && Aggregated(s.tables.fechamentos[i], SumReceived(Where(s.tables.children, ParentOf, fid)))
           && s.tables.fechamentos[i].data == d.data
           && s.tables.fechamentos[i].turnoId == d.turnoId
  {
    var p, f, fr := FirstStep(t, d, auth, faults);
    var j :| 0 <= j < |p.fechamentos| && p.fechamentos[j] == f;
    WriteChildStoresParent(p, d, f, fr, faults, j);
  }

  /** After a successful write, the parent's row is the only row with its id,
      keeps its date and shift, and is aggregated over the children as they
      now stand. */
  lemma WriteChildStoresParent(t: Tables, d: SubmitClosingData, f: Fechamento, fr: Frentista, faults: SubmitFaults, n: int)
    requires Distinct(t.fechamentos, ClosingIdOf)
    requires 0 <= n < |t.fechamentos| && t.fechamentos[n] == f
    ensures var s := WriteChild(t, d, f, fr, faults);
      s.outcome.success ==>
        && 0 <= n < |s.tables.fechamentos| && s.tables.fechamentos[n].id == f.id
        && forall i :: 0 <= i < |s.tables.fechamentos| && s.tables.fechamentos[i].id == f.id ==>
             && Aggregated(s.tables.fechamentos[i], SumReceived(Where(s.tables.children, ParentOf, f.id)))
             && s.tables.fechamentos[i].data == f.data
             && s.tables.fechamentos[i].turnoId == f.turnoId
  {
    WriteChildAggregates(t, d, f, fr, faults, n);
    WriteChildParentIndex(t, d, f, fr, faults, n);
  }

  /** The parent's aggregate counts debit, credit, notes, PIX and cash only:
      when a submission creates the closing, its total received falls short
      of the declared total by the coins and the voucher amount, and its
      difference is minus their sum, whatever the meter reading. */
  lemma FirstSubmissionLeavesOutCoins(t: Tables, d: SubmitClosingData, auth: Option<AuthUser>, faults: SubmitFaults)
    requires WellFormed(t)
    requires Submit(t, d, auth, faults).outcome.success
    requires forall i :: 0 <= i < |t.fechamentos| ==>
      t.fechamentos[i].id != Submit(t, d, auth, faults).outcome.fechamentoId.value
    ensures var s := Submit(t, d, auth, faults);
      forall i :: 0 <= i < |s.tables.fechamentos| && s.tables.fechamentos[i].id == s.outcome.fechamentoId.value ==>
        && s.tables.fechamentos[i].totalRecebido == Some(TotalInformado(d) - d.moedas - d.baratao)
        && s.tables.fechamentos[i].totalVendas == Some(TotalInformado(d))
        && s.tables.fechamentos[i].diferenca == Some(-(d.moedas + d.baratao))
  {
    var p, f, fr := FirstStep(t, d, auth, faults);
    assert Submit(t, d, auth, faults).outcome.fechamentoId == Some(f.id);
    assert f !in t.fechamentos;
    assert p.fechamentos == t.fechamentos + [f] && f.id == t.nextId && f.totalVendas == Some(TotalInformado(d));
    forall i | 0 <= i < |p.children| ensures p.children[i].fechamentoId != f.id {
    }
    CreatedClosingLeavesOutCoins(p, d, f, fr, faults);
  }

  /** Under a closing just created with the declared total as its sales total
      and no children yet, a successful write leaves it with the declared
      total less coins and voucher as received, and minus their sum as its
      difference. */
  lemma CreatedClosingLeavesOutCoins(t: Tables, d: SubmitClosingData, f: Fechamento, fr: Frentista, faults: SubmitFaults)
    requires WellFormed(t) && f.id == t.nextId - 1
    requires |t.fechamentos| > 0 && t.fechamentos[|t.fechamentos| - 1] == f
    requires f.totalVendas == Some(TotalInformado(d))
    requires forall i :: 0 <= i < |t.children| ==> t.children[i].fechamentoId != f.id
    ensures var s := WriteChild(t, d, f, fr, faults);
      s.outcome.success ==>
        forall i :: 0 <= i < |s.tables.fechamentos| && s.tables.fechamentos[i].id == f.id ==>
          && s.tables.fechamentos[i].totalRecebido == Some(TotalInformado(d) - d.moedas - d.baratao)
          && s.tables.fechamentos[i].totalVendas == Some(TotalInformado(d))
          && s.tables.fechamentos[i].diferenca == Some(-(d.moedas + d.baratao))
  {
    CreatedClosingRow(t, d, f, fr, faults);
    WriteChildParentIndex(t, d, f, fr, faults, |t.fechamentos| - 1);
  }

  /** The closing just created, after a successful write, is aggregated over
      its one child and keeps the declared total as its sales. */
  lemma CreatedClosingRow(t: Tables, d: SubmitClosingData, f: Fechamento, fr: Frentista, faults: SubmitFaults)
    requires WellFormed(t) && f.id == t.nextId - 1
    requires |t.fechamentos| > 0 && t.fechamentos[|t.fechamentos| - 1] == f
    requires f.totalVendas == Some(TotalInformado(d))
    requires forall i :: 0 <= i < |t.children| ==> t.children[i].fechamentoId != f.id
    ensures var s := WriteChild(t, d, f, fr, faults);
      s.outcome.success ==>
        var row := s.tables.fechamentos[|t.fechamentos| - 1];
        && row.totalRecebido == Some(TotalInformado(d) - d.moedas - d.baratao)
        && row.totalVendas == Some(TotalInformado(d))
        && row.diferenca == Some(-(d.moedas + d.baratao))
  {
    var n := |t.fechamentos| - 1;
    WriteChildAggregates(t, d, f, fr, faults, n);
    WriteChildKeepsVendas(t, d, f, fr, faults, n);
    CreatedChildIsOnlyOne(t, d, f, fr, faults);
    var s := WriteChild(t, d, f, fr, faults);
    if s.outcome.success {
      OnlyChildAggregate(s.tables.fechamentos[n], d);
    }
  }

  /** Closing ids stay unique through the write: the parent's row is the
      only row with its id. */
  lemma WriteChildParentIndex(t: Tables, d: SubmitClosingData, f: Fechamento, fr: Frentista, faults: SubmitFaults, n: int)
    requires Distinct(t.fechamentos, ClosingIdOf)
    requires 0 <= n < |t.fechamentos| && t.fechamentos[n].id == f.id
    ensures var s := WriteChild(t, d, f, fr, faults);
      forall i :: 0 <= i < |s.tables.fechamentos| && s.tables.fechamentos[i].id == f.id ==> i == n
  {
    var s := WriteChild(t, d, f, fr, faults);
    forall i | 0 <= i < |s.tables.fechamentos| && s.tables.fechamentos[i].id == f.id
      ensures i == n
    {
      assert ClosingIdOf(t.fechamentos[i]) == ClosingIdOf(t.fechamentos[n]);
    }
  }

  /** The parent row at index `n`, after a successful write, is aggregated
      over the children as they now stand. */
  lemma WriteChildAggregates(t: Tables, d: SubmitClosingData, f: Fechamento, fr: Frentista, faults: SubmitFaults, n: int)
    requires 0 <= n < |t.fechamentos| && t.fechamentos[n].id == f.id
    ensures var s := WriteChild(t, d, f, fr, faults);
      s.outcome.success ==> Aggregated(s.tables.fechamentos[n], SumReceived(Where(s.tables.children, ParentOf, f.id)))
  {
  }

  /** The parent row at index `n`, after a successful write, keeps the sales
      total it was read with (null as 0). */
  lemma WriteChildKeepsVendas(t: Tables, d: SubmitClosingData, f: Fechamento, fr: Frentista, faults: SubmitFaults, n: int)
    requires WellFormed(t) && f.id < t.nextId
    requires 0 <= n < |t.fechamentos| && t.fechamentos[n] == f
    ensures var s := WriteChild(t, d, f, fr, faults);
      s.outcome.success ==> s.tables.fechamentos[n].totalVendas == Some(OrZero(f.totalVendas))
  {
  }

  /** A closing aggregated over one child holding the declared total, with the
      declared total as sales: received and difference leave out coins and voucher. */
  lemma OnlyChildAggregate(row: Fechamento, d: SubmitClosingData)
    requires Aggregated(row, TotalInformado(d) - d.moedas - d.baratao)
    requires row.totalVendas == Some(TotalInformado(d))
    ensures row.totalRecebido == Some(TotalInformado(d) - d.moedas - d.baratao)
    ensures row.diferenca == Some(-(d.moedas + d.baratao))
  {
  }

  /** Under a parent with no children yet, the child closing written is its
      only child, and it receives the declared total less coins and voucher. */
  lemma CreatedChildIsOnlyOne(t: Tables, d: SubmitClosingData, f: Fechamento, fr: Frentista, faults: SubmitFaults)
    requires WellFormed(t) && f.id == t.nextId - 1
    requires forall i :: 0 <= i < |t.children| ==> t.children[i].fechamentoId != f.id
    ensures var s := WriteChild(t, d, f, fr, faults);
      s.outcome.success ==> SumReceived(Where(s.tables.children, ParentOf, f.id)) == TotalInformado(d) - d.moedas - d.baratao
  {
    WhereEmpty(t.children, ChildKeyOf, ChildKey(f.id, fr.id));
    var existing := if faults.childLookup then None else FindChild(t.children, f.id, fr.id);
    assert existing == None;
    var c := Upsert(t, None, f.id, fr.id, d.postoId, ChildValuesOf(d), faults.childWrite);
    UpsertFirstChild(t, f.id, fr.id, d.postoId, ChildValuesOf(d), faults.childWrite);
    if c.result.Success? {
      assert WriteChild(t, d, f, fr, faults) == Finish(c.tables, d, f, fr, c.result.value.id, false, faults);
    }
  }

  /** Inserting the first child of a closing makes it the closing's only child. */
  lemma UpsertFirstChild(t: Tables, fid: int, frid: int, postoId: int, v: ChildValues, writeError: Option<string>)
    requires forall i :: 0 <= i < |t.children| ==> t.children[i].fechamentoId != fid
    ensures var c := Upsert(t, None, fid, frid, postoId, v, writeError);
      c.result.Success? ==>
        && Where(c.tables.children, ParentOf, fid) == [c.result.value]
        && SumReceived(Where(c.tables.children, ParentOf, fid)) == v.debito + v.credito + v.nota + v.pix + v.dinheiro
  {
    var c := Upsert(t, None, fid, frid, postoId, v, writeError);
    if c.result.Success? {
      WhereEmpty(t.children, ParentOf, fid);
      WhereAppend(t.children, c.result.value, ParentOf, fid);
      assert SumReceived([c.result.value]) == Received(c.result.value);
    }
  }

  /** A second submission for the same date, shift and attendant, when no
      lookup errs, updates the child closing written by the first one: same
      parent closing, message "atualizado", no row added, and the single
      child closing for the key holds the new values. */
  lemma ResubmissionUpdatesInPlace(t: Tables, d1: SubmitClosingData, d2: SubmitClosingData,
                                   auth: Option<AuthUser>, f1: SubmitFaults, f2: SubmitFaults)
    requires WellFormed(t) && Distinct(t.children, ChildKeyOf) && Distinct(t.fechamentos, ClosingKeyOf)
    requires d2.data == d1.data && d2.turnoId == d1.turnoId && d2.frentistaId == d1.frentistaId
    requires !f1.closingSearch && !f1.childLookup && !f2.closingSearch && !f2.childLookup
    requires Submit(t, d1, auth, f1).outcome.success
    requires ResolveFrentista(t.frentistas, d1.frentistaId, auth, f1.frentistaRead).value.postoId != 0
    ensures var s1 := Submit(t, d1, auth, f1);
      var s2 := Submit(s1.tables, d2, auth, f2);
      var fr := ResolveFrentista(t.frentistas, d1.frentistaId, auth, f1.frentistaRead).value;
      var k := ChildKey(s1.outcome.fechamentoId.value, fr.id);
      && s2.outcome.fechamentoId.Some? == s2.outcome.success
      && (s2.outcome.success ==>
           && s2.outcome.fechamentoId == s1.outcome.fechamentoId
           && s2.outcome.message == UpdatedMessage
           && |s2.tables.children| == |s1.tables.children|
           && |Where(s2.tables.children, ChildKeyOf, k)| == 1
           && Written(Where(s2.tables.children, ChildKeyOf, k)[0], ChildValuesOf(d2)))
  {
    var s1 := Submit(t, d1, auth, f1);
    var fr := ResolveFrentista(t.frentistas, d1.frentistaId, auth, f1.frentistaRead).value;
    var j := SubmitStoresParent(t, d1, auth, f1);
    SubmitKeepsClosingKeysUnique(t, d1, auth, f1);
    SubmitLeavesOneChild(t, d1, auth, f1);
    SubmitResolvesAgain(t, d1, auth, f1, d2);
    if !f2.frentistaRead {
      var fr2 := ResolveFrentista(s1.tables.frentistas, d2.frentistaId, auth, f2.frentistaRead).value;
      SubmitReusesParent(s1.tables, d2, auth, f2, j);
      WriteChildLeavesOneChild(s1.tables, d2, s1.tables.fechamentos[j], fr2, f2);
    }
  }

  /** After a successful submission the parent closing sits at some index,
      with the id the submission returns and the (date, shift, station) key. */
  lemma SubmitStoresParent(t: Tables, d: SubmitClosingData, auth: Option<AuthUser>, faults: SubmitFaults)
    returns (j: int)
    requires WellFormed(t)
    requires Submit(t, d, auth, faults).outcome.success
    requires ResolveFrentista(t.frentistas, d.frentistaId, auth, faults.frentistaRead).value.postoId != 0
    ensures var s := Submit(t, d, auth, faults);
      var fr := ResolveFrentista(t.frentistas, d.frentistaId, auth, faults.frentistaRead).value;
      && 0 <= j < |s.tables.fechamentos|
      && Some(s.tables.fechamentos[j].id) == s.outcome.fechamentoId
      && ClosingKeyOf(s.tables.fechamentos[j]) == ClosingKey(d.data, d.turnoId, fr.postoId)
  {
    var p, f, fr := FirstStep(t, d, auth, faults);
    j :| 0 <= j < |p.fechamentos| && p.fechamentos[j] == f;
  }

  /** After a successful submission the same attendant resolves again, its
      shift aside: same id, same station. */
  lemma SubmitResolvesAgain(t: Tables, d: SubmitClosingData, auth: Option<AuthUser>, faults: SubmitFaults,
                            d': SubmitClosingData)
    requires WellFormed(t)
    requires Submit(t, d, auth, faults).outcome.success
    requires d'.frentistaId == d.frentistaId
    ensures var fr := ResolveFrentista(t.frentistas, d.frentistaId, auth, faults.frentistaRead).value;
      var r := ResolveFrentista(Submit(t, d, auth, faults).tables.frentistas, d'.frentistaId, auth, false);
      r.Success? && r.value.id == fr.id && r.value.postoId == fr.postoId
  {
    var p, f, fr := FirstStep(t, d, auth, faults);
    ResolveAfterShift(t.frentistas, d.frentistaId, auth, false, fr, d.turnoId);
  }

  /** Setting an attendant's shift does not change whom the selection resolves to. */
  lemma ResolveAfterShift(frentistas: seq<Frentista>, selected: int, auth: Option<AuthUser>, readFails: bool,
                          fr: Frentista, turnoId: int)
    requires ResolveFrentista(frentistas, selected, auth, readFails) == Success(fr)
    ensures ResolveFrentista(MapSeq(frentistas, TurnoOf(fr.id, turnoId)), selected, auth, readFails) ==
      Success(TurnoOf(fr.id, turnoId)(fr))
  {
    var g := TurnoOf(fr.id, turnoId);
    if selected != 0 {
      SingleMap(frentistas, g, FrentistaIdOf, selected);
    } else {
      SingleMap(frentistas, g, UserLinkOf, UserLink(Some(auth.value.id), true));
    }
  }

  /** A submission for a (date, shift, station) that has a closing, when the
      search does not err, writes under that closing. */
  lemma SubmitReusesParent(t: Tables, d: SubmitClosingData, auth: Option<AuthUser>, faults: SubmitFaults, j: int)
    requires Distinct(t.fechamentos, ClosingKeyOf) && !faults.closingSearch
    requires ResolveFrentista(t.frentistas, d.frentistaId, auth, faults.frentistaRead).Success?
    requires ResolveFrentista(t.frentistas, d.frentistaId, auth, faults.frentistaRead).value.postoId != 0
    requires 0 <= j < |t.fechamentos|
    requires ClosingKeyOf(t.fechamentos[j]) ==
      ClosingKey(d.data, d.turnoId, ResolveFrentista(t.frentistas, d.frentistaId, auth, faults.frentistaRead).value.postoId)
    ensures Submit(t, d, auth, faults) ==
      WriteChild(t, d, t.fechamentos[j], ResolveFrentista(t.frentistas, d.frentistaId, auth, faults.frentistaRead).value, faults)
  {
    var fr := ResolveFrentista(t.frentistas, d.frentistaId, auth, faults.frentistaRead).value;
    var total := TotalInformado(d);
    GetOrCreateReuses(t, d.data, d.turnoId, ResolveUsuario(t.usuarios, auth, faults), total, total,
                      fr.postoId, faults.closingInsert, j);
  }
}
