/** `submitMobileClosing`: one attendant's shift-closing submission, as a
    function from the tables before it to its outcome and the tables after
    it. The logged-in identity is a parameter, and so are the backend errors
    each step can meet. */
module Submission {
  import opened Common
  import opened Rows
  import opened Totals
  import opened Backend

  const FrentistaNotFound := "Frentista selecionado não encontrado."
  const FrentistaNotIdentified := "Frentista não identificado. Por favor selecione um frentista no topo da tela."
  const UpdatedMessage := "Fechamento atualizado com sucesso!"
  const SentMessage := "Fechamento enviado com sucesso!"
  const SubmitErrorPrefix := "Erro ao enviar fechamento: "
  const Admin := "ADMIN"

  /** What the submission returns to the screen. */
  datatype Outcome = Outcome(success: bool, message: string, fechamentoId: Option<int>)

  datatype Submission = Submission(outcome: Outcome, tables: Tables)

  /** The backend errors a submission can meet, step by step. An
      `Option<string>` is an error the step throws (with its message); a
      `bool` is an error the code ignores or turns into "not found". */
  datatype SubmitFaults = SubmitFaults(
    profileRead: bool,
    adminRead: bool,
    anyUserRead: bool,
    frentistaRead: bool,
    closingSearch: bool,
    closingInsert: Option<string>,
    childLookup: bool,
    childWrite: Option<string>,
    notasInsert: bool,
    childrenRead: Option<string>,
    closingRead: bool,
    closingUpdate: Option<string>,
    frentistaUpdate: bool)

  /** The `catch` of the submission: an error thrown by any step. */
  function Failed(error: string): Outcome
  {
    Outcome(false, SubmitErrorPrefix + error, None)
  }

  // ---------------------------------------------------------------------
  // Who submits.

  /** The user id recorded on a new closing: the profile whose email is the
      logged-in email, else the first `ADMIN` user, else the first user,
      else none (and the submission goes on without one). A read that errs
      yields no row, so the chain moves on to its next fallback. */
  function ResolveUsuario(usuarios: seq<Usuario>, auth: Option<AuthUser>, faults: SubmitFaults): (r: Option<int>)
    ensures r.Some? ==> exists u :: u in usuarios && u.id == r.value
    ensures |usuarios| == 0 ==> r.None?
    ensures !faults.anyUserRead && |usuarios| > 0 ==> r.Some?
  {
    var profile := if auth.Some? && auth.value.email != "" && !faults.profileRead
                   then Single(usuarios, EmailOf, auth.value.email) else None;
    if profile.Some? && profile.value.id != 0 then Some(profile.value.id)
    else
      var admins := if faults.adminRead then [] else Where(usuarios, RoleOf, Admin);
      if |admins| > 0 then Some(admins[0].id)
      else if |usuarios| > 0 && !faults.anyUserRead then Some(usuarios[0].id)
      else None
  }

  /** A logged-in user with a (unique) profile is recorded as themselves. */
  lemma ResolveUsuarioProfile(usuarios: seq<Usuario>, auth: Option<AuthUser>, faults: SubmitFaults, i: int)
    requires Distinct(usuarios, EmailOf) && !faults.profileRead
    requires auth.Some? && auth.value.email != ""
    requires 0 <= i < |usuarios| && usuarios[i].email == auth.value.email && usuarios[i].id != 0
    ensures ResolveUsuario(usuarios, auth, faults) == Some(usuarios[i].id)
  {
    SingleFinds(usuarios, EmailOf, i);
  }

  /** Without a matching profile, or when the profile read errs, the first
      `ADMIN` user in table order is recorded. */
  lemma ResolveUsuarioFirstAdmin(usuarios: seq<Usuario>, auth: Option<AuthUser>, faults: SubmitFaults, i: int)
    requires auth.None? || faults.profileRead || forall j :: 0 <= j < |usuarios| ==> usuarios[j].email != auth.value.email
    requires !faults.adminRead
    requires 0 <= i < |usuarios| && usuarios[i].role == Admin
    requires forall j :: 0 <= j < i ==> usuarios[j].role != Admin
    ensures ResolveUsuario(usuarios, auth, faults) == Some(usuarios[i].id)
  {
    if auth.Some? && !faults.profileRead {
      WhereEmpty(usuarios, EmailOf, auth.value.email);
    }
    WhereFirst(usuarios, RoleOf, Admin, i);
  }

  /** Without a profile and without an `ADMIN` (or when those reads err),
      the first user is recorded: an erring read skips to the next fallback
      even when the row it looked for exists. */
  lemma ResolveUsuarioAnyUser(usuarios: seq<Usuario>, auth: Option<AuthUser>, faults: SubmitFaults)
    requires auth.None? || faults.profileRead || forall j :: 0 <= j < |usuarios| ==> usuarios[j].email != auth.value.email
    requires faults.adminRead || forall j :: 0 <= j < |usuarios| ==> usuarios[j].role != Admin
    requires |usuarios| > 0 && !faults.anyUserRead
    ensures ResolveUsuario(usuarios, auth, faults) == Some(usuarios[0].id)
  {
    if auth.Some? && !faults.profileRead {
      WhereEmpty(usuarios, EmailOf, auth.value.email);
    }
    if !faults.adminRead {
      WhereEmpty(usuarios, RoleOf, Admin);
    }
  }

  /** The attendant the closing is for: the selected one (by id), or, when
      none is selected, the active attendant linked to the logged-in user.
      A read that errs finds no attendant (`readFails`). */
  function ResolveFrentista(frentistas: seq<Frentista>, selected: int, auth: Option<AuthUser>, readFails: bool): (r: Result<Frentista>)
    ensures r.Success? ==> r.value in frentistas
    ensures r.Success? && selected != 0 ==> r.value.id == selected
    ensures r.Success? && selected == 0 ==>
      auth.Some? && r.value.userId == Some(auth.value.id) && r.value.ativo
    ensures r.Failure? ==> r.error == (if selected != 0 then FrentistaNotFound else FrentistaNotIdentified)
    ensures selected == 0 && auth.None? ==> r.Failure?
    ensures readFails ==> r.Failure?
  {
    if selected != 0 then
      var found := if readFails then None else Single(frentistas, FrentistaIdOf, selected);
      if found.Some? then Success(found.value) else Failure(FrentistaNotFound)
    else
      var linked := if auth.Some? && !readFails then Single(frentistas, UserLinkOf, UserLink(Some(auth.value.id), true)) else None;
      if linked.Some? then Success(linked.value) else Failure(FrentistaNotIdentified)
  }

  /** With unique attendant ids, a selected attendant is not found exactly
      when the read errs or no row has that id; otherwise it is that row. */
  lemma ResolveFrentistaExact(frentistas: seq<Frentista>, selected: int, auth: Option<AuthUser>, readFails: bool)
    requires selected != 0 && Distinct(frentistas, FrentistaIdOf)
    ensures ResolveFrentista(frentistas, selected, auth, readFails).Failure? <==>
      readFails || forall i :: 0 <= i < |frentistas| ==> frentistas[i].id != selected
    ensures !readFails ==> forall i :: 0 <= i < |frentistas| && frentistas[i].id == selected ==>
      ResolveFrentista(frentistas, selected, auth, readFails) == Success(frentistas[i])
  {
    SingleMisses(frentistas, FrentistaIdOf, selected);
    forall i | !readFails && 0 <= i < |frentistas| && frentistas[i].id == selected
      ensures ResolveFrentista(frentistas, selected, auth, readFails) == Success(frentistas[i])
    {
      SingleFinds(frentistas, FrentistaIdOf, i);
    }
  }

  /** With no attendant selected, the active attendant linked to the
      logged-in user is found, when no other row carries the same link and
      the read does not err. */
  lemma ResolveFrentistaLinked(frentistas: seq<Frentista>, user: AuthUser, i: int)
    requires 0 <= i < |frentistas| && frentistas[i].userId == Some(user.id) && frentistas[i].ativo
    requires forall j :: 0 <= j < |frentistas| && j != i ==> UserLinkOf(frentistas[j]) != UserLinkOf(frentistas[i])
    ensures ResolveFrentista(frentistas, 0, Some(user), false) == Success(frentistas[i])
  {
    WhereOnly(frentistas, UserLinkOf, i);
  }

  // ---------------------------------------------------------------------
  // The submission.

  /** The find-then-update-or-insert of the attendant's child closing:
      update the row `getExisting` found (when its id is truthy), else
      insert a new one. */
  function Upsert(t: Tables, existing: Option<int>, fid: int, frid: int, postoId: int,
                  v: ChildValues, writeError: Option<string>): (c: Step<FechamentoFrentista>)
    ensures WellFormed(t) && fid < t.nextId ==> WellFormed(c.tables)
    ensures c.tables == t.(children := c.tables.children, nextId := c.tables.nextId)
    ensures c.result.Failure? ==> c.tables == t
    ensures Truthy(existing) ==> |c.tables.children| == |t.children|
    ensures !Truthy(existing) && c.result.Success? ==> |c.tables.children| == |t.children| + 1
  {
    if Truthy(existing) then UpdateChild(t, existing.value, v, writeError)
    else CreateChild(t, fid, frid, postoId, v, writeError)
  }

  /** The child closings after the upsert hold exactly one row for the key,
      with the submitted values and the id the upsert returns, and no key twice. */
  predicate OneChildFor(rows: seq<FechamentoFrentista>, k: ChildKey, v: ChildValues, id: int)
  {
    && Distinct(rows, ChildKeyOf)
    && |Where(rows, ChildKeyOf, k)| == 1
    && Written(Where(rows, ChildKeyOf, k)[0], v)
    && Where(rows, ChildKeyOf, k)[0].id == id
  }

  /** The upsert keeps (closing, attendant) unique, updates exactly when a
      row for the key exists, and on success leaves exactly one row for the
      key, holding the submitted values, whose id the upsert returns. */
  lemma UpsertLeavesOneChild(t: Tables, fid: int, frid: int, postoId: int, v: ChildValues, writeError: Option<string>)
    requires WellFormed(t) && Distinct(t.children, ChildKeyOf) && fid < t.nextId
    ensures var k := ChildKey(fid, frid);
      var existing := FindChild(t.children, fid, frid);
      var c := Upsert(t, existing, fid, frid, postoId, v, writeError);
      && Distinct(c.tables.children, ChildKeyOf)
      && (Truthy(existing) <==> |Where(t.children, ChildKeyOf, k)| == 1)
      && (c.result.Success? ==> OneChildFor(c.tables.children, k, v, c.result.value.id))
  {
    var k := ChildKey(fid, frid);
    FindChildExact(t.children, fid, frid);
    WhereAtMostOne(t.children, ChildKeyOf, k);
    if |Where(t.children, ChildKeyOf, k)| == 1 {
      assert Where(t.children, ChildKeyOf, k)[0] in t.children;
      UpsertUpdates(t, fid, frid, postoId, v, writeError);
    } else {
      UpsertInserts(t, fid, frid, postoId, v, writeError);
    }
  }

  /** When a row for the key exists, the upsert overwrites it in place. */
  lemma UpsertUpdates(t: Tables, fid: int, frid: int, postoId: int, v: ChildValues, writeError: Option<string>)
    requires Distinct(t.children, ChildKeyOf)
    requires |Where(t.children, ChildKeyOf, ChildKey(fid, frid))| == 1
    requires Where(t.children, ChildKeyOf, ChildKey(fid, frid))[0].id != 0
    ensures var existing := FindChild(t.children, fid, frid);
      var c := Upsert(t, existing, fid, frid, postoId, v, writeError);
      && Truthy(existing)
      && Distinct(c.tables.children, ChildKeyOf)
      && (c.result.Success? ==> OneChildFor(c.tables.children, ChildKey(fid, frid), v, c.result.value.id))
  {
    var k := ChildKey(fid, frid);
    var c0 := Where(t.children, ChildKeyOf, k)[0];
    assert c0 in t.children;
    FindChildExact(t.children, fid, frid);
    assert FindChild(t.children, fid, frid) == Some(c0.id);
    assert Where(t.children, ChildKeyOf, k) == [c0];
    UpdateChildKeepsOne(t, c0, v, writeError, k);
  }

  /** Updating the one row of a key by its id keeps it the one row of that key. */
  lemma UpdateChildKeepsOne(t: Tables, c0: FechamentoFrentista, v: ChildValues, writeError: Option<string>, k: ChildKey)
    requires Distinct(t.children, ChildKeyOf) && Where(t.children, ChildKeyOf, k) == [c0]
    ensures var c := UpdateChild(t, c0.id, v, writeError);
      && Distinct(c.tables.children, ChildKeyOf)
      && (c.result.Success? ==> OneChildFor(c.tables.children, k, v, c.result.value.id))
  {
    var c := UpdateChild(t, c0.id, v, writeError);
    if c.result.Success? {
      assert c.tables.children == Overwritten(t.children, c0.id, v);
      OverwriteKeepsOne(t.children, c0, v, k);
    }
  }

  /** Overwriting the one row of a key keeps it the one row of that key. */
  lemma OverwriteKeepsOne(rows: seq<FechamentoFrentista>, c0: FechamentoFrentista, v: ChildValues, k: ChildKey)
    requires Distinct(rows, ChildKeyOf) && Where(rows, ChildKeyOf, k) == [c0]
    ensures var r := Overwritten(rows, c0.id, v);
      && Distinct(r, ChildKeyOf)
      && Where(r, ChildKeyOf, k) == [OverwriteOf(c0.id, v)(c0)]
      && Written(OverwriteOf(c0.id, v)(c0), v)
      && OverwriteOf(c0.id, v)(c0).id == c0.id
  {
    var g := OverwriteOf(c0.id, v);
    DistinctMap(rows, g, ChildKeyOf);
    WhereMap(rows, g, ChildKeyOf, k);
    assert MapSeq([c0], g) == [g(c0)];
  }

  /** When no row has the key, the upsert inserts the only one. */
  lemma UpsertInserts(t: Tables, fid: int, frid: int, postoId: int, v: ChildValues, writeError: Option<string>)
    requires WellFormed(t) && Distinct(t.children, ChildKeyOf) && fid < t.nextId
    requires |Where(t.children, ChildKeyOf, ChildKey(fid, frid))| == 0
    ensures var existing := FindChild(t.children, fid, frid);
      var c := Upsert(t, existing, fid, frid, postoId, v, writeError);
      && existing.None?
      && Distinct(c.tables.children, ChildKeyOf)
      && (c.result.Success? ==> OneChildFor(c.tables.children, ChildKey(fid, frid), v, c.result.value.id))
  {
    var k := ChildKey(fid, frid);
    var c := CreateChild(t, fid, frid, postoId, v, writeError);
    if c.result.Success? {
      WhereAppend(t.children, c.result.value, ChildKeyOf, k);
      DistinctAppend(t.children, c.result.value, ChildKeyOf);
    }
  }

  /** `submitMobileClosing`: resolve the attendant, then persist. An
      unresolved attendant ends the submission before anything is written. */
  function Submit(t: Tables, d: SubmitClosingData, auth: Option<AuthUser>, faults: SubmitFaults): (s: Submission)
    ensures WellFormed(t) ==> WellFormed(s.tables)
    ensures s.outcome.success <==> s.outcome.fechamentoId.Some?
    ensures s.outcome.success ==> ResolveFrentista(t.frentistas, d.frentistaId, auth, faults.frentistaRead).Success?
    ensures ResolveFrentista(t.frentistas, d.frentistaId, auth, faults.frentistaRead).Failure? ==>
      s.tables == t && !s.outcome.success && s.outcome.message == ResolveFrentista(t.frentistas, d.frentistaId, auth, faults.frentistaRead).error
    ensures s.outcome.success ==> s.outcome.message == UpdatedMessage || s.outcome.message == SentMessage
    ensures !s.outcome.success ==> s.tables.frentistas == t.frentistas
    ensures !s.outcome.success ==>
      s.outcome.message == FrentistaNotFound || s.outcome.message == FrentistaNotIdentified ||
      SubmitErrorPrefix <= s.outcome.message
    ensures s.tables.usuarios == t.usuarios && s.tables.produtos == t.produtos
    ensures s.tables.vendas == t.vendas && s.tables.movimentacoes == t.movimentacoes
    ensures |t.children| <= |s.tables.children| <= |t.children| + 1
    ensures |t.fechamentos| <= |s.tables.fechamentos| <= |t.fechamentos| + 1
    ensures |t.notas| <= |s.tables.notas| && s.tables.notas[..|t.notas|] == t.notas
  {
    match ResolveFrentista(t.frentistas, d.frentistaId, auth, faults.frentistaRead)
    case Failure(msg) => Submission(Outcome(false, msg, None), t)
    case Success(fr) => Persist(t, d, ResolveUsuario(t.usuarios, auth, faults), fr, faults)
  }

  /** The writes of a submission once the attendant `fr` is known: the
      parent closing (found or created), then the rest; a thrown error ends
      the submission. */
  function Persist(t: Tables, d: SubmitClosingData, usuarioId: Option<int>, fr: Frentista, faults: SubmitFaults): (s: Submission)
    ensures WellFormed(t) ==> WellFormed(s.tables)
    ensures s.outcome.success <==> s.outcome.fechamentoId.Some?
    ensures s.outcome.success ==> s.outcome.message == UpdatedMessage || s.outcome.message == SentMessage
    ensures !s.outcome.success ==> s.tables.frentistas == t.frentistas && SubmitErrorPrefix <= s.outcome.message
    ensures s.tables.usuarios == t.usuarios && s.tables.produtos == t.produtos
    ensures s.tables.vendas == t.vendas && s.tables.movimentacoes == t.movimentacoes
    ensures |t.children| <= |s.tables.children| <= |t.children| + 1
    ensures |t.fechamentos| <= |s.tables.fechamentos| <= |t.fechamentos| + 1
    ensures |t.notas| <= |s.tables.notas| && s.tables.notas[..|t.notas|] == t.notas
  {
    var total := TotalInformado(d);
    var p := GetOrCreate(t, d.data, d.turnoId, usuarioId, total, total, fr.postoId,
                         faults.closingSearch, faults.closingInsert);
    if p.result.Failure? then Submission(Failed(p.result.error), p.tables)
    else WriteChild(p.tables, d, p.result.value, fr, faults)
  }

  /** The child closing of attendant `fr` under the parent `f`: looked up
      (`getExisting`), then updated or inserted; then the rest. The message
      says "atualizado" when the lookup found a row. */
  function WriteChild(t: Tables, d: SubmitClosingData, f: Fechamento, fr: Frentista, faults: SubmitFaults): (s: Submission)
    ensures WellFormed(t) && f.id < t.nextId ==> WellFormed(s.tables)
    ensures s.outcome.success <==> s.outcome.fechamentoId.Some?
    ensures s.outcome.success ==> s.outcome.fechamentoId == Some(f.id)
    ensures s.outcome.success ==> s.outcome.message == UpdatedMessage || s.outcome.message == SentMessage
    ensures !s.outcome.success ==> s.tables.frentistas == t.frentistas && SubmitErrorPrefix <= s.outcome.message
    ensures s.tables.usuarios == t.usuarios && s.tables.produtos == t.produtos
    ensures s.tables.vendas == t.vendas && s.tables.movimentacoes == t.movimentacoes
    ensures |t.children| <= |s.tables.children| <= |t.children| + 1
    ensures |s.tables.fechamentos| == |t.fechamentos|
    ensures forall i :: 0 <= i < |t.fechamentos| ==>
      s.tables.fechamentos[i].id == t.fechamentos[i].id &&
      ClosingKeyOf(s.tables.fechamentos[i]) == ClosingKeyOf(t.fechamentos[i])
    ensures s.outcome.success ==> forall i :: 0 <= i < |t.fechamentos| && t.fechamentos[i].id == f.id ==>
      Aggregated(s.tables.fechamentos[i], SumReceived(Where(s.tables.children, ParentOf, f.id)))
    ensures WellFormed(t) && f.id < t.nextId && s.outcome.success ==>
      forall i :: 0 <= i < |t.fechamentos| && t.fechamentos[i] == f ==>
        s.tables.fechamentos[i].totalVendas == Some(OrZero(f.totalVendas))
    ensures |t.notas| <= |s.tables.notas| && s.tables.notas[..|t.notas|] == t.notas
    ensures s.tables.frentistas == t.frentistas ||
      s.tables.frentistas == MapSeq(t.frentistas, TurnoOf(fr.id, d.turnoId))
  {
    var existing := if faults.childLookup then None else FindChild(t.children, f.id, fr.id);
    var c := Upsert(t, existing, f.id, fr.id, d.postoId, ChildValuesOf(d), faults.childWrite);
    if c.result.Failure? then Submission(Failed(c.result.error), c.tables)
    else Finish(c.tables, d, f, fr, c.result.value.id, Truthy(existing), faults)
  }

  /** The credit notes of `d` appended after `before`: one pending line per
      note, in order, dated with the closing's date, pointing at the child
      closing `childId` and the attendant `fr`. */
  predicate NotesAppended(before: seq<NotaFrentista>, after: seq<NotaFrentista>, d: SubmitClosingData,
                          childId: int, fr: Frentista)
  {
    && |after| == |before| + |d.notas|
    && after[..|before|] == before
    && forall i :: |before| <= i < |after| ==>
         && after[i].clienteId == d.notas[i - |before|].clienteId
         && after[i].valor == d.notas[i - |before|].valor
         && after[i].fechamentoFrentistaId == childId
         && after[i].frentistaId == fr.id
         && after[i].postoId == fr.postoId
         && after[i].status == "pendente"
         && after[i].data == d.data
  }

  /** The writes after the child closing `childId`: the notes and the
      aggregate (`Settle`), then the attendant's shift (an error there is
      only logged). */
  function Finish(t: Tables, d: SubmitClosingData, f: Fechamento, fr: Frentista, childId: int,
                  updated: bool, faults: SubmitFaults): (s: Submission)
    ensures WellFormed(t) ==> WellFormed(s.tables)
    ensures s.outcome.success <==> s.outcome.fechamentoId.Some?
    ensures s.outcome.success ==>
      s.outcome.fechamentoId == Some(f.id) && s.outcome.message == (if updated then UpdatedMessage else SentMessage)
    ensures !s.outcome.success ==> s.tables.frentistas == t.frentistas && SubmitErrorPrefix <= s.outcome.message
    ensures s.tables.children == t.children && s.tables.usuarios == t.usuarios && s.tables.produtos == t.produtos
    ensures s.tables.vendas == t.vendas && s.tables.movimentacoes == t.movimentacoes
    ensures |s.tables.fechamentos| == |t.fechamentos|
    ensures forall i :: 0 <= i < |t.fechamentos| ==>
      s.tables.fechamentos[i].id == t.fechamentos[i].id &&
      ClosingKeyOf(s.tables.fechamentos[i]) == ClosingKeyOf(t.fechamentos[i])
    ensures s.outcome.success ==> forall i :: 0 <= i < |t.fechamentos| && t.fechamentos[i].id == f.id ==>
      Aggregated(s.tables.fechamentos[i], SumReceived(Where(s.tables.children, ParentOf, f.id)))
    ensures WellFormed(t) && s.outcome.success ==> forall i :: 0 <= i < |t.fechamentos| && t.fechamentos[i] == f ==>
      s.tables.fechamentos[i].totalVendas == Some(OrZero(f.totalVendas))
    ensures |t.notas| <= |s.tables.notas| && s.tables.notas[..|t.notas|] == t.notas
    ensures s.outcome.success && !faults.notasInsert ==> NotesAppended(t.notas, s.tables.notas, d, childId, fr)
    ensures s.tables.frentistas == t.frentistas ||
      s.tables.frentistas == MapSeq(t.frentistas, TurnoOf(fr.id, d.turnoId))
  {
    var u := Settle(t, d, f, fr, childId, faults);
    if u.result.Failure? then Submission(Failed(u.result.error), u.tables)
    else
      Submission(Outcome(true, if updated then UpdatedMessage else SentMessage, Some(f.id)),
                 SetFrentistaTurno(u.tables, fr.id, d.turnoId, faults.frentistaUpdate))
  }

  /** The writes after the child closing: the credit notes (an error there is
      only logged), then the aggregate of the parent `f`, with the sales
      total `f` was returned with (null as 0) as the manual value. */
  function Settle(t: Tables, d: SubmitClosingData, f: Fechamento, fr: Frentista, childId: int, faults: SubmitFaults): (u: Step<()>)
    ensures WellFormed(t) ==> WellFormed(u.tables)
    ensures u.tables == t.(notas := u.tables.notas, nextId := u.tables.nextId, fechamentos := u.tables.fechamentos)
    ensures |u.tables.fechamentos| == |t.fechamentos|
    ensures forall i :: 0 <= i < |t.fechamentos| ==>
      u.tables.fechamentos[i].id == t.fechamentos[i].id &&
      ClosingKeyOf(u.tables.fechamentos[i]) == ClosingKeyOf(t.fechamentos[i])
    ensures u.result.Success? ==> forall i :: 0 <= i < |t.fechamentos| && t.fechamentos[i].id == f.id ==>
      Aggregated(u.tables.fechamentos[i], SumReceived(Where(t.children, ParentOf, f.id)))
    ensures |t.notas| <= |u.tables.notas| && u.tables.notas[..|t.notas|] == t.notas
    ensures WellFormed(t) && u.result.Success? ==> forall i :: 0 <= i < |t.fechamentos| && t.fechamentos[i] == f ==>
      u.tables.fechamentos[i].totalVendas == Some(OrZero(f.totalVendas))
    ensures !faults.notasInsert ==> NotesAppended(t.notas, u.tables.notas, d, childId, fr)
    ensures u.result.Failure? ==>
      (faults.childrenRead.Some? && u.result.error == ReadChildrenError + faults.childrenRead.value) ||
      (faults.closingUpdate.Some? && u.result.error == UpdateClosingError + faults.closingUpdate.value)
  {
    var withNotas := if |d.notas| > 0
      then InsertNotas(t, d.notas, childId, fr.id, fr.postoId, d.data, faults.notasInsert)
      else t;
    UpdateTotalsKeepsStoredVendas(withNotas, f.id, Some(d.observacoes),
                                  faults.childrenRead, faults.closingRead, faults.closingUpdate);
    UpdateTotals(withNotas, f.id, OrZero(f.totalVendas), Some(d.observacoes),
                 faults.childrenRead, faults.closingRead, faults.closingUpdate)
  }
}
