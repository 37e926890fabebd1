# posto-mobile shift closing, modelled in Dafny

posto-mobile is the attendants' app of a fuel station. At the end of a shift an
attendant (*frentista*) declares what they received: debit and credit card,
credit notes (*notas*), PIX, cash, coins, the voucher amount (*baratão*) and
the pump meter reading (*encerrante*). `submitMobileClosing` in `lib/api.ts`
records that declaration. It resolves the attendant, then finds or creates the
station's closing (*Fechamento*) for the date and shift. It inserts or updates
the attendant's own child closing (*FechamentoFrentista*) and appends one
pending line per credit note. It then recomputes the parent closing's
aggregate over all its children and records the attendant's current shift.

The model covers that workflow and the helpers it calls:

- the shift resolver `turnoService.getCurrentTurno`;
- `fechamentoService.getOrCreate` and `updateTotals`;
- `fechamentoFrentistaService.create`, `update`, `getExisting` and `exists`;
- the history mapping of `getHistorico`;
- the product sale `vendaProdutoService.create`, with its stock decrement.

It has two layers:

- **A value layer.** The backend is a `Tables` value, with one sequence of
  rows per table. Each service call is a function from the tables before the
  call to its result and the tables after it (`Backend`, `Submission`).
  A query ending in `.single()` is `Common.Single`: it yields a row exactly
  when exactly one row matches. The `.limit(1).single()` reads of the user
  fallback chain yield the first matching row in table order instead. Each backend error a step can meet is an explicit
  parameter:
  - an `Option<string>` is an error the code throws, carrying its message;
  - a `bool` is an error the code logs and ignores, or reads as "not found".
- **A stateful layer.** The class `Api.Database` holds the same tables as
  fields. Its methods update them in place. Each method is proved to leave
  exactly the tables, and return exactly the result, that the value layer
  prescribes. The properties below are proved once, on the value layer:
  - at most one child closing per (closing, attendant), as long as the
    `getExisting` lookup does not err;
  - the aggregate equals the sum over the children;
  - credit notes are only appended;
  - a resubmission updates in place.

Modules:

- `Common`: JavaScript truthiness, `x || 0`, filters and `.single()`.
- `Rows`: the table rows.
- `Shift`: the shift resolver.
- `Totals`: the submission arithmetic, the aggregate fold, the credit-note
  lines and the history mapping.
- `Backend`: the tables and the service calls.
- `Submission`: `submitMobileClosing` in stages.
- `SubmissionProperties`: what a submission guarantees.
- `Api`: the `Database` class.

Money is an integer number of cents. Times of day are the backend's
zero-padded `"HH:MM"` strings, compared the way JavaScript compares strings.

## Model

| member | source | states |
|---|---|---|
| Common.Single | lib/api.ts:149-154 | `.single()`: a row is returned only when exactly one row carries the key, and it is a row of the table with that key |
| Common.SingleMisses | lib/api.ts:149-159 | with unique keys, `.single()` fails exactly when no row carries the key |
| Common.SingleFinds | lib/api.ts:149-161 | with unique keys, `.single()` returns the row that carries the key |
| Common.Where | lib/api.ts:377-380 | an `.eq` filter keeps exactly the rows with the key, in table order, and nothing else |
| Common.MapSeq | lib/api.ts:406-415 | an `.update().eq('id')` keeps the table's length and replaces each row by the update applied to it |
| Shift.FirstActive | lib/api.ts:293-307 | the index found contains `now` and no earlier shift does; no index means no shift contains `now` |
| Shift.CurrentTurno | lib/api.ts:287-310 | returns nothing exactly when the station has no shifts; otherwise returns one of its shifts |
| Shift.CurrentTurnoIsFirstMatch | lib/api.ts:293-306 | the first shift in list order whose window contains `now` is the one returned |
| Shift.CurrentTurnoFallback | lib/api.ts:309 | when no window contains `now`, the first shift is returned |
| Shift.EmptyWindowNeverActive | lib/api.ts:298-306 | a shift whose start equals its end contains no time of day |
| Shift.ClockOrder | lib/api.ts:290-303 | on well-formed "HH:MM" strings, the string comparison agrees with comparing minutes since midnight |
| Shift.IsActiveInMinutes | lib/api.ts:298-306 | a shift is active exactly when `now` lies in its window read as a circular interval of the day; a window with start after end crosses midnight |
| Shift.NightShiftExample | lib/api.ts:298-301 | a 22:00-06:00 shift contains 23:30 and 02:00 but not 12:00 |
| Totals.ChildValuesOf | lib/api.ts:649-662 | card total is debit plus credit; the stored breakdown plus coins is the declared total; checked amount plus shortage is the declared total; meter reading minus the computed variance is the declared total; an empty remark is stored as absent |
| Totals.ReduceIsSum | lib/api.ts:386-393 | the `reduce` fold from an accumulator equals the accumulator plus the sum of debit, credit, notes, PIX and cash over the children, missing values as 0 |
| Totals.SumReceivedPermutation | lib/api.ts:386-393 | the aggregate received does not depend on the order the children come back in |
| Totals.NotaLines | lib/api.ts:730-738 | one line per credit note, in order, with the note's client and amount, pointing at the child closing, status "pendente" and the closing's date |
| Totals.Historico | lib/api.ts:541-559 | one history item per returned row, in order, each given by the corrected row mapping (see Findings) |
| Totals.AsWrittenLosesDateAndShift | lib/api.ts:551-552 | as written, every history item shows date "" and shift "N/A", whatever the closing's date and shift name |
| Totals.HistoricoShowsDateAndShift | lib/api.ts:524-530 | read under the query's aliases, the item shows the parent closing's date and the shift's name ("N/A" only for an empty name) |
| Totals.AsWrittenBalancedShowsCoins | lib/api.ts:542-547 | as written, a submission whose meter reading equals its declared total shows coins plus voucher as its variance, and "divergente" when that sum is non-zero |
| Totals.AsWrittenBalancedExample | lib/api.ts:547 | as written, debit 100.00, coins 10.00 and a meter reading of 110.00 show as "divergente" with variance 10.00 |
| Totals.HistoricoReflectsSubmission | lib/api.ts:541-556 | the item of a row a submission wrote shows its meter reading and the variance reading minus declared total; it is "ok" exactly when they are equal; the total shown is the declared total less coins and voucher |
| Backend.WithTotals | lib/api.ts:406-415 | the aggregate update changes only the closing with the given id: it sets received, sales, difference = received - sales, status "FECHADO", and the remark when one is given; every other row is unchanged |
| Backend.Overwritten | lib/api.ts:475-478 | the child update rewrites only the row with the given id, keeping its id and keys, with the submitted values; every other row is unchanged |
| Backend.FindClosing | lib/api.ts:329-339 | a closing is found only with the requested date and shift, and with the station when one is given |
| Backend.FindClosingExact | lib/api.ts:329-343 | with the station given and (date, shift, station) unique, the search finds nothing exactly when no closing has that key, and otherwise finds that closing |
| Backend.FindChild | lib/api.ts:489-498 | `getExisting` returns only the id of a child closing for (closing, attendant) |
| Backend.FindChildExact | lib/api.ts:489-498 | with (closing, attendant) unique, `getExisting` returns nothing exactly when no such child exists, and otherwise its id |
| Backend.ChildExists | lib/api.ts:504-507 | with (closing, attendant) unique, `exists` holds exactly when a child closing for the pair exists |
| Backend.GetOrCreate | lib/api.ts:320-366 | only the closings (and ids) change; a found closing is returned with nothing written; otherwise exactly one row is appended, with the date, shift, user, status "FECHADO", the given totals and difference = received - sales; an insert error throws "Erro ao criar fechamento: …" and writes nothing |
| Backend.GetOrCreateReuses | lib/api.ts:339-343 | an existing (date, shift, station) closing is returned as it is and the tables are unchanged |
| Backend.GetOrCreateKeepsKeysUnique | lib/api.ts:329-359 | when the station is given and the search does not err, no second closing for a (date, shift, station) is ever created |
| Backend.UpdateTotals | lib/api.ts:371-420 | touches only the closings and no child row; a read or update error throws its message and writes nothing; otherwise the closing gets the sum over its children as received, the manual sales if non-zero, else the stored ones, else 0, their difference and status "FECHADO"; other closings are unchanged |
| Backend.UpdateTotalsKeepsStoredVendas | lib/api.ts:397-403 | with no manual value, a successful recompute keeps the stored sales total (null becomes 0) |
| Backend.CreateChild | lib/api.ts:430-457 | inserts exactly one child closing for (closing, attendant) with the submitted values, or on error throws "Erro ao criar fechamento frentista: …" and writes nothing |
| Backend.UpdateChild | lib/api.ts:462-487 | overwrites the child closing with the given id and no other row; keeps the table's length; on error, or when no row has the id, throws "Erro ao atualizar fechamento frentista: …" and writes nothing |
| Backend.InsertNotas | lib/api.ts:729-747 | appends all the note lines or, on a (swallowed) error, none; earlier lines are kept |
| Backend.SetFrentistaTurno | lib/api.ts:164-177 | sets the shift of the attendant with the given id and changes no other row or table; an error is swallowed |
| Backend.CreateVenda | lib/api.ts:834-872 | succeeds exactly when the sale insert does not err, and otherwise throws that error with nothing written; records the sale with total = quantity × unit price and station 1 when none is given; touches only sales, products and stock movements; changes no other product; appends at most one movement |
| Backend.UpdateStock | lib/api.ts:855-869 | changes only the stock of the sold product and appends at most one stock movement; the sales and closing tables are unchanged |
| Backend.VendaDecrementsStock | lib/api.ts:856-868 | a sale of a stored product with no errors lowers its stock by exactly the quantity and appends one "SAIDA" movement for the product, quantity, sale and attendant |
| Submission.ResolveUsuario | lib/api.ts:574-623 | the recorded user is some user of the table; an empty user table gives no user; a non-empty one always gives a user unless the last fallback read errs |
| Submission.ResolveUsuarioProfile | lib/api.ts:576-583 | a logged-in user with a profile (and a non-zero id) is recorded as that profile when its read does not err |
| Submission.ResolveUsuarioFirstAdmin | lib/api.ts:586-603 | without a matching profile, or when the profile read errs, the first "ADMIN" user in table order is recorded |
| Submission.ResolveUsuarioAnyUser | lib/api.ts:604-615 | without a profile and without an admin, or when those reads err, the first user is recorded: an erring read skips to the next fallback |
| Submission.ResolveFrentista | lib/api.ts:625-646 | a selected attendant is found only with that id, else the call fails with "Frentista selecionado não encontrado."; with none selected, only the active attendant linked to the logged-in user is found, else the call fails with "Frentista não identificado…"; without login and without a selection, or when the read errs, it always fails |
| Submission.ResolveFrentistaExact | lib/api.ts:627-636 | with unique ids, a selected attendant fails to resolve exactly when the read errs or no attendant has that id, and otherwise resolves to that attendant |
| Submission.ResolveFrentistaLinked | lib/api.ts:637-639 | with none selected, the active attendant linked to the logged-in user is found when no other row carries the same link and the read (lib/api.ts:148-161) does not err |
| Submission.Upsert | lib/api.ts:689-726 | updates in place when `getExisting` found an id, keeping the table's length; otherwise inserts exactly one row; an error writes nothing |
| Submission.UpsertLeavesOneChild | lib/api.ts:676-726 | the upsert keeps (closing, attendant) unique; it updates exactly when a row for the key exists; on success exactly one row for the key holds the submitted values, and its id is returned |
| Submission.UpsertUpdates | lib/api.ts:691-706 | when a row for the key exists, the upsert overwrites it and it stays the only row for the key |
| Submission.UpsertInserts | lib/api.ts:707-726 | when no row has the key, the upsert inserts the only one |
| Submission.Submit | lib/api.ts:566-774 | success exactly when a closing id is returned, with "atualizado" or "enviado"; an unresolved attendant returns its message and writes nothing; any other failure carries "Erro ao enviar fechamento: "; users, products, sales and movements are untouched; at most one closing and one child closing are added; earlier note lines are kept |
| Submission.Persist | lib/api.ts:649-673 | after `getOrCreate`, a thrown error returns "Erro ao enviar fechamento: …"; at most one closing is added |
| Submission.WriteChild | lib/api.ts:676-726 | the closing id returned is the parent's; the parent keeps its id and key, is aggregated over its children as they now stand, and keeps the sales total it was read with; the attendant's shift is set, or left unchanged |
| Submission.Finish | lib/api.ts:729-766 | the message is "atualizado" exactly when the child closing existed; the notes are appended; the parent is aggregated; only the attendant's shift changes among the attendants |
| Submission.Settle | lib/api.ts:729-755 | notes appended (unless their insert errs), then the parent's aggregate recomputed with its read sales total as the manual value; a failure carries the read or update error |
| SubmissionProperties.WriteChildLeavesOneChild | lib/api.ts:676-747 | under a parent closing, when `getExisting` does not err, a successful write leaves exactly one child closing for (closing, attendant), holding the submitted values; "atualizado" exactly when one existed; the note lines point at it |
| SubmissionProperties.SubmitLeavesOneChild | lib/api.ts:566-774 | when `getExisting` does not err, after a successful submission exactly one child closing exists for (closing, attendant), holding the submitted values; "atualizado" exactly when one existed before (no row added), "enviado" when one row was added |
| SubmissionProperties.SubmitKeepsChildKeysUnique | lib/api.ts:676-726 | when `getExisting` does not err, a submission never creates a second child closing for a (closing, attendant), whatever its outcome |
| SubmissionProperties.LookupErrorDuplicatesChild | lib/api.ts:489-497 | when `getExisting` errs and a child closing for (closing, attendant) exists, the write inserts a second one, so the pair is no longer unique, whatever the outcome |
| SubmissionProperties.SubmitKeepsClosingKeysUnique | lib/api.ts:666-673 | when the attendant's station is known and the search does not err, a submission never creates a second closing for a (date, shift, station) |
| SubmissionProperties.SubmitAppendsNotes | lib/api.ts:729-747 | when `getExisting` does not err, a successful submission appends one pending line per credit note, in order, with the closing's date and pointing at the attendant's child closing; earlier lines stay |
| SubmissionProperties.SubmitRecomputesAggregate | lib/api.ts:751-755 | after a successful submission, the closing returned is stored under the submitted date and shift, and aggregated over all its children as they now stand |
| SubmissionProperties.FirstSubmissionLeavesOutCoins | lib/api.ts:386-393 | when a submission creates the closing, the stored received total is the declared total less coins and voucher, and the difference is minus their sum, whatever the meter reading |
| SubmissionProperties.WriteChildKeepsVendas | lib/api.ts:751-755 | after a successful write, the parent keeps the sales total it was read with (null as 0) |
| SubmissionProperties.ResubmissionUpdatesInPlace | lib/api.ts:676-766 | a second submission for the same date, shift and attendant returns the same closing and "atualizado", adds no child closing, and the single child for the key holds the new values |
| SubmissionProperties.SubmitStoresParent | lib/api.ts:666-673 | after a successful submission the returned closing is stored under the (date, shift, station) key |
| SubmissionProperties.SubmitReusesParent | lib/api.ts:339-343 | a submission for a (date, shift, station) that has a closing writes under that closing |
| SubmissionProperties.SubmitResolvesAgain | lib/api.ts:758-760 | recording the shift does not change which attendant a later submission resolves to |
| Api.Database.GetOrCreate | lib/api.ts:320-366 | the find-or-create, in place: result and tables equal `Backend.GetOrCreate`; only the closings and the id counter may change |
| Api.Database.UpdateTotals | lib/api.ts:371-420 | the recompute, in place: result and tables equal `Backend.UpdateTotals`; only the closings may change |
| Api.Database.CreateChild | lib/api.ts:430-457 | the insert, in place: result and tables equal `Backend.CreateChild` |
| Api.Database.UpdateChild | lib/api.ts:462-487 | the overwrite, in place: result and tables equal `Backend.UpdateChild` |
| Api.Database.InsertNotas | lib/api.ts:729-747 | the note insert, in place: tables equal `Backend.InsertNotas` |
| Api.Database.SetFrentistaTurno | lib/api.ts:757-760 | the shift update, in place: tables equal `Backend.SetFrentistaTurno` |
| Api.Database.SubmitMobileClosing | lib/api.ts:566-774 | the submission, step by step in place: outcome and tables equal `Submission.Submit`; well-formed tables stay well-formed |
| Api.Database.WriteClosing | lib/api.ts:676-726 | the child-closing upsert and what follows, in place: outcome and tables equal `Submission.WriteChild` |
| Api.Database.FinishClosing | lib/api.ts:729-766 | notes, aggregate and shift, in place: outcome and tables equal `Submission.Finish` |
| Api.Database.CreateVenda | lib/api.ts:834-872 | the sale, in place: result and tables equal `Backend.CreateVenda` |
| Api.Database.UpdateStock | lib/api.ts:855-869 | the stock decrement and the movement, in place: tables equal `Backend.UpdateStock` |

## Left out

- The Supabase client and the query builder are not modelled. Tables are sequences of rows in insertion order. A backend error is a parameter of the step that meets it.
- `supabase.auth.getUser` is not modelled. The logged-in user is a parameter: absent, or an id and an email.
- The clock and its formatting (`new Date()`) are left out. `Shift.CurrentTurno` takes the formatted time `now` and the station's shift list as parameters. `turnoService.getAll` is not part of this model.
- Money is modelled as integers (cents). JavaScript's floating-point `number` arithmetic and its rounding are not modelled.
- Identity columns are modelled as one shared counter, `nextId`, instead of one sequence per table. Only id uniqueness and freshness are relied on.
- Concurrent submissions are not modelled. Each call runs alone, and two submissions racing to create the same closing are not captured.
- `console.log` and `console.error`, including the debug output of the submission, are left out.
- Column defaults the database fills in are not modelled. This covers the date of a sale and the creation time of rows.
- The order-by and limit of `getHistorico` are left out, as are its station and attendant filters. `Totals.Historico` maps whatever rows the query returns.
- `Backend.UpdateStock`: the stock movement records the sale's id and the attendant's id as fields. The source writes them into the free-text `observacao` and `responsavel` columns.
- `Submission.ResolveUsuario`: when the user table is empty, or the last fallback read errs, the code goes on with no user id. The model records `None` as the closing's user. Whether the database then accepts the insert is not modelled; the insert error parameter covers a rejection.
- The pass-through query services are not part of this model: `postoService`, `clienteService`, `turnoService.getAll`, `produtoService`, `escalaService`, `usuarioService` beyond `getByEmail`, `frentistaService.getAllByPosto` and `vendaProdutoService.getByFrentistaToday`. Their only logic is backend-side filtering and ordering.
- The React screens, the station context (`lib/PostoContext.tsx`) and navigation are not part of this model.

## Behaviour of the code worth knowing

- The parent's recomputed received total (lib/api.ts:386-393) adds only debit, credit, notes, PIX and cash. The declared total (lib/api.ts:649-656) also adds coins and voucher. So a closing created by a single submission ends with received = declared − coins − voucher (`SubmissionProperties.FirstSubmissionLeavesOutCoins`).
- The shift stored on the closing is the `turno_id` the caller submits. The shift resolver is a separate call; the submission does not use it.
- When no user id can be found (lib/api.ts:619-623), the code only logs it and goes on. It does not stop the submission.
- An error updating the attendant's shift (lib/api.ts:758-760) is logged and swallowed. The submission still reports success.
- An error inserting the credit notes (lib/api.ts:744-746) is logged and swallowed. No line is written and the submission goes on.
- `getExisting` (lib/api.ts:497) reads a lookup error as "no row". If the lookup errs while the attendant's child closing exists, the submission inserts a second child closing for the same (closing, attendant) (`SubmissionProperties.LookupErrorDuplicatesChild`). One child per pair is therefore guaranteed only when the lookup does not err.
- An error reading the selected attendant (lib/api.ts:633) is reported as "Frentista selecionado não encontrado." even when the attendant exists (`Submission.ResolveFrentistaExact`).
- An error in a read of the user fallback chain (lib/api.ts:206-209, 595-614) is not reported. The chain moves on to its next fallback (`Submission.ResolveUsuarioAnyUser`).

## Findings

| source | as written | input that shows it | evidently intended | confidence | as-written member | corrected member |
|---|---|---|---|---|---|---|
| lib/api.ts:547 | `item.diferenca_calculada \|\| (encerrante - totalInformado)` treats a stored variance of 0 as missing. It then recomputes the variance from card, notes, PIX and cash only, leaving out coins and voucher | debit 100.00, coins 10.00, meter reading 110.00: the stored variance is 0, but history shows variance 10.00, "divergente" | use the stored variance whenever it is present, 0 included: the row shows "ok" exactly when the submission balanced | not executed | Totals.AsWrittenBalancedExample | Totals.HistoricoReflectsSubmission |
| lib/api.ts:551-552 | reads `item.Fechamento?.data` and `item.Fechamento?.Turno?.nome`, but the query (lib/api.ts:526-528) embeds them under the aliases `fechamento` and `turno` | any history row whose closing has date "2025-01-10" and shift "Manhã": it shows date "" and shift "N/A" | read the embedded closing and shift under the query's own aliases | not executed | Totals.AsWrittenLosesDateAndShift | Totals.HistoricoShowsDateAndShift |
