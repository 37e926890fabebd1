/** The backend tables' rows as the core reads and writes them, the input of a
    submission, and the key functions the queries filter on. Money is in
    integer minor units; a nullable column is an `Option`. */
module Rows {
  import opened Common

  /** A `Usuario` row: a backend user. */
  datatype Usuario = Usuario(id: int, email: string, role: string)

  /** A `Frentista` row (an attendant); `userId` links to a login identity,
      `turnoId` is the attendant's current shift. */
  datatype Frentista = Frentista(id: int, userId: Option<string>, ativo: bool, turnoId: Option<int>, postoId: int)

  /** A `Fechamento` row: the closing of one (data, turno, posto). */
  datatype Fechamento = Fechamento(
    id: int,
    data: string,
    usuarioId: Option<int>,
    turnoId: int,
    status: string,
    totalVendas: Option<int>,
    totalRecebido: Option<int>,
    diferenca: Option<int>,
    observacoes: Option<string>,
    postoId: int)

  /** A `FechamentoFrentista` row: one attendant's part of a closing. Rows
      written by other clients may leave any amount null. */
  datatype FechamentoFrentista = FechamentoFrentista(
    id: int,
    fechamentoId: int,
    frentistaId: int,
    postoId: int,
    valorCartao: Option<int>,
    debito: Option<int>,
    credito: Option<int>,
    nota: Option<int>,
    pix: Option<int>,
    dinheiro: Option<int>,
    conferido: Option<int>,
    baratao: Option<int>,
    encerrante: Option<int>,
    diferencaCalculada: Option<int>,
    observacoes: Option<string>)

  /** A `NotaFrentista` row: one credit-note (pay-later) line of a child closing. */
  datatype NotaFrentista = NotaFrentista(
    id: int,
    fechamentoFrentistaId: int,
    frentistaId: int,
    clienteId: int,
    valor: int,
    postoId: int,
    status: string,
    data: string)

  /** A `Produto` row, reduced to the stock the core updates. */
  datatype Produto = Produto(id: int, estoqueAtual: Option<int>)

  /** A `VendaProduto` row: a product sale by an attendant. */
  datatype VendaProduto = VendaProduto(
    id: int,
    frentistaId: int,
    produtoId: int,
    quantidade: int,
    valorUnitario: int,
    valorTotal: int,
    postoId: int)

  /** A `MovimentacaoEstoque` row; its free-text `observacao` and
      `responsavel` are formatted from `vendaId` and `frentistaId`. */
  datatype Movimentacao = Movimentacao(
    id: int,
    produtoId: int,
    tipo: string,
    quantidade: int,
    vendaId: int,
    frentistaId: int)

  /** One credit-note entry of a submission. */
  datatype NotaInput = NotaInput(clienteId: int, valor: int)

  /** `SubmitClosingData`. `frentistaId` is 0 when no attendant was selected;
      an absent `notas` list is the empty list. */
  datatype SubmitClosingData = SubmitClosingData(
    data: string,
    turnoId: int,
    debito: int,
    credito: int,
    nota: int,
    pix: int,
    dinheiro: int,
    moedas: int,
    baratao: int,
    encerrante: int,
    faltaCaixa: int,
    observacoes: string,
    postoId: int,
    frentistaId: int,
    notas: seq<NotaInput>)

  /** The logged-in identity, when there is one. */
  datatype AuthUser = AuthUser(id: string, email: string)

  /** The columns a submission writes into a child closing, on insert and on update. */
  datatype ChildValues = ChildValues(
    valorCartao: int,
    debito: int,
    credito: int,
    nota: int,
    pix: int,
    dinheiro: int,
    conferido: int,
    baratao: int,
    encerrante: int,
    diferencaCalculada: int,
    observacoes: Option<string>)

  // Keys the queries filter on.

  datatype ClosingKey = ClosingKey(data: string, turnoId: int, postoId: int)
  datatype DayShift = DayShift(data: string, turnoId: int)
  datatype ChildKey = ChildKey(fechamentoId: int, frentistaId: int)
  datatype UserLink = UserLink(userId: Option<string>, ativo: bool)

  function ClosingKeyOf(f: Fechamento): ClosingKey { ClosingKey(f.data, f.turnoId, f.postoId) }
  function DayShiftOf(f: Fechamento): DayShift { DayShift(f.data, f.turnoId) }
  function ClosingIdOf(f: Fechamento): int { f.id }
  function ChildKeyOf(c: FechamentoFrentista): ChildKey { ChildKey(c.fechamentoId, c.frentistaId) }
  function ChildIdOf(c: FechamentoFrentista): int { c.id }
  function ParentOf(c: FechamentoFrentista): int { c.fechamentoId }
  function FrentistaIdOf(f: Frentista): int { f.id }
  function UserLinkOf(f: Frentista): UserLink { UserLink(f.userId, f.ativo) }
  function EmailOf(u: Usuario): string { u.email }
  function RoleOf(u: Usuario): string { u.role }
  function ProdutoIdOf(p: Produto): int { p.id }
}
