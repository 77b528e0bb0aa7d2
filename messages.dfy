/**
 * The literal texts of the errors the backend throws and answers with. Controllers pick
 * HTTP statuses by testing these texts for substrings, so they are kept verbatim. Each
 * text is written as a concatenation of short pieces, split where a phrase looked for starts
 * or ends, so that the substring facts about it can be established piece by piece.
 */
module Messages {
  import opened Text

  // MaintenanceRecordService
  const AssetNotOwned := "Ativo " + "não encontrado" + " ou " + "não pertence" + " ao usuário."
  const ServiceDateRequired := "A data do serviço é " + "obrigatória" + "."
  const ServiceTypeRequired := "O tipo de serviço é " + "obrigatório" + "."
  const NextBeforeService := "A data da próxima manutenção " + "não pode ser anterior" + " à data do serviço."
  const ServiceDateInvalid := "Data do serviço " + "inválid" + "a."
  const NextDateInvalid := "Data da próxima manutenção " + "inválid" + "a."
  const RecordNotFoundOrDenied := "Registro de manutenção " + "não encontrado" + " ou " + "acesso não permitido" + "."
  const RecordNotFound := "Registro de manutenção " + "não encontrado" + "."
  const AccessDenied := "Acesso negado" + ". O registro " + "não pertence" + " a um ativo seu."
  const ServiceTypeEmpty := "O tipo de serviço " + "não pode ser " + "vazio" + "."

  // AssetService
  const AssetNameRequired := "O nome do ativo é " + "obrigatório" + "."
  const AssetNameEmpty := "O nome do ativo " + "não pode ser " + "vazio" + "."

  // AuthService and the authentication middleware
  const EmailInUse := "Email já está em uso"
  const InvalidCredentials := "Invalid credentials"
  const TokenRequired := "Token de acesso requerido"
  const TokenInvalid := "Token inválido"

  /** What a JavaScript `TypeError` says when `.trim()` is called on a JSON `null`. */
  const TrimOfNull := "Cannot read properties of null " + "(reading 'trim')"

  // Postgres constraint violations, named after the constraints of the schema
  const DuplicateEmail := "duplicate key value violates " + "unique constraint \"users_email_key\""
  const AssetUserMissing := "insert or update on table \"assets\" " + "violates foreign key constraint " + "\"fk_user\""
  const RecordAssetMissing := "insert or update on table " + "\"maintenance_records\" " + "violates foreign key constraint " + "\"fk_asset\""
  /**
   * A query parameter outside the range of `integer` (int4): node-postgres sends the number
   * as its decimal text, and Postgres refuses it.
   */
  function OutOfRange(n: int): string {
    "value \"" + IntToString(n) + "\" is out of range " + "for type integer"
  }

  // `nextval` on a SERIAL sequence that has handed out 2147483647, its largest value
  const SeqMaximum := "nextval: reached " + "maximum value of sequence "
  const SerialLimit := "(2147483647)"
  const UsersSeqExhausted := SeqMaximum + "\"users_id_seq\" " + SerialLimit
  const AssetsSeqExhausted := SeqMaximum + "\"assets_id_seq\" " + SerialLimit
  const RecordsSeqExhausted := SeqMaximum + "\"maintenance_records_id_seq\" " + SerialLimit

  const AssetNameNull := "null value in column \"name\" " + "of relation \"assets\" " + "violates not-null constraint"

  // Controller replies
  const InvalidAssetId := "ID do ativo inválido."
  const InvalidRecordId := "ID do registro inválido."
  const AssetNotFound := "Ativo não encontrado."
  const AssetNotFoundForUpdate := "Ativo não encontrado " + "para atualização."
  const AssetNotFoundForDelete := "Ativo não encontrado " + "para exclusão."
  const RecordNotFoundForUpdate := "Registro de manutenção " + "não encontrado " + "para atualização."
  const RecordNotFoundForDelete := "Registro de manutenção " + "não encontrado " + "para exclusão."
  const InternalCreateAsset := "Erro interno ao criar ativo."
  const InternalGetAsset := "Erro interno ao buscar ativo."
  const InternalListAssets := "Erro interno ao listar ativos."
  const InternalUpdateAsset := "Erro interno ao atualizar ativo."
  const InternalDeleteAsset := "Erro interno ao excluir ativo."
  const InternalCreateRecord := "Erro interno ao criar registro."
  const InternalGetRecord := "Erro interno ao buscar registro."
  const InternalListRecords := "Erro interno ao listar registros."
  const InternalUpdateRecord := "Erro interno ao " + "atualizar registro."
  const InternalDeleteRecord := "Erro interno ao excluir registro."
  const InternalPanel := "Erro interno ao buscar painel " + "de manutenções."
  const AssetCreated := "Ativo criado com sucesso"
  const AssetUpdated := "Ativo atualizado com sucesso"
  const AssetDeleted := "Ativo excluído com sucesso."
  const RecordCreated := "Registro de manutenção " + "criado com sucesso"
  const RecordUpdated := "Registro de manutenção " + "atualizado com sucesso"
  const RecordDeleted := "Registro de manutenção " + "excluído com sucesso."
}
