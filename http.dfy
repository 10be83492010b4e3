/** What a handler sends back: a body, or a status code with the kind of error (the
    Portuguese message texts are represented by these tags). */
module Http {

  datatype ErrorKind =
    | DeviceRequired          // 'ID do dispositivo é obrigatório'
    | NoFilesSelected         // 'Nenhum arquivo selecionado'
    | NoDestination           // 'Destino não especificado'
    | TooManyFiles            // 'Plano ... permite máximo ... arquivos por varredura'
    | TotalSizeExceeded       // 'Tamanho total ... excede limite ...'
    | MissingFields           // 'Nome, email e senha obrigatórios' and the like
    | EmailTaken              // 'Email já registrado'
    | BadCredentials          // 'Email ou senha incorretos'
    | MissingToken            // 'Token não fornecido'
    | GoogleNotConfigured     // 'Google OAuth não configurado'
    | AuthFailed              // 'Autenticação falhou'
    | InvalidToken            // 'Token inválido'
    | UserNotFound            // 'Usuário não encontrado'
    | NotAuthenticated        // 'Não autenticado'
    | UserNotIdentified       // 'Usuário não identificado'
    | PlanNotSpecified        // 'Plano não especificado'
    | IncompleteData          // 'Dados incompletos'
    | FreePlanNoPayment       // 'Plano FREE não requer pagamento'
    | Internal                // the catch-all 500 of a handler (a TypeError or a store error)

  datatype Response<T> = Ok(body: T) | Err(status: nat, kind: ErrorKind)
}
