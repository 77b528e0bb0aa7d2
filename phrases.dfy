/**
 * The phrases the controllers look for in an error message (`message.includes(...)`) to
 * choose an HTTP status, and which of them each message of the services contains.
 */
module Phrases {
  import opened Text
  import opened Messages

  const Required := "obrigatório"
  /** The record controllers' stem, meant to catch both 'inválida' and 'inválido'. */
  const InvalidStem := "inválid"
  /** The asset controllers' word, which does not catch 'inválida'. */
  const Invalid := "inválido"
  const NotFound := "não encontrado"
  const NotOwned := "não pertence"
  const NotAllowed := "acesso não permitido"
  const Denied := "Acesso negado"
  const CannotPrecede := "não pode ser anterior"
  const Empty := "vazio"

  /** A message lacks a phrase when it lacks one of the phrase's characters. */
  lemma Lacks(msg: string, phrase: string, c: char)
    requires c in phrase && c !in msg
    ensures !Includes(msg, phrase)
  {
    NotContainsMissingChar(msg, phrase, c);
    IncludesIffContains(msg, phrase);
  }

  /** A message holds a phrase written inside it. */
  lemma Holds(msg: string, a: string, phrase: string, b: string)
    requires msg == a + phrase + b
    ensures Includes(msg, phrase)
  {
    ContainsInfix(a, phrase, b);
    IncludesIffContains(msg, phrase);
  }

  // One absent phrase per lemma: each shows a character of the phrase that the message lacks.

  lemma ServiceDateLacksInvalid() ensures !Includes(ServiceDateRequired, InvalidStem) { Lacks(ServiceDateRequired, InvalidStem, 'l'); }
  lemma ServiceDateLacksNotFound() ensures !Includes(ServiceDateRequired, NotFound) { Lacks(ServiceDateRequired, NotFound, 'ã'); }
  lemma ServiceDateLacksNotOwned() ensures !Includes(ServiceDateRequired, NotOwned) { Lacks(ServiceDateRequired, NotOwned, 'ã'); }
  lemma NextBeforeLacksRequired() ensures !Includes(NextBeforeService, Required) { Lacks(NextBeforeService, Required, 'b'); }
  lemma NextBeforeLacksInvalid() ensures !Includes(NextBeforeService, InvalidStem) { Lacks(NextBeforeService, InvalidStem, 'l'); }
  lemma NextBeforeLacksNotFound() ensures !Includes(NextBeforeService, NotFound) { Lacks(NextBeforeService, NotFound, 'c'); }
  lemma NextBeforeLacksNotOwned() ensures !Includes(NextBeforeService, NotOwned) { Lacks(NextBeforeService, NotOwned, 'c'); }
  lemma NotOwnedLacksRequired() ensures !Includes(AssetNotOwned, Required) { Lacks(AssetNotOwned, Required, 'b'); }
  lemma NotOwnedLacksInvalidStem() ensures !Includes(AssetNotOwned, InvalidStem) { Lacks(AssetNotOwned, InvalidStem, 'l'); }
  lemma NotOwnedLacksInvalid() ensures !Includes(AssetNotOwned, Invalid) { Lacks(AssetNotOwned, Invalid, 'l'); }
  lemma NotOwnedLacksEmpty() ensures !Includes(AssetNotOwned, Empty) { Lacks(AssetNotOwned, Empty, 'z'); }
  lemma RecordNotFoundLacksRequired() ensures !Includes(RecordNotFound, Required) { Lacks(RecordNotFound, Required, 'b'); }
  lemma RecordNotFoundLacksInvalid() ensures !Includes(RecordNotFound, InvalidStem) { Lacks(RecordNotFound, InvalidStem, 'l'); }
  lemma RecordNotFoundLacksPrecede() ensures !Includes(RecordNotFound, CannotPrecede) { Lacks(RecordNotFound, CannotPrecede, 'p'); }
  lemma RecordNotFoundLacksEmpty() ensures !Includes(RecordNotFound, Empty) { Lacks(RecordNotFound, Empty, 'z'); }
  lemma AccessDeniedLacksRequired() ensures !Includes(AccessDenied, Required) { Lacks(AccessDenied, Required, 'b'); }
  lemma AccessDeniedLacksInvalid() ensures !Includes(AccessDenied, InvalidStem) { Lacks(AccessDenied, InvalidStem, 'l'); }
  lemma AccessDeniedLacksEmpty() ensures !Includes(AccessDenied, Empty) { Lacks(AccessDenied, Empty, 'z'); }
  lemma NameEmptyLacksNotFound() ensures !Includes(AssetNameEmpty, NotFound) { Lacks(AssetNameEmpty, NotFound, 'c'); }
  lemma NameEmptyLacksNotOwned() ensures !Includes(AssetNameEmpty, NotOwned) { Lacks(AssetNameEmpty, NotOwned, 'c'); }
  lemma TrimLacksRequired() ensures !Includes(TrimOfNull, Required) { Lacks(TrimOfNull, Required, 'b'); }
  lemma TrimLacksInvalidStem() ensures !Includes(TrimOfNull, InvalidStem) { Lacks(TrimOfNull, InvalidStem, 'á'); }
  lemma TrimLacksInvalid() ensures !Includes(TrimOfNull, Invalid) { Lacks(TrimOfNull, Invalid, 'á'); }
  lemma TrimLacksNotFound() ensures !Includes(TrimOfNull, NotFound) { Lacks(TrimOfNull, NotFound, 'ã'); }
  lemma TrimLacksNotOwned() ensures !Includes(TrimOfNull, NotOwned) { Lacks(TrimOfNull, NotOwned, 'ã'); }
  lemma TrimLacksDenied() ensures !Includes(TrimOfNull, Denied) { Lacks(TrimOfNull, Denied, 'A'); }
  lemma TrimLacksPrecede() ensures !Includes(TrimOfNull, CannotPrecede) { Lacks(TrimOfNull, CannotPrecede, 'ã'); }
  lemma TrimLacksEmpty() ensures !Includes(TrimOfNull, Empty) { Lacks(TrimOfNull, Empty, 'z'); }
  lemma UserMissingLacksRequired() ensures !Includes(AssetUserMissing, Required) { Lacks(AssetUserMissing, Required, 'ó'); }
  lemma UserMissingLacksInvalid() ensures !Includes(AssetUserMissing, Invalid) { Lacks(AssetUserMissing, Invalid, 'á'); }

  /** The missing-date error says 'obrigatória', which is not 'obrigatório', and holds no other phrase looked for. */
  lemma ServiceDateRequiredPhrases()
    ensures !Includes(ServiceDateRequired, Required) && !Includes(ServiceDateRequired, InvalidStem)
    ensures !Includes(ServiceDateRequired, NotFound) && !Includes(ServiceDateRequired, NotOwned)
  {
    assert !Includes(ServiceDateRequired, Required) by {
      var a, b, c := "A data do serviço é ", "obrigatória", ".";
      NotContainsMissingChar(a, Required, 'b');
      assert !Contains(b, Required) by {
        ContainsSameLength(b, Required);
        assert b[10] != Required[10];
      }
      NotContainsAppend(a, b, Required);
      NotContainsLonger(c, Required);
      NotContainsAppend(a + b, c, Required);
      IncludesIffContains(ServiceDateRequired, Required);
    }
    ServiceDateLacksInvalid(); ServiceDateLacksNotFound(); ServiceDateLacksNotOwned();
  }

  /** The date-order error holds 'não pode ser anterior' and none of the phrases `createRecord` tests. */
  lemma NextBeforeServicePhrases()
    ensures Includes(NextBeforeService, CannotPrecede)
    ensures !Includes(NextBeforeService, Required) && !Includes(NextBeforeService, InvalidStem)
    ensures !Includes(NextBeforeService, NotFound) && !Includes(NextBeforeService, NotOwned)
  {
    Holds(NextBeforeService, "A data da próxima manutenção ", CannotPrecede, " à data do serviço.");
    NextBeforeLacksRequired(); NextBeforeLacksInvalid(); NextBeforeLacksNotFound(); NextBeforeLacksNotOwned();
  }

  /** The ownership error of the services holds both 'não encontrado' and 'não pertence', and no 400 phrase. */
  lemma AssetNotOwnedPhrases()
    ensures Includes(AssetNotOwned, NotFound) && Includes(AssetNotOwned, NotOwned)
    ensures !Includes(AssetNotOwned, Required) && !Includes(AssetNotOwned, InvalidStem)
    ensures !Includes(AssetNotOwned, Invalid) && !Includes(AssetNotOwned, Empty)
  {
    Holds(AssetNotOwned, "Ativo ", NotFound, " ou " + "não pertence" + " ao usuário.");
    Holds(AssetNotOwned, "Ativo " + "não encontrado" + " ou ", NotOwned, " ao usuário.");
    NotOwnedLacksRequired(); NotOwnedLacksInvalidStem(); NotOwnedLacksInvalid(); NotOwnedLacksEmpty();
  }

  lemma ServiceTypeRequiredPhrases()
    ensures Includes(ServiceTypeRequired, Required)
  {
    Holds(ServiceTypeRequired, "O tipo de serviço é ", Required, ".");
  }

  lemma DateInvalidPhrases()
    ensures Includes(ServiceDateInvalid, InvalidStem) && Includes(NextDateInvalid, InvalidStem)
  {
    Holds(ServiceDateInvalid, "Data do serviço ", InvalidStem, "a.");
    Holds(NextDateInvalid, "Data da próxima manutenção ", InvalidStem, "a.");
  }

  /** The 'not found' error of `updateRecord` and `deleteRecord` holds 'não encontrado' and no 400 phrase. */
  lemma RecordNotFoundPhrases()
    ensures Includes(RecordNotFound, NotFound)
    ensures !Includes(RecordNotFound, Required) && !Includes(RecordNotFound, InvalidStem)
    ensures !Includes(RecordNotFound, CannotPrecede) && !Includes(RecordNotFound, Empty)
  {
    Holds(RecordNotFound, "Registro de manutenção ", NotFound, ".");
    RecordNotFoundLacksRequired(); RecordNotFoundLacksInvalid(); RecordNotFoundLacksPrecede(); RecordNotFoundLacksEmpty();
  }

  lemma DeniedHeadLacksPo() ensures !Contains("Acesso negado. O registro não ", "po") {
    NotContainsMissingChar("Acesso negado. O registro não ", "po", 'p');
  }
  lemma DeniedMiddleLacksPo() ensures !Contains("pertence a um ", "po") {
    NotContainsMissingChar("pertence a um ", "po", 'o');
  }
  lemma DeniedTailLacksPo() ensures !Contains("ativo seu.", "po") {
    NotContainsMissingChar("ativo seu.", "po", 'p');
  }

  lemma AccessDeniedPieces()
    ensures AccessDenied == "Acesso negado. O registro não " + "pertence a um " + "ativo seu."
  {
    Regroup("Acesso negado" + ". O registro ", "não pertence", " a um ativo seu.", "não ", "pertence", " a um ", "ativo seu.");
    assert "Acesso negado" + ". O registro " + "não " == "Acesso negado. O registro não ";
    assert "pertence" + " a um " == "pertence a um ";
  }

  lemma Regroup(a: string, b: string, c: string, b1: string, b2: string, c1: string, c2: string)
    requires b == b1 + b2 && c == c1 + c2
    ensures a + b + c == (a + b1) + (b2 + c1) + c2
  {
  }

  /** 'Acesso negado. O registro não pertence a um ativo seu.' has no 'p' followed by an 'o'. */
  lemma AccessDeniedLacksPo()
    ensures !Contains(AccessDenied, "po")
  {
    var a, b, c := "Acesso negado. O registro não ", "pertence a um ", "ativo seu.";
    AccessDeniedPieces();
    DeniedHeadLacksPo();
    DeniedMiddleLacksPo();
    DeniedTailLacksPo();
    NotContainsAppend(a, b, "po");
    NotContainsAppend(a + b, c, "po");
  }

  /** So it cannot hold 'não pode ser anterior', which has one. */
  lemma AccessDeniedLacksPrecede()
    ensures !Includes(AccessDenied, CannotPrecede)
  {
    AccessDeniedLacksPo();
    assert CannotPrecede == "não " + "po" + "de ser anterior";
    ContainsInfix("não ", "po", "de ser anterior");
    NotContainsVia(AccessDenied, CannotPrecede, "po");
    IncludesIffContains(AccessDenied, CannotPrecede);
  }

  /** The 'access denied' error holds 'Acesso negado' and 'não pertence' and no 400 phrase of `updateRecord`. */
  lemma AccessDeniedPhrases()
    ensures Includes(AccessDenied, Denied) && Includes(AccessDenied, NotOwned)
    ensures !Includes(AccessDenied, Required) && !Includes(AccessDenied, InvalidStem)
    ensures !Includes(AccessDenied, CannotPrecede) && !Includes(AccessDenied, Empty)
  {
    Holds(AccessDenied, "", Denied, ". O registro " + "não pertence" + " a um ativo seu.");
    Holds(AccessDenied, "Acesso negado" + ". O registro ", NotOwned, " a um ativo seu.");
    AccessDeniedLacksRequired(); AccessDeniedLacksInvalid(); AccessDeniedLacksEmpty(); AccessDeniedLacksPrecede();
  }

  lemma RecordNotFoundOrDeniedPhrases()
    ensures Includes(RecordNotFoundOrDenied, NotFound) && Includes(RecordNotFoundOrDenied, NotAllowed)
  {
    Holds(RecordNotFoundOrDenied, "Registro de manutenção ", NotFound, " ou " + "acesso não permitido" + ".");
    Holds(RecordNotFoundOrDenied, "Registro de manutenção " + "não encontrado" + " ou ", NotAllowed, ".");
  }

  lemma ServiceTypeEmptyPhrases()
    ensures Includes(ServiceTypeEmpty, Empty)
  {
    Holds(ServiceTypeEmpty, "O tipo de serviço " + "não pode ser ", Empty, ".");
  }

  lemma AssetNameRequiredPhrases()
    ensures Includes(AssetNameRequired, Required)
  {
    Holds(AssetNameRequired, "O nome do ativo é ", Required, ".");
  }

  /** The blank-name error of `updateAsset` holds 'vazio' and neither phrase of the 404 test. */
  lemma AssetNameEmptyPhrases()
    ensures Includes(AssetNameEmpty, Empty)
    ensures !Includes(AssetNameEmpty, NotFound) && !Includes(AssetNameEmpty, NotOwned)
  {
    Holds(AssetNameEmpty, "O nome do ativo " + "não pode ser ", Empty, ".");
    NameEmptyLacksNotFound(); NameEmptyLacksNotOwned();
  }

  /** The `TypeError` of `trim` on `null` holds no phrase looked for at all. */
  lemma TrimOfNullPhrases()
    ensures !Includes(TrimOfNull, Required) && !Includes(TrimOfNull, InvalidStem) && !Includes(TrimOfNull, Invalid)
    ensures !Includes(TrimOfNull, NotFound) && !Includes(TrimOfNull, NotOwned) && !Includes(TrimOfNull, Denied)
    ensures !Includes(TrimOfNull, CannotPrecede) && !Includes(TrimOfNull, Empty)
  {
    TrimLacksRequired(); TrimLacksInvalidStem(); TrimLacksInvalid(); TrimLacksNotFound(); TrimLacksNotOwned(); TrimLacksDenied(); TrimLacksPrecede(); TrimLacksEmpty();
  }

  /** The foreign-key error of an asset insert (the caller's user no longer exists) holds neither 400 phrase. */
  lemma AssetUserMissingPhrases()
    ensures !Includes(AssetUserMissing, Required) && !Includes(AssetUserMissing, Invalid)
  {
    UserMissingLacksRequired(); UserMissingLacksInvalid();
  }

  /** A message holds none of the phrases any controller looks for, so every handler answers it with 500. */
  predicate NoPhrase(m: string) {
    && !Includes(m, Required) && !Includes(m, InvalidStem) && !Includes(m, Invalid)
    && !Includes(m, NotFound) && !Includes(m, NotOwned) && !Includes(m, NotAllowed)
    && !Includes(m, Denied) && !Includes(m, CannotPrecede) && !Includes(m, Empty)
  }

  /**
   * A character of plain ASCII other than 'A' and 'z'. Every phrase has 'ó', 'á', 'ã', 'A'
   * or 'z', so a message made of such characters holds none.
   */
  predicate PlainChar(c: char) {
    c < '\U{0080}' && c != 'A' && c != 'z'
  }

  predicate Plain(m: string) {
    forall i | 0 <= i < |m| :: PlainChar(m[i])
  }

  lemma LacksEveryPhrase(m: string)
    requires Plain(m)
    ensures NoPhrase(m)
  {
    assert 'ó' !in m && 'á' !in m && 'ã' !in m && 'A' !in m && 'z' !in m;
    Lacks(m, Required, 'ó'); Lacks(m, InvalidStem, 'á'); Lacks(m, Invalid, 'á');
    Lacks(m, NotFound, 'ã'); Lacks(m, NotOwned, 'ã'); Lacks(m, NotAllowed, 'ã');
    Lacks(m, Denied, 'A'); Lacks(m, CannotPrecede, 'ã'); Lacks(m, Empty, 'z');
  }

  /** The type error of an id outside `integer` holds no phrase: plain text around the digits. */
  lemma OutOfRangePhrases(n: int)
    ensures NoPhrase(OutOfRange(n))
  {
    assert Plain("value \"" + IntToString(n));
    assert Plain("\" is out of range ");
    assert Plain("for type integer");
    LacksEveryPhrase(OutOfRange(n));
  }

  lemma SeqMaximumPlain()
    ensures Plain(SeqMaximum) && Plain(SerialLimit)
  {
    assert Plain("nextval: reached ");
    assert Plain("maximum value of sequence ");
  }

  // The errors of an exhausted SERIAL sequence hold no phrase.

  lemma AssetsSeqExhaustedPhrases()
    ensures NoPhrase(AssetsSeqExhausted)
  {
    SeqMaximumPlain();
    assert Plain("\"assets_id_seq\" ");
    LacksEveryPhrase(AssetsSeqExhausted);
  }

  lemma RecordsSeqExhaustedPhrases()
    ensures NoPhrase(RecordsSeqExhausted)
  {
    SeqMaximumPlain();
    assert Plain("\"maintenance_records_id_seq\" ");
    LacksEveryPhrase(RecordsSeqExhausted);
  }
}
