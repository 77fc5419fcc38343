/** A player contract and the values derived from it. */
module Contracts {
  import opened Wrappers

  /** Restricted or unrestricted free agent when the contract ends. */
  datatype ContractStatus = Rfa | Ufa
  {
    /** The Java constant's `name()`. */
    function Name(): string
    {
      match this
      case Rfa => "RFA"
      case Ufa => "UFA"
    }
  }

  /** `CONTRACT_STATUS.valueOf`: the status with that name, or `None` for an unknown name. */
  function ParseStatus(name: string): (r: Option<ContractStatus>)
    ensures r.Some? ==> r.value.Name() == name
  {
    match name
    case "RFA" => Some(Rfa)
    case "UFA" => Some(Ufa)
    case _ => None
  }

  /** A status's name reads back as that status. */
  lemma ParseStatusName(s: ContractStatus)
    ensures ParseStatus(s.Name()) == Some(s)
  {
  }

  /** A movement clause, known here only by its constant name. */
  datatype ContractClause = ContractClause(name: string)

  /** Money is in millions of dollars per season. */
  datatype Contract = Contract(
    aav: real,
    termInYears: int,
    signingYear: int,
    clauses: Option<ContractClause>,
    status: Option<ContractStatus>,
    signingBonus: real,
    performanceBonus: real,
    twoWay: bool)
  {
    /** The season the contract runs out, from the term as it stands now. */
    function ExpirationYear(): int
    {
      signingYear + termInYears
    }

    function TotalValue(): real
    {
      aav * termInYears as real
    }
  }

  /** `Contract.createContract`: a contract with the given money, term, signing season and status, and nothing else set. */
  function CreateContract(aav: real, term: int, signingYear: int, status: Option<ContractStatus>): (c: Contract)
    ensures c.aav == aav && c.termInYears == term && c.signingYear == signingYear && c.status == status
    ensures c.clauses == None && c.signingBonus == 0.0 && c.performanceBonus == 0.0 && !c.twoWay
  {
    Contract(aav, term, signingYear, None, status, 0.0, 0.0, false)
  }

  /**
   * Expiration is computed from the live term: taking `k` years off the
   * term (signing year fixed) brings the expiration `k` seasons closer.
   */
  lemma ExpirationFollowsTerm(c: Contract, k: int)
    ensures c.(termInYears := c.termInYears - k).ExpirationYear() == c.ExpirationYear() - k
  {
  }

  /** A contract just created runs out `term` seasons after signing and is worth `term` times its cap hit. */
  lemma CreatedContractValues(aav: real, term: int, signingYear: int, status: Option<ContractStatus>)
    ensures CreateContract(aav, term, signingYear, status).ExpirationYear() == signingYear + term
    ensures CreateContract(aav, term, signingYear, status).TotalValue() == aav * term as real
  {
  }

  /** A contract with no seasons left, or with no money, is worth nothing in total. */
  lemma TotalValueZero(c: Contract)
    ensures c.termInYears == 0 || c.aav == 0.0 ==> c.TotalValue() == 0.0
  {
  }
}
