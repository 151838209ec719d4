/** The REST controller over the loan store: fetch, create, update and delete
    by id, the search dispatch and the statistics. A thrown "not found" or
    validation failure is an Err result; hypermedia links are not modelled. */
module Controller {
  import opened Model
  import opened Repository

  /** The status getLoanStats counts besides PENDING. */
  const Approved: string := "APPROVED"

  datatype ApiError =
    | NotFound(id: int)                          // "Loan not found with id: " + id
    | ValidationFailed(violations: set<Violation>)  // @Valid on the request body
    | InternalError                              // any other runtime failure

  datatype Result<T> = Ok(value: T) | Err(error: ApiError)

  datatype LoanStats = LoanStats(totalLoans: nat, pendingLoans: nat, approvedLoans: nat, totalAmount: real)

  /** Every stored loan satisfies the field constraints. */
  ghost predicate AllValid(rows: seq<LoanData>) {
    forall l :: l in rows ==> IsValid(l)
  }

  /** Overwriting a row of a valid table with a valid loan keeps it valid. */
  lemma OverwriteAllValid(rows: seq<LoanData>, loan: LoanData)
    requires AllValid(rows) && IsValid(loan)
    ensures AllValid(Overwrite(rows, loan))
  {
  }

  // ---------------------------------------------------------------------------
  // Statistics

  /** The exact sum of every loanAmount; None when some amount is null, where
      getLoanStats dereferences null and fails. */
  function SumAmounts(rows: seq<LoanData>): (r: Option<real>)
    ensures r.Some? <==> forall l :: l in rows ==> l.loanAmount.Some?
  {
    if rows == [] then Some(0.0)
    else
      var rest := SumAmounts(rows[1..]);
      assert forall l :: l in rows <==> l == rows[0] || l in rows[1..];
      if rows[0].loanAmount.Some? && rest.Some? then Some(rows[0].loanAmount.value + rest.value) else None
  }

  /** The sum over two tables placed end to end. */
  lemma {:induction false} SumAppend(a: seq<LoanData>, b: seq<LoanData>)
    requires SumAmounts(a).Some? && SumAmounts(b).Some?
    ensures SumAmounts(a + b) == Some(SumAmounts(a).value + SumAmounts(b).value)
  {
    if a == [] {
      assert a + b == b;
    } else {
      assert (a + b)[0] == a[0];
      assert (a + b)[1..] == a[1..] + b;
      SumAppend(a[1..], b);
    }
  }

  /** In a table of valid loans the sum lies between 100 and 1,000,000 per loan. */
  lemma {:induction false} SumBounds(rows: seq<LoanData>)
    requires AllValid(rows)
    ensures SumAmounts(rows).Some?
    ensures 100.0 * |rows| as real <= SumAmounts(rows).value <= 1000000.0 * |rows| as real
  {
    if rows != [] {
      assert rows[0] in rows;
      assert AllValid(rows[1..]) by {
        forall l | l in rows[1..] ensures IsValid(l) {
          assert l in rows;
        }
      }
      SumBounds(rows[1..]);
    }
  }

  /** getLoanStats over the list findAll returns: the size, the PENDING and the
      APPROVED counts, and the sum of the amounts. */
  function LoanStatsOf(allLoans: seq<LoanData>): (r: Result<LoanStats>)
    ensures r.Err? <==> exists l :: l in allLoans && l.loanAmount.None?
    ensures r.Err? ==> r.error == InternalError
    ensures r.Ok? ==> r.value.totalLoans == |allLoans|
    ensures r.Ok? ==> r.value.pendingLoans + r.value.approvedLoans <= r.value.totalLoans
    ensures AllValid(allLoans) ==>
              r.Ok? && 100.0 * |allLoans| as real <= r.value.totalAmount <= 1000000.0 * |allLoans| as real
  {
    var pending := |Select(allLoans, StatusIs(Pending))|;
    var approved := |Select(allLoans, StatusIs(Approved))|;
    SelectDisjoint(allLoans, StatusIs(Pending), StatusIs(Approved));
    assert AllValid(allLoans) ==>
             && SumAmounts(allLoans).Some?
             && 100.0 * |allLoans| as real <= SumAmounts(allLoans).value <= 1000000.0 * |allLoans| as real
    by {
      if AllValid(allLoans) {
        SumBounds(allLoans);
      }
    }
    match SumAmounts(allLoans)
    case None => Err(InternalError)
    case Some(amount) => Ok(LoanStats(|allLoans|, pending, approved, amount))
  }

  /** The statistics of an empty store. */
  lemma StatsOfEmpty()
    ensures LoanStatsOf([]) == Ok(LoanStats(0, 0, 0, 0.0))
  {
  }

  /** Adding one loan with an amount adds one to the total, one to the count
      of its status when that is PENDING or APPROVED, and its amount to the sum:
      with StatsOfEmpty this fixes the statistics of every table. */
  lemma StatsOfAppend(rows: seq<LoanData>, loan: LoanData)
    requires LoanStatsOf(rows).Ok? && loan.loanAmount.Some?
    ensures
      var before, after := LoanStatsOf(rows).value, LoanStatsOf(rows + [loan]);
      && after.Ok?
      && after.value.totalLoans == before.totalLoans + 1
      && after.value.pendingLoans == before.pendingLoans + (if loan.status == Some(Pending) then 1 else 0)
      && after.value.approvedLoans == before.approvedLoans + (if loan.status == Some(Approved) then 1 else 0)
      && after.value.totalAmount == before.totalAmount + loan.loanAmount.value
  {
    SelectAppend(rows, [loan], StatusIs(Pending));
    SelectAppend(rows, [loan], StatusIs(Approved));
    assert SumAmounts([loan]) == Some(loan.loanAmount.value + 0.0);
    SumAppend(rows, [loan]);
  }

  /** Three loans, two PENDING of 10,000 and 20,000 and one APPROVED of 20,000. */
  lemma StatsFixture(today: Date)
    ensures
      var pending := Defaults(today);
      var rows := [pending.(id := Some(1), loanAmount := Some(10000.0)),
                   pending.(id := Some(2), loanAmount := Some(20000.0)),
                   pending.(id := Some(3), loanAmount := Some(20000.0), status := Some(Approved))];
      LoanStatsOf(rows) == Ok(LoanStats(3, 2, 1, 50000.0))
  {
    var pending := Defaults(today);
    var a := pending.(id := Some(1), loanAmount := Some(10000.0));
    var b := pending.(id := Some(2), loanAmount := Some(20000.0));
    var c := pending.(id := Some(3), loanAmount := Some(20000.0), status := Some(Approved));
    StatsOfEmpty();
    StatsOfAppend([], a);
    assert [] + [a] == [a];
    StatsOfAppend([a], b);
    assert [a] + [b] == [a, b];
    StatsOfAppend([a, b], c);
    assert [a, b] + [c] == [a, b, c];
  }

  // ---------------------------------------------------------------------------
  // The controller

  class LoanController {
    /** The store, supplied at construction. */
    const repo: LoanRepository

    constructor (repo: LoanRepository)
      ensures this.repo == repo
    {
      this.repo := repo;
    }

    /** getLoanById: the stored loan with that id, or NotFound. */
    function GetLoanById(id: int): (r: Result<LoanData>)
      reads repo
      ensures r.Err? <==> !repo.ExistsById(id)
      ensures r.Err? ==> r.error == NotFound(id)
      ensures r.Ok? ==> r.value in repo.rows && r.value.id == Some(id)
      ensures repo.Valid() ==> forall l :: l in repo.rows && l.id == Some(id) ==> r == Ok(l)
    {
      match repo.FindById(id)
      case None => Err(NotFound(id))
      case Some(loan) => Ok(loan)
    }

    /** createLoan: an invalid body is refused and nothing is stored; a valid one
        is saved, and the loan returned carries an id that now finds it. */
    method CreateLoan(loan: LoanData) returns (r: Result<LoanData>)
      requires repo.Valid()
      modifies repo
      ensures repo.Valid()
      ensures !IsValid(loan) ==>
                r == Err(ValidationFailed(Violations(loan))) && repo.rows == old(repo.rows)
                && repo.nextId == old(repo.nextId)
      ensures IsValid(loan) ==>
                && r.Ok? && r.value == loan.(id := r.value.id)
                && r.value.id.Some? && GetLoanById(r.value.id.value) == Ok(r.value)
      ensures IsValid(loan) && (loan.id.None? || !old(repo.ExistsById(loan.id.value))) ==>
                r.value.id == Some(old(repo.nextId)) && repo.rows == old(repo.rows) + [r.value]
      ensures IsValid(loan) && loan.id.Some? && old(repo.ExistsById(loan.id.value)) ==>
                r.value == loan && repo.rows == Overwrite(old(repo.rows), loan)
      ensures old(AllValid(repo.rows)) ==> AllValid(repo.rows)
    {
      if !IsValid(loan) {
        return Err(ValidationFailed(Violations(loan)));
      }
      ghost var before := repo.rows;
      var saved := repo.Save(loan);
      if AllValid(before) && repo.rows == Overwrite(before, loan) {
        OverwriteAllValid(before, loan);
      }
      r := Ok(saved);
    }

    /** updateLoan: an invalid body is refused and a missing id is NotFound, both
        leaving the store as it was; otherwise the stored loan takes borrowerName,
        loanAmount, interestRate, loanTermMonths, status, loanType and description
        from the body, keeps its id and loanDate, and is saved over its row. */
    method UpdateLoan(id: int, details: LoanData) returns (r: Result<LoanData>)
      requires repo.Valid()
      modifies repo
      ensures repo.Valid()
      ensures !IsValid(details) ==>
                r == Err(ValidationFailed(Violations(details)))
                && repo.rows == old(repo.rows) && repo.nextId == old(repo.nextId)
      ensures IsValid(details) && !old(repo.ExistsById(id)) ==>
                r == Err(NotFound(id)) && repo.rows == old(repo.rows) && repo.nextId == old(repo.nextId)
      ensures IsValid(details) && old(repo.ExistsById(id)) ==>
                var stored := old(repo.FindById(id)).value;
                && r.Ok?
                && r.value.id == Some(id) && r.value.loanDate == stored.loanDate
                && r.value.borrowerName == details.borrowerName
                && r.value.loanAmount == details.loanAmount
                && r.value.interestRate == details.interestRate
                && r.value.loanTermMonths == details.loanTermMonths
                && r.value.status == details.status
                && r.value.loanType == details.loanType
                && r.value.description == details.description
                && repo.rows == Overwrite(old(repo.rows), r.value) && repo.nextId == old(repo.nextId)
                && GetLoanById(id) == Ok(r.value)
      ensures old(AllValid(repo.rows)) ==> AllValid(repo.rows)
    {
      if !IsValid(details) {
        return Err(ValidationFailed(Violations(details)));
      }
      var found := repo.FindById(id);
      if found.None? {
        return Err(NotFound(id));
      }
      var loan := new Loan.FromRow(found.value);
      loan.SetBorrowerName(details.borrowerName);
      loan.SetLoanAmount(details.loanAmount);
      loan.SetInterestRate(details.interestRate);
      loan.SetLoanTermMonths(details.loanTermMonths);
      loan.SetStatus(details.status);
      loan.SetLoanType(details.loanType);
      loan.SetDescription(details.description);
      ghost var before := repo.rows;
      var updated := loan.Data();
      assert IsValid(found.value) ==> IsValid(updated);
      var saved := repo.Save(updated);
      if AllValid(before) {
        OverwriteAllValid(before, updated);
      }
      r := Ok(saved);
    }

    /** deleteLoan: a missing id is NotFound and changes nothing; otherwise exactly
        that loan is removed, after which getLoanById reports NotFound. */
    method DeleteLoan(id: int) returns (r: Result<()>)
      requires repo.Valid()
      modifies repo
      ensures repo.Valid()
      ensures !old(repo.ExistsById(id)) ==>
                r == Err(NotFound(id)) && repo.rows == old(repo.rows) && repo.nextId == old(repo.nextId)
      ensures old(repo.ExistsById(id)) ==>
                && r == Ok(())
                && (forall l :: l in repo.rows <==> l in old(repo.rows) && l.id != Some(id))
                && |repo.rows| < |old(repo.rows)|
      ensures GetLoanById(id) == Err(NotFound(id))
    {
      if !repo.ExistsById(id) {
        return Err(NotFound(id));
      }
      ghost var before := repo.rows;
      repo.DeleteById(id);
      assert |repo.rows| < |before| by {
        var k :| 0 <= k < |before| && before[k].id == Some(id);
        SelectDrops(before, IdIsNot(id), k);
      }
      r := Ok(());
    }

    /** searchLoans: a non-empty borrowerName decides alone; otherwise status and
        loanType together, then status alone, then loanType alone, then everything.
        An empty borrowerName counts as absent, an empty status or loanType does not. */
    function SearchLoans(borrowerName: Option<string>, status: Option<string>, loanType: Option<string>)
      : (r: seq<LoanData>)
      reads repo
      ensures borrowerName.Some? && borrowerName.value != "" ==>
                forall l :: l in r <==> l in repo.rows && NameContainsIgnoreCase(l.borrowerName, borrowerName.value)
      ensures (borrowerName.None? || borrowerName.value == "") && status.Some? && loanType.Some? ==>
                forall l :: l in r <==> l in repo.rows && l.status == status && l.loanType == loanType
      ensures (borrowerName.None? || borrowerName.value == "") && status.Some? && loanType.None? ==>
                forall l :: l in r <==> l in repo.rows && l.status == status
      ensures (borrowerName.None? || borrowerName.value == "") && status.None? && loanType.Some? ==>
                forall l :: l in r <==> l in repo.rows && l.loanType == loanType
      ensures (borrowerName.None? || borrowerName.value == "") && status.None? && loanType.None? ==>
                r == repo.rows
    {
      if borrowerName.Some? && borrowerName.value != "" then
        repo.FindByBorrowerNameContainingIgnoreCase(borrowerName.value)
      else if status.Some? && loanType.Some? then
        repo.FindByStatusAndLoanType(status.value, loanType.value)
      else if status.Some? then
        repo.FindByStatus(status.value)
      else if loanType.Some? then
        repo.FindByLoanType(loanType.value)
      else
        repo.FindAll()
    }

    /** With a non-empty name, status and loanType make no difference at all. */
    lemma NameIgnoresOtherFilters(name: string, status1: Option<string>, loanType1: Option<string>,
                                  status2: Option<string>, loanType2: Option<string>)
      requires name != ""
      ensures SearchLoans(Some(name), status1, loanType1) == SearchLoans(Some(name), status2, loanType2)
    {
    }

    /** An empty name is the same as no name. */
    lemma EmptyNameIsAbsent(status: Option<string>, loanType: Option<string>)
      ensures SearchLoans(Some(""), status, loanType) == SearchLoans(None, status, loanType)
    {
    }

    /** getLoanStats: the statistics of findAll, whose counts agree with the
        status finder for PENDING and for APPROVED. */
    function GetLoanStats(): (r: Result<LoanStats>)
      reads repo
      ensures r.Ok? ==> r.value.totalLoans == |repo.FindAll()|
      ensures r.Ok? ==> r.value.pendingLoans == |repo.FindByStatus(Pending)|
      ensures r.Ok? ==> r.value.approvedLoans == |repo.FindByStatus(Approved)|
      ensures AllValid(repo.rows) ==> r.Ok?
    {
      LoanStatsOf(repo.FindAll())
    }
  }
}
