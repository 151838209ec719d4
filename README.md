# Loan management service — a Dafny model of its core

The service keeps loan records (borrower name, amount, interest rate, term,
date, status, loan type, description) behind a REST controller backed by a
Spring Data repository. This project models the three files that carry its
logic, with the database replaced by an in-memory table:

- `model.dfy`, module `Model` (`Loan.java`): the `LoanData` value (one field
  per column, `Option` for a Java reference that may be null). The field
  constraints of the validation annotations appear twice: as the predicate
  `IsValid`, and as the set of `Violation`s a bean validator reports. The
  mutable `Loan` class has both constructors, the nine setters and the null
  guard of `calculateMonthlyPayment`.
- `repository.dfy`, module `Repository` (`LoanRepository.java`): the table is
  a sequence of rows in ascending id order. The invariant `WellFormed` says
  every row has an id, no two rows share one, and every id lies below the
  next id the identity column issues. The class `LoanRepository` has `Save`
  and `DeleteById`, which change the table, and the read-only `FindAll`,
  `FindById`, `ExistsById` and four derived finders. The finders are filters
  (`Select`) over the table. A borrower-name search matches
  `upper(name) like upper('%q%')`, folding ASCII letters only.
- `controller.dfy`, module `Controller` (`LoanController.java`): the class
  `LoanController` takes the repository at construction. A thrown "not found"
  becomes `Err(NotFound(id))` and a failed `@Valid` becomes
  `Err(ValidationFailed(violations))`. `UpdateLoan` does what `updateLoan`
  does: it materialises the stored row as a `Loan` object, calls seven
  setters and saves the result. The statistics are an exact sum and two
  counts over `findAll`.

Behaviour of the code worth noting:

- The repository does not signal "not found". `findById` returns an empty
  `Optional`, and `getLoanById` and `updateLoan` turn it into an exception
  with `orElseThrow` (`LoanController.java:53-54`, `85-86`). `deleteById` of
  a missing id does nothing, so `deleteLoan` checks `existsById` itself
  before deleting (`LoanController.java:110-114`).
- `status` and `loanType` are plain `String` fields (`Loan.java:39-41`).
  The finders and the statistics compare them by exact equality.
- `updateLoan` copies seven fields from the body and neither `id` nor
  `loanDate` (`LoanController.java:88-94`), so the stored `loanDate` stays.
- `@Valid` sits on the body parameter of `updateLoan`
  (`LoanController.java:84`), so the body is checked before the lookup at
  `LoanController.java:85-86`. An invalid body gives a validation error even
  when the id is missing.
- `createLoan` passes the body straight to `save`
  (`LoanController.java:67-68`). A body carrying the id of a stored loan
  therefore overwrites that loan (`CreateLoan` states this case).

## Model

| member | source | states |
|---|---|---|
| Model.Violations | src/main/java/com/loanmanagement/model/Loan.java:17-37 | Each of the twelve annotations is reported exactly when its own condition fails: `@NotBlank` when the name is null or all blank; `@Size` when a non-null name is outside 2 to 100 characters; each `@NotNull` when its field is null; each range annotation when its non-null field is out of range. So an empty name breaks `@NotBlank` and `@Size`, and a null name only `@NotBlank`. |
| Model.IsValid | src/main/java/com/loanmanagement/model/Loan.java:17-37 | A loan passes validation (the validator reports nothing) exactly when it has a name with a non-blank character and 2 to 100 characters, an amount in [100, 1000000], a rate in [0, 30], a term in [1, 360] and a date. |
| Model.ConstructedValidIff | src/main/java/com/loanmanagement/model/Loan.java:51-59 | A loan from the five-argument constructor is valid exactly when its name, amount, rate and term are in range. The date is always supplied. |
| Model.Loan.constructor | src/main/java/com/loanmanagement/model/Loan.java:46-49 | `Loan()` sets status PENDING and loanDate to the given today. Every other field is null. |
| Model.Loan.WithTerms | src/main/java/com/loanmanagement/model/Loan.java:51-59 | Sets exactly the five given fields. Status is PENDING and loanDate is today, as for `Loan()`. id and description are null. |
| Model.Loan.SetId | src/main/java/com/loanmanagement/model/Loan.java:66-68 | Changes id and no other field. |
| Model.Loan.SetBorrowerName | src/main/java/com/loanmanagement/model/Loan.java:74-76 | Changes borrowerName and no other field. |
| Model.Loan.SetLoanAmount | src/main/java/com/loanmanagement/model/Loan.java:82-84 | Changes loanAmount and no other field. |
| Model.Loan.SetInterestRate | src/main/java/com/loanmanagement/model/Loan.java:90-92 | Changes interestRate and no other field. |
| Model.Loan.SetLoanTermMonths | src/main/java/com/loanmanagement/model/Loan.java:98-100 | Changes loanTermMonths and no other field. |
| Model.Loan.SetLoanDate | src/main/java/com/loanmanagement/model/Loan.java:106-108 | Changes loanDate and no other field. |
| Model.Loan.SetStatus | src/main/java/com/loanmanagement/model/Loan.java:114-116 | Changes status and no other field. |
| Model.Loan.SetLoanType | src/main/java/com/loanmanagement/model/Loan.java:122-124 | Changes loanType and no other field. |
| Model.Loan.SetDescription | src/main/java/com/loanmanagement/model/Loan.java:130-132 | Changes description and no other field. |
| Model.Loan.CalculateMonthlyPayment | src/main/java/com/loanmanagement/model/Loan.java:135-138 | Zero when the amount, the rate or the term is null. Otherwise it is the amortisation applied to those three values. |
| Repository.Lookup | src/main/java/com/loanmanagement/repository/LoanRepository.java:12 | Finds a row exactly when some row carries the id, and the row it returns carries that id. |
| Repository.LookupFindsRow | src/main/java/com/loanmanagement/repository/LoanRepository.java:12 | In a well-formed table, a lookup by a row's id returns that very row, because ids are unique. |
| Repository.LoanRepository.FindAll | src/main/java/com/loanmanagement/repository/LoanRepository.java:12 | Returns every stored loan, each once. In a valid store each returned loan has an id, no two share one, and `FindById` of that id returns the loan. `searchLoans` and `getLoanStats` use this list. |
| Repository.LoanRepository.FindById | src/main/java/com/loanmanagement/repository/LoanRepository.java:12 | Returns a stored row with the id, or nothing when no row has it. In a valid store the row it returns is the only one with that id. |
| Repository.LoanRepository.ExistsById | src/main/java/com/loanmanagement/repository/LoanRepository.java:12 | Holds exactly when `FindById` finds a row. |
| Repository.LoanRepository.Save | src/main/java/com/loanmanagement/repository/LoanRepository.java:12 | A loan whose id is stored overwrites that row in place, with nothing else changed. Any other loan is appended under the next id. In both cases the store stays well formed and `FindById` of the returned id gives the returned loan. |
| Repository.LoanRepository.DeleteById | src/main/java/com/loanmanagement/repository/LoanRepository.java:12 | Afterwards `ExistsById(id)` is false. Every row with another id stays, in order. A missing id changes nothing. |
| Repository.Select | src/main/java/com/loanmanagement/repository/LoanRepository.java:12-20 | A finder returns exactly the stored rows that meet its condition. So every finder result is a sub-collection of `findAll` and no longer than it. |
| Repository.SelectWellFormed | src/main/java/com/loanmanagement/repository/LoanRepository.java:12 | Removing rows, as `deleteById` does, keeps ids unique and ascending. |
| Repository.NameMatchIff | src/main/java/com/loanmanagement/repository/LoanRepository.java:14 | A name matches a query exactly when some piece of the name equals the query, ignoring ASCII case. |
| Repository.LoanRepository.FindByBorrowerNameContainingIgnoreCase | src/main/java/com/loanmanagement/repository/LoanRepository.java:14 | Exactly the stored loans whose non-null name contains the query, ignoring case. |
| Repository.LoanRepository.FindByStatus | src/main/java/com/loanmanagement/repository/LoanRepository.java:16 | Exactly the stored loans whose status equals the argument. |
| Repository.LoanRepository.FindByLoanType | src/main/java/com/loanmanagement/repository/LoanRepository.java:18 | Exactly the stored loans whose loanType equals the argument. |
| Repository.LoanRepository.FindByStatusAndLoanType | src/main/java/com/loanmanagement/repository/LoanRepository.java:20 | Equals the status finder's result narrowed by loan type. It also equals the loan-type finder's result narrowed by status. |
| Repository.SelectConjunction | src/main/java/com/loanmanagement/repository/LoanRepository.java:20 | Filtering by a conjunction equals filtering by one conjunct and then by the other, order included. |
| Controller.LoanController.constructor | src/main/java/com/loanmanagement/controller/LoanController.java:29-31 | The controller uses the repository it is given. |
| Controller.LoanController.GetLoanById | src/main/java/com/loanmanagement/controller/LoanController.java:52-54 | NotFound(id) exactly when no stored loan has the id. Otherwise it returns the stored loan unchanged. |
| Controller.LoanController.CreateLoan | src/main/java/com/loanmanagement/controller/LoanController.java:67-68 | An invalid body gets its violations and the store is unchanged. A valid body is saved as it is, apart from the id. The returned id is stored and `GetLoanById` of it returns the loan. A body without a stored id is appended under a fresh id. A body with a stored id overwrites that loan. Stored loans stay valid. |
| Controller.LoanController.UpdateLoan | src/main/java/com/loanmanagement/controller/LoanController.java:83-96 | An invalid body, or a missing id (NotFound), leaves the store unchanged. Otherwise the loan takes seven fields from the body and keeps its id and loanDate. Only that row changes, and `GetLoanById` then returns the new loan. Stored loans stay valid. |
| Controller.LoanController.DeleteLoan | src/main/java/com/loanmanagement/controller/LoanController.java:109-115 | A missing id gives NotFound and the store is unchanged. Otherwise exactly that loan is removed and the store shrinks. In both cases `GetLoanById` then gives NotFound. |
| Controller.LoanController.SearchLoans | src/main/java/com/loanmanagement/controller/LoanController.java:122-137 | A non-empty name gives exactly the name matches. Otherwise status and type together give loans matching both. Status alone gives a status match and type alone a type match. Neither gives every loan. An empty name counts as absent. An empty status or type counts as present. |
| Controller.LoanController.NameIgnoresOtherFilters | src/main/java/com/loanmanagement/controller/LoanController.java:127-128 | With a non-empty name, the status and loanType arguments do not change the result. |
| Controller.LoanController.EmptyNameIsAbsent | src/main/java/com/loanmanagement/controller/LoanController.java:127 | An empty borrowerName gives the same result as no borrowerName. |
| Controller.SumAmounts | src/main/java/com/loanmanagement/controller/LoanController.java:159-161 | The sum exists exactly when no loan has a null amount. With a null amount, `getLoanStats` throws a NullPointerException in `l.getLoanAmount().doubleValue()` (`LoanController.java:160`). |
| Controller.SumAppend | src/main/java/com/loanmanagement/controller/LoanController.java:159-161 | The sum over two tables placed end to end is the sum of their sums. |
| Controller.SumBounds | src/main/java/com/loanmanagement/controller/LoanController.java:159-161 | Over valid loans, the sum lies between 100 and 1,000,000 times the number of loans. |
| Controller.LoanStatsOf | src/main/java/com/loanmanagement/controller/LoanController.java:153-163 | An error exactly when some amount is null. Otherwise totalLoans is the list size and pendingLoans + approvedLoans ≤ totalLoans. Over valid loans the result is never an error and the amount is bounded. |
| Controller.StatsOfEmpty | src/main/java/com/loanmanagement/controller/LoanController.java:153-163 | An empty store has all counts zero and amount zero. |
| Controller.StatsOfAppend | src/main/java/com/loanmanagement/controller/LoanController.java:153-163 | One more loan adds one to the total, one to pending or approved when its status is exactly that, and its amount to the sum. |
| Controller.StatsFixture | src/main/java/com/loanmanagement/controller/LoanController.java:153-163 | Example: two PENDING loans (10,000 and 20,000) and one APPROVED loan (20,000) give 3, 2, 1 and 50,000. |
| Controller.LoanController.GetLoanStats | src/main/java/com/loanmanagement/controller/LoanController.java:153-163 | totalLoans is the size of `findAll`. pendingLoans and approvedLoans equal the sizes of the PENDING and APPROVED status-finder results. The result is never an error when every stored loan is valid. |

## Left out

- Model.Loan.CalculateMonthlyPayment: states only the null guard. The amortisation after it (`Loan.java:140-151`) computes in `double` with `Math.pow` and rounds half-up to cents, which is floating-point work. It is passed in as the parameter `amortize`.
- Controller.LoanStatsOf: totalAmount is an exact sum of the decimal amounts, not a sum of `double` conversions, so no rounding is modelled.
- Hypermedia links (`EntityModel`, `CollectionModel`, `linkTo`/`methodOn`, the Location header): presentation only, with no behaviour of its own. `getAllLoans` adds nothing besides links to `findAll`.
- HTTP routing, status codes and the mapping of exceptions to responses. Failures are `Err` values, and `@Valid` is an explicit check at the start of `CreateLoan` and `UpdateLoan`.
- Reading the JSON request body: the framework builds the body by calling `Loan()` and then the setters of the fields present. The model takes the resulting `LoanData` as the payload.
- Persistence internals: transactions, the entity manager's identity map and the identity column are reduced to a counter that starts at 1. Bean validation at persist time is not modelled, so `Save` stores any loan. The endpoints that `@RepositoryRestResource` exposes are not modelled.
- Save of a loan whose id is set but not stored: it is modelled as an insert under a fresh id. Newer persistence providers may reject it instead.
- The row order of `findAll` and of the finders is table (ascending id) order. SQL leaves it unspecified.
- String comparison is exact and case-sensitive, as Java's `equals`. A database collation could compare differently.
- Case folding covers ASCII letters only. `@Size` counts Dafny characters (Unicode scalar values), not UTF-16 code units.
- Java integer widths: `Long` ids and `Integer` terms are unbounded integers, so id overflow is not modelled.
- `BigDecimal` scale is not modelled: amounts and rates are exact reals.
- `LocalDate.now()` becomes the parameter `today`. A date is a day count.
- The getters: the fields of the Dafny class are readable directly.
- Concurrency: requests run one at a time.
