/** The Loan entity: its fields, the constraints its annotations declare,
    its two constructors, its setters and the guard of its payment helper.
    A Java reference that may be null is an Option here. */
module Model {

  datatype Option<T> = None | Some(value: T)

  /** A calendar date, as a count of days. */
  datatype Date = Date(epochDay: int)

  /** The status a new Loan starts in. */
  const Pending: string := "PENDING"

  /** A snapshot of every field of a Loan: what a table row or a request body holds. */
  datatype LoanData = LoanData(
    id: Option<int>,
    borrowerName: Option<string>,
    loanAmount: Option<real>,
    interestRate: Option<real>,
    loanTermMonths: Option<int>,
    loanDate: Option<Date>,
    status: Option<string>,
    loanType: Option<string>,
    description: Option<string>)

  /** The fields as the no-argument constructor leaves them on the given day. */
  function Defaults(today: Date): LoanData {
    LoanData(None, None, None, None, None, Some(today), Some(Pending), None, None)
  }

  // ---------------------------------------------------------------------------
  // Field constraints

  /** One failed constraint annotation, one constructor per annotation. */
  datatype Violation =
    | BorrowerNameRequired   // @NotBlank
    | BorrowerNameSize       // @Size(min = 2, max = 100)
    | LoanAmountRequired     // @NotNull
    | LoanAmountTooSmall     // @DecimalMin("100.0")
    | LoanAmountTooLarge     // @DecimalMax("1000000.0")
    | InterestRateRequired   // @NotNull
    | InterestRateNegative   // @DecimalMin("0.0")
    | InterestRateTooHigh    // @DecimalMax("30.0")
    | LoanTermRequired       // @NotNull
    | LoanTermTooShort       // @Min(1)
    | LoanTermTooLong        // @Max(360)
    | LoanDateRequired       // @NotNull

  /** Some character survives Java's trim(), which strips every char up to U+0020. */
  predicate HasVisibleChar(s: string) {
    exists i | 0 <= i < |s| :: s[i] > ' '
  }

  /** Whether the annotation behind `v` accepts the fields: the range annotations
      accept null and leave it to @NotNull, and @Size accepts null. */
  predicate Accepts(d: LoanData, v: Violation) {
    match v
    case BorrowerNameRequired => d.borrowerName.Some? && HasVisibleChar(d.borrowerName.value)
    case BorrowerNameSize => d.borrowerName.None? || 2 <= |d.borrowerName.value| <= 100
    case LoanAmountRequired => d.loanAmount.Some?
    case LoanAmountTooSmall => d.loanAmount.None? || d.loanAmount.value >= 100.0
    case LoanAmountTooLarge => d.loanAmount.None? || d.loanAmount.value <= 1000000.0
    case InterestRateRequired => d.interestRate.Some?
    case InterestRateNegative => d.interestRate.None? || d.interestRate.value >= 0.0
    case InterestRateTooHigh => d.interestRate.None? || d.interestRate.value <= 30.0
    case LoanTermRequired => d.loanTermMonths.Some?
    case LoanTermTooShort => d.loanTermMonths.None? || d.loanTermMonths.value >= 1
    case LoanTermTooLong => d.loanTermMonths.None? || d.loanTermMonths.value <= 360
    case LoanDateRequired => d.loanDate.Some?
  }

  /** Every annotation on the entity. */
  const Annotations: set<Violation> :=
    {BorrowerNameRequired, BorrowerNameSize, LoanAmountRequired, LoanAmountTooSmall,
     LoanAmountTooLarge, InterestRateRequired, InterestRateNegative, InterestRateTooHigh,
     LoanTermRequired, LoanTermTooShort, LoanTermTooLong, LoanDateRequired}

  /** The violations a bean validator reports, each annotation judged on its own. */
  function Violations(d: LoanData): (r: set<Violation>)
    ensures BorrowerNameRequired in r <==> d.borrowerName.None? || !HasVisibleChar(d.borrowerName.value)
    ensures BorrowerNameSize in r <==> d.borrowerName.Some? && !(2 <= |d.borrowerName.value| <= 100)
    ensures LoanAmountRequired in r <==> d.loanAmount.None?
    ensures LoanAmountTooSmall in r <==> d.loanAmount.Some? && d.loanAmount.value < 100.0
    ensures LoanAmountTooLarge in r <==> d.loanAmount.Some? && d.loanAmount.value > 1000000.0
    ensures InterestRateRequired in r <==> d.interestRate.None?
    ensures InterestRateNegative in r <==> d.interestRate.Some? && d.interestRate.value < 0.0
    ensures InterestRateTooHigh in r <==> d.interestRate.Some? && d.interestRate.value > 30.0
    ensures LoanTermRequired in r <==> d.loanTermMonths.None?
    ensures LoanTermTooShort in r <==> d.loanTermMonths.Some? && d.loanTermMonths.value < 1
    ensures LoanTermTooLong in r <==> d.loanTermMonths.Some? && d.loanTermMonths.value > 360
    ensures LoanDateRequired in r <==> d.loanDate.None?
    ensures d.borrowerName == Some("") ==> BorrowerNameRequired in r && BorrowerNameSize in r
  {
    set v | v in Annotations && !Accepts(d, v)
  }

  /** Every constraint on the fields holds: exactly when the validator reports nothing. */
  predicate IsValid(d: LoanData): (b: bool)
    ensures b <==> Violations(d) == {}
  {
    var valid :=
      && d.borrowerName.Some? && HasVisibleChar(d.borrowerName.value)
      && 2 <= |d.borrowerName.value| <= 100
      && d.loanAmount.Some? && 100.0 <= d.loanAmount.value <= 1000000.0
      && d.interestRate.Some? && 0.0 <= d.interestRate.value <= 30.0
      && d.loanTermMonths.Some? && 1 <= d.loanTermMonths.value <= 360
      && d.loanDate.Some?;
    assert !valid ==> Violations(d) != {} by {
      var r := Violations(d);
      if !valid {
        if d.borrowerName.None? || !HasVisibleChar(d.borrowerName.value) {
          assert BorrowerNameRequired in r;
        } else if !(2 <= |d.borrowerName.value| <= 100) {
          assert BorrowerNameSize in r;
        } else if d.loanAmount.None? || d.loanAmount.value < 100.0 || d.loanAmount.value > 1000000.0 {
          assert LoanAmountRequired in r || LoanAmountTooSmall in r || LoanAmountTooLarge in r;
        } else if d.interestRate.None? || d.interestRate.value < 0.0 || d.interestRate.value > 30.0 {
          assert InterestRateRequired in r || InterestRateNegative in r || InterestRateTooHigh in r;
        } else if d.loanTermMonths.None? || d.loanTermMonths.value < 1 || d.loanTermMonths.value > 360 {
          assert LoanTermRequired in r || LoanTermTooShort in r || LoanTermTooLong in r;
        } else {
          assert LoanDateRequired in r;
        }
      }
    }
    valid
  }

  /** A loan made by the five-argument constructor is valid exactly when its
      five arguments are: the constructor always supplies the date. */
  lemma ConstructedValidIff(borrowerName: string, loanAmount: real, interestRate: real,
                            loanTermMonths: int, loanType: Option<string>, today: Date)
    ensures IsValid(Defaults(today).(borrowerName := Some(borrowerName), loanAmount := Some(loanAmount),
                                     interestRate := Some(interestRate), loanTermMonths := Some(loanTermMonths),
                                     loanType := loanType))
        <==> (&& HasVisibleChar(borrowerName) && 2 <= |borrowerName| <= 100
              && 100.0 <= loanAmount <= 1000000.0
              && 0.0 <= interestRate <= 30.0
              && 1 <= loanTermMonths <= 360)
  {
  }

  // ---------------------------------------------------------------------------
  // The mutable entity

  class Loan {
    var id: Option<int>
    var borrowerName: Option<string>
    var loanAmount: Option<real>
    var interestRate: Option<real>
    var loanTermMonths: Option<int>
    var loanDate: Option<Date>
    var status: Option<string>
    var loanType: Option<string>
    var description: Option<string>

    /** The current value of every field. */
    function Data(): LoanData
      reads this
    {
      LoanData(id, borrowerName, loanAmount, interestRate, loanTermMonths,
               loanDate, status, loanType, description)
    }

    /** Loan(): status PENDING, dated today, every other field null. */
    constructor (today: Date)
      ensures status == Some(Pending) && loanDate == Some(today)
      ensures id.None? && borrowerName.None? && loanAmount.None? && interestRate.None?
      ensures loanTermMonths.None? && loanType.None? && description.None?
      ensures Data() == Defaults(today)
    {
      id, borrowerName, loanAmount, interestRate, loanTermMonths := None, None, None, None, None;
      loanType, description := None, None;
      status := Some(Pending);
      loanDate := Some(today);
    }

    /** Loan(borrowerName, loanAmount, interestRate, loanTermMonths, loanType):
        the no-argument defaults, then exactly these five fields. */
    constructor WithTerms(borrowerName: Option<string>, loanAmount: Option<real>, interestRate: Option<real>,
                          loanTermMonths: Option<int>, loanType: Option<string>, today: Date)
      ensures this.borrowerName == borrowerName && this.loanAmount == loanAmount
      ensures this.interestRate == interestRate && this.loanTermMonths == loanTermMonths
      ensures this.loanType == loanType
      ensures status == Some(Pending) && loanDate == Some(today)
      ensures id.None? && description.None?
      ensures Data() == Defaults(today).(borrowerName := borrowerName, loanAmount := loanAmount,
                                         interestRate := interestRate, loanTermMonths := loanTermMonths,
                                         loanType := loanType)
    {
      id, description := None, None;
      status := Some(Pending);
      loanDate := Some(today);
      this.borrowerName := borrowerName;
      this.loanAmount := loanAmount;
      this.interestRate := interestRate;
      this.loanTermMonths := loanTermMonths;
      this.loanType := loanType;
    }

    /** The entity a persistence provider materialises from a stored row. */
    constructor FromRow(row: LoanData)
      ensures Data() == row
    {
      id, borrowerName, loanAmount, interestRate, loanTermMonths :=
        row.id, row.borrowerName, row.loanAmount, row.interestRate, row.loanTermMonths;
      loanDate, status, loanType, description :=
        row.loanDate, row.status, row.loanType, row.description;
    }

    method SetId(v: Option<int>)
      modifies this
      ensures Data() == old(Data()).(id := v)
    {
      id := v;
    }

    method SetBorrowerName(v: Option<string>)
      modifies this
      ensures Data() == old(Data()).(borrowerName := v)
    {
      borrowerName := v;
    }

    method SetLoanAmount(v: Option<real>)
      modifies this
      ensures Data() == old(Data()).(loanAmount := v)
    {
      loanAmount := v;
    }

    method SetInterestRate(v: Option<real>)
      modifies this
      ensures Data() == old(Data()).(interestRate := v)
    {
      interestRate := v;
    }

    method SetLoanTermMonths(v: Option<int>)
      modifies this
      ensures Data() == old(Data()).(loanTermMonths := v)
    {
      loanTermMonths := v;
    }

    method SetLoanDate(v: Option<Date>)
      modifies this
      ensures Data() == old(Data()).(loanDate := v)
    {
      loanDate := v;
    }

    method SetStatus(v: Option<string>)
      modifies this
      ensures Data() == old(Data()).(status := v)
    {
      status := v;
    }

    method SetLoanType(v: Option<string>)
      modifies this
      ensures Data() == old(Data()).(loanType := v)
    {
      loanType := v;
    }

    method SetDescription(v: Option<string>)
      modifies this
      ensures Data() == old(Data()).(description := v)
    {
      description := v;
    }

    /** calculateMonthlyPayment: zero when the amount, the rate or the term is null;
        otherwise the amortisation, which computes in floating point and is given
        here as the parameter `amortize` (principal, annual rate in percent, months). */
    function CalculateMonthlyPayment(amortize: (real, real, int) -> real): (r: real)
      reads this
      ensures loanAmount.None? || interestRate.None? || loanTermMonths.None? ==> r == 0.0
      ensures loanAmount.Some? && interestRate.Some? && loanTermMonths.Some? ==>
                r == amortize(loanAmount.value, interestRate.value, loanTermMonths.value)
    {
      if loanAmount.None? || interestRate.None? || loanTermMonths.None? then 0.0
      else amortize(loanAmount.value, interestRate.value, loanTermMonths.value)
    }
  }
}
