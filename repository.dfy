/** The loan store: the table behind the repository interface, the operations
    it inherits (save, findAll, findById, existsById, deleteById) and its four
    derived finders. The table is a sequence of rows in ascending id order. */
module Repository {
  import opened Model

  /** Every row has an id, ids ascend strictly (so no two rows share one),
      and every id lies below the next id the identity column will issue. */
  ghost predicate WellFormed(rows: seq<LoanData>, nextId: int) {
    && 1 <= nextId
    && (forall i :: 0 <= i < |rows| ==> rows[i].id.Some? && 1 <= rows[i].id.value < nextId)
    && (forall i, j :: 0 <= i < j < |rows| ==>
          rows[i].id.Some? && rows[j].id.Some? && rows[i].id.value < rows[j].id.value)
  }

  /** Some row carries the id. */
  predicate HasId(rows: seq<LoanData>, id: int) {
    exists i | 0 <= i < |rows| :: rows[i].id == Some(id)
  }

  /** The first row carrying the id. */
  function Lookup(rows: seq<LoanData>, id: int): (r: Option<LoanData>)
    ensures r.Some? <==> HasId(rows, id)
    ensures r.Some? ==> r.value in rows && r.value.id == Some(id)
  {
    if rows == [] then None
    else if rows[0].id == Some(id) then Some(rows[0])
    else
      var r := Lookup(rows[1..], id);
      assert HasId(rows, id) ==> HasId(rows[1..], id) by {
        if HasId(rows, id) {
          var i :| 0 <= i < |rows| && rows[i].id == Some(id);
          assert rows[1..][i - 1].id == Some(id);
        }
      }
      assert HasId(rows[1..], id) ==> HasId(rows, id) by {
        if HasId(rows[1..], id) {
          var i :| 0 <= i < |rows[1..]| && rows[1..][i].id == Some(id);
          assert rows[i + 1].id == Some(id);
        }
      }
      r
  }

  /** Dropping the first row keeps a table well formed. */
  lemma WellFormedTail(rows: seq<LoanData>, nextId: int)
    requires WellFormed(rows, nextId) && rows != []
    ensures WellFormed(rows[1..], nextId)
  {
    var tail := rows[1..];
    forall i, j | 0 <= i < j < |tail|
      ensures tail[i].id.Some? && tail[j].id.Some? && tail[i].id.value < tail[j].id.value
    {
      assert tail[i] == rows[i + 1] && tail[j] == rows[j + 1];
    }
  }

  /** A row whose id lies below every id of a well-formed table may go in front of it. */
  lemma WellFormedCons(x: LoanData, s: seq<LoanData>, nextId: int)
    requires WellFormed(s, nextId)
    requires x.id.Some? && 1 <= x.id.value < nextId
    requires forall l :: l in s ==> l.id.Some? && x.id.value < l.id.value
    ensures WellFormed([x] + s, nextId)
  {
    var r := [x] + s;
    forall i, j | 0 <= i < j < |r|
      ensures r[i].id.Some? && r[j].id.Some? && r[i].id.value < r[j].id.value
    {
      assert r[j] == s[j - 1];
      if i > 0 {
        assert r[i] == s[i - 1];
      }
    }
    forall i | 0 <= i < |r| ensures r[i].id.Some? && 1 <= r[i].id.value < nextId {
      if i > 0 {
        assert r[i] == s[i - 1];
      }
    }
  }

  /** The first row's id lies below every other id of a well-formed table. */
  lemma HeadIdSmallest(rows: seq<LoanData>, nextId: int)
    requires WellFormed(rows, nextId) && rows != []
    ensures forall l :: l in rows[1..] ==> l.id.Some? && rows[0].id.value < l.id.value
  {
    forall l | l in rows[1..] ensures l.id.Some? && rows[0].id.value < l.id.value {
      var k :| 0 <= k < |rows[1..]| && rows[1..][k] == l;
      assert rows[k + 1] == l;
    }
  }

  /** In a well-formed table a row is the only one with its id, so Lookup finds it. */
  lemma {:induction false} LookupFindsRow(rows: seq<LoanData>, nextId: int, l: LoanData)
    requires WellFormed(rows, nextId)
    requires l in rows
    ensures l.id.Some? && Lookup(rows, l.id.value) == Some(l)
  {
    if rows[0] != l {
      HeadIdSmallest(rows, nextId);
      assert l in rows[1..];
      WellFormedTail(rows, nextId);
      LookupFindsRow(rows[1..], nextId, l);
    }
  }

  /** The table with the row carrying `loan`'s id replaced by `loan`. */
  function Overwrite(rows: seq<LoanData>, loan: LoanData): (r: seq<LoanData>)
    ensures |r| == |rows|
    ensures forall i :: 0 <= i < |rows| ==> r[i] == if rows[i].id == loan.id then loan else rows[i]
  {
    seq(|rows|, i requires 0 <= i < |rows| => if rows[i].id == loan.id then loan else rows[i])
  }

  /** Overwriting a stored row keeps every id where it was. */
  lemma OverwriteWellFormed(rows: seq<LoanData>, nextId: int, loan: LoanData, k: int)
    requires WellFormed(rows, nextId)
    requires 0 <= k < |rows| && rows[k].id == loan.id
    ensures WellFormed(Overwrite(rows, loan), nextId)
    ensures Overwrite(rows, loan)[k] == loan
  {
  }

  /** A row under the next id may go at the end, and the next id moves on. */
  lemma AppendWellFormed(rows: seq<LoanData>, nextId: int, loan: LoanData)
    requires WellFormed(rows, nextId)
    requires loan.id == Some(nextId)
    ensures WellFormed(rows + [loan], nextId + 1)
  {
  }

  /** The rows that satisfy `p`, in table order. */
  function Select(rows: seq<LoanData>, p: LoanData -> bool): (r: seq<LoanData>)
    ensures forall l :: l in r <==> l in rows && p(l)
    ensures |r| <= |rows|
  {
    if rows == [] then []
    else if p(rows[0]) then [rows[0]] + Select(rows[1..], p)
    else Select(rows[1..], p)
  }

  /** Selecting by a conjunction is selecting by one conjunct, then by the other. */
  lemma {:induction false} SelectConjunction(rows: seq<LoanData>, p: LoanData -> bool, q: LoanData -> bool,
                                             pq: LoanData -> bool)
    requires forall l :: pq(l) == (p(l) && q(l))
    ensures Select(rows, pq) == Select(Select(rows, p), q)
  {
    if rows != [] {
      SelectConjunction(rows[1..], p, q, pq);
      if p(rows[0]) {
        assert Select(rows, p) == [rows[0]] + Select(rows[1..], p);
        assert ([rows[0]] + Select(rows[1..], p))[1..] == Select(rows[1..], p);
      }
    }
  }

  /** Selection keeps a table well formed: it only drops rows. */
  lemma {:induction false} SelectWellFormed(rows: seq<LoanData>, nextId: int, p: LoanData -> bool)
    requires WellFormed(rows, nextId)
    ensures WellFormed(Select(rows, p), nextId)
  {
    if rows != [] {
      WellFormedTail(rows, nextId);
      SelectWellFormed(rows[1..], nextId, p);
      if p(rows[0]) {
        HeadIdSmallest(rows, nextId);
        WellFormedCons(rows[0], Select(rows[1..], p), nextId);
      }
    }
  }

  /** Two conditions no row meets at once select at most the whole table between them. */
  lemma {:induction false} SelectDisjoint(rows: seq<LoanData>, p: LoanData -> bool, q: LoanData -> bool)
    requires forall l :: !(p(l) && q(l))
    ensures |Select(rows, p)| + |Select(rows, q)| <= |rows|
  {
    if rows != [] {
      SelectDisjoint(rows[1..], p, q);
    }
  }

  /** Selection without a row that fails the condition is strictly shorter. */
  lemma {:induction false} SelectDrops(rows: seq<LoanData>, p: LoanData -> bool, k: int)
    requires 0 <= k < |rows| && !p(rows[k])
    ensures |Select(rows, p)| < |rows|
  {
    if k > 0 {
      assert rows[1..][k - 1] == rows[k];
      SelectDrops(rows[1..], p, k - 1);
    }
  }

  /** Selecting from two tables placed end to end. */
  lemma {:induction false} SelectAppend(a: seq<LoanData>, b: seq<LoanData>, p: LoanData -> bool)
    ensures Select(a + b, p) == Select(a, p) + Select(b, p)
  {
    if a == [] {
      assert a + b == b;
    } else {
      assert (a + b)[0] == a[0];
      assert (a + b)[1..] == a[1..] + b;
      SelectAppend(a[1..], b, p);
    }
  }

  // ---------------------------------------------------------------------------
  // Matching rules of the derived finders

  function StatusIs(status: string): LoanData -> bool {
    (l: LoanData) => l.status == Some(status)
  }

  function TypeIs(loanType: string): LoanData -> bool {
    (l: LoanData) => l.loanType == Some(loanType)
  }

  function StatusAndTypeAre(status: string, loanType: string): LoanData -> bool {
    (l: LoanData) => l.status == Some(status) && l.loanType == Some(loanType)
  }

  function IdIsNot(id: int): LoanData -> bool {
    (l: LoanData) => l.id != Some(id)
  }

  /** ASCII upper case; every other character is left as it is. */
  function UpperChar(c: char): char {
    if 'a' <= c <= 'z' then (c as int - 32) as char else c
  }

  function UpperAscii(s: string): (r: string) {
    seq(|s|, i requires 0 <= i < |s| => UpperChar(s[i]))
  }

  /** Two strings that differ at most in the case of ASCII letters. */
  predicate SameIgnoringCase(a: string, b: string) {
    UpperAscii(a) == UpperAscii(b)
  }

  /** `q` occurs in `s` starting at position `i`. */
  predicate OccursAt(s: string, q: string, i: int) {
    0 <= i <= |s| - |q| && s[i..i + |q|] == q
  }

  /** `q` occurs in `s` as a contiguous piece. */
  predicate ContainsSubstring(s: string, q: string) {
    exists i | 0 <= i <= |s| :: OccursAt(s, q, i)
  }

  /** upper(borrowerName) like upper('%q%'): a null name never matches. */
  predicate NameContainsIgnoreCase(name: Option<string>, q: string) {
    name.Some? && ContainsSubstring(UpperAscii(name.value), UpperAscii(q))
  }

  function NameContains(q: string): LoanData -> bool {
    (l: LoanData) => NameContainsIgnoreCase(l.borrowerName, q)
  }

  /** The piece of `name` at position `i` equals `q` up to case. */
  ghost predicate MatchesAt(name: string, q: string, i: int) {
    0 <= i <= |name| - |q| && SameIgnoringCase(q, name[i..i + |q|])
  }

  /** The name matches exactly when some piece of it equals the query up to case. */
  lemma NameMatchIff(name: string, q: string)
    ensures NameContainsIgnoreCase(Some(name), q) <==> exists i :: MatchesAt(name, q, i)
  {
    var un, uq := UpperAscii(name), UpperAscii(q);
    forall i | 0 <= i <= |name| - |q|
      ensures OccursAt(un, uq, i) <==> MatchesAt(name, q, i)
    {
      assert un[i..i + |q|] == UpperAscii(name[i..i + |q|]);
    }
    if NameContainsIgnoreCase(Some(name), q) {
      var i :| 0 <= i <= |un| && OccursAt(un, uq, i);
      assert MatchesAt(name, q, i);
    }
    if exists i :: MatchesAt(name, q, i) {
      var i :| MatchesAt(name, q, i);
      assert OccursAt(un, uq, i);
    }
  }

  // ---------------------------------------------------------------------------
  // The repository

  class LoanRepository {
    /** The table, in ascending id order. */
    var rows: seq<LoanData>
    /** The id the identity column issues next. */
    var nextId: int

    ghost predicate Valid()
      reads this
    {
      WellFormed(rows, nextId)
    }

    /** An empty table. */
    constructor ()
      ensures Valid() && rows == [] && nextId == 1
    {
      rows := [];
      nextId := 1;
    }

    /** findAll: every stored loan once, each under its own id. */
    function FindAll(): (r: seq<LoanData>)
      reads this
      ensures |r| == |rows| && forall l :: l in r <==> l in rows
      ensures Valid() ==> forall l | l in r :: l.id.Some? && FindById(l.id.value) == Some(l)
      ensures Valid() ==> forall i, j | 0 <= i < j < |r| :: r[i].id != r[j].id
    {
      rows
    }

    /** findById: the stored row with that id, if there is one. */
    function FindById(id: int): (r: Option<LoanData>)
      reads this
      ensures r.Some? ==> r.value in rows && r.value.id == Some(id)
      ensures r.None? ==> forall l :: l in rows ==> l.id != Some(id)
      ensures Valid() ==> forall l :: l in rows && l.id == Some(id) ==> r == Some(l)
    {
      var r := Lookup(rows, id);
      assert Valid() ==> forall l :: l in rows && l.id == Some(id) ==> r == Some(l) by {
        if Valid() {
          forall l | l in rows && l.id == Some(id) ensures r == Some(l) {
            LookupFindsRow(rows, nextId, l);
          }
        }
      }
      r
    }

    /** existsById: holds exactly when findById finds a row. */
    function ExistsById(id: int): (b: bool)
      reads this
      ensures b <==> FindById(id).Some?
    {
      HasId(rows, id)
    }

    /** save: a loan whose id is stored overwrites that row; any other loan is
        inserted as a new last row under the next id the identity column issues. */
    method Save(loan: LoanData) returns (saved: LoanData)
      requires Valid()
      modifies this
      ensures Valid()
      ensures saved.id.Some? && FindById(saved.id.value) == Some(saved)
      ensures loan.id.Some? && old(ExistsById(loan.id.value)) ==>
                saved == loan && rows == Overwrite(old(rows), loan) && nextId == old(nextId)
      ensures loan.id.None? || !old(ExistsById(loan.id.value)) ==>
                saved == loan.(id := Some(old(nextId))) && rows == old(rows) + [saved]
                && nextId == old(nextId) + 1
    {
      if loan.id.Some? && HasId(rows, loan.id.value) {
        var k :| 0 <= k < |rows| && rows[k].id == loan.id;
        OverwriteWellFormed(rows, nextId, loan, k);
        rows := Overwrite(rows, loan);
        saved := loan;
        assert rows[k] == saved;
      } else {
        saved := loan.(id := Some(nextId));
        AppendWellFormed(rows, nextId, saved);
        rows := rows + [saved];
        nextId := nextId + 1;
        assert rows[|rows| - 1] == saved;
      }
      assert saved in rows;
      LookupFindsRow(rows, nextId, saved);
    }

    /** deleteById: every row with another id stays, in order; a missing id changes nothing. */
    method DeleteById(id: int)
      requires Valid()
      modifies this
      ensures Valid()
      ensures rows == Select(old(rows), IdIsNot(id)) && nextId == old(nextId)
      ensures forall l :: l in rows <==> l in old(rows) && l.id != Some(id)
      ensures !ExistsById(id)
      ensures !old(ExistsById(id)) ==> rows == old(rows)
    {
      SelectWellFormed(rows, nextId, IdIsNot(id));
      if !HasId(rows, id) {
        SelectAll(rows, IdIsNot(id));
      }
      rows := Select(rows, IdIsNot(id));
    }

    function FindByBorrowerNameContainingIgnoreCase(borrowerName: string): (r: seq<LoanData>)
      reads this
      ensures forall l :: l in r <==> l in rows && NameContainsIgnoreCase(l.borrowerName, borrowerName)
    {
      Select(rows, NameContains(borrowerName))
    }

    function FindByStatus(status: string): (r: seq<LoanData>)
      reads this
      ensures forall l :: l in r <==> l in rows && l.status == Some(status)
    {
      Select(rows, StatusIs(status))
    }

    function FindByLoanType(loanType: string): (r: seq<LoanData>)
      reads this
      ensures forall l :: l in r <==> l in rows && l.loanType == Some(loanType)
    {
      Select(rows, TypeIs(loanType))
    }

    /** The conjunctive finder is the status finder narrowed by loan type,
        and the loan-type finder narrowed by status. */
    function FindByStatusAndLoanType(status: string, loanType: string): (r: seq<LoanData>)
      reads this
      ensures r == Select(FindByStatus(status), TypeIs(loanType))
      ensures r == Select(FindByLoanType(loanType), StatusIs(status))
    {
      SelectConjunction(rows, StatusIs(status), TypeIs(loanType), StatusAndTypeAre(status, loanType));
      SelectConjunction(rows, TypeIs(loanType), StatusIs(status), StatusAndTypeAre(status, loanType));
      Select(rows, StatusAndTypeAre(status, loanType))
    }
  }

  /** A condition every row meets selects the whole table. */
  lemma {:induction false} SelectAll(rows: seq<LoanData>, p: LoanData -> bool)
    requires forall l :: l in rows ==> p(l)
    ensures Select(rows, p) == rows
  {
    if rows != [] {
      SelectAll(rows[1..], p);
    }
  }
}
