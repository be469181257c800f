/** `resolve_stock_code` (services/company_service.py): turning what a user
    typed — a code in any format or part of a company name — into a stock
    code, by three ordered rules: the digits as a padded code that exists,
    then the first company whose name contains the text, then the text
    itself when it is six digits. */
module CodeResolver {
  import opened Wrappers
  import opened PyText
  import opened Sequences
  import opened DashboardFlat

  datatype ResolveError = EmptyId | Unresolved(corpId: string)

  /** The digits of `s`, in order: `"".join(re.findall(r"\d", s))`. */
  function DigitsOf(s: string): (d: string)
    ensures AllDigits(d) && |d| <= |s|
    ensures forall i :: 0 <= i < |s| && IsDigit(s[i]) ==> s[i] in d
  {
    var d := Filter(s, IsDigit);
    assert forall i :: 0 <= i < |s| && IsDigit(s[i]) ==> s[i] in d by {
      forall i | 0 <= i < |s| && IsDigit(s[i])
        ensures s[i] in d
      {
        FilterKeeps(s, IsDigit, s[i]);
      }
    }
    d
  }

  /** Some row carries this stock code. */
  predicate CodeExists(table: seq<Row>, code: string) {
    exists i :: 0 <= i < |table| && table[i].stockCode == code
  }

  /** `company_name ILIKE '%s%'` with `s` already upper-cased: the name,
      case-folded, contains `s`. */
  predicate NameMatches(r: Row, s: string) {
    Contains(Upper(r.companyName), s)
  }

  /** `a` sorts no later than `b` under `ORDER BY company_name ASC, year DESC`. */
  predicate RankLe(a: Row, b: Row) {
    (StrLe(a.companyName, b.companyName) && a.companyName != b.companyName)
    || (a.companyName == b.companyName && a.year >= b.year)
  }

  lemma RankTotal(a: Row, b: Row)
    ensures RankLe(a, b) || RankLe(b, a)
  {
    StrLeTotal(a.companyName, b.companyName);
  }

  lemma RankTransitive(a: Row, b: Row, c: Row)
    requires RankLe(a, b) && RankLe(b, c)
    ensures RankLe(a, c)
  {
    if a.companyName != b.companyName && b.companyName != c.companyName {
      StrLeTransitive(a.companyName, b.companyName, c.companyName);
      if a.companyName == c.companyName {
        StrLeAntisymmetric(a.companyName, b.companyName);
      }
    }
  }

  /** The first row under the query's order: `LIMIT 1`. */
  function First(rows: seq<Row>): (b: Row)
    requires rows != []
    ensures b in rows
    ensures forall i :: 0 <= i < |rows| ==> RankLe(b, rows[i])
  {
    if |rows| == 1 then rows[0]
    else
      var rest := First(rows[1..]);
      assert forall i :: 1 <= i < |rows| ==> rows[i] == rows[1..][i - 1];
      if RankLe(rows[0], rest) then
        forall i | 1 <= i < |rows|
          ensures RankLe(rows[0], rows[i])
        {
          RankTransitive(rows[0], rest, rows[i]);
        }
        rows[0]
      else
        RankTotal(rows[0], rest);
        rest
  }

  /** `resolve_stock_code`. The empty input, and only it, is reported as
      `EmptyId`; `FailsIffNoRule` says when any other input fails. */
  function Resolve(table: seq<Row>, corpId: string): (r: Result<string, ResolveError>)
    ensures corpId == [] <==> r == Failure(EmptyId)
  {
    if corpId == [] then Failure(EmptyId)
    else
      var s := Upper(Strip(corpId));
      var digits := DigitsOf(s);
      if digits != [] && CodeExists(table, Zfill(digits, 6)) then Success(Zfill(digits, 6))
      else
        var matches := Filter(table, (row: Row) => NameMatches(row, s));
        if matches != [] then Success(First(matches).stockCode)
        else if |s| == 6 && AllDigits(s) then Success(s)
        else Failure(Unresolved(corpId))
  }

  /** The normalised input the rules look at. */
  function Normalized(corpId: string): string {
    Upper(Strip(corpId))
  }

  /** Rule 1: when the input's digits, padded to six, name an existing
      code, that code is the answer and no name search happens. */
  lemma DigitsRuleFirst(table: seq<Row>, corpId: string)
    requires corpId != []
    requires var d := DigitsOf(Normalized(corpId)); d != [] && CodeExists(table, Zfill(d, 6))
    ensures Resolve(table, corpId) == Success(Zfill(DigitsOf(Normalized(corpId)), 6))
  {
  }

  /** Rule 2: otherwise, if some company name contains the input, the
      answer is the code of the matching row with the smallest name, the
      latest year among equal names. */
  lemma NameRuleSecond(table: seq<Row>, corpId: string)
    requires corpId != []
    requires var d := DigitsOf(Normalized(corpId)); !(d != [] && CodeExists(table, Zfill(d, 6)))
    requires exists i :: 0 <= i < |table| && NameMatches(table[i], Normalized(corpId))
    ensures Resolve(table, corpId).Success?
    ensures exists b :: b in table && NameMatches(b, Normalized(corpId))
              && Resolve(table, corpId).value == b.stockCode
              && forall i :: 0 <= i < |table| && NameMatches(table[i], Normalized(corpId)) ==> RankLe(b, table[i])
  {
    var s := Normalized(corpId);
    var matching := (row: Row) => NameMatches(row, s);
    var matches := Filter(table, matching);
    var i :| 0 <= i < |table| && NameMatches(table[i], s);
    FilterKeeps(table, matching, table[i]);
    var b := First(matches);
    forall j | 0 <= j < |table| && NameMatches(table[j], s)
      ensures RankLe(b, table[j])
    {
      FilterKeeps(table, matching, table[j]);
    }
  }

  /** Rule 3: six digits typed with no company name containing them
      resolve to themselves, through rule 1 when the code exists and
      through the fallback when it does not. */
  lemma SixDigitsResolveToThemselves(table: seq<Row>, corpId: string)
    requires corpId != []
    requires |Normalized(corpId)| == 6 && AllDigits(Normalized(corpId))
    requires forall i :: 0 <= i < |table| ==> !NameMatches(table[i], Normalized(corpId))
    ensures Resolve(table, corpId) == Success(Normalized(corpId))
  {
    var s := Normalized(corpId);
    AllDigitsFilter(s);
    assert Zfill(s, 6) == s;
  }

  /** The fallback only fires for codes the table does not hold: when the
      digit rule has not fired and no name matches, a success is the typed
      six digits themselves, and no row carries that code. */
  lemma FallbackCodeIsNotStored(table: seq<Row>, corpId: string)
    requires corpId != []
    requires var d := DigitsOf(Normalized(corpId)); !(d != [] && CodeExists(table, Zfill(d, 6)))
    requires forall i :: 0 <= i < |table| ==> !NameMatches(table[i], Normalized(corpId))
    requires Resolve(table, corpId).Success?
    ensures Resolve(table, corpId).value == Normalized(corpId)
    ensures !CodeExists(table, Resolve(table, corpId).value)
  {
    var s := Normalized(corpId);
    AllDigitsFilter(s);
    assert Zfill(s, 6) == s;
  }

  /** No rule applies to the normalised input `s`: its digits do not pad to
      a stored code, no company name contains it, and it is not six digits. */
  predicate NoRuleApplies(table: seq<Row>, s: string) {
    var d := DigitsOf(s);
    && !(d != [] && CodeExists(table, Zfill(d, 6)))
    && (forall i :: 0 <= i < |table| ==> !NameMatches(table[i], s))
    && !(|s| == 6 && AllDigits(s))
  }

  /** Resolution fails exactly when the input is empty or none of the three
      rules applies, and a non-empty input that fails is reported as
      unresolved. */
  lemma FailsIffNoRule(table: seq<Row>, corpId: string)
    ensures Resolve(table, corpId).Failure? <==> corpId == [] || NoRuleApplies(table, Normalized(corpId))
    ensures corpId != [] && NoRuleApplies(table, Normalized(corpId)) ==>
              Resolve(table, corpId) == Failure(Unresolved(corpId))
  {
    if corpId != [] {
      var s := Normalized(corpId);
      var matching := (row: Row) => NameMatches(row, s);
      var matches := Filter(table, matching);
      if exists i :: 0 <= i < |table| && NameMatches(table[i], s) {
        var i :| 0 <= i < |table| && NameMatches(table[i], s);
        FilterKeeps(table, matching, table[i]);
      }
    }
  }

  lemma {:induction false} AllDigitsFilter(s: string)
    requires AllDigits(s)
    ensures Filter(s, IsDigit) == s
  {
    if s != [] {
      AllDigitsFilter(s[1..]);
      assert s == [s[0]] + s[1..];
    }
  }

  /** Every answer is either a code some row carries or six digits typed
      by the user. */
  lemma ResolvedShape(table: seq<Row>, corpId: string)
    requires Resolve(table, corpId).Success?
    ensures CodeExists(table, Resolve(table, corpId).value)
            || (|Resolve(table, corpId).value| == 6 && AllDigits(Resolve(table, corpId).value))
  {
    var s := Normalized(corpId);
    var matches := Filter(table, (row: Row) => NameMatches(row, s));
    if matches != [] {
      var b := First(matches);
      assert b in table;
    }
  }
}
