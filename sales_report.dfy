/** The monthly sales report of backend/controllers/orderController.js
    (getMonthlySalesReport): one SQL statement that cuts every order of the
    month into at most ten (title, quantity) segments with SUBSTRING_INDEX,
    joins the trimmed title segments to the products by title, and sums per
    product the quantities and the quantities times the current retail
    price, largest total first. Money is in integer cents. */
module SalesReport {
  import opened Common
  import opened Schema
  import opened LineItems

  /** The derived table `numbers` holds 1 to 10. */
  const MaxSegments: nat := 10

  /** `SUBSTRING_INDEX(s, sep, n)` for n >= 1: everything before the n-th
      separator, all of s when it has fewer. */
  function SubstringIndexFront(s: string, sep: char, n: nat): string
    requires n >= 1
  {
    var pieces := Split(s, sep);
    JoinWith(pieces[..Min(n, |pieces|)], [sep])
  }

  /** `SUBSTRING_INDEX(s, sep, -1)`: everything after the last separator. */
  function SubstringIndexBack(s: string, sep: char): string {
    var pieces := Split(s, sep);
    pieces[|pieces| - 1]
  }

  /** The nested SUBSTRING_INDEX picks the n-th piece, or the last piece
      when there are fewer than n. */
  lemma SegmentIsPiece(s: string, sep: char, n: nat)
    requires n >= 1
    ensures var pieces := Split(s, sep);
      SubstringIndexBack(SubstringIndexFront(s, sep, n), sep) == pieces[Min(n, |pieces|) - 1]
  {
    var pieces := Split(s, sep);
    PrefixLastPiece(pieces, sep, Min(n, |pieces|));
  }

  /** The first m pieces, joined again: SUBSTRING_INDEX(.., -1) gives piece m. */
  lemma PrefixLastPiece(pieces: seq<string>, sep: char, m: nat)
    requires 1 <= m <= |pieces|
    requires forall k :: 0 <= k < |pieces| ==> sep !in pieces[k]
    ensures SubstringIndexBack(JoinWith(pieces[..m], [sep]), sep) == pieces[m - 1]
  {
    var xs := pieces[..m];
    assert forall k :: 0 <= k < |xs| ==> xs[k] == pieces[k];
    LastSplitPiece(xs, sep);
  }

  /** Pieces without the separator, joined with it: the last piece comes back. */
  lemma LastSplitPiece(xs: seq<string>, sep: char)
    requires |xs| >= 1
    requires forall k :: 0 <= k < |xs| ==> sep !in xs[k]
    ensures var back := Split(JoinWith(xs, [sep]), sep);
      |back| == |xs| && back[|xs| - 1] == xs[|xs| - 1]
  {
    assert [sep] + "" == [sep];
    SplitJoinPieces(xs, sep, "");
    var back := Split(JoinWith(xs, [sep]), sep);
    if |xs| > 1 {
      assert back[|xs| - 1] == "" + xs[|xs| - 1];
      assert "" + xs[|xs| - 1] == xs[|xs| - 1];
    }
  }

  /** MySQL's TRIM: leading and trailing spaces (and only spaces) removed. */
  function SqlTrimStart(s: string): (r: string)
    ensures |r| <= |s| && r == s[|s| - |r|..]
    ensures |r| == 0 || r[0] != ' '
  {
    if |s| > 0 && s[0] == ' ' then SqlTrimStart(s[1..]) else s
  }

  function SqlTrimEnd(s: string): (r: string)
    ensures |r| <= |s| && r == s[..|r|]
    ensures |r| == 0 || r[|r| - 1] != ' '
  {
    if |s| > 0 && s[|s| - 1] == ' ' then SqlTrimEnd(s[..|s| - 1]) else s
  }

  function SqlTrim(s: string): (r: string)
    ensures |r| == 0 || (r[0] != ' ' && r[|r| - 1] != ' ')
  {
    SqlTrimEnd(SqlTrimStart(s))
  }

  /** `CAST(s AS UNSIGNED)` for a string: leading spaces skipped, then the
      value of the longest run of decimal digits, 0 when there is none. */
  function CastUnsigned(s: string): (n: nat)
    ensures AllDigits(s) ==> n == DigitsValue(s)
    ensures var t := SqlTrimStart(s); |t| == 0 || !IsAsciiDigit(t[0]) ==> n == 0
  {
    DigitsValue(DigitPrefix(SqlTrimStart(s)))
  }

  /** The number of segments of an order the report reads: the WHERE clause
      keeps segment n while the title column has at least n - 1 commas, and
      the numbers stop at ten. */
  function SegmentCount(o: Order): (c: nat)
    ensures 1 <= c <= MaxSegments
    ensures c == Min(MaxSegments, |Split(o.productTitle, ',')|)
  {
    SplitCount(o.productTitle, ',');
    Min(MaxSegments, CountChar(o.productTitle, ',') + 1)
  }

  function TitleSegment(o: Order, n: nat): string
    requires n >= 1
  {
    SubstringIndexBack(SubstringIndexFront(o.productTitle, ',', n), ',')
  }

  function QuantitySegment(o: Order, n: nat): string
    requires n >= 1
  {
    SubstringIndexBack(SubstringIndexFront(o.quantity, ',', n), ',')
  }

  // ---- the period parameters ----

  /** A string parameter compared with an integer column is read as a
      number: leading spaces and tabs skipped, an optional sign, the digits
      of the integer part and an optional fraction after a '.'; text with no
      number in front reads as 0. The value is kept as its sign, its whole
      part and whether a non-zero digit follows the point. */
  datatype SqlNumber = SqlNumber(negative: bool, whole: nat, fractional: bool)

  function SkipBlanks(s: string): (r: string)
    ensures |r| <= |s| && r == s[|s| - |r|..]
    ensures |r| == 0 || (r[0] != ' ' && r[0] != '\t')
  {
    if |s| > 0 && (s[0] == ' ' || s[0] == '\t') then SkipBlanks(s[1..]) else s
  }

  predicate SomeNonZero(digits: string) {
    exists k :: 0 <= k < |digits| && digits[k] != '0'
  }

  function SqlNumberOf(s: string): SqlNumber {
    SignedNumber(SkipBlanks(s))
  }

  /** An optional '-' or '+' in front of the unsigned number. */
  function SignedNumber(t: string): SqlNumber {
    if |t| > 0 && (t[0] == '-' || t[0] == '+') then UnsignedNumber(t[1..]).(negative := t[0] == '-')
    else UnsignedNumber(t)
  }

  /** The digit prefix is the whole part; a fraction may follow. */
  function UnsignedNumber(u: string): SqlNumber {
    var whole := DigitPrefix(u);
    SqlNumber(false, DigitsValue(whole), SomeNonZero(FractionDigits(u[|whole|..])))
  }

  /** The digits after a leading '.', or none. */
  function FractionDigits(rest: string): string {
    if |rest| > 0 && rest[0] == '.' then DigitPrefix(rest[1..]) else ""
  }

  /** `n = ?` for an integer n: the double value of the parameter equals n
      exactly when it has no fractional part and the same signed whole part. */
  predicate SqlEquals(n: int, v: SqlNumber) {
    !v.fractional && n == (if v.negative then -(v.whole as int) else v.whole as int)
  }

  /** `MONTH(o.created_at) = ? AND YEAR(o.created_at) = ?`. */
  predicate InPeriod(o: Order, month: SqlNumber, year: SqlNumber) {
    SqlEquals(o.createdAt.month, month) && SqlEquals(o.createdAt.year, year)
  }

  /** The decimal text of an integer matches that integer and no other. */
  lemma ParameterOfDecimal(n: int)
    ensures SqlNumberOf(IntToDecimal(n)) == SqlNumber(n < 0, if n < 0 then -n else n, false)
    ensures forall m: int :: SqlEquals(m, SqlNumberOf(IntToDecimal(n))) <==> m == n
  {
    var d := NatToDecimal(if n < 0 then -n else n);
    if n < 0 {
      SignedDigitsParameter(d);
    } else {
      DigitsParameter(d);
    }
    DecimalValue(if n < 0 then -n else n);
  }

  /** Digits alone read as their value, without a fraction. */
  lemma DigitsNumber(d: string)
    requires AllDigits(d)
    ensures UnsignedNumber(d) == SqlNumber(false, DigitsValue(d), false)
  {
    assert DigitPrefix(d) == d;
    assert d[|d|..] == "";
  }

  /** A non-empty string of digits reads as its value, without a fraction. */
  lemma DigitsParameter(d: string)
    requires |d| >= 1 && AllDigits(d)
    ensures SqlNumberOf(d) == SqlNumber(false, DigitsValue(d), false)
  {
    assert IsAsciiDigit(d[0]);
    assert SkipBlanks(d) == d;
    assert SignedNumber(d) == UnsignedNumber(d);
    DigitsNumber(d);
  }

  /** A '-' followed by digits reads as the negative of their value. */
  lemma SignedDigitsParameter(d: string)
    requires |d| >= 1 && AllDigits(d)
    ensures SqlNumberOf("-" + d) == SqlNumber(true, DigitsValue(d), false)
  {
    var s := "-" + d;
    assert SkipBlanks(s) == s;
    assert s[1..] == d;
    DigitsNumber(d);
  }

  /** A '+' followed by digits reads as their value. */
  lemma PlusDigitsParameter(d: string)
    requires |d| >= 1 && AllDigits(d)
    ensures SqlNumberOf("+" + d) == SqlNumber(false, DigitsValue(d), false)
  {
    var s := "+" + d;
    assert SkipBlanks(s) == s;
    assert s[1..] == d;
    DigitsNumber(d);
  }

  /** A leading space or tab does not change the number read. */
  lemma BlankSkipped(s: string)
    requires |s| > 0 && (s[0] == ' ' || s[0] == '\t')
    ensures SqlNumberOf(s) == SqlNumberOf(s[1..])
  {
    assert SkipBlanks(s) == SkipBlanks(s[1..]);
  }

  /** Digits, a point and a fraction with a non-zero digit: the value is not
      an integer, so the parameter matches no month and no year. */
  lemma FractionMatchesNothing(whole: string, fraction: string)
    requires AllDigits(whole) && AllDigits(fraction) && SomeNonZero(fraction)
    ensures SqlNumberOf(whole + "." + fraction).fractional
    ensures forall m: int :: !SqlEquals(m, SqlNumberOf(whole + "." + fraction))
  {
    var rest := "." + fraction;
    var s := whole + rest;
    assert s == whole + "." + fraction;
    assert s[0] != ' ' && s[0] != '\t' && s[0] != '-' && s[0] != '+' by {
      if |whole| > 0 { assert s[0] == whole[0]; } else { assert s[0] == '.'; }
    }
    assert SkipBlanks(s) == s;
    assert SignedNumber(s) == UnsignedNumber(s);
    DigitPrefixStops(whole, rest);
    assert s[|whole|..] == rest;
    assert rest[1..] == fraction;
    assert FractionDigits(rest) == fraction;
  }

  /** The digit prefix of digits followed by a non-digit is those digits. */
  lemma {:induction false} DigitPrefixStops(digits: string, rest: string)
    requires AllDigits(digits) && |rest| > 0 && !IsAsciiDigit(rest[0])
    ensures DigitPrefix(digits + rest) == digits
  {
    if |digits| > 0 {
      DigitPrefixStops(digits[1..], rest);
      assert (digits + rest)[1..] == digits[1..] + rest;
      assert digits == [digits[0]] + digits[1..];
    } else {
      assert digits + rest == rest;
    }
  }

  /** A sign and leading blanks are read too: "+3" and "\t3" match March
      only, and "3.5" matches no month. */
  lemma ParameterExamples(m: int)
    ensures SqlEquals(m, SqlNumberOf("+3")) <==> m == 3
    ensures SqlEquals(m, SqlNumberOf("\t3")) <==> m == 3
    ensures !SqlEquals(m, SqlNumberOf("3.5"))
  {
    PlusThree();
    TabThree();
    PointFive();
  }

  lemma PointFive()
    ensures SqlNumberOf("3.5").fractional
  {
    var s := "3" + "." + "5";
    assert s == "3.5";
    assert "5"[0] != '0';
    FractionMatchesNothing("3", "5");
  }

  lemma PlusThree()
    ensures SqlNumberOf("+3") == SqlNumber(false, 3, false)
  {
    assert "+3" == "+" + "3";
    ThreeValue();
    PlusDigitsParameter("3");
  }

  lemma TabThree()
    ensures SqlNumberOf("\t3") == SqlNumber(false, 3, false)
  {
    assert "\t3"[1..] == "3";
    BlankSkipped("\t3");
    ThreeValue();
    DigitsParameter("3");
  }

  lemma ThreeValue()
    ensures AllDigits("3") && DigitsValue("3") == 3
  {
    assert "3"[..0] == "";
  }

  /** The trimmed title of each counted segment of an order, in order. */
  function SegmentTitles(o: Order): (r: seq<string>)
    ensures |r| == SegmentCount(o)
  {
    seq(SegmentCount(o), k requires 0 <= k => SegmentTitle(o, k + 1))
  }

  function SegmentTitle(o: Order, n: nat): string
    requires n >= 1
  {
    SqlTrim(TitleSegment(o, n))
  }

  /** The cast quantity of each counted segment. */
  function SegmentQuantities(o: Order): (r: seq<int>)
    ensures |r| == SegmentCount(o)
  {
    seq(SegmentCount(o), k requires 0 <= k => CastUnsigned(QuantitySegment(o, k + 1)))
  }

  /** A segment joins the product titled `title` when its trimmed title is
      `title`: one join per such segment, and its quantity. */
  function Joins(titles: seq<string>, title: string): (r: seq<int>)
    ensures |r| == |titles|
  {
    seq(|titles|, k requires 0 <= k < |titles| => if titles[k] == title then 1 else 0)
  }

  function JoinedQuantities(titles: seq<string>, qs: seq<int>, title: string): (r: seq<int>)
    requires |titles| == |qs|
    ensures |r| == |titles|
  {
    seq(|titles|, k requires 0 <= k < |titles| => if titles[k] == title then qs[k] else 0)
  }

  /** The joins and the quantities of one order's counted segments. */
  function OrderJoins(o: Order, title: string): (r: seq<int>)
    ensures |r| == SegmentCount(o)
  {
    Joins(SegmentTitles(o), title)
  }

  function OrderQuantities(o: Order, title: string): (r: seq<int>)
    ensures |r| == SegmentCount(o)
  {
    JoinedQuantities(SegmentTitles(o), SegmentQuantities(o), title)
  }

  /** The same for every order of the period, order after order. */
  function PeriodJoins(os: seq<Order>, title: string, month: SqlNumber, year: SqlNumber): seq<int> {
    if |os| == 0 then []
    else (if InPeriod(os[0], month, year) then OrderJoins(os[0], title) else []) + PeriodJoins(os[1..], title, month, year)
  }

  function PeriodQuantities(os: seq<Order>, title: string, month: SqlNumber, year: SqlNumber): seq<int> {
    if |os| == 0 then []
    else (if InPeriod(os[0], month, year) then OrderQuantities(os[0], title) else [])
         + PeriodQuantities(os[1..], title, month, year)
  }

  /** `SUM(x)` and `SUM(x * price)`. */
  function Sum(xs: seq<int>): int {
    if |xs| == 0 then 0 else xs[0] + Sum(xs[1..])
  }

  function ScaledSum(xs: seq<int>, price: int): int {
    if |xs| == 0 then 0 else xs[0] * price + ScaledSum(xs[1..], price)
  }

  /** The number of joined segments, `SUM(CAST(op.quantity AS UNSIGNED))`
      and `SUM(CAST(op.quantity AS UNSIGNED) * p.retailPrice)` for one
      product title. */
  function SoldMatches(os: seq<Order>, title: string, month: SqlNumber, year: SqlNumber): int {
    Sum(PeriodJoins(os, title, month, year))
  }

  function SoldQuantity(os: seq<Order>, title: string, month: SqlNumber, year: SqlNumber): int {
    Sum(PeriodQuantities(os, title, month, year))
  }

  function SoldTotal(os: seq<Order>, title: string, price: int, month: SqlNumber, year: SqlNumber): int {
    ScaledSum(PeriodQuantities(os, title, month, year), price)
  }

  /** One row of the report: productTitle, price, quantity, total. */
  datatype ReportRow = ReportRow(productTitle: string, price: int, quantity: int, total: int)

  function RowFor(os: seq<Order>, p: Product, month: SqlNumber, year: SqlNumber): ReportRow {
    ReportRow(p.title, p.retailPrice, SoldQuantity(os, p.title, month, year),
              SoldTotal(os, p.title, p.retailPrice, month, year))
  }

  /** `GROUP BY p.id` after the inner join: one row per product that at
      least one segment joined, in table order. */
  function GroupedRows(ps: seq<Product>, os: seq<Order>, month: SqlNumber, year: SqlNumber): (rows: seq<ReportRow>)
    ensures |rows| <= |ps|
  {
    if |ps| == 0 then []
    else (if SoldMatches(os, ps[0].title, month, year) > 0 then [RowFor(os, ps[0], month, year)] else [])
         + GroupedRows(ps[1..], os, month, year)
  }

  // ---- ORDER BY total DESC ----

  predicate SortedByTotal(rows: seq<ReportRow>) {
    forall i, j :: 0 <= i < j < |rows| ==> rows[i].total >= rows[j].total
  }

  function InsertByTotal(r: ReportRow, rows: seq<ReportRow>): (res: seq<ReportRow>)
    ensures |res| == |rows| + 1
  {
    if |rows| == 0 || r.total >= rows[0].total then [r] + rows
    else [rows[0]] + InsertByTotal(r, rows[1..])
  }

  /** A stable sort, largest total first; rows with equal totals keep their
      grouped order. */
  function SortByTotal(rows: seq<ReportRow>): (sorted: seq<ReportRow>)
    ensures |sorted| == |rows|
  {
    if |rows| == 0 then [] else InsertByTotal(rows[0], SortByTotal(rows[1..]))
  }

  lemma {:induction false} InsertByTotalPermutes(r: ReportRow, rows: seq<ReportRow>)
    ensures multiset(InsertByTotal(r, rows)) == multiset(rows) + multiset{r}
  {
    if |rows| > 0 && r.total < rows[0].total {
      InsertByTotalPermutes(r, rows[1..]);
      assert rows == [rows[0]] + rows[1..];
    }
  }

  predicate TotalsAtMost(rows: seq<ReportRow>, bound: int) {
    forall i :: 0 <= i < |rows| ==> rows[i].total <= bound
  }

  lemma {:induction false} InsertByTotalBounded(r: ReportRow, rows: seq<ReportRow>, bound: int)
    requires TotalsAtMost(rows, bound) && r.total <= bound
    ensures TotalsAtMost(InsertByTotal(r, rows), bound)
  {
    if |rows| > 0 && r.total < rows[0].total {
      InsertByTotalBounded(r, rows[1..], bound);
    }
  }

  lemma {:induction false} InsertByTotalSorted(r: ReportRow, rows: seq<ReportRow>)
    requires SortedByTotal(rows)
    ensures SortedByTotal(InsertByTotal(r, rows))
  {
    if |rows| > 0 && r.total < rows[0].total {
      var tail := rows[1..];
      InsertByTotalSorted(r, tail);
      InsertByTotalBounded(r, tail, rows[0].total);
      var ins := InsertByTotal(r, tail);
      var res := [rows[0]] + ins;
      forall i, j | 0 <= i < j < |res| ensures res[i].total >= res[j].total {
        if i == 0 {
          assert res[j] == ins[j - 1];
        } else {
          assert res[i] == ins[i - 1] && res[j] == ins[j - 1];
        }
      }
    }
  }

  /** The report order: sorted by total, descending, and a permutation of
      the grouped rows. */
  lemma {:induction false} SortByTotalCorrect(rows: seq<ReportRow>)
    ensures multiset(SortByTotal(rows)) == multiset(rows)
    ensures SortedByTotal(SortByTotal(rows))
  {
    if |rows| > 0 {
      SortByTotalCorrect(rows[1..]);
      InsertByTotalPermutes(rows[0], SortByTotal(rows[1..]));
      InsertByTotalSorted(rows[0], SortByTotal(rows[1..]));
      assert rows == [rows[0]] + rows[1..];
    }
  }

  // ---- the handler ----

  datatype ReportReply = PeriodRequired | ReportFailed(message: string) | Rows(rows: seq<ReportRow>)

  function ReportStatus(r: ReportReply): (code: nat)
    ensures code == 200 <==> r.Rows?
  {
    match r
    case PeriodRequired => 400
    case ReportFailed(_) => 500
    case Rows(_) => 200
  }

  /** getMonthlySalesReport(month, year): both query parameters are
      required (an empty string is falsy too); MySQL reads them as numbers
      (`SqlNumberOf`) to compare them with the month and year of
      created_at. A failing query
      answers with the driver's message. An empty result is the empty
      list, which is also what the formatting step makes of it. */
  function MonthlySalesReport(month: Option<string>, year: Option<string>, ps: seq<Product>, os: seq<Order>,
                              queryFails: bool, driverMessage: string): (reply: ReportReply)
    ensures reply.PeriodRequired? <==> month.None? || month == Some("") || year.None? || year == Some("")
    ensures reply.ReportFailed? <==> !reply.PeriodRequired? && queryFails
  {
    if month.None? || month.value == "" || year.None? || year.value == "" then PeriodRequired
    else if queryFails then ReportFailed("Failed to fetch sales report: " + driverMessage)
    else Rows(SortByTotal(GroupedRows(ps, os, SqlNumberOf(month.value), SqlNumberOf(year.value))))
  }

  // ---- what the report guarantees ----

  /** Without both parameters the reply is 400, whatever the tables hold. */
  lemma PeriodIsRequired(month: Option<string>, year: Option<string>, ps: seq<Product>, os: seq<Order>,
                         queryFails: bool, driverMessage: string)
    requires month.None? || year.None? || month == Some("") || year == Some("")
    ensures MonthlySalesReport(month, year, ps, os, queryFails, driverMessage) == PeriodRequired
    ensures ReportStatus(MonthlySalesReport(month, year, ps, os, queryFails, driverMessage)) == 400
  {
  }

  /** Each segment is charged at the product's current retail price, so a
      product's total is its price times its quantity. */
  lemma {:induction false} ScaledSumIsPriceTimesSum(xs: seq<int>, price: int)
    ensures ScaledSum(xs, price) == price * Sum(xs)
  {
    if |xs| > 0 {
      ScaledSumIsPriceTimesSum(xs[1..], price);
      Distribute(price, Sum(xs[1..]), xs[0]);
    }
  }

  lemma Distribute(p: int, a: int, b: int)
    ensures p * (a + b) == p * a + b * p
  {
  }

  lemma TotalIsPriceTimesQuantity(os: seq<Order>, title: string, price: int, month: SqlNumber, year: SqlNumber)
    ensures SoldTotal(os, title, price, month, year) == price * SoldQuantity(os, title, month, year)
  {
    ScaledSumIsPriceTimesSum(PeriodQuantities(os, title, month, year), price);
  }

  /** A product has a row exactly when some segment of the period joins it;
      every row carries its product's title and price, the summed quantity,
      and that quantity at the current price as total. */
  lemma {:induction false} GroupedRowsExact(ps: seq<Product>, os: seq<Order>, month: SqlNumber, year: SqlNumber)
    ensures forall j :: 0 <= j < |ps| && SoldMatches(os, ps[j].title, month, year) > 0 ==>
      RowFor(os, ps[j], month, year) in GroupedRows(ps, os, month, year)
    ensures forall r :: r in GroupedRows(ps, os, month, year) ==>
      && SoldMatches(os, r.productTitle, month, year) > 0
      && r.quantity == SoldQuantity(os, r.productTitle, month, year)
      && r.total == SoldTotal(os, r.productTitle, r.price, month, year)
      && exists j :: 0 <= j < |ps| && ps[j].title == r.productTitle && ps[j].retailPrice == r.price
  {
    if |ps| > 0 {
      GroupedRowsExact(ps[1..], os, month, year);
      var rest := GroupedRows(ps[1..], os, month, year);
      forall j | 0 <= j < |ps| && SoldMatches(os, ps[j].title, month, year) > 0
        ensures RowFor(os, ps[j], month, year) in GroupedRows(ps, os, month, year)
      {
        if j > 0 { assert ps[1..][j - 1] == ps[j]; }
      }
      forall r | r in GroupedRows(ps, os, month, year)
        ensures exists j :: 0 <= j < |ps| && ps[j].title == r.productTitle && ps[j].retailPrice == r.price
      {
        if r in rest {
          var j :| 0 <= j < |ps[1..]| && ps[1..][j].title == r.productTitle && ps[1..][j].retailPrice == r.price;
          assert ps[j + 1] == ps[1..][j];
        } else {
          assert ps[0].title == r.productTitle && ps[0].retailPrice == r.price;
        }
      }
    }
  }

  /** The rows of the report: sorted by total, largest first, and exactly
      the grouped rows, each product that sold in the period once. */
  lemma ReportRowsExact(month: string, year: string, ps: seq<Product>, os: seq<Order>, driverMessage: string)
    requires month != "" && year != ""
    ensures var reply := MonthlySalesReport(Some(month), Some(year), ps, os, false, driverMessage);
      var grouped := GroupedRows(ps, os, SqlNumberOf(month), SqlNumberOf(year));
      && reply.Rows?
      && SortedByTotal(reply.rows)
      && multiset(reply.rows) == multiset(grouped)
      && (forall r :: r in reply.rows ==> r.total == r.price * r.quantity)
  {
    var m, y := SqlNumberOf(month), SqlNumberOf(year);
    var grouped := GroupedRows(ps, os, m, y);
    SortByTotalCorrect(grouped);
    GroupedRowsExact(ps, os, m, y);
    var rows := SortByTotal(grouped);
    assert MonthlySalesReport(Some(month), Some(year), ps, os, false, driverMessage) == Rows(rows);
    forall r | r in rows ensures r.total == r.price * r.quantity {
      assert r in multiset(rows);
      assert r in grouped;
      TotalIsPriceTimesQuantity(os, r.productTitle, r.price, m, y);
    }
  }

  /** Orders outside the month and year are not counted: dropping them
      leaves every sum, and so the report, unchanged. */
  lemma {:induction false} OnlyPeriodCounts(os: seq<Order>, title: string, month: SqlNumber, year: SqlNumber)
    ensures var inPeriod := Filter(os, (o: Order) => InPeriod(o, month, year));
      && PeriodJoins(inPeriod, title, month, year) == PeriodJoins(os, title, month, year)
      && PeriodQuantities(inPeriod, title, month, year) == PeriodQuantities(os, title, month, year)
  {
    if |os| > 0 {
      OnlyPeriodCounts(os[1..], title, month, year);
      var p := (o: Order) => InPeriod(o, month, year);
      var f := Filter(os, p);
      if p(os[0]) {
        assert f[0] == os[0] && f[1..] == Filter(os[1..], p);
      } else {
        assert f == Filter(os[1..], p);
      }
    }
  }

  lemma {:induction false} OnlyPeriodRows(ps: seq<Product>, os: seq<Order>, month: SqlNumber, year: SqlNumber)
    ensures GroupedRows(ps, Filter(os, (o: Order) => InPeriod(o, month, year)), month, year)
         == GroupedRows(ps, os, month, year)
  {
    if |ps| > 0 {
      OnlyPeriodRows(ps[1..], os, month, year);
      OnlyPeriodCounts(os, ps[0].title, month, year);
    }
  }

  /** A period without orders gives the empty list. */
  lemma {:induction false} EmptyPeriodNoRows(ps: seq<Product>, os: seq<Order>, month: SqlNumber, year: SqlNumber)
    requires forall k :: 0 <= k < |os| ==> !InPeriod(os[k], month, year)
    ensures GroupedRows(ps, os, month, year) == []
  {
    if |ps| > 0 {
      EmptyPeriodNoRows(ps[1..], os, month, year);
      NoPeriodNoJoins(os, ps[0].title, month, year);
    }
  }

  lemma {:induction false} NoPeriodNoJoins(os: seq<Order>, title: string, month: SqlNumber, year: SqlNumber)
    requires forall k :: 0 <= k < |os| ==> !InPeriod(os[k], month, year)
    ensures PeriodJoins(os, title, month, year) == []
  {
    if |os| > 0 {
      assert forall k :: 0 <= k < |os| - 1 ==> os[1..][k] == os[k + 1];
      NoPeriodNoJoins(os[1..], title, month, year);
    }
  }

  // ---- the report reads what createOrder wrote ----

  lemma SqlTrimPadded(pad: string, t: string)
    requires pad == "" || pad == " "
    requires NoOuterSpace(t)
    ensures SqlTrim(pad + t) == t
  {
    assert SqlTrimStart(pad + t) == t by {
      if pad == " " {
        assert (pad + t)[1..] == t;
      } else {
        assert pad + t == t;
      }
    }
  }

  lemma CastOfDecimal(pad: string, q: nat)
    requires pad == "" || pad == " "
    ensures CastUnsigned(pad + IntToDecimal(q)) == q
  {
    var d := NatToDecimal(q);
    assert SqlTrimStart(pad + d) == d by {
      if pad == " " {
        assert (pad + d)[1..] == d;
      } else {
        assert pad + d == d;
      }
    }
    DecimalValue(q);
  }

  /** For an order whose lines createOrder joined from lists (titles without
      commas or outer whitespace, non-negative quantities), segment n of the
      report is line n: its trimmed title and its quantity read back. */
  lemma CreatedTitleSegment(o: Order, ts: seq<string>, k: nat)
    requires JoinedPieces(o.productTitle, ts)
    requires k < |ts| && NoOuterSpace(ts[k])
    ensures SqlTrim(TitleSegment(o, k + 1)) == ts[k]
  {
    var pad := if k == 0 then "" else " ";
    assert Split(o.productTitle, ',')[k] == pad + ts[k];
    SegmentIsPiece(o.productTitle, ',', k + 1);
    assert TitleSegment(o, k + 1) == pad + ts[k];
    SqlTrimPadded(pad, ts[k]);
  }

  lemma CreatedQuantitySegment(o: Order, texts: seq<string>, qs: seq<int>, k: nat)
    requires JoinedPieces(o.quantity, texts) && k < |texts| == |qs|
    requires qs[k] >= 0 && texts[k] == IntToDecimal(qs[k])
    ensures CastUnsigned(QuantitySegment(o, k + 1)) == qs[k]
  {
    var pad := if k == 0 then "" else " ";
    assert Split(o.quantity, ',')[k] == pad + IntToDecimal(qs[k]);
    SegmentIsPiece(o.quantity, ',', k + 1);
    assert QuantitySegment(o, k + 1) == pad + IntToDecimal(qs[k]);
    CastOfDecimal(pad, qs[k]);
  }

  /** Such an order has one counted segment per line up to the tenth: the
      lines past the tenth are not counted. */
  lemma CreatedOrderSegmentCount(o: Order, ts: seq<string>)
    requires JoinedPieces(o.productTitle, ts)
    ensures SegmentCount(o) == Min(MaxSegments, |ts|)
  {
  }

  lemma SegmentTitleAt(o: Order, k: nat)
    requires k < SegmentCount(o)
    ensures SegmentTitles(o)[k] == SegmentTitle(o, k + 1)
  {
    var f := k requires 0 <= k => SegmentTitle(o, k + 1);
    assert SegmentTitles(o) == seq(SegmentCount(o), f);
    assert f(k) == SegmentTitle(o, k + 1);
  }

  lemma CreatedTitleAt(o: Order, ts: seq<string>, k: nat)
    requires JoinedPieces(o.productTitle, ts) && k < SegmentCount(o) && k < |ts|
    requires NoOuterSpace(ts[k])
    ensures SegmentTitles(o)[k] == ts[k]
  {
    SegmentTitleAt(o, k);
    CreatedTitleSegment(o, ts, k);
  }

  /** The counted segments of such an order are its first lines: their
      trimmed titles ... */
  lemma CreatedOrderTitles(o: Order, ts: seq<string>)
    requires JoinedPieces(o.productTitle, ts)
    requires forall k :: 0 <= k < |ts| ==> NoOuterSpace(ts[k])
    ensures SegmentCount(o) <= |ts| && SegmentTitles(o) == ts[..SegmentCount(o)]
  {
    var m := SegmentCount(o);
    forall k | 0 <= k < m ensures SegmentTitles(o)[k] == ts[k] {
      CreatedTitleAt(o, ts, k);
    }
  }

  lemma SegmentQuantityAt(o: Order, k: nat)
    requires k < SegmentCount(o)
    ensures SegmentQuantities(o)[k] == CastUnsigned(QuantitySegment(o, k + 1))
  {
  }

  lemma CreatedQuantityAt(o: Order, texts: seq<string>, qs: seq<int>, k: nat)
    requires JoinedPieces(o.quantity, texts) && k < SegmentCount(o) <= |qs| == |texts|
    requires qs[k] >= 0 && texts[k] == IntToDecimal(qs[k])
    ensures SegmentQuantities(o)[k] == qs[k]
  {
    SegmentQuantityAt(o, k);
    CreatedQuantitySegment(o, texts, qs, k);
  }

  /** ... and their quantities read back. */
  lemma CreatedOrderQuantities(o: Order, texts: seq<string>, qs: seq<int>)
    requires JoinedPieces(o.quantity, texts) && SegmentCount(o) <= |qs| == |texts|
    requires forall k :: 0 <= k < |qs| ==> qs[k] >= 0 && texts[k] == IntToDecimal(qs[k])
    ensures SegmentQuantities(o) == qs[..SegmentCount(o)]
  {
    var m := SegmentCount(o);
    forall k | 0 <= k < m ensures SegmentQuantities(o)[k] == qs[k] {
      CreatedQuantityAt(o, texts, qs, k);
    }
  }

  /** The counted segments of such an order join and count like its first
      ten lines. */
  lemma CreatedOrderCounted(o: Order, ts: seq<string>, qs: seq<int>, title: string)
    requires |ts| == |qs| >= 1
    requires forall k :: 0 <= k < |ts| ==> EncodableTitle(ts[k]) && qs[k] >= 0
    requires o.productTitle == EncodeTitles(ts) && o.quantity == EncodeQuantities(Present(qs))
    ensures SegmentCount(o) == Min(MaxSegments, |ts|)
    ensures OrderJoins(o, title) == Joins(ts[..SegmentCount(o)], title)
    ensures OrderQuantities(o, title) == JoinedQuantities(ts[..SegmentCount(o)], qs[..SegmentCount(o)], title)
  {
    TitlesColumn(ts);
    QuantitiesColumn(qs);
    CreatedOrderSegmentCount(o, ts);
    CreatedOrderTitles(o, ts);
    CreatedOrderQuantities(o, QuantityTexts(Present(qs)), qs);
  }
}
