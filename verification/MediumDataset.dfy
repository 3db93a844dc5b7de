/** The deterministic medium data set (tools/run_step37_performance.py, `_medium_dataset`) and the
    oracle it has to satisfy at every size (`validate_medium`). */
module MediumDataset {
  import opened Text

  const CUSTOMERS: nat := 25
  const PRODUCTS: nat := 50
  const BRANCHES: nat := 8

  /** An order: its number and the dimension rows it refers to. */
  datatype Order = Order(index: nat, customer: nat, branch: nat, day: nat)

  datatype Line = Line(order: nat, sequence: nat, product: nat, customer: nat, branch: nat, day: nat,
                       quantity: nat, unitPrice: nat)

  /** Quotient and remainder by a positive number. */
  function Quotient(a: nat, m: nat): nat
    requires m > 0
  {
    a / m
  }

  function Remainder(a: nat, m: nat): (r: nat)
    requires m > 0
    ensures r < m
  {
    a % m
  }

  function OrderCount(rows: nat): (m: nat)
    ensures m >= 1000
  {
    if rows / 100 > 1000 then rows / 100 else 1000
  }

  function MakeOrder(index: nat): Order { Order(index, index % CUSTOMERS, index % BRANCHES, index % 30) }

  function MakeOrders(rows: nat): seq<Order> { seq(OrderCount(rows), i requires 0 <= i => MakeOrder(i)) }

  /** The line at position `index` when there are `orders` orders. */
  function LineAt(index: nat, orders: nat): Line
    requires orders > 0
  {
    var o := MakeOrder(Remainder(index, orders));
    Line(o.index, Quotient(index, orders) + 1, index % PRODUCTS, o.customer, o.branch, o.day, index % 5 + 1,
         10 + index % 17)
  }

  method MakeLines(rows: nat) returns (lines: seq<Line>)
    ensures |lines| == rows && forall i | 0 <= i < rows :: lines[i] == LineAt(i, OrderCount(rows))
  {
    lines := [];
    var orders := MakeOrders(rows);
    for index := 0 to rows
      invariant |lines| == index && forall i | 0 <= i < index :: lines[i] == LineAt(i, OrderCount(rows))
    {
      var orderIndex := Remainder(index, |orders|);
      var sequence := Quotient(index, |orders|) + 1;
      var o := orders[orderIndex];
      lines := lines + [Line(orderIndex, sequence, index % PRODUCTS, o.customer, o.branch, o.day,
                             index % 5 + 1, 10 + index % 17)];
    }
  }

  // ---------------------------------------------------------------- the grain

  lemma DivMod(a: nat, m: nat)
    requires m > 0
    ensures a == m * Quotient(a, m) + Remainder(a, m)
  {}

  lemma {:induction false} NextMultiple(p: nat, q: nat, m: nat)
    requires p < q
    ensures m * p + m <= m * q
    decreases q
  {
    if p + 1 < q { NextMultiple(p, q - 1, m); }
    assert m * q == m * (q - 1) + m;
  }

  lemma DivModUnique(q: nat, r: nat, m: nat)
    requires r < m
    ensures Quotient(m * q + r, m) == q && Remainder(m * q + r, m) == r
  {
    var a := m * q + r;
    DivMod(a, m);
    if Quotient(a, m) < q { NextMultiple(Quotient(a, m), q, m); }
    if Quotient(a, m) > q { NextMultiple(q, Quotient(a, m), m); }
  }

  /** The text key of the grain: the order's event id, a colon, and the line sequence. */
  function GrainText(l: Line): string { "medium-order-" + Decimal(l.order) + [':'] + Decimal(l.sequence) }

  /** No two lines share a grain key. */
  lemma GrainUnique(i: nat, j: nat, m: nat)
    requires m > 0 && GrainText(LineAt(i, m)) == GrainText(LineAt(j, m))
    ensures i == j
  {
    var a, b, p := LineAt(i, m), LineAt(j, m), "medium-order-";
    JoinInjective(p + Decimal(a.order), a.sequence, p + Decimal(b.order), b.sequence, ':');
    assert Decimal(a.order) == (p + Decimal(a.order))[|p|..] && Decimal(b.order) == (p + Decimal(b.order))[|p|..];
    DecimalInjective(a.order, b.order);
    DivMod(i, m);
    DivMod(j, m);
  }

  /** How many lines the first `n` positions give order `k`: counts differ by at most one. */
  function LinesOf(n: nat, m: nat, k: nat): nat
    requires m > 0
  {
    Quotient(n, m) + (if k < Remainder(n, m) then 1 else 0)
  }

  /** The sequences of every order are exactly 1 up to its number of lines. */
  lemma SequencesContiguous(n: nat, m: nat, k: nat, s: nat)
    requires k < m
    ensures (exists i | 0 <= i < n :: LineAt(i, m).order == k && LineAt(i, m).sequence == s)
       <==> 1 <= s <= LinesOf(n, m, k)
  {
    if i :| 0 <= i < n && LineAt(i, m).order == k && LineAt(i, m).sequence == s {
      SequenceBound(i, n, m);
    }
    if 1 <= s <= LinesOf(n, m, k) {
      var i := m * (s - 1) + k;
      DivModUnique(s - 1, k, m);
      PositionBound(n, m, k, s);
      assert LineAt(i, m).order == k && LineAt(i, m).sequence == s;
    }
  }

  lemma SequenceBound(i: nat, n: nat, m: nat)
    requires i < n && m > 0
    ensures Quotient(i, m) + 1 <= LinesOf(n, m, Remainder(i, m))
  {
    DivMod(i, m);
    DivMod(n, m);
    if Quotient(i, m) > Quotient(n, m) { NextMultiple(Quotient(n, m), Quotient(i, m), m); }
  }

  lemma PositionBound(n: nat, m: nat, k: nat, s: nat)
    requires k < m && 1 <= s <= LinesOf(n, m, k)
    ensures m * (s - 1) + k < n
  {
    DivMod(n, m);
    if s <= Quotient(n, m) { NextMultiple(s - 1, Quotient(n, m), m); }
  }

  // ---------------------------------------------------------------- references and totals

  /** Every reference of a line is an emitted dimension row, and it is the order's own. */
  lemma ReferencesResolve(i: nat, rows: nat)
    ensures var l := LineAt(i, OrderCount(rows));
            && l.order < |MakeOrders(rows)| && l.product < PRODUCTS && l.customer < CUSTOMERS && l.branch < BRANCHES
            && var o := MakeOrders(rows)[l.order];
               o.index == l.order && o.customer == l.customer && o.branch == l.branch && o.day == l.day
  {}

  function Total(lines: seq<Line>): nat {
    if lines == [] then 0 else Total(lines[..|lines| - 1]) + lines[|lines| - 1].quantity
  }

  /** The closed form of the quantity total. */
  lemma {:induction false} QuantityTotal(lines: seq<Line>, m: nat)
    requires m > 0 && forall i | 0 <= i < |lines| :: lines[i] == LineAt(i, m)
    ensures var n, r := |lines|, |lines| % 5; Total(lines) == 15 * (n / 5) + r * (r + 1) / 2
  {
    if lines != [] {
      var n := |lines| - 1;
      QuantityTotal(lines[..n], m);
      assert lines[n].quantity == n % 5 + 1;
      ClosedFormStep(n);
    }
  }

  lemma ClosedFormStep(n: nat)
    ensures 15 * ((n + 1) / 5) + (n + 1) % 5 * ((n + 1) % 5 + 1) / 2
         == 15 * (n / 5) + n % 5 * (n % 5 + 1) / 2 + n % 5 + 1
  {
    var q, r := n / 5, n % 5;
    if r == 4 {
      assert (n + 1) / 5 == q + 1 && (n + 1) % 5 == 0;
    } else {
      assert (n + 1) / 5 == q && (n + 1) % 5 == r + 1;
      assert r == 0 || r == 1 || r == 2 || r == 3;
    }
  }

  // ---------------------------------------------------------------- the oracle

  function Keys(lines: seq<Line>): set<string> { set l | l in lines :: GrainText(l) }

  /** COUNT(*) - COUNT(DISTINCT grain). */
  function DuplicateGrain(lines: seq<Line>): int { |lines| - |Keys(lines)| }

  /** The rows of the date dimension: the compiler derives them from the dates of the facts. */
  function DateRows(lines: seq<Line>): set<nat> { set l | l in lines :: l.day }

  /** The lines for which one of the four dimension joins finds no row. */
  function Unresolved(lines: seq<Line>): set<int> {
    set i | 0 <= i < |lines| &&
            !( && lines[i].customer < CUSTOMERS && lines[i].product < PRODUCTS && lines[i].branch < BRANCHES
               && lines[i].day in DateRows(lines))
  }

  function ExpectedTotal(rows: nat): nat { if rows == 0 then 0 else ExpectedTotal(rows - 1) + ((rows - 1) % 5 + 1) }

  datatype Verdict = Passed | Failed | Raised

  /** The verdict on the materialised lines.  The SUM of no rows is NULL, which the oracle cannot
      convert to a number. */
  function Oracle(lines: seq<Line>, rows: nat): Verdict {
    if lines == [] then Raised
    else if |lines| == rows && Total(lines) == ExpectedTotal(rows)
            && Unresolved(lines) == {} && DuplicateGrain(lines) == 0
    then Passed
    else Failed
  }

  ghost predicate Generated(lines: seq<Line>, m: nat)
    requires m > 0
  {
    forall i | 0 <= i < |lines| :: lines[i] == LineAt(i, m)
  }

  lemma KeyIsNew(lines: seq<Line>, m: nat, n: nat)
    requires m > 0 && n < |lines| && Generated(lines, m)
    ensures Generated(lines[..n], m) && GrainText(lines[n]) !in Keys(lines[..n])
  {
    forall i | 0 <= i < n ensures GrainText(lines[i]) != GrainText(lines[n]) {
      if GrainText(lines[i]) == GrainText(lines[n]) { GrainUnique(i, n, m); }
    }
  }

  lemma KeysSnoc(lines: seq<Line>, last: Line)
    ensures Keys(lines + [last]) == Keys(lines) + {GrainText(last)}
  {}

  lemma NewKeyCounts(lines: seq<Line>, last: Line)
    requires GrainText(last) !in Keys(lines)
    ensures |Keys(lines + [last])| == |Keys(lines)| + 1
  {
    KeysSnoc(lines, last);
  }

  lemma {:induction false} KeysCount(lines: seq<Line>, m: nat)
    requires m > 0 && Generated(lines, m)
    ensures |Keys(lines)| == |lines|
  {
    if lines != [] {
      var n := |lines| - 1;
      KeyIsNew(lines, m, n);
      KeysCount(lines[..n], m);
      NewKeyCounts(lines[..n], lines[n]);
      assert lines == lines[..n] + [lines[n]];
    }
  }

  lemma {:induction false} TotalIsExpected(lines: seq<Line>, m: nat)
    requires m > 0 && forall i | 0 <= i < |lines| :: lines[i] == LineAt(i, m)
    ensures Total(lines) == ExpectedTotal(|lines|)
  {
    if lines != [] { TotalIsExpected(lines[..|lines| - 1], m); }
  }

  /** At every size but zero, where the oracle raises, the generated lines satisfy it. */
  lemma GeneratedPassesOracle(lines: seq<Line>, rows: nat)
    requires |lines| == rows && forall i | 0 <= i < rows :: lines[i] == LineAt(i, OrderCount(rows))
    ensures Oracle(lines, rows) == if rows == 0 then Raised else Passed
  {
    KeysCount(lines, OrderCount(rows));
    TotalIsExpected(lines, OrderCount(rows));
    forall i | 0 <= i < |lines| ensures i !in Unresolved(lines) { ReferencesResolve(i, rows); }
  }

  // ---------------------------------------------------------------- how the data is spread

  /** Near lines and orders differ: any 50 consecutive lines name 50 products, any 25 consecutive orders 25
      customers, any 8 of them 8 branches and any 30 of them 30 days; prices repeat after 17 lines. */
  lemma NeighboursDiffer(i: nat, j: nat, m: nat)
    requires m > 0 && i < j
    ensures j - i < 50 ==> LineAt(i, m).product != LineAt(j, m).product
    ensures j - i < 25 ==> MakeOrder(i).customer != MakeOrder(j).customer
    ensures j - i < 8 ==> MakeOrder(i).branch != MakeOrder(j).branch
    ensures j - i < 30 ==> MakeOrder(i).day != MakeOrder(j).day
    ensures j - i < 17 ==> LineAt(i, m).unitPrice != LineAt(j, m).unitPrice
    ensures 10 <= LineAt(i, m).unitPrice <= 26
  {
    if j - i < 50 { RemaindersDiffer(i, j, 50); }
    if j - i < 25 { RemaindersDiffer(i, j, 25); }
    if j - i < 8 { RemaindersDiffer(i, j, 8); }
    if j - i < 30 { RemaindersDiffer(i, j, 30); }
    if j - i < 17 { RemaindersDiffer(i, j, 17); }
  }

  lemma RemaindersDiffer(i: nat, j: nat, c: nat)
    requires i < j < i + c
    ensures i % c != j % c
  {
    DivMod(i, c);
    DivMod(j, c);
    var p, q := Quotient(i, c), Quotient(j, c);
    if p < q { NextMultiple(p, q, c); }
    if q < p { NextMultiple(q, p, c); }
  }

  /** Every order has 100 or 101 lines once there are 100000 lines, and at most 100 before. */
  lemma LinesPerOrder(rows: nat, k: nat)
    requires k < OrderCount(rows)
    ensures if rows >= 100000 then 100 <= LinesOf(rows, OrderCount(rows), k) <= 101
            else LinesOf(rows, OrderCount(rows), k) <= 100
  {
    var m := OrderCount(rows);
    DivMod(rows, m);
    var q := Quotient(rows, m);
    if rows >= 100000 {
      assert 100 * m <= rows < 100 * m + 100 <= 101 * m;
      if q < 100 { NextMultiple(q, 100, m); }
      if q > 100 { NextMultiple(100, q, m); }
    }
  }

  // ---------------------------------------------------------------- what the oracle accepts

  lemma {:induction false} ExpectedExactly(rows: nat)
    ensures ExpectedTotal(rows) == 15 * (rows / 5) + rows % 5 * (rows % 5 + 1) / 2
  {
    if rows > 0 {
      ExpectedExactly(rows - 1);
      ClosedFormStep(rows - 1);
    }
  }

  lemma DistinctStep(init: seq<Line>, last: Line)
    ensures DistinctGrain(init + [last]) <==> DistinctGrain(init) && GrainText(last) !in Keys(init)
  {
    var lines, n := init + [last], |init|;
    if DistinctGrain(lines) {
      forall i, j | 0 <= i < j < n ensures GrainText(init[i]) != GrainText(init[j]) {
        assert lines[i] == init[i] && lines[j] == init[j];
      }
      forall i | 0 <= i < n ensures GrainText(init[i]) != GrainText(last) {
        assert lines[i] == init[i] && lines[n] == last;
      }
    }
    if DistinctGrain(init) && GrainText(last) !in Keys(init) {
      forall i, j | 0 <= i < j < |lines| ensures GrainText(lines[i]) != GrainText(lines[j]) {
        assert lines[i] == init[i] && init[i] in init;
        if j < n { assert lines[j] == init[j]; }
      }
    }
  }

  lemma KeySnocSize(init: seq<Line>, last: Line)
    ensures |Keys(init + [last])| == |Keys(init)| + (if GrainText(last) in Keys(init) then 0 else 1)
  {
    KeysSnoc(init, last);
    if GrainText(last) in Keys(init) { assert Keys(init + [last]) == Keys(init); }
  }

  lemma {:induction false} TooFewKeys(lines: seq<Line>)
    ensures |Keys(lines)| <= |lines|
    ensures |Keys(lines)| == |lines| <==> DistinctGrain(lines)
  {
    if lines != [] {
      var n := |lines| - 1;
      TooFewKeys(lines[..n]);
      assert lines == lines[..n] + [lines[n]];
      KeySnocSize(lines[..n], lines[n]);
      DistinctStep(lines[..n], lines[n]);
    }
  }

  ghost predicate DistinctGrain(lines: seq<Line>) {
    forall i, j | 0 <= i < j < |lines| :: GrainText(lines[i]) != GrainText(lines[j])
  }

  /** The oracle passes exactly a nonempty table with the requested number of lines and the expected quantity
      total, in which every line finds its customer, product and branch and no two lines share a grain. */
  lemma OracleExactly(lines: seq<Line>, rows: nat)
    ensures Oracle(lines, rows) == Passed
       <==> && lines != [] && |lines| == rows && DistinctGrain(lines)
            && Total(lines) == 15 * (rows / 5) + rows % 5 * (rows % 5 + 1) / 2
            && forall l | l in lines :: l.customer < 25 && l.product < 50 && l.branch < 8
    ensures Oracle(lines, rows) == Raised <==> lines == []
  {
    ExpectedExactly(rows);
    TooFewKeys(lines);
    forall i | 0 <= i < |lines| ensures lines[i].day in DateRows(lines) { assert lines[i] in lines; }
    if forall l | l in lines :: l.customer < 25 && l.product < 50 && l.branch < 8 {
      forall i ensures i !in Unresolved(lines) {}
    }
    if Unresolved(lines) == {} {
      forall l | l in lines ensures l.customer < 25 && l.product < 50 && l.branch < 8 {
        var i :| 0 <= i < |lines| && lines[i] == l;
        assert i !in Unresolved(lines);
      }
    }
  }

  lemma GrainTexts(m: nat)
    requires m > 12
    ensures GrainText(LineAt(0, m)) == "medium-order-0:1" && GrainText(LineAt(12, m)) == "medium-order-12:1"
  {
    assert Decimal(0) == "0" && Decimal(1) == "1";
    assert Decimal(12) == "12";
    DivModUnique(0, 0, m);
    DivModUnique(0, 12, m);
  }
}
