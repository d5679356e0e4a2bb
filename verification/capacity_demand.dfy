/** A Capacity Check's demand: each Mod Root's estimated bytes, summed without wrapping. */
module CapacityDemand {
  const U64_MAX: nat := 0xFFFF_FFFF_FFFF_FFFF

  type U64 = n: nat | n <= U64_MAX

  /** One estimate for one Mod Root. */
  datatype Estimate = Estimate(root: string, bytes: U64)

  datatype Row = Row(root: string, bytes: U64)

  function Sat(n: nat): U64 {
    if n <= U64_MAX then n else U64_MAX
  }

  // The true sums.

  function Total(estimates: seq<Estimate>): nat {
    if estimates == [] then 0 else Total(estimates[..|estimates| - 1]) + estimates[|estimates| - 1].bytes
  }

  /** The bytes estimated for the roots that `on` holds of. */
  function Where(estimates: seq<Estimate>, on: string -> bool): nat {
    if estimates == [] then 0
    else
      var last := estimates[|estimates| - 1];
      Where(estimates[..|estimates| - 1], on) + if on(last.root) then last.bytes else 0
  }

  function At(estimates: seq<Estimate>, root: string): nat {
    if estimates == [] then 0
    else
      var last := estimates[|estimates| - 1];
      At(estimates[..|estimates| - 1], root) + if last.root == root then last.bytes else 0
  }

  lemma {:induction false} AtIsWhere(estimates: seq<Estimate>, root: string)
    ensures At(estimates, root) == Where(estimates, other => other == root)
  {
    if estimates != [] { AtIsWhere(estimates[..|estimates| - 1], root); }
  }

  /** The roots in the order they were first added. */
  function Order(estimates: seq<Estimate>): seq<string> {
    if estimates == [] then []
    else
      var before := Order(estimates[..|estimates| - 1]);
      if estimates[|estimates| - 1].root in before then before else before + [estimates[|estimates| - 1].root]
  }

  /** Each root with its true sum, clamped. */
  function Rows(roots: seq<string>, estimates: seq<Estimate>): (rows: seq<Row>)
    ensures |rows| == |roots|
  {
    if roots == [] then []
    else Rows(roots[..|roots| - 1], estimates)
         + [Row(roots[|roots| - 1], Sat(At(estimates, roots[|roots| - 1])))]
  }

  lemma {:induction false} RowAt(roots: seq<string>, estimates: seq<Estimate>)
    ensures forall i :: 0 <= i < |roots| ==> Rows(roots, estimates)[i] == Row(roots[i], Sat(At(estimates, roots[i])))
  {
    if roots != [] {
      var rest := roots[..|roots| - 1];
      RowAt(rest, estimates);
      assert forall i :: 0 <= i < |rest| ==>
               Rows(roots, estimates)[i] == Rows(rest, estimates)[i] && roots[i] == rest[i];
    }
  }

  lemma {:induction false} WhereOfAppend(a: seq<Estimate>, b: seq<Estimate>, on: string -> bool)
    ensures Where(a + b, on) == Where(a, on) + Where(b, on) && Total(a + b) == Total(a) + Total(b)
    decreases |b|
  {
    if b == [] {
      assert a + b == a;
    } else {
      assert (a + b)[..|a + b| - 1] == a + b[..|b| - 1];
      WhereOfAppend(a, b[..|b| - 1], on);
    }
  }

  lemma {:induction false} WithoutOne(rest: seq<Estimate>, last: Estimate, b: seq<Estimate>, k: nat)
    requires k < |b| && b[k] == last && multiset(rest + [last]) == multiset(b)
    ensures multiset(rest) == multiset(b[..k] + b[k + 1..])
  {
    assert b == b[..k] + [last] + b[k + 1..];
    assert multiset(b[..k] + b[k + 1..]) == multiset(b[..k]) + multiset(b[k + 1..]);
    assert multiset(b) == multiset(b[..k] + b[k + 1..]) + multiset{last};
    assert multiset(rest + [last]) == multiset(rest) + multiset{last};
    assert multiset(rest) == multiset(b) - multiset{last};
  }

  /** The sums do not depend on the order of the additions. */
  lemma {:induction false} SumsIgnoreOrder(a: seq<Estimate>, b: seq<Estimate>, on: string -> bool)
    requires multiset(a) == multiset(b)
    ensures Where(a, on) == Where(b, on) && Total(a) == Total(b)
    decreases |a|
  {
    if a == [] {
      assert |b| == |multiset(b)| == 0;
    } else {
      var last, rest := a[|a| - 1], a[..|a| - 1];
      assert a == rest + [last];
      assert last in multiset(b);
      var k :| 0 <= k < |b| && b[k] == last;
      WithoutOne(rest, last, b, k);
      assert b == b[..k] + ([b[k]] + b[k + 1..]);
      SumsIgnoreOrder(rest, b[..k] + b[k + 1..], on);
      WhereOfAppend(b[..k], [b[k]] + b[k + 1..], on);
      WhereOfAppend([b[k]], b[k + 1..], on);
      WhereOfAppend(b[..k], b[k + 1..], on);
    }
  }

  lemma {:induction false} DemandIgnoresOrder(a: seq<Estimate>, b: seq<Estimate>, root: string)
    requires multiset(a) == multiset(b)
    ensures Sat(Total(a)) == Sat(Total(b)) && Sat(At(a, root)) == Sat(At(b, root))
  {
    SumsIgnoreOrder(a, b, other => other == root);
    AtIsWhere(a, root);
    AtIsWhere(b, root);
  }

  lemma {:induction false} WhereIsMonotone(estimates: seq<Estimate>, on: string -> bool, more: string -> bool)
    requires forall i :: 0 <= i < |estimates| && estimates[i].bytes > 0 && on(estimates[i].root) ==>
               more(estimates[i].root)
    ensures Where(estimates, on) <= Where(estimates, more) <= Total(estimates)
  {
    if estimates != [] {
      assert forall i :: 0 <= i < |estimates| - 1 ==> estimates[..|estimates| - 1][i] == estimates[i];
      WhereIsMonotone(estimates[..|estimates| - 1], on, more);
    }
  }

  // Grouping rows.

  /** The rows' bytes, for the roots that `on` holds of. */
  function Grouped(rows: seq<Row>, on: string -> bool): nat {
    if rows == [] then 0
    else Grouped(rows[..|rows| - 1], on) + if on(rows[|rows| - 1].root) then rows[|rows| - 1].bytes else 0
  }

  function TrueGrouped(roots: seq<string>, estimates: seq<Estimate>, on: string -> bool): nat {
    if roots == [] then 0
    else
      var last := roots[|roots| - 1];
      TrueGrouped(roots[..|roots| - 1], estimates, on) + if on(last) then At(estimates, last) else 0
  }

  lemma {:induction false} ClampedSum(roots: seq<string>, estimates: seq<Estimate>, on: string -> bool)
    ensures Sat(Grouped(Rows(roots, estimates), on)) == Sat(TrueGrouped(roots, estimates, on))
  {
    if roots != [] {
      ClampedSum(roots[..|roots| - 1], estimates, on);
      assert Rows(roots, estimates)[..|roots| - 1] == Rows(roots[..|roots| - 1], estimates);
    }
  }

  ghost predicate Distinct(roots: seq<string>) {
    forall i, j :: 0 <= i < j < |roots| ==> roots[i] != roots[j]
  }

  lemma {:induction false} OrderIsDistinct(estimates: seq<Estimate>)
    ensures Distinct(Order(estimates))
    ensures forall root :: root in Order(estimates) <==> exists i :: 0 <= i < |estimates| && estimates[i].root == root
  {
    if estimates != [] {
      OrderIsDistinct(estimates[..|estimates| - 1]);
      assert forall i :: 0 <= i < |estimates| - 1 ==> estimates[..|estimates| - 1][i] == estimates[i];
    }
  }

  lemma {:induction false} OrderHasNoRepeats(estimates: seq<Estimate>)
    ensures Distinct(Order(estimates))
  {
    OrderIsDistinct(estimates);
  }

  lemma {:induction false} AtOfOneMore(estimates: seq<Estimate>, estimate: Estimate, root: string)
    ensures At(estimates + [estimate], root)
         == At(estimates, root) + if estimate.root == root then estimate.bytes else 0
  {
    assert (estimates + [estimate])[..|estimates|] == estimates;
  }

  lemma {:induction false} GroupOfOneMore(roots: seq<string>, estimates: seq<Estimate>, estimate: Estimate,
                                          on: string -> bool)
    requires Distinct(roots)
    ensures TrueGrouped(roots, estimates + [estimate], on)
         == TrueGrouped(roots, estimates, on)
            + if estimate.root in roots && on(estimate.root) then estimate.bytes else 0
  {
    if roots != [] {
      var last, rest := roots[|roots| - 1], roots[..|roots| - 1];
      GroupOfOneMore(rest, estimates, estimate, on);
      AtOfOneMore(estimates, estimate, last);
      assert roots == rest + [last];
      if estimate.root == last { assert estimate.root !in rest; }
    }
  }

  lemma {:induction false} NothingAt(estimates: seq<Estimate>, root: string)
    requires forall i :: 0 <= i < |estimates| ==> estimates[i].root != root
    ensures At(estimates, root) == 0
  {
    if estimates != [] { NothingAt(estimates[..|estimates| - 1], root); }
  }

  /** Grouping the rows is grouping the estimates: nothing is counted twice, and nothing is lost but by clamping. */
  lemma {:induction false} GroupsAreTrue(estimates: seq<Estimate>, on: string -> bool)
    ensures TrueGrouped(Order(estimates), estimates, on) == Where(estimates, on)
    ensures Sat(Grouped(Rows(Order(estimates), estimates), on)) == Sat(Where(estimates, on))
  {
    ClampedSum(Order(estimates), estimates, on);
    if estimates != [] {
      var rest, last := estimates[..|estimates| - 1], estimates[|estimates| - 1];
      assert estimates == rest + [last];
      GroupsAreTrue(rest, on);
      OrderIsDistinct(rest);
      GroupOfOneMore(Order(rest), rest, last, on);
      if last.root !in Order(rest) {
        NothingAt(rest, last.root);
        AtOfOneMore(rest, last, last.root);
        assert (Order(rest) + [last.root])[..|Order(rest)|] == Order(rest);
      }
    }
  }

  // The demand object.

  class Demand {
    var roots: seq<Row>
    var total: U64

    /** The fields are the clamped true sums of the estimates added so far, in order of first addition. */
    ghost predicate Holds(estimates: seq<Estimate>)
      reads this
    {
      total == Sat(Total(estimates)) && roots == Rows(Order(estimates), estimates)
    }

    constructor ()
      ensures Holds([])
    {
      roots, total := [], 0;
    }

    method Add(root: string, bytes: U64, ghost estimates: seq<Estimate>)
      requires Holds(estimates)
      modifies this
      ensures Holds(estimates + [Estimate(root, bytes)])
    {
      ghost var before, order := roots, Order(estimates);
      RowAt(order, estimates);
      total := Sat(total + bytes);
      var i := 0;
      while i < |roots| && roots[i].root != root
        invariant i <= |roots|
        invariant forall k :: 0 <= k < i ==> roots[k].root != root
      {
        i := i + 1;
      }
      if i < |roots| {
        OrderStays(estimates, Estimate(root, bytes));
        OrderHasNoRepeats(estimates);
        ghost var after := OneMoreForRow(order, estimates, Estimate(root, bytes), i, roots);
        roots := roots[i := Row(root, Sat(roots[i].bytes + bytes))];
      } else {
        assert forall k :: 0 <= k < |order| ==> order[k] == before[k].root != root;
        OneMoreRow(estimates, Estimate(root, bytes));
        roots := roots + [Row(root, bytes)];
      }
    }
  }

  lemma {:induction false} OrderStays(estimates: seq<Estimate>, estimate: Estimate)
    requires estimate.root in Order(estimates)
    ensures Order(estimates + [estimate]) == Order(estimates)
    ensures Total(estimates + [estimate]) == Total(estimates) + estimate.bytes
  {
    assert (estimates + [estimate])[..|estimates|] == estimates;
  }

  lemma {:induction false} OneMoreForRow(order: seq<string>, estimates: seq<Estimate>, estimate: Estimate, i: nat,
                                         rows: seq<Row>)
    returns (after: seq<Row>)
    requires i < |order| && order[i] == estimate.root && Distinct(order) && rows == Rows(order, estimates)
    ensures after == Rows(order, estimates + [estimate])
    ensures after == rows[i := Row(estimate.root, Sat(rows[i].bytes + estimate.bytes))]
  {
    after := Rows(order, estimates + [estimate]);
    RowAt(order, estimates);
    RowAt(order, estimates + [estimate]);
    RowChanges(order, estimates, estimate, i, rows, after);
  }

  lemma {:induction false} RowChanges(roots: seq<string>, estimates: seq<Estimate>, estimate: Estimate, i: nat,
                                      rows: seq<Row>, after: seq<Row>)
    requires Distinct(roots) && i < |roots| == |rows| == |after| && roots[i] == estimate.root
    requires forall k :: 0 <= k < |roots| ==> rows[k] == Row(roots[k], Sat(At(estimates, roots[k])))
    requires forall k :: 0 <= k < |roots| ==> after[k] == Row(roots[k], Sat(At(estimates + [estimate], roots[k])))
    ensures after == rows[i := Row(estimate.root, Sat(rows[i].bytes + estimate.bytes))]
  {
    forall k | 0 <= k < |roots|
      ensures after[k] == if k == i then Row(estimate.root, Sat(rows[i].bytes + estimate.bytes)) else rows[k]
    {
      AtOfOneMore(estimates, estimate, roots[k]);
      assert k != i ==> roots[k] != roots[i];
    }
  }

  lemma {:induction false} OneMoreRow(estimates: seq<Estimate>, estimate: Estimate)
    requires estimate.root !in Order(estimates)
    ensures Total(estimates + [estimate]) == Total(estimates) + estimate.bytes
    ensures Rows(Order(estimates + [estimate]), estimates + [estimate])
         == Rows(Order(estimates), estimates) + [Row(estimate.root, estimate.bytes)]
  {
    var order, more := Order(estimates), estimates + [estimate];
    assert more[..|estimates|] == estimates;
    OrderIsDistinct(estimates);
    NothingAt(estimates, estimate.root);
    AtOfOneMore(estimates, estimate, estimate.root);
    assert Order(more) == order + [estimate.root];
    RowsUnaffected(order, estimates, estimate);
    assert (order + [estimate.root])[..|order|] == order;
  }

  lemma {:induction false} RowsUnaffected(roots: seq<string>, estimates: seq<Estimate>, estimate: Estimate)
    requires estimate.root !in roots
    ensures Rows(roots, estimates + [estimate]) == Rows(roots, estimates)
  {
    if roots != [] {
      RowsUnaffected(roots[..|roots| - 1], estimates, estimate);
      AtOfOneMore(estimates, estimate, roots[|roots| - 1]);
    }
  }
}
