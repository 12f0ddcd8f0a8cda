/** The settlement engine of `calculate_total_payments` (src/lib.rs):
    recompute every balance from the transactions, split the users into
    creditors and debtors, sort them, and match them greedily into a plan of
    transfers. */
module Settlement {
  import opened Wrappers
  import opened Collections
  import opened Ledger

  /** The tolerance below which a balance counts as settled (`1e-6`). */
  const Eps: real := 0.000001

  /** Why `calculate_total_payments` refuses to compute a plan. */
  datatype Error = NotEnoughUsers

  /** A user name with a (remaining) balance: the `(String, f64)` pairs of the matcher. */
  datatype Entry = Entry(name: string, balance: real)

  /** One instruction of the plan: `debtor` should pay `creditor` `amount`. */
  datatype Transfer = Transfer(debtor: string, creditor: string, amount: real)

  /** Creditors are owed more than `Eps`, debtors owe more than `Eps`. */
  datatype Side = Credit | Debit

  /** The ledger after the computation together with the plan or the error. */
  datatype Outcome = Outcome(users: Users, plan: Result<seq<Transfer>, Error>)

  function Min(a: real, b: real): real {
    if a <= b then a else b
  }

  // Step one: the balances.

  /** The sum of the fair shares of `name` over `txs`. */
  function TotalShare(txs: seq<Transaction>, name: string): real {
    if |txs| == 0 then 0.0 else ShareOrZero(txs[0], name) + TotalShare(txs[1..], name)
  }

  /** Every user's amount paid minus the total of that user's fair shares. */
  function Balances(us: Users): (bal: map<string, real>)
    ensures bal.Keys == us.users.Keys
  {
    map n | n in us.users :: us.users[n].amountPaid - TotalShare(us.transactions, n)
  }

  /** A user that no transaction lists owes no share, so their balance is
      what they paid; in particular a user added after every transaction. */
  lemma {:induction false} UnlistedBalance(us: Users, name: string)
    requires name in us.users
    requires forall i :: 0 <= i < |us.transactions| ==> name !in Names(us.transactions[i].participants)
    ensures Balances(us)[name] == us.users[name].amountPaid
  {
    UnlistedShare(us.transactions, name);
  }

  lemma {:induction false} UnlistedShare(txs: seq<Transaction>, name: string)
    requires forall i :: 0 <= i < |txs| ==> name !in Names(txs[i].participants)
    ensures TotalShare(txs, name) == 0.0
    decreases |txs|
  {
    if |txs| > 0 {
      assert name !in Names(txs[0].participants);
      UnlistedShare(txs[1..], name);
    }
  }

  /** A balance within `Eps` of zero, snapped to zero. */
  function Snap(b: real): real {
    if -Eps <= b <= Eps then 0.0 else b
  }

  // Step two: classification and sorting.

  predicate OnSide(side: Side, b: real) {
    match side
    case Credit => b > Eps
    case Debit => b < -Eps
  }

  /** `a` may precede `b`: creditors descend, debtors ascend by balance. */
  predicate InOrder(side: Side, a: Entry, b: Entry) {
    match side
    case Credit => a.balance >= b.balance
    case Debit => a.balance <= b.balance
  }

  predicate SortedFor(side: Side, es: seq<Entry>) {
    forall i, j :: 0 <= i < j < |es| ==> InOrder(side, es[i], es[j])
  }

  /** The entries of `filter_map`: the users of `order` on `side`, in that order. */
  function Select(bal: map<string, real>, order: seq<string>, side: Side): (es: seq<Entry>)
    requires forall i :: 0 <= i < |order| ==> order[i] in bal
    ensures forall e :: e in es ==> e.name in order && e.name in bal && e.balance == bal[e.name] && OnSide(side, e.balance)
    ensures forall i :: 0 <= i < |order| && OnSide(side, bal[order[i]]) ==> Entry(order[i], bal[order[i]]) in es
    ensures Distinct(order) ==> Distinct(es)
  {
    if |order| == 0 then []
    else
      var rest := Select(bal, order[1..], side);
      var b := bal[order[0]];
      if OnSide(side, b) then
        assert forall e :: e in rest ==> e.name in order[1..];
        [Entry(order[0], b)] + rest
      else rest
  }

  /** Insert `e` before the first element it may precede; equal balances keep their order. */
  function Insert(side: Side, e: Entry, xs: seq<Entry>): (r: seq<Entry>)
    requires SortedFor(side, xs)
    ensures SortedFor(side, r)
    ensures multiset(r) == multiset(xs) + multiset{e}
    ensures forall x :: x in r <==> x == e || x in xs
    ensures e !in xs && Distinct(xs) ==> Distinct(r)
  {
    if |xs| == 0 || InOrder(side, e, xs[0]) then
      DistinctCons(e, xs);
      InsertFront(side, e, xs);
      [e] + xs
    else
      var tail := Insert(side, e, xs[1..]);
      InsertBehind(side, e, xs, tail);
      [xs[0]] + tail
  }

  /** `e` may go in front of a sorted list it may precede. */
  lemma InsertFront(side: Side, e: Entry, xs: seq<Entry>)
    requires SortedFor(side, xs)
    requires |xs| == 0 || InOrder(side, e, xs[0])
    ensures SortedFor(side, [e] + xs)
  {
    var r := [e] + xs;
    forall i, j | 0 <= i < j < |r| ensures InOrder(side, r[i], r[j]) {
      if i == 0 {
        assert r[j] == xs[j - 1];
        assert InOrder(side, xs[0], xs[j - 1]) || j == 1;
      } else {
        assert r[i] == xs[i - 1] && r[j] == xs[j - 1];
      }
    }
  }

  /** When `e` goes after the head of `xs`, the head followed by `e`
      inserted into the rest is sorted, has the right elements, and is
      duplicate-free if `xs` was and did not hold `e`. */
  lemma InsertBehind(side: Side, e: Entry, xs: seq<Entry>, tail: seq<Entry>)
    requires SortedFor(side, xs) && |xs| > 0 && !InOrder(side, e, xs[0])
    requires SortedFor(side, tail)
    requires multiset(tail) == multiset(xs[1..]) + multiset{e}
    requires forall x :: x in tail <==> x == e || x in xs[1..]
    requires e !in xs[1..] && Distinct(xs[1..]) ==> Distinct(tail)
    ensures SortedFor(side, [xs[0]] + tail)
    ensures multiset([xs[0]] + tail) == multiset(xs) + multiset{e}
    ensures forall x :: x in [xs[0]] + tail <==> x == e || x in xs
    ensures e !in xs && Distinct(xs) ==> Distinct([xs[0]] + tail)
  {
    var r := [xs[0]] + tail;
    assert xs == [xs[0]] + xs[1..];
    assert InOrder(side, xs[0], e);
    forall i, j | 0 <= i < j < |r| ensures InOrder(side, r[i], r[j]) {
      if i == 0 {
        assert r[j] in tail;
        if r[j] != e {
          var k :| 0 <= k < |xs[1..]| && xs[1..][k] == r[j];
          assert xs[k + 1] == r[j];
        }
      } else {
        assert r[i] == tail[i - 1] && r[j] == tail[j - 1];
      }
    }
    DistinctCons(xs[0], xs[1..]);
    DistinctCons(xs[0], tail);
  }

  /** A stable insertion sort, the model of Rust's stable `sort_by`. */
  function Sort(side: Side, s: seq<Entry>): (r: seq<Entry>)
    ensures SortedFor(side, r)
    ensures multiset(r) == multiset(s)
    ensures forall x :: x in r <==> x in s
    ensures Distinct(s) ==> Distinct(r)
  {
    if |s| == 0 then []
    else
      assert s == [s[0]] + s[1..];
      Insert(side, s[0], Sort(side, s[1..]))
  }

  /** `es` lists, once each, exactly the users of `bal` on `side`, with their balances. */
  predicate ExactlyOnSide(bal: map<string, real>, side: Side, es: seq<Entry>) {
    && Distinct(es)
    && (forall e :: e in es ==> e.name in bal && e.balance == bal[e.name] && OnSide(side, e.balance))
    && (forall n :: n in bal && OnSide(side, bal[n]) ==> Entry(n, bal[n]) in es)
  }

  /** The creditors (sorted descending) or the debtors (sorted ascending),
      listing users in the hash map's iteration order `order` before sorting. */
  function Classify(bal: map<string, real>, order: seq<string>, side: Side): (es: seq<Entry>)
    requires IsEnumeration(order, bal.Keys)
    ensures ExactlyOnSide(bal, side, es)
    ensures SortedFor(side, es)
  {
    var selected := Select(bal, order, side);
    assert forall n :: n in bal && OnSide(side, bal[n]) ==> Entry(n, bal[n]) in selected by {
      forall n | n in bal && OnSide(side, bal[n]) ensures Entry(n, bal[n]) in selected {
        var i :| 0 <= i < |order| && order[i] == n;
      }
    }
    Sort(side, selected)
  }

  /** Two entries of an exact classification never share a name. */
  lemma ClassifiedNamesDistinct(bal: map<string, real>, side: Side, es: seq<Entry>)
    requires ExactlyOnSide(bal, side, es)
    ensures forall i, j :: 0 <= i < j < |es| ==> es[i].name != es[j].name
  {
    forall i, j | 0 <= i < j < |es| ensures es[i].name != es[j].name {
      assert es[i] in es && es[j] in es;
    }
  }

  // Step three: greedy matching.

  /** The amount the first debtor pays the first creditor: as much as both allow. */
  function Payment(cs: seq<Entry>, ds: seq<Entry>): real
    requires |cs| > 0 && |ds| > 0
  {
    Min(cs[0].balance, -ds[0].balance)
  }

  /** The creditors after that payment: the first one is dropped once within `Eps` of zero. */
  function AfterCredit(cs: seq<Entry>, ds: seq<Entry>): seq<Entry>
    requires |cs| > 0 && |ds| > 0
  {
    var c := cs[0].balance - Payment(cs, ds);
    if c <= Eps then cs[1..] else [cs[0].(balance := c)] + cs[1..]
  }

  /** The debtors after that payment: the first one is dropped once within `Eps` of zero. */
  function AfterDebit(cs: seq<Entry>, ds: seq<Entry>): seq<Entry>
    requires |cs| > 0 && |ds| > 0
  {
    var d := ds[0].balance + Payment(cs, ds);
    if d >= -Eps then ds[1..] else [ds[0].(balance := d)] + ds[1..]
  }

  /** The greedy matcher as a reference definition: the first debtor pays
      the first creditor, then both lists move on. Every step drops the
      creditor or the debtor (or both), since the payment zeroes one of them. */
  function Match(cs: seq<Entry>, ds: seq<Entry>): (r: seq<Transfer>)
    ensures r == [] <==> |cs| == 0 || |ds| == 0
    decreases |cs| + |ds|
  {
    if |cs| == 0 || |ds| == 0 then []
    else
      assert |AfterCredit(cs, ds)| + |AfterDebit(cs, ds)| < |cs| + |ds|;
      [Transfer(ds[0].name, cs[0].name, Payment(cs, ds))] + Match(AfterCredit(cs, ds), AfterDebit(cs, ds))
  }

  /** The two-cursor loop of `calculate_total_payments`. */
  method GreedyMatch(creditors: seq<Entry>, debtors: seq<Entry>) returns (plan: seq<Transfer>)
    ensures plan == Match(creditors, debtors)
  {
    var cs, ds := creditors, debtors;
    var i, j := 0, 0;
    plan := [];
    while i < |cs| && j < |ds|
      invariant |cs| == |creditors| && |ds| == |debtors|
      invariant 0 <= i <= |cs| && 0 <= j <= |ds|
      invariant plan + Match(cs[i..], ds[j..]) == Match(creditors, debtors)
      decreases |cs| - i + |ds| - j
    {
      var available := cs[i].balance;
      var owed := -ds[j].balance;
      var transfer := Min(available, owed);
      var paid := Transfer(ds[j].name, cs[i].name, transfer);
      ghost var cs0, ds0, i0, j0, done := cs, ds, i, j, plan;
      plan := plan + [paid];
      cs := cs[i := cs[i].(balance := cs[i].balance - transfer)];
      ds := ds[j := ds[j].(balance := ds[j].balance + transfer)];
      if cs[i].balance <= Eps {
        i := i + 1;
      }
      if ds[j].balance >= -Eps {
        j := j + 1;
      }
      LoopStep(cs0, ds0, i0, j0, transfer, cs, ds, i, j);
      PlanStep(done, paid, Match(cs[i..], ds[j..]));
    }
  }

  /** Appending a transfer to the plan so far and dropping it from the
      plan still to come keeps their concatenation. */
  lemma PlanStep(done: seq<Transfer>, paid: Transfer, rest: seq<Transfer>)
    ensures (done + [paid]) + rest == done + ([paid] + rest)
  {
  }

  /** One pass of the loop body, from cursors `i`, `j` over `cs`, `ds` to
      cursors `i2`, `j2` over `cs2`, `ds2`: the transfer it emits, followed
      by the reference plan for what is left behind the new cursors, is the
      reference plan for what was left behind the old ones. */
  lemma LoopStep(cs: seq<Entry>, ds: seq<Entry>, i: nat, j: nat, t: real,
                 cs2: seq<Entry>, ds2: seq<Entry>, i2: nat, j2: nat)
    requires i < |cs| && j < |ds|
    requires t == Min(cs[i].balance, -ds[j].balance)
    requires cs2 == cs[i := cs[i].(balance := cs[i].balance - t)]
    requires ds2 == ds[j := ds[j].(balance := ds[j].balance + t)]
    requires i2 == if cs2[i].balance <= Eps then i + 1 else i
    requires j2 == if ds2[j].balance >= -Eps then j + 1 else j
    ensures i2 <= |cs2| && j2 <= |ds2|
    ensures Match(cs[i..], ds[j..]) == [Transfer(ds[j].name, cs[i].name, t)] + Match(cs2[i2..], ds2[j2..])
  {
    CreditCursor(cs, ds, i, j, t, cs2, i2);
    DebitCursor(cs, ds, i, j, t, ds2, j2);
    assert Payment(cs[i..], ds[j..]) == t;
  }

  /** The creditors behind the cursor after a pass are `AfterCredit` of those before it. */
  lemma CreditCursor(cs: seq<Entry>, ds: seq<Entry>, i: nat, j: nat, t: real, cs2: seq<Entry>, i2: nat)
    requires i < |cs| && j < |ds|
    requires t == Min(cs[i].balance, -ds[j].balance)
    requires cs2 == cs[i := cs[i].(balance := cs[i].balance - t)]
    requires i2 == if cs2[i].balance <= Eps then i + 1 else i
    ensures i2 <= |cs2| && AfterCredit(cs[i..], ds[j..]) == cs2[i2..]
  {
    assert Payment(cs[i..], ds[j..]) == t;
    assert cs[i..][1..] == cs2[i + 1..];
  }

  /** The debtors behind the cursor after a pass are `AfterDebit` of those before it. */
  lemma DebitCursor(cs: seq<Entry>, ds: seq<Entry>, i: nat, j: nat, t: real, ds2: seq<Entry>, j2: nat)
    requires i < |cs| && j < |ds|
    requires t == Min(cs[i].balance, -ds[j].balance)
    requires ds2 == ds[j := ds[j].(balance := ds[j].balance + t)]
    requires j2 == if ds2[j].balance >= -Eps then j + 1 else j
    ensures j2 <= |ds2| && AfterDebit(cs[i..], ds[j..]) == ds2[j2..]
  {
    assert Payment(cs[i..], ds[j..]) == t;
    assert ds[j..][1..] == ds2[j + 1..];
  }

  // The whole computation.

  /** `calculate_total_payments`: refuse with fewer than two users; otherwise
      recompute the balances, match creditors and debtors, and snap balances
      within `Eps` of zero to zero. `order` is the hash map's iteration order. */
  function CalculateTotalPayments(us: Users, order: seq<string>): (r: Outcome)
    requires IsEnumeration(order, us.users.Keys)
    ensures |us.users| < 2 ==> r == Outcome(us, Err(NotEnoughUsers))
    ensures |us.users| >= 2 ==>
      && r.plan.Ok?
      && r.users.transactions == us.transactions
      && r.users.users.Keys == us.users.Keys
      && (forall n :: n in us.users ==>
            && r.users.users[n].amountPaid == us.users[n].amountPaid
            && var b := us.users[n].amountPaid - TotalShare(us.transactions, n);
               r.users.users[n].netBalance == (if -Eps <= b <= Eps then 0.0 else b))
  {
    if |us.users| < 2 then Outcome(us, Err(NotEnoughUsers))
    else
      var bal := Balances(us);
      var plan := Match(Classify(bal, order, Credit), Classify(bal, order, Debit));
      var users := map n | n in us.users :: us.users[n].(netBalance := Snap(bal[n]));
      Outcome(Users(users, us.transactions), Ok(plan))
  }
}
