/** What the settlement plan of `calculate_total_payments` promises: every
    transfer is positive and goes from a debtor to a creditor, the plan has at
    most `|creditors| + |debtors| - 1` transfers, and it moves as much money as
    the creditors are owed and the debtors owe, up to `Eps` per person. Person
    by person, nobody receives more than they are owed or pays more than they
    owe, and one side is settled in full up to `Eps` each. */
module Plan {
  import opened Wrappers
  import opened Collections
  import opened Ledger
  import opened Settlement

  predicate AllOnSide(side: Side, es: seq<Entry>) {
    forall e :: e in es ==> OnSide(side, e.balance)
  }

  function NamesOf(es: seq<Entry>): set<string> {
    set e | e in es :: e.name
  }

  /** The balances of `es` added up. */
  function SumEntries(es: seq<Entry>): real {
    if |es| == 0 then 0.0 else es[0].balance + SumEntries(es[1..])
  }

  /** The amounts of `ts` added up. */
  function SumTransfers(ts: seq<Transfer>): real {
    if |ts| == 0 then 0.0 else ts[0].amount + SumTransfers(ts[1..])
  }

  lemma SumTransfersCons(t: Transfer, ts: seq<Transfer>)
    ensures SumTransfers([t] + ts) == t.amount + SumTransfers(ts)
  {
    assert ([t] + ts)[1..] == ts;
  }

  lemma SumEntriesCons(e: Entry, es: seq<Entry>)
    ensures SumEntries([e] + es) == e.balance + SumEntries(es)
  {
    assert ([e] + es)[1..] == es;
  }

  /** Each step drops the first creditor or the first debtor, and the step
      that empties a side may drop both, so the plan is never longer than
      `|cs| + |ds| - 1`. */
  lemma {:induction false} MatchLength(cs: seq<Entry>, ds: seq<Entry>)
    ensures |Match(cs, ds)| <= if |cs| == 0 || |ds| == 0 then 0 else |cs| + |ds| - 1
    decreases |cs| + |ds|
  {
    if |cs| > 0 && |ds| > 0 {
      MatchLength(AfterCredit(cs, ds), AfterDebit(cs, ds));
    }
  }

  /** After a step the remaining creditors are still creditors, under names
      that were creditors before; likewise for the debtors. */
  lemma StepKeepsSides(cs: seq<Entry>, ds: seq<Entry>)
    requires |cs| > 0 && |ds| > 0
    requires AllOnSide(Credit, cs) && AllOnSide(Debit, ds)
    ensures AllOnSide(Credit, AfterCredit(cs, ds)) && AllOnSide(Debit, AfterDebit(cs, ds))
    ensures NamesOf(AfterCredit(cs, ds)) <= NamesOf(cs)
    ensures NamesOf(AfterDebit(cs, ds)) <= NamesOf(ds)
  {
    var cs', ds' := AfterCredit(cs, ds), AfterDebit(cs, ds);
    assert cs[0] in cs && ds[0] in ds;
    assert forall e :: e in cs' ==> e in cs[1..] || e.name == cs[0].name;
    assert forall e :: e in ds' ==> e in ds[1..] || e.name == ds[0].name;
    forall n | n in NamesOf(cs') ensures n in NamesOf(cs) {
      var e :| e in cs' && e.name == n;
    }
    forall n | n in NamesOf(ds') ensures n in NamesOf(ds) {
      var e :| e in ds' && e.name == n;
    }
  }

  /** Between a creditor list and a debtor list, every transfer is larger
      than `Eps` and goes from one of the debtors to one of the creditors. */
  lemma {:induction false} MatchTransfers(cs: seq<Entry>, ds: seq<Entry>)
    requires AllOnSide(Credit, cs) && AllOnSide(Debit, ds)
    ensures forall t :: t in Match(cs, ds) ==>
      t.amount > Eps && t.creditor in NamesOf(cs) && t.debtor in NamesOf(ds)
    decreases |cs| + |ds|
  {
    if |cs| > 0 && |ds| > 0 {
      assert cs[0] in cs && ds[0] in ds;
      StepKeepsSides(cs, ds);
      MatchTransfers(AfterCredit(cs, ds), AfterDebit(cs, ds));
    }
  }

  /** A step lowers the total credit by the payment, plus at most `Eps` of
      dropped residue, and likewise the total debt. */
  lemma StepSums(cs: seq<Entry>, ds: seq<Entry>)
    requires |cs| > 0 && |ds| > 0
    requires AllOnSide(Credit, cs) && AllOnSide(Debit, ds)
    ensures SumEntries(AfterCredit(cs, ds)) <= SumEntries(cs) - Payment(cs, ds)
    ensures SumEntries(AfterCredit(cs, ds)) - Eps * (|AfterCredit(cs, ds)| as real)
         >= SumEntries(cs) - Payment(cs, ds) - Eps * (|cs| as real)
    ensures -SumEntries(AfterDebit(cs, ds)) <= -SumEntries(ds) - Payment(cs, ds)
    ensures -SumEntries(AfterDebit(cs, ds)) - Eps * (|AfterDebit(cs, ds)| as real)
         >= -SumEntries(ds) - Payment(cs, ds) - Eps * (|ds| as real)
  {
    var p := Payment(cs, ds);
    var c := cs[0].balance - p;
    var d := ds[0].balance + p;
    assert cs == [cs[0]] + cs[1..] && ds == [ds[0]] + ds[1..];
    SumEntriesCons(cs[0], cs[1..]);
    SumEntriesCons(ds[0], ds[1..]);
    if c > Eps {
      SumEntriesCons(cs[0].(balance := c), cs[1..]);
    }
    if d < -Eps {
      SumEntriesCons(ds[0].(balance := d), ds[1..]);
    }
  }

  /** The plan moves no more than the creditors are owed nor more than the
      debtors owe. */
  lemma {:induction false} MatchTotalsAtMost(cs: seq<Entry>, ds: seq<Entry>)
    requires AllOnSide(Credit, cs) && AllOnSide(Debit, ds)
    ensures SumTransfers(Match(cs, ds)) <= SumEntries(cs)
    ensures SumTransfers(Match(cs, ds)) <= -SumEntries(ds)
    decreases |cs| + |ds|
  {
    if |cs| == 0 || |ds| == 0 {
      PositiveSum(cs);
      NegativeSum(ds);
    } else {
      var cs', ds' := AfterCredit(cs, ds), AfterDebit(cs, ds);
      var p := Payment(cs, ds);
      StepKeepsSides(cs, ds);
      StepSums(cs, ds);
      MatchTotalsAtMost(cs', ds');
      MatchSum(cs, ds);
    }
  }

  /** The plan falls short of the total credit, or of the total debt, by at
      most `Eps` per creditor or per debtor: it reaches the smaller of the two
      less that slack. */
  lemma {:induction false} MatchTotalsAtLeast(cs: seq<Entry>, ds: seq<Entry>)
    requires AllOnSide(Credit, cs) && AllOnSide(Debit, ds)
    ensures || SumTransfers(Match(cs, ds)) >= SumEntries(cs) - Eps * (|cs| as real)
            || SumTransfers(Match(cs, ds)) >= -SumEntries(ds) - Eps * (|ds| as real)
    decreases |cs| + |ds|
  {
    if |cs| == 0 || |ds| == 0 {
    } else {
      var cs', ds' := AfterCredit(cs, ds), AfterDebit(cs, ds);
      StepKeepsSides(cs, ds);
      StepSums(cs, ds);
      MatchTotalsAtLeast(cs', ds');
      MatchSum(cs, ds);
    }
  }

  /** The amount of the plan is the first payment plus the amount of the rest of the plan. */
  lemma MatchSum(cs: seq<Entry>, ds: seq<Entry>)
    requires |cs| > 0 && |ds| > 0
    ensures SumTransfers(Match(cs, ds)) == Payment(cs, ds) + SumTransfers(Match(AfterCredit(cs, ds), AfterDebit(cs, ds)))
  {
    var t := Transfer(ds[0].name, cs[0].name, Payment(cs, ds));
    var rest := Match(AfterCredit(cs, ds), AfterDebit(cs, ds));
    assert Match(cs, ds) == [t] + rest;
    SumTransfersCons(t, rest);
  }

  /** The usual example: A is owed 50, B owes 30 and C owes 20; B pays A 30,
      then C pays A the remaining 20. */
  lemma MatchExample()
    ensures Match([Entry("A", 50.0)], [Entry("B", -30.0), Entry("C", -20.0)])
         == [Transfer("B", "A", 30.0), Transfer("C", "A", 20.0)]
  {
    var cs, ds := [Entry("A", 50.0)], [Entry("B", -30.0), Entry("C", -20.0)];
    assert AfterCredit(cs, ds) == [Entry("A", 20.0)];
    assert AfterDebit(cs, ds) == [Entry("C", -20.0)];
    assert Match([Entry("A", 20.0)], [Entry("C", -20.0)]) == [Transfer("C", "A", 20.0)];
  }

  lemma {:induction false} PositiveSum(es: seq<Entry>)
    requires AllOnSide(Credit, es)
    ensures SumEntries(es) >= 0.0
    decreases |es|
  {
    if |es| > 0 {
      assert es[0] in es;
      PositiveSum(es[1..]);
    }
  }

  lemma {:induction false} NegativeSum(es: seq<Entry>)
    requires AllOnSide(Debit, es)
    ensures SumEntries(es) <= 0.0
    decreases |es|
  {
    if |es| > 0 {
      assert es[0] in es;
      NegativeSum(es[1..]);
    }
  }

  // Per participant.

  /** What `n` receives under the transfers `ts`. */
  function Received(ts: seq<Transfer>, n: string): real {
    if |ts| == 0 then 0.0
    else (if ts[0].creditor == n then ts[0].amount else 0.0) + Received(ts[1..], n)
  }

  /** What `n` pays under the transfers `ts`. */
  function Sent(ts: seq<Transfer>, n: string): real {
    if |ts| == 0 then 0.0
    else (if ts[0].debtor == n then ts[0].amount else 0.0) + Sent(ts[1..], n)
  }

  lemma ReceivedCons(t: Transfer, ts: seq<Transfer>, n: string)
    ensures Received([t] + ts, n) == (if t.creditor == n then t.amount else 0.0) + Received(ts, n)
  {
    assert ([t] + ts)[1..] == ts;
  }

  lemma SentCons(t: Transfer, ts: seq<Transfer>, n: string)
    ensures Sent([t] + ts, n) == (if t.debtor == n then t.amount else 0.0) + Sent(ts, n)
  {
    assert ([t] + ts)[1..] == ts;
  }

  /** Nobody receives anything from transfers that never name them as creditor. */
  lemma {:induction false} ReceivedNone(ts: seq<Transfer>, n: string)
    requires forall t :: t in ts ==> t.creditor != n
    ensures Received(ts, n) == 0.0
    decreases |ts|
  {
    if |ts| > 0 {
      assert ts[0] in ts;
      ReceivedNone(ts[1..], n);
    }
  }

  /** Nobody pays anything under transfers that never name them as debtor. */
  lemma {:induction false} SentNone(ts: seq<Transfer>, n: string)
    requires forall t :: t in ts ==> t.debtor != n
    ensures Sent(ts, n) == 0.0
    decreases |ts|
  {
    if |ts| > 0 {
      assert ts[0] in ts;
      SentNone(ts[1..], n);
    }
  }

  /** No two entries share a name. */
  predicate UniqueNames(es: seq<Entry>) {
    forall i, j :: 0 <= i < j < |es| ==> es[i].name != es[j].name
  }

  /** Every creditor receives at most what they are owed. */
  predicate CreditorsCapped(ts: seq<Transfer>, cs: seq<Entry>) {
    forall c :: c in cs ==> Received(ts, c.name) <= c.balance
  }

  /** Every debtor pays at most what they owe. */
  predicate DebtorsCapped(ts: seq<Transfer>, ds: seq<Entry>) {
    forall d :: d in ds ==> Sent(ts, d.name) <= -d.balance
  }

  /** Every creditor receives what they are owed, less at most `Eps`. */
  predicate CreditorsPaid(ts: seq<Transfer>, cs: seq<Entry>) {
    forall c :: c in cs ==> Received(ts, c.name) >= c.balance - Eps
  }

  /** Every debtor pays what they owe, less at most `Eps`. */
  predicate DebtorsPaid(ts: seq<Transfer>, ds: seq<Entry>) {
    forall d :: d in ds ==> Sent(ts, d.name) >= -d.balance - Eps
  }

  /** The one entry of a list with unique names that carries the head's name is the head. */
  lemma HeadByName(es: seq<Entry>, e: Entry)
    requires |es| > 0 && UniqueNames(es) && e in es && e.name == es[0].name
    ensures e == es[0]
  {
    var k :| 0 <= k < |es| && es[k] == e;
    if k > 0 {
      assert es[0].name != es[k].name;
    }
  }

  /** A step keeps creditor names unique; the creditors other than the first
      stay listed as they were; the first stays with the rest of its balance,
      or, once dropped, its name is gone. */
  lemma CreditAfter(cs: seq<Entry>, ds: seq<Entry>)
    requires |cs| > 0 && |ds| > 0 && UniqueNames(cs)
    ensures UniqueNames(AfterCredit(cs, ds))
    ensures forall c :: c in cs && c.name != cs[0].name ==> c in AfterCredit(cs, ds)
    ensures cs[0].balance - Payment(cs, ds) <= Eps ==> cs[0].name !in NamesOf(AfterCredit(cs, ds))
    ensures cs[0].balance - Payment(cs, ds) > Eps ==>
      cs[0].(balance := cs[0].balance - Payment(cs, ds)) in AfterCredit(cs, ds)
  {
    var cs' := AfterCredit(cs, ds);
    forall c | c in cs && c.name != cs[0].name ensures c in cs[1..] {
      var k :| 0 <= k < |cs| && cs[k] == c;
      assert cs[1..][k - 1] == c;
    }
    if cs[0].balance - Payment(cs, ds) <= Eps {
      assert cs' == cs[1..];
      forall e | e in cs' ensures e.name != cs[0].name {
        var k :| 0 <= k < |cs'| && cs'[k] == e;
        assert cs[k + 1] == e;
      }
    } else {
      assert forall i :: 0 <= i < |cs| ==> cs'[i].name == cs[i].name;
    }
  }

  /** The debtor side of `CreditAfter`. */
  lemma DebitAfter(cs: seq<Entry>, ds: seq<Entry>)
    requires |cs| > 0 && |ds| > 0 && UniqueNames(ds)
    ensures UniqueNames(AfterDebit(cs, ds))
    ensures forall d :: d in ds && d.name != ds[0].name ==> d in AfterDebit(cs, ds)
    ensures ds[0].balance + Payment(cs, ds) >= -Eps ==> ds[0].name !in NamesOf(AfterDebit(cs, ds))
    ensures ds[0].balance + Payment(cs, ds) < -Eps ==>
      ds[0].(balance := ds[0].balance + Payment(cs, ds)) in AfterDebit(cs, ds)
  {
    var ds' := AfterDebit(cs, ds);
    forall d | d in ds && d.name != ds[0].name ensures d in ds[1..] {
      var k :| 0 <= k < |ds| && ds[k] == d;
      assert ds[1..][k - 1] == d;
    }
    if ds[0].balance + Payment(cs, ds) >= -Eps {
      assert ds' == ds[1..];
      forall e | e in ds' ensures e.name != ds[0].name {
        var k :| 0 <= k < |ds'| && ds'[k] == e;
        assert ds[k + 1] == e;
      }
    } else {
      assert forall i :: 0 <= i < |ds| ==> ds'[i].name == ds[i].name;
    }
  }

  /** One step on the creditor side: if the rest of the plan keeps the
      remaining creditors within what they are owed (and pays them), so does
      the whole plan for the creditors before the step. */
  lemma CreditStep(cs: seq<Entry>, ds: seq<Entry>, rest: seq<Transfer>)
    requires |cs| > 0 && |ds| > 0 && UniqueNames(cs)
    requires forall t :: t in rest ==> t.creditor in NamesOf(AfterCredit(cs, ds))
    requires CreditorsCapped(rest, AfterCredit(cs, ds))
    ensures CreditorsCapped([Transfer(ds[0].name, cs[0].name, Payment(cs, ds))] + rest, cs)
    ensures CreditorsPaid(rest, AfterCredit(cs, ds)) ==>
      CreditorsPaid([Transfer(ds[0].name, cs[0].name, Payment(cs, ds))] + rest, cs)
  {
    var p := Payment(cs, ds);
    var t := Transfer(ds[0].name, cs[0].name, p);
    var cs' := AfterCredit(cs, ds);
    CreditAfter(cs, ds);
    if cs[0].balance - p <= Eps {
      ReceivedNone(rest, cs[0].name);
    }
    forall c | c in cs
      ensures Received([t] + rest, c.name) <= c.balance
      ensures CreditorsPaid(rest, cs') ==> Received([t] + rest, c.name) >= c.balance - Eps
    {
      ReceivedCons(t, rest, c.name);
      if c.name == cs[0].name {
        HeadByName(cs, c);
        if cs[0].balance - p > Eps {
          assert cs[0].(balance := cs[0].balance - p) in cs';
        }
      } else {
        assert c in cs';
      }
    }
  }

  /** The debtor side of `CreditStep`. */
  lemma DebitStep(cs: seq<Entry>, ds: seq<Entry>, rest: seq<Transfer>)
    requires |cs| > 0 && |ds| > 0 && UniqueNames(ds)
    requires forall t :: t in rest ==> t.debtor in NamesOf(AfterDebit(cs, ds))
    requires DebtorsCapped(rest, AfterDebit(cs, ds))
    ensures DebtorsCapped([Transfer(ds[0].name, cs[0].name, Payment(cs, ds))] + rest, ds)
    ensures DebtorsPaid(rest, AfterDebit(cs, ds)) ==>
      DebtorsPaid([Transfer(ds[0].name, cs[0].name, Payment(cs, ds))] + rest, ds)
  {
    var p := Payment(cs, ds);
    var t := Transfer(ds[0].name, cs[0].name, p);
    var ds' := AfterDebit(cs, ds);
    DebitAfter(cs, ds);
    if ds[0].balance + p >= -Eps {
      SentNone(rest, ds[0].name);
    }
    forall d | d in ds
      ensures Sent([t] + rest, d.name) <= -d.balance
      ensures DebtorsPaid(rest, ds') ==> Sent([t] + rest, d.name) >= -d.balance - Eps
    {
      SentCons(t, rest, d.name);
      if d.name == ds[0].name {
        HeadByName(ds, d);
        if ds[0].balance + p < -Eps {
          assert ds[0].(balance := ds[0].balance + p) in ds';
        }
      } else {
        assert d in ds';
      }
    }
  }

  /** Per participant: no creditor receives more than they are owed and no
      debtor pays more than they owe; and either every creditor is paid, or
      every debtor has paid, up to `Eps` each. */
  lemma {:induction false} MatchPerUser(cs: seq<Entry>, ds: seq<Entry>)
    requires AllOnSide(Credit, cs) && AllOnSide(Debit, ds)
    requires UniqueNames(cs) && UniqueNames(ds)
    ensures CreditorsCapped(Match(cs, ds), cs) && DebtorsCapped(Match(cs, ds), ds)
    ensures CreditorsPaid(Match(cs, ds), cs) || DebtorsPaid(Match(cs, ds), ds)
    decreases |cs| + |ds|
  {
    if |cs| > 0 && |ds| > 0 {
      var cs', ds' := AfterCredit(cs, ds), AfterDebit(cs, ds);
      StepKeepsSides(cs, ds);
      CreditAfter(cs, ds);
      DebitAfter(cs, ds);
      MatchPerUser(cs', ds');
      MatchTransfers(cs', ds');
      var rest := Match(cs', ds');
      assert Match(cs, ds) == [Transfer(ds[0].name, cs[0].name, Payment(cs, ds))] + rest;
      CreditStep(cs, ds, rest);
      DebitStep(cs, ds, rest);
    }
  }

  /** The creditors of the ledger: users owed more than `Eps`, largest first. */
  function CreditorsOf(us: Users, order: seq<string>): seq<Entry>
    requires IsEnumeration(order, us.users.Keys)
  {
    Classify(Balances(us), order, Credit)
  }

  /** The debtors of the ledger: users owing more than `Eps`, largest debt first. */
  function DebtorsOf(us: Users, order: seq<string>): seq<Entry>
    requires IsEnumeration(order, us.users.Keys)
  {
    Classify(Balances(us), order, Debit)
  }

  /** With at least two users the computed plan is the greedy match of the
      ledger's creditors and debtors. */
  lemma PlanIsMatch(us: Users, order: seq<string>)
    requires IsEnumeration(order, us.users.Keys)
    requires |us.users| >= 2
    ensures CalculateTotalPayments(us, order).plan
         == Ok(Match(CreditorsOf(us, order), DebtorsOf(us, order)))
  {
  }

  /** Every transfer of the plan between the classified users of `bal` is
      larger than `Eps` and goes from a debtor to a creditor. */
  lemma ClassifiedTransfers(bal: map<string, real>, order: seq<string>)
    requires IsEnumeration(order, bal.Keys)
    ensures forall t :: t in Match(Classify(bal, order, Credit), Classify(bal, order, Debit)) ==>
      && t.amount > Eps
      && t.creditor in bal && bal[t.creditor] > Eps
      && t.debtor in bal && bal[t.debtor] < -Eps
  {
    var cs, ds := Classify(bal, order, Credit), Classify(bal, order, Debit);
    MatchTransfers(cs, ds);
    forall t | t in Match(cs, ds)
      ensures t.creditor in bal && bal[t.creditor] > Eps && t.debtor in bal && bal[t.debtor] < -Eps
    {
      var c :| c in cs && c.name == t.creditor;
      var d :| d in ds && d.name == t.debtor;
    }
  }

  /** The plan between the classified users of `bal`, user by user: a
      creditor receives at most its balance and pays nothing; a debtor pays at
      most its debt and receives nothing; a user within `Eps` of zero neither
      pays nor receives; and either every creditor receives its balance, or
      every debtor pays its debt, less at most `Eps` each. */
  lemma ClassifiedPerUser(bal: map<string, real>, order: seq<string>)
    requires IsEnumeration(order, bal.Keys)
    ensures var plan := Match(Classify(bal, order, Credit), Classify(bal, order, Debit));
      && (forall n :: n in bal && bal[n] > Eps ==> Received(plan, n) <= bal[n] && Sent(plan, n) == 0.0)
      && (forall n :: n in bal && bal[n] < -Eps ==> Sent(plan, n) <= -bal[n] && Received(plan, n) == 0.0)
      && (forall n :: n in bal && -Eps <= bal[n] <= Eps ==> Received(plan, n) == 0.0 && Sent(plan, n) == 0.0)
      && (|| (forall n :: n in bal && bal[n] > Eps ==> Received(plan, n) >= bal[n] - Eps)
          || (forall n :: n in bal && bal[n] < -Eps ==> Sent(plan, n) >= -bal[n] - Eps))
  {
    var cs, ds := Classify(bal, order, Credit), Classify(bal, order, Debit);
    var plan := Match(cs, ds);
    ClassifiedNamesDistinct(bal, Credit, cs);
    ClassifiedNamesDistinct(bal, Debit, ds);
    MatchPerUser(cs, ds);
    ClassifiedTransfers(bal, order);
    forall n | n in bal && bal[n] > Eps ensures Received(plan, n) <= bal[n] && Sent(plan, n) == 0.0 {
      assert Entry(n, bal[n]) in cs;
      SentNone(plan, n);
    }
    forall n | n in bal && bal[n] < -Eps ensures Sent(plan, n) <= -bal[n] && Received(plan, n) == 0.0 {
      assert Entry(n, bal[n]) in ds;
      ReceivedNone(plan, n);
    }
    forall n | n in bal && -Eps <= bal[n] <= Eps ensures Received(plan, n) == 0.0 && Sent(plan, n) == 0.0 {
      ReceivedNone(plan, n);
      SentNone(plan, n);
    }
    if CreditorsPaid(plan, cs) {
      forall n | n in bal && bal[n] > Eps ensures Received(plan, n) >= bal[n] - Eps {
        assert Entry(n, bal[n]) in cs;
      }
    } else {
      forall n | n in bal && bal[n] < -Eps ensures Sent(plan, n) >= -bal[n] - Eps {
        assert Entry(n, bal[n]) in ds;
      }
    }
  }

  /** The plan of `calculate_total_payments` for at least two users: each
      transfer is larger than `Eps` and goes from a user whose balance is below
      `-Eps` to a user whose balance is above `Eps`; there are at most
      `|creditors| + |debtors| - 1` transfers (none when either side is empty);
      the money moved lies between the smaller of the total credit and the
      total debt, less `Eps` per person, and that smaller total; and user by
      user, nobody is paid more than they are owed or pays more than they owe,
      users within `Eps` of zero take no part, and either every creditor is
      paid or every debtor has paid, up to `Eps` each. */
  lemma PlanProperties(us: Users, order: seq<string>, cs: seq<Entry>, ds: seq<Entry>, plan: seq<Transfer>)
    requires IsEnumeration(order, us.users.Keys)
    requires |us.users| >= 2
    requires cs == CreditorsOf(us, order) && ds == DebtorsOf(us, order)
    requires CalculateTotalPayments(us, order).plan == Ok(plan)
    ensures forall t :: t in plan ==>
      && t.amount > Eps
      && t.creditor in us.users && Balances(us)[t.creditor] > Eps
      && t.debtor in us.users && Balances(us)[t.debtor] < -Eps
    ensures |plan| <= if |cs| == 0 || |ds| == 0 then 0 else |cs| + |ds| - 1
    ensures SumTransfers(plan) <= SumEntries(cs)
    ensures SumTransfers(plan) <= -SumEntries(ds)
    ensures || SumTransfers(plan) >= SumEntries(cs) - Eps * (|cs| as real)
            || SumTransfers(plan) >= -SumEntries(ds) - Eps * (|ds| as real)
    ensures var bal := Balances(us);
      && (forall n :: n in bal && bal[n] > Eps ==> Received(plan, n) <= bal[n] && Sent(plan, n) == 0.0)
      && (forall n :: n in bal && bal[n] < -Eps ==> Sent(plan, n) <= -bal[n] && Received(plan, n) == 0.0)
      && (forall n :: n in bal && -Eps <= bal[n] <= Eps ==> Received(plan, n) == 0.0 && Sent(plan, n) == 0.0)
      && (|| (forall n :: n in bal && bal[n] > Eps ==> Received(plan, n) >= bal[n] - Eps)
          || (forall n :: n in bal && bal[n] < -Eps ==> Sent(plan, n) >= -bal[n] - Eps))
  {
    PlanIsMatch(us, order);
    ClassifiedPerUser(Balances(us), order);
    assert plan == Match(cs, ds);
    ClassifiedTransfers(Balances(us), order);
    MatchLength(cs, ds);
    MatchTotalsAtMost(cs, ds);
    MatchTotalsAtLeast(cs, ds);
  }

  /** With nobody on `side`, the classification for `side` is empty. */
  lemma ClassifyNone(bal: map<string, real>, order: seq<string>, side: Side)
    requires IsEnumeration(order, bal.Keys)
    requires forall n :: n in bal ==> !OnSide(side, bal[n])
    ensures Classify(bal, order, side) == []
  {
    var es := Classify(bal, order, side);
    assert forall e :: e !in es;
    NoMembers(es);
  }

  /** After `settle_up` every balance is zero. */
  lemma SettledBalances(us: Users)
    ensures forall n :: n in Balances(SettleUp(us)) ==> Balances(SettleUp(us))[n] == 0.0
  {
  }

  /** The computation leaves every balance as it found it. */
  lemma RecalculatedBalances(us: Users, order: seq<string>)
    requires IsEnumeration(order, us.users.Keys)
    requires |us.users| >= 2
    ensures Balances(CalculateTotalPayments(us, order).users) == Balances(us)
  {
    var r := CalculateTotalPayments(us, order).users;
    forall n | n in us.users ensures Balances(r)[n] == Balances(us)[n] {
      assert r.users[n].amountPaid == us.users[n].amountPaid;
    }
  }

  /** After `settle_up` nobody owes anything, so the plan is empty. */
  lemma SettledPlanIsEmpty(us: Users, order: seq<string>)
    requires IsEnumeration(order, us.users.Keys)
    requires |us.users| >= 2
    ensures CalculateTotalPayments(SettleUp(us), order).plan == Ok([])
  {
    var bal := Balances(SettleUp(us));
    SettledBalances(us);
    ClassifyNone(bal, order, Credit);
    ClassifyNone(bal, order, Debit);
  }

  /** Computing the plan again, with no mutation in between, gives the same
      plan and leaves the ledger as the first computation left it. */
  lemma RecalculationStable(us: Users, order: seq<string>)
    requires IsEnumeration(order, us.users.Keys)
    ensures var r := CalculateTotalPayments(us, order);
      CalculateTotalPayments(r.users, order) == r
  {
    var r := CalculateTotalPayments(us, order);
    if |us.users| >= 2 {
      RecalculatedBalances(us, order);
      assert CalculateTotalPayments(r.users, order).users.users == r.users.users;
    }
  }
}
