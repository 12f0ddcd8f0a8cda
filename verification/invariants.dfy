/** The bookkeeping invariant of the ledger of `src/lib.rs`. A ledger is well
    formed when every transaction lists each of its participants once, lists
    only registered users, and hands out fair shares that add up to its
    amount; it is balanced when the users have paid, in total, what the
    transactions cost. On a well-formed ledger the balances add up to the
    money paid less the money spent, so on a balanced one they add up to zero;
    and since the settlement plan only moves money between users, carrying it
    out leaves every user within `(|users| - 1) * Eps` of even. */
module Invariants {
  import opened Wrappers
  import opened Collections
  import opened Ledger
  import opened Settlement
  import opened Plan

  /** `t` is a consistent record over the user names `keys`. */
  predicate TxWellFormed(keys: set<string>, t: Transaction) {
    && Distinct(Names(t.participants))
    && (forall i :: 0 <= i < |t.participants| ==> t.participants[i].name in keys)
    && TotalShares(t.participants) == t.amount
  }

  predicate WellFormed(us: Users) {
    forall i :: 0 <= i < |us.transactions| ==> TxWellFormed(us.users.Keys, us.transactions[i])
  }

  /** The amounts of `txs` added up. */
  function SumAmounts(txs: seq<Transaction>): real {
    if |txs| == 0 then 0.0 else txs[0].amount + SumAmounts(txs[1..])
  }

  /** What each user has paid, zero for names that are not users. */
  function PaidFn(us: Users): string -> real {
    n => if n in us.users then us.users[n].amountPaid else 0.0
  }

  /** Each user's balance as `calculate_total_payments` computes it, zero for
      names that are not users. */
  function BalanceFn(us: Users): string -> real {
    n => if n in us.users then Balances(us)[n] else 0.0
  }

  /** The fair share of every name in `t`. */
  function ShareFn(t: Transaction): string -> real {
    n => ShareOrZero(t, n)
  }

  /** The fair shares of every name summed over `txs`. */
  function TotalShareFn(txs: seq<Transaction>): string -> real {
    n => TotalShare(txs, n)
  }

  ghost predicate Balanced(us: Users) {
    SumSet(us.users.Keys, PaidFn(us)) == SumAmounts(us.transactions)
  }

  // The conservation law.

  /** Looking a name up in `[p] + rest` finds `p` or looks in `rest`. */
  lemma ShareOrZeroCons(p: Participant, rest: seq<Participant>, amount: real, n: string)
    ensures ShareOrZero(Transaction(amount, [p] + rest), n)
         == if n == p.name then p.fairShare.GetOr(0.0) else ShareOrZero(Transaction(amount, rest), n)
  {
    var ps := [p] + rest;
    assert ps[0] == p && ps[1..] == rest;
  }

  /** Summed over a key set that contains every participant, the fair shares
      of a transaction without repeated names are its total of shares. */
  lemma {:induction false} ShareSumOverKeys(ps: seq<Participant>, amount: real, keys: set<string>)
    requires Distinct(Names(ps))
    requires forall i :: 0 <= i < |ps| ==> ps[i].name in keys
    ensures SumSet(keys, ShareFn(Transaction(amount, ps))) == TotalShares(ps)
    decreases |ps|
  {
    if |ps| == 0 {
      SumSetZero(keys, ShareFn(Transaction(amount, ps)));
    } else {
      DistinctNamesTail(ps);
      ShareSumOverKeys(ps[1..], amount, keys);
      ShareSumStep(ps, amount, keys);
    }
  }

  /** Without repeated names, the first name is not among the rest, which repeat none either. */
  lemma DistinctNamesTail(ps: seq<Participant>)
    requires |ps| > 0 && Distinct(Names(ps))
    ensures ps[0].name !in Names(ps[1..]) && Distinct(Names(ps[1..]))
  {
    assert Names(ps) == [ps[0].name] + Names(ps[1..]);
    DistinctCons(ps[0].name, Names(ps[1..]));
  }

  /** Listing `ps[0]` in front of the rest adds its share to the sum over `keys`. */
  lemma ShareSumStep(ps: seq<Participant>, amount: real, keys: set<string>)
    requires |ps| > 0 && ps[0].name in keys && ps[0].name !in Names(ps[1..])
    ensures SumSet(keys, ShareFn(Transaction(amount, ps)))
         == SumSet(keys, ShareFn(Transaction(amount, ps[1..]))) + ps[0].fairShare.GetOr(0.0)
  {
    var p, rest := ps[0], ps[1..];
    assert ps == [p] + rest;
    ShareFnCons(p, rest, amount);
    SumSetUpdate(keys, ShareFn(Transaction(amount, rest)), ShareFn(Transaction(amount, ps)),
      p.name, p.fairShare.GetOr(0.0));
  }

  /** The shares of `[p] + rest` are those of `rest` plus the share of `p`
      under its own name, when `rest` does not list that name. */
  lemma ShareFnCons(p: Participant, rest: seq<Participant>, amount: real)
    requires p.name !in Names(rest)
    ensures var f, g := ShareFn(Transaction(amount, rest)), ShareFn(Transaction(amount, [p] + rest));
      && g(p.name) == f(p.name) + p.fairShare.GetOr(0.0)
      && forall n :: n != p.name ==> g(n) == f(n)
  {
    forall n ensures ShareFn(Transaction(amount, [p] + rest))(n)
        == if n == p.name then p.fairShare.GetOr(0.0) else ShareFn(Transaction(amount, rest))(n) {
      ShareOrZeroCons(p, rest, amount, n);
    }
  }

  /** Over the users of a well-formed ledger, the total of everybody's fair
      shares is the total of the transaction amounts. */
  lemma {:induction false} SharesOverUsers(txs: seq<Transaction>, keys: set<string>)
    requires forall i :: 0 <= i < |txs| ==> TxWellFormed(keys, txs[i])
    ensures SumSet(keys, TotalShareFn(txs)) == SumAmounts(txs)
    decreases |txs|
  {
    if |txs| == 0 {
      SumSetZero(keys, TotalShareFn(txs));
    } else {
      var t := txs[0];
      assert TxWellFormed(keys, t);
      SharesOverUsers(txs[1..], keys);
      ShareSumOverKeys(t.participants, t.amount, keys);
      assert Transaction(t.amount, t.participants) == t;
      SumSetAdd(keys, ShareFn(t), TotalShareFn(txs[1..]), TotalShareFn(txs));
    }
  }

  /** On a well-formed ledger the balances add up to what was paid less what
      the transactions cost. */
  lemma BalancesSum(us: Users)
    requires WellFormed(us)
    ensures SumSet(us.users.Keys, BalanceFn(us))
         == SumSet(us.users.Keys, PaidFn(us)) - SumAmounts(us.transactions)
  {
    SharesOverUsers(us.transactions, us.users.Keys);
    SumSetSub(us.users.Keys, PaidFn(us), TotalShareFn(us.transactions), BalanceFn(us));
  }

  /** On a well-formed, balanced ledger the balances add up to zero: what the
      creditors are owed is exactly what the debtors owe. */
  lemma ConservationLaw(us: Users)
    requires WellFormed(us) && Balanced(us)
    ensures SumSet(us.users.Keys, BalanceFn(us)) == 0.0
  {
    BalancesSum(us);
  }

  // Every guarded mutator keeps the invariant.

  lemma NewWellFormed()
    ensures WellFormed(New()) && Balanced(New())
  {
  }

  /** A new user has paid nothing and is in no transaction. */
  lemma AddUserPreserves(us: Users, name: string)
    requires WellFormed(us) && Balanced(us)
    ensures WellFormed(AddUser(us, name)) && Balanced(AddUser(us, name))
  {
    var r := AddUser(us, name);
    if name !in us.users {
      SumSetExt(us.users.Keys, PaidFn(us), PaidFn(r));
      SumSetInsert(us.users.Keys, PaidFn(r), name);
      assert r.users.Keys == us.users.Keys + {name};
    }
  }

  /** Removing a user keeps the invariant when no transaction lists the user
      and the user has paid nothing. */
  lemma RemoveUserPreserves(us: Users, name: string)
    requires WellFormed(us) && Balanced(us)
    requires forall i :: 0 <= i < |us.transactions| ==> name !in Names(us.transactions[i].participants)
    requires name in us.users ==> us.users[name].amountPaid == 0.0
    ensures WellFormed(RemoveUser(us, name)) && Balanced(RemoveUser(us, name))
  {
    var r := RemoveUser(us, name);
    if name in us.users {
      forall i | 0 <= i < |us.transactions| ensures TxWellFormed(r.users.Keys, us.transactions[i]) {
        var ps := us.transactions[i].participants;
        assert TxWellFormed(us.users.Keys, us.transactions[i]);
        forall k | 0 <= k < |ps| ensures ps[k].name in r.users.Keys {
          assert Names(ps)[k] == ps[k].name;
        }
      }
      SumSetRemove(us.users.Keys, PaidFn(us), name);
      SumSetExt(r.users.Keys, PaidFn(us), PaidFn(r));
    }
  }

  /** Equal shares add up to their number times the share. */
  lemma {:induction false} TotalSharesConstant(ps: seq<Participant>, share: real)
    requires forall i :: 0 <= i < |ps| ==> ps[i].fairShare == Some(share)
    ensures TotalShares(ps) == (|ps| as real) * share
    decreases |ps|
  {
    if |ps| > 0 {
      var rest := ps[1..];
      assert forall i :: 0 <= i < |rest| ==> rest[i] == ps[i + 1];
      TotalSharesConstant(rest, share);
      var n := |rest| as real;
      var t := TotalShares(rest);
      assert t == n * share;
      assert TotalShares(ps) == share + t;
      assert (n + 1.0) * share == n * share + share;
    }
  }

  /** The equal split of `record_payment` over all users is a consistent
      transaction: every user once, and the shares add up to the amount. */
  lemma EqualSplitWellFormed(keys: set<string>, order: seq<string>, amount: real)
    requires IsEnumeration(order, keys) && |keys| > 0
    ensures TxWellFormed(keys, Transaction(amount, EqualSplit(order, amount / (|keys| as real))))
  {
    var k := |keys| as real;
    var ps := EqualSplit(order, amount / k);
    TotalSharesConstant(ps, amount / k);
    assert |ps| == |keys|;
    assert k * (amount / k) == amount;
    forall i | 0 <= i < |ps| ensures ps[i].name in keys {
      assert Names(ps)[i] == ps[i].name;
    }
  }

  lemma SumAmountsAppend(txs: seq<Transaction>, t: Transaction)
    ensures SumAmounts(txs + [t]) == SumAmounts(txs) + t.amount
  {
    if |txs| > 0 {
      assert (txs + [t])[1..] == txs[1..] + [t];
      SumAmountsAppend(txs[1..], t);
    }
  }

  /** Appending a consistent transaction that the payer paid for keeps the invariant. */
  lemma AppendPreserves(us: Users, r: Users, payer: string, t: Transaction)
    requires WellFormed(us) && Balanced(us)
    requires payer in us.users && TxWellFormed(us.users.Keys, t)
    requires r.users.Keys == us.users.Keys
    requires r.users[payer].amountPaid == us.users[payer].amountPaid + t.amount
    requires forall n :: n in us.users && n != payer ==> r.users[n] == us.users[n]
    requires r.transactions == us.transactions + [t]
    ensures WellFormed(r) && Balanced(r)
  {
    SumSetUpdate(us.users.Keys, PaidFn(us), PaidFn(r), payer, t.amount);
    SumAmountsAppend(us.transactions, t);
  }

  /** `record_payment` splits the amount equally over all users and keeps the invariant. */
  lemma RecordPaymentPreserves(us: Users, payer: string, amount: real, order: seq<string>)
    requires IsEnumeration(order, us.users.Keys)
    requires WellFormed(us) && Balanced(us)
    ensures WellFormed(RecordPayment(us, payer, amount, order))
    ensures Balanced(RecordPayment(us, payer, amount, order))
  {
    var r := RecordPayment(us, payer, amount, order);
    if payer in us.users {
      var t := Transaction(amount, EqualSplit(order, amount / (|us.users| as real)));
      assert r.transactions == us.transactions + [t];
      EqualSplitWellFormed(us.users.Keys, order, amount);
      AppendPreserves(us, r, payer, t);
    }
  }

  /** The corrected weighted payment keeps the invariant. */
  lemma RecordWeightedPaymentExactPreserves(us: Users, payer: string, t: Transaction)
    requires ParticipantsExact(us, t) ==> WeightsFit(t.participants)
    requires WellFormed(us) && Balanced(us)
    ensures WellFormed(RecordWeightedPaymentExact(us, payer, t))
    ensures Balanced(RecordWeightedPaymentExact(us, payer, t))
  {
    var r := RecordWeightedPaymentExact(us, payer, t);
    if ParticipantsExact(us, t) && payer in us.users {
      var s := CalculateFairShares(t);
      assert r.transactions == us.transactions + [s];
      EnumeratedWellFormed(us.users.Keys, s);
      AppendPreserves(us, r, payer, s);
    }
  }

  /** A transaction whose names enumerate `keys` and whose shares add up to
      its amount is well formed over `keys`. */
  lemma EnumeratedWellFormed(keys: set<string>, s: Transaction)
    requires IsEnumeration(Names(s.participants), keys)
    requires TotalShares(s.participants) == s.amount
    ensures TxWellFormed(keys, s)
  {
    var ns := Names(s.participants);
    forall i | 0 <= i < |s.participants| ensures s.participants[i].name in keys {
      assert ns[i] == s.participants[i].name;
    }
  }

  /** `remove_payment` leaves the transactions alone, so the ledger stays well
      formed (though no longer balanced). */
  lemma RemovePaymentWellFormed(us: Users, payer: string, amount: real)
    requires WellFormed(us)
    ensures WellFormed(RemovePayment(us, payer, amount))
  {
  }

  lemma SettleUpPreserves(us: Users)
    ensures WellFormed(SettleUp(us)) && Balanced(SettleUp(us))
  {
    var r := SettleUp(us);
    SumSetZero(r.users.Keys, PaidFn(r));
  }

  /** `calculate_total_payments` only rewrites the net balances, so it keeps the invariant. */
  lemma CalculateTotalPaymentsPreserves(us: Users, order: seq<string>)
    requires IsEnumeration(order, us.users.Keys)
    requires WellFormed(us) && Balanced(us)
    ensures WellFormed(CalculateTotalPayments(us, order).users)
    ensures Balanced(CalculateTotalPayments(us, order).users)
  {
    var r := CalculateTotalPayments(us, order).users;
    SumSetExt(us.users.Keys, PaidFn(us), PaidFn(r));
  }

  // The two defects of the source, shown on concrete ledgers.

  /** A user added after a payment is not listed in that payment's
      transaction, so the share lookup of `calculate_total_payments` finds
      nothing there and its `unwrap` panics (the precondition of `ShareOf`
      fails); the corrected lookup reads a zero share. */
  lemma LateUserPanics(us: Users, payer: string, amount: real, order: seq<string>, late: string)
    requires IsEnumeration(order, us.users.Keys)
    requires payer in us.users && late !in us.users
    ensures var r := AddUser(RecordPayment(us, payer, amount, order), late);
      && late in r.users
      && |r.transactions| == |us.transactions| + 1
      && late !in Names(r.transactions[|us.transactions|].participants)
      && ShareOrZero(r.transactions[|us.transactions|], late) == 0.0
  {
  }

  /** A transaction of `amount` that lists `name` twice with weight one. */
  function ListedTwice(name: string, amount: real): (t: Transaction)
    ensures t.amount == amount && |t.participants| == 2
    ensures Names(t.participants) == [name, name]
    ensures forall p :: p in t.participants ==> p.weight == 1 && p.fairShare == None
    ensures TotalWeight(t.participants) == 2
  {
    var p := Participant(name, 1, None);
    assert [p, p][1..] == [p] && [p][1..] == [];
    assert TotalWeight([p]) == 1 + TotalWeight([]);
    assert TotalWeight([p, p]) == 1 + TotalWeight([p]);
    Transaction(amount, [p, p])
  }

  /** On the ledger of users `a` and `b` with no transactions,
      `record_weighted_payment` accepts a transaction that lists `a` twice
      and `b` not at all, so the ledger it leaves is not well formed. As
      written, the next `calculate_total_payments` then panics looking up
      `b` in that transaction; read with the corrected lookup, the balances
      add up to half the amount instead of zero. The corrected check refuses
      the transaction. */
  lemma DuplicateParticipantsAccepted(a: string, b: string)
    requires a != b
    ensures var us := Users(map[a := Fresh, b := Fresh], []);
      var r := RecordWeightedPayment(us, a, ListedTwice(a, 10.0));
      && |r.transactions| == 1
      && !WellFormed(r)
      && b !in Names(r.transactions[0].participants)
      && Balances(r)[a] + Balances(r)[b] == 5.0
      && RecordWeightedPaymentExact(us, a, ListedTwice(a, 10.0)) == us
  {
    var us := Users(map[a := Fresh, b := Fresh], []);
    var t := ListedTwice(a, 10.0);
    assert t.participants[0] in t.participants && t.participants[1] in t.participants;
    assert ParticipantsValid(us, t);
    assert Names(t.participants)[0] == Names(t.participants)[1];
    var r := RecordWeightedPayment(us, a, t);
    var s := CalculateFairShares(t);
    assert r.transactions == [s];
    var ps := s.participants;
    assert FairShare(10.0, 1, 2.0) == 5.0;
    assert ps[0] == Participant(a, 1, Some(5.0)) && ps[1] == Participant(a, 1, Some(5.0));
    assert Names(ps)[0] == Names(ps)[1];
    assert !TxWellFormed(r.users.Keys, r.transactions[0]);
    assert r.transactions[1..] == [];
    assert ShareOrZero(s, a) == 5.0;
    assert ShareOrZero(s, b) == 0.0;
    assert TotalShare(r.transactions, a) == 5.0;
    assert TotalShare(r.transactions, b) == 0.0;
  }

  // After the plan.

  /** What each name receives under `ts`, as a function. */
  function ReceivedFn(ts: seq<Transfer>): string -> real {
    n => Received(ts, n)
  }

  /** What each name pays under `ts`, as a function. */
  function SentFn(ts: seq<Transfer>): string -> real {
    n => Sent(ts, n)
  }

  /** Each user's balance once the transfers `ts` are made: a creditor is
      owed less by what they receive, a debtor owes less by what they pay. */
  function SettledFn(us: Users, ts: seq<Transfer>): string -> real {
    n => BalanceFn(us)(n) - Received(ts, n) + Sent(ts, n)
  }

  /** Over names that include every creditor of `ts`, what the names
      receive adds up to the transfers' total. */
  lemma {:induction false} ReceivedOverKeys(ts: seq<Transfer>, keys: set<string>)
    requires forall t :: t in ts ==> t.creditor in keys
    ensures SumSet(keys, ReceivedFn(ts)) == SumTransfers(ts)
    decreases |ts|
  {
    if |ts| == 0 {
      SumSetZero(keys, ReceivedFn(ts));
    } else {
      var t, rest := ts[0], ts[1..];
      assert ts == [t] + rest;
      assert t in ts;
      ReceivedOverKeys(rest, keys);
      forall n ensures ReceivedFn(ts)(n) == (if t.creditor == n then t.amount else 0.0) + ReceivedFn(rest)(n) {
        ReceivedCons(t, rest, n);
      }
      SumSetUpdate(keys, ReceivedFn(rest), ReceivedFn(ts), t.creditor, t.amount);
      SumTransfersCons(t, rest);
    }
  }

  /** Over names that include every debtor of `ts`, what the names pay adds
      up to the transfers' total. */
  lemma {:induction false} SentOverKeys(ts: seq<Transfer>, keys: set<string>)
    requires forall t :: t in ts ==> t.debtor in keys
    ensures SumSet(keys, SentFn(ts)) == SumTransfers(ts)
    decreases |ts|
  {
    if |ts| == 0 {
      SumSetZero(keys, SentFn(ts));
    } else {
      var t, rest := ts[0], ts[1..];
      assert ts == [t] + rest;
      assert t in ts;
      SentOverKeys(rest, keys);
      forall n ensures SentFn(ts)(n) == (if t.debtor == n then t.amount else 0.0) + SentFn(rest)(n) {
        SentCons(t, rest, n);
      }
      SumSetUpdate(keys, SentFn(rest), SentFn(ts), t.debtor, t.amount);
      SumTransfersCons(t, rest);
    }
  }

  /** Transfers among the users move money without creating any: on a
      well-formed, balanced ledger the settled balances still add up to zero. */
  lemma SettledSum(us: Users, ts: seq<Transfer>)
    requires WellFormed(us) && Balanced(us)
    requires forall t :: t in ts ==> t.creditor in us.users && t.debtor in us.users
    ensures SumSet(us.users.Keys, SettledFn(us, ts)) == 0.0
  {
    var keys := us.users.Keys;
    ConservationLaw(us);
    ReceivedOverKeys(ts, keys);
    SentOverKeys(ts, keys);
    var owed := n => BalanceFn(us)(n) - Received(ts, n);
    SumSetSub(keys, BalanceFn(us), ReceivedFn(ts), owed);
    SumSetAdd(keys, owed, SentFn(ts), SettledFn(us, ts));
  }

  /** The facts each user's share of the plan `ts` keeps about the balances
      `bal`: no creditor receives more than owed, no debtor pays more than
      owed, nobody else takes part. */
  predicate Capped(bal: map<string, real>, ts: seq<Transfer>) {
    && (forall n :: n in bal && bal[n] > Eps ==> Received(ts, n) <= bal[n] && Sent(ts, n) == 0.0)
    && (forall n :: n in bal && bal[n] < -Eps ==> Sent(ts, n) <= -bal[n] && Received(ts, n) == 0.0)
    && (forall n :: n in bal && -Eps <= bal[n] <= Eps ==> Received(ts, n) == 0.0 && Sent(ts, n) == 0.0)
  }

  /** When every creditor is paid to within the tolerance, nobody is left
      owed more than the tolerance. */
  lemma CreditorsPaidOwed(bal: map<string, real>, ts: seq<Transfer>)
    requires Capped(bal, ts)
    requires forall n :: n in bal && bal[n] > Eps ==> Received(ts, n) >= bal[n] - Eps
    ensures forall n :: n in bal ==> bal[n] - Received(ts, n) + Sent(ts, n) <= Eps
  {
  }

  /** When every debtor has paid to within the tolerance, nobody is left
      owing more than the tolerance. */
  lemma DebtorsPaidOwing(bal: map<string, real>, ts: seq<Transfer>)
    requires Capped(bal, ts)
    requires forall n :: n in bal && bal[n] < -Eps ==> Sent(ts, n) >= -bal[n] - Eps
    ensures forall n :: n in bal ==> bal[n] - Received(ts, n) + Sent(ts, n) >= -Eps
  {
  }

  /** Balances that add up to zero, moved by transfers that keep to
      `Capped` and pay off one side to within the tolerance each, end within
      `|bal| - 1` tolerances of even. */
  lemma EvenWithin(bal: map<string, real>, ts: seq<Transfer>, settled: string -> real)
    requires |bal| >= 2
    requires Capped(bal, ts)
    requires || (forall n :: n in bal && bal[n] > Eps ==> Received(ts, n) >= bal[n] - Eps)
             || (forall n :: n in bal && bal[n] < -Eps ==> Sent(ts, n) >= -bal[n] - Eps)
    requires forall n :: n in bal ==> settled(n) == bal[n] - Received(ts, n) + Sent(ts, n)
    requires SumSet(bal.Keys, settled) == 0.0
    ensures forall n :: n in bal ==>
      -Times(|bal| - 1, Eps) <= bal[n] - Received(ts, n) + Sent(ts, n) <= Times(|bal| - 1, Eps)
  {
    var keys := bal.Keys;
    assert |keys| == |bal|;
    if forall n :: n in bal && bal[n] > Eps ==> Received(ts, n) >= bal[n] - Eps {
      CreditorsPaidOwed(bal, ts);
      forall n | n in keys
        ensures -Times(|keys| - 1, Eps) <= settled(n) <= Times(|keys| - 1, Eps)
      {
        SumZeroAtMost(keys, settled, Eps, n);
      }
    } else {
      DebtorsPaidOwing(bal, ts);
      forall n | n in keys
        ensures -Times(|keys| - 1, Eps) <= settled(n) <= Times(|keys| - 1, Eps)
      {
        SumZeroAtLeast(keys, settled, Eps, n);
      }
    }
  }

  lemma SettledAt(us: Users, ts: seq<Transfer>)
    ensures forall n :: n in us.users ==>
      SettledFn(us, ts)(n) == Balances(us)[n] - Received(ts, n) + Sent(ts, n)
  {
    forall n | n in us.users
      ensures SettledFn(us, ts)(n) == Balances(us)[n] - Received(ts, n) + Sent(ts, n)
    {
      assert BalanceFn(us)(n) == Balances(us)[n];
    }
  }

  /** The facts about the plan the settlement bound rests on. */
  lemma PlanFacts(us: Users, order: seq<string>, plan: seq<Transfer>)
    requires IsEnumeration(order, us.users.Keys)
    requires |us.users| >= 2
    requires CalculateTotalPayments(us, order).plan == Ok(plan)
    ensures forall t :: t in plan ==> t.creditor in us.users && t.debtor in us.users
    ensures Capped(Balances(us), plan)
    ensures var bal := Balances(us);
      || (forall n :: n in bal && bal[n] > Eps ==> Received(plan, n) >= bal[n] - Eps)
      || (forall n :: n in bal && bal[n] < -Eps ==> Sent(plan, n) >= -bal[n] - Eps)
  {
    PlanProperties(us, order, CreditorsOf(us, order), DebtorsOf(us, order), plan);
  }

  /** `n` tolerances added up are `n` times the tolerance. */
  lemma {:induction false} TimesEps(n: nat)
    ensures Times(n, Eps) == (n as real) * Eps
  {
    if n > 0 { TimesEps(n - 1); }
  }

  /** Carrying out the plan that `calculate_total_payments` returns for a
      well-formed, balanced ledger leaves every user within `|users| - 1`
      tolerances of even. One side is paid off to within the tolerance each,
      nobody is overpaid, and the settled balances add up to zero, so what
      the other side is left with is bounded by the first side's remainders. */
  lemma PlanSettlesEveryone(us: Users, order: seq<string>, plan: seq<Transfer>)
    requires IsEnumeration(order, us.users.Keys)
    requires |us.users| >= 2
    requires WellFormed(us) && Balanced(us)
    requires CalculateTotalPayments(us, order).plan == Ok(plan)
    ensures forall n :: n in us.users ==>
      && -((|us.users| - 1) as real) * Eps <= Balances(us)[n] - Received(plan, n) + Sent(plan, n)
      && Balances(us)[n] - Received(plan, n) + Sent(plan, n) <= ((|us.users| - 1) as real) * Eps
  {
    PlanFacts(us, order, plan);
    SettledSum(us, plan);
    SettledWithin(us, plan);
  }

  /** The bound of `PlanSettlesEveryone`, from the facts it rests on. */
  lemma SettledWithin(us: Users, plan: seq<Transfer>)
    requires |us.users| >= 2
    requires Capped(Balances(us), plan)
    requires var bal := Balances(us);
      || (forall n :: n in bal && bal[n] > Eps ==> Received(plan, n) >= bal[n] - Eps)
      || (forall n :: n in bal && bal[n] < -Eps ==> Sent(plan, n) >= -bal[n] - Eps)
    requires SumSet(us.users.Keys, SettledFn(us, plan)) == 0.0
    ensures forall n :: n in us.users ==>
      && -((|us.users| - 1) as real) * Eps <= Balances(us)[n] - Received(plan, n) + Sent(plan, n)
      && Balances(us)[n] - Received(plan, n) + Sent(plan, n) <= ((|us.users| - 1) as real) * Eps
  {
    SettledAt(us, plan);
    var bal := Balances(us);
    SameKeysSize(bal, us.users);
    EvenWithin(bal, plan, SettledFn(us, plan));
    TimesEps(|us.users| - 1);
  }
}
