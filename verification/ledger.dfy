/** The expense ledger of `src/lib.rs`: a registry of users keyed by name and
    an ordered list of transactions, with its guarded mutators. Every mutator
    is a lookup followed by an update; a failed lookup or check leaves the
    ledger exactly as it was (the source only prints a message). */
module Ledger {
  import opened Wrappers
  import opened Collections

  /** A participant weight is a Rust `u8`. */
  type Weight = w: int | 0 <= w < 256

  /** One user's running totals; positive `netBalance` means the user is owed money. */
  datatype User = User(amountPaid: real, netBalance: real)

  /** One user's part in a transaction; `fairShare` is filled in when the
      transaction is recorded. */
  datatype Participant = Participant(name: string, weight: Weight, fairShare: Option<real>)

  datatype Transaction = Transaction(amount: real, participants: seq<Participant>)

  /** The ledger: users by name (a hash map) and the transactions in insertion order. */
  datatype Users = Users(users: map<string, User>, transactions: seq<Transaction>)

  /** A freshly added or settled user. */
  const Fresh := User(0.0, 0.0)

  /** The names of `ps`, in order. */
  function Names(ps: seq<Participant>): (ns: seq<string>)
    ensures |ns| == |ps|
    ensures forall i :: 0 <= i < |ps| ==> ns[i] == ps[i].name
  {
    seq(|ps|, i requires 0 <= i < |ps| => ps[i].name)
  }

  /** The first participant named `name`, as Rust's `Iterator::find` returns it. */
  function Find(ps: seq<Participant>, name: string): (r: Option<Participant>)
    ensures r.None? <==> name !in Names(ps)
    ensures r.Some? ==> r.value in ps && r.value.name == name
    ensures r.Some? ==> exists k :: 0 <= k < |ps| && ps[k] == r.value && FirstNamed(ps, name, k)
  {
    if |ps| == 0 then None
    else if ps[0].name == name then
      assert FirstNamed(ps, name, 0);
      Some(ps[0])
    else
      var r := Find(ps[1..], name);
      FindSkip(ps, name, r);
      r
  }

  /** No participant before position `k` is named `name`. */
  predicate FirstNamed(ps: seq<Participant>, name: string, k: nat) {
    forall j :: 0 <= j < k && j < |ps| ==> ps[j].name != name
  }

  /** A lookup that skips a head with another name finds what the tail lookup finds. */
  lemma FindSkip(ps: seq<Participant>, name: string, r: Option<Participant>)
    requires |ps| > 0 && ps[0].name != name
    requires r.None? <==> name !in Names(ps[1..])
    requires r.Some? ==> r.value in ps[1..] && r.value.name == name
    requires r.Some? ==> exists k :: 0 <= k < |ps[1..]| && ps[1..][k] == r.value && FirstNamed(ps[1..], name, k)
    ensures r.None? <==> name !in Names(ps)
    ensures r.Some? ==> r.value in ps && r.value.name == name
    ensures r.Some? ==> exists k :: 0 <= k < |ps| && ps[k] == r.value && FirstNamed(ps, name, k)
  {
    NamesCons(ps, name);
    if r.Some? {
      var k :| 0 <= k < |ps[1..]| && ps[1..][k] == r.value && FirstNamed(ps[1..], name, k);
      FirstNamedCons(ps, name, k);
    }
  }

  /** A name is among the names of a non-empty list when it is the head's or among the tail's. */
  lemma NamesCons(ps: seq<Participant>, name: string)
    requires |ps| > 0
    ensures name in Names(ps) <==> name == ps[0].name || name in Names(ps[1..])
  {
    assert Names(ps) == [ps[0].name] + Names(ps[1..]);
  }

  /** Skipping a head with another name moves the first position one place. */
  lemma FirstNamedCons(ps: seq<Participant>, name: string, k: nat)
    requires |ps| > 0 && ps[0].name != name
    requires k < |ps[1..]| && FirstNamed(ps[1..], name, k)
    ensures ps[k + 1] == ps[1..][k] && FirstNamed(ps, name, k + 1)
  {
    forall j | 0 <= j < k + 1 && j < |ps| ensures ps[j].name != name {
      if j > 0 {
        assert ps[j] == ps[1..][j - 1];
      }
    }
  }

  /** The fair share of `name` in `t` exactly as `calculate_total_payments`
      reads it: the `unwrap` of the participant lookup panics when the
      transaction does not list `name`, hence the precondition; a missing
      fair share counts as zero. */
  function ShareOf(t: Transaction, name: string): (share: real)
    requires name in Names(t.participants)
    ensures exists k :: (&& 0 <= k < |t.participants| && t.participants[k].name == name
                         && FirstNamed(t.participants, name, k)
                         && share == t.participants[k].fairShare.GetOr(0.0))
  {
    Find(t.participants, name).value.fairShare.GetOr(0.0)
  }

  /** The fair share of `name` in `t`, reading a transaction that does not
      list `name` as a zero share. */
  function ShareOrZero(t: Transaction, name: string): (share: real)
    ensures name !in Names(t.participants) ==> share == 0.0
    ensures name in Names(t.participants) ==> share == ShareOf(t, name)
  {
    match Find(t.participants, name)
    case None => 0.0
    case Some(p) => p.fairShare.GetOr(0.0)
  }

  /** The empty ledger of `Users::new`. */
  function New(): (us: Users)
    ensures |us.users| == 0 && |us.transactions| == 0
  {
    Users(map[], [])
  }

  /** `add_user`: insert a fresh user unless the name is taken. */
  function AddUser(us: Users, name: string): (r: Users)
    ensures name in us.users ==> r == us
    ensures name !in us.users ==> r.users == us.users[name := Fresh]
    ensures r.users.Keys == us.users.Keys + {name}
    ensures r.transactions == us.transactions
  {
    if name in us.users then us
    else us.(users := us.users[name := Fresh])
  }

  /** `list_users` returns the key set in the hash map's iteration order,
      which is unspecified; any enumeration of the keys may come back. */
  method ListUsers(us: Users) returns (names: seq<string>)
    ensures IsEnumeration(names, us.users.Keys)
  {
    names := [];
    var rest := us.users.Keys;
    while rest != {}
      invariant rest <= us.users.Keys
      invariant |names| + |rest| == |us.users.Keys|
      invariant Distinct(names)
      invariant forall i :: 0 <= i < |names| ==> names[i] in us.users && names[i] !in rest
      invariant forall x :: x in us.users.Keys ==> x in rest || x in names
      decreases |rest|
    {
      var n :| n in rest;
      names := names + [n];
      rest := rest - {n};
    }
  }

  /** `remove_user`: delete the user if present. Transactions that list the
      user are left as they are. */
  function RemoveUser(us: Users, name: string): (r: Users)
    ensures name !in us.users ==> r == us
    ensures r.users.Keys == us.users.Keys - {name}
    ensures forall n :: n in r.users ==> r.users[n] == us.users[n]
    ensures r.transactions == us.transactions
  {
    if name !in us.users then us
    else us.(users := us.users - {name})
  }

  /** The participants of an equal split: every name of `order` with weight
      one and the same share. */
  function EqualSplit(order: seq<string>, share: real): (ps: seq<Participant>)
    ensures Names(ps) == order
    ensures forall p :: p in ps ==> p.weight == 1 && p.fairShare == Some(share)
  {
    seq(|order|, i requires 0 <= i < |order| => Participant(order[i], 1, Some(share)))
  }

  /** `record_payment`: the payer fronts `amount` for everybody. `order` is the
      hash map's iteration order, which decides the order of the participants. */
  function RecordPayment(us: Users, payer: string, amount: real, order: seq<string>): (r: Users)
    requires IsEnumeration(order, us.users.Keys)
    ensures payer !in us.users ==> r == us
    ensures payer in us.users ==>
      && r.users.Keys == us.users.Keys
      && r.users[payer] == us.users[payer].(amountPaid := us.users[payer].amountPaid + amount)
      && (forall n :: n in us.users && n != payer ==> r.users[n] == us.users[n])
      && |r.transactions| == |us.transactions| + 1
      && r.transactions[..|us.transactions|] == us.transactions
      && r.transactions[|us.transactions|].amount == amount
      && IsEnumeration(Names(r.transactions[|us.transactions|].participants), us.users.Keys)
      && (forall p :: p in r.transactions[|us.transactions|].participants ==>
            p.weight == 1 && p.fairShare == Some(amount / (|us.users| as real)))
  {
    if payer !in us.users then us
    else
      var u := us.users[payer];
      var t := Transaction(amount, EqualSplit(order, amount / (|us.users| as real)));
      Users(us.users[payer := u.(amountPaid := u.amountPaid + amount)], us.transactions + [t])
  }

  /** The weights of `ps` added up without overflow. */
  function TotalWeight(ps: seq<Participant>): (w: nat)
    ensures |ps| > 0 && ps[0].weight > 0 ==> w > 0
  {
    if |ps| == 0 then 0 else ps[0].weight + TotalWeight(ps[1..])
  }

  /** When `calculate_fair_shares` neither panics nor yields NaN: the weights
      are summed as a `u8`, so the sum must fit in eight bits, and a non-empty
      list must have a positive total weight. */
  predicate WeightsFit(ps: seq<Participant>) {
    && TotalWeight(ps) <= 255
    && (|ps| > 0 ==> TotalWeight(ps) > 0)
  }

  /** `calculate_fair_shares`: each participant gets `amount * weight / total_weight`;
      an empty participant list is left as it is. */
  function CalculateFairShares(t: Transaction): (r: Transaction)
    requires WeightsFit(t.participants)
    ensures r.amount == t.amount
    ensures Names(r.participants) == Names(t.participants)
    ensures forall i :: 0 <= i < |t.participants| ==>
      && r.participants[i].weight == t.participants[i].weight
      && r.participants[i].fairShare.Some?
    ensures forall i :: 0 <= i < |t.participants| ==>
      r.participants[i].fairShare
        == Some(FairShare(t.amount, t.participants[i].weight, TotalWeight(t.participants) as real))
    ensures |t.participants| > 0 ==> TotalShares(r.participants) == t.amount
  {
    if |t.participants| == 0 then t
    else
      var total := TotalWeight(t.participants) as real;
      var ps := WithShares(t.participants, t.amount, total);
      SharesSumToAmount(t.participants, t.amount);
      Transaction(t.amount, ps)
  }

  /** `amount * weight / total`, the fair share of one participant. */
  function FairShare(amount: real, weight: Weight, total: real): real
    requires total > 0.0
  {
    amount * (weight as real) / total
  }

  /** Every participant of `ps` with its fair share of `amount` filled in. */
  function WithShares(ps: seq<Participant>, amount: real, total: real): (r: seq<Participant>)
    requires total > 0.0
    ensures |r| == |ps|
    ensures forall i :: 0 <= i < |ps| ==>
      r[i] == ps[i].(fairShare := Some(FairShare(amount, ps[i].weight, total)))
  {
    if |ps| == 0 then []
    else [ps[0].(fairShare := Some(FairShare(amount, ps[0].weight, total)))] + WithShares(ps[1..], amount, total)
  }

  /** The fair shares of `ps` added up (a missing share counts as zero). */
  function TotalShares(ps: seq<Participant>): real {
    if |ps| == 0 then 0.0 else ps[0].fairShare.GetOr(0.0) + TotalShares(ps[1..])
  }

  /** A fair share times the total is the amount times the weight. */
  lemma FairShareScaled(amount: real, weight: Weight, total: real)
    requires total > 0.0
    ensures FairShare(amount, weight, total) * total == amount * (weight as real)
  {
  }

  /** Shares proportional to the weights add up to `amount * weights / total`
      (stated multiplied out, to keep division out of the induction). */
  lemma SharesProportional(ps: seq<Participant>, amount: real, total: real)
    requires total > 0.0
    ensures TotalShares(WithShares(ps, amount, total)) * total == amount * (TotalWeight(ps) as real)
  {
    var r := WithShares(ps, amount, total);
    forall i | 0 <= i < |ps| ensures ShareScaled(ps[i], r[i], amount, total) {
      FairShareScaled(amount, ps[i].weight, total);
    }
    ScaledShares(ps, r, amount, total);
  }

  /** `s * t == m * w`, kept behind a name so that sums of such equations
      are combined without unfolding every product. */
  predicate Scaled(s: real, t: real, m: real, w: real) {
    s * t == m * w
  }

  /** `q` carries the share of `amount` that `p`'s weight earns out of `total`. */
  predicate ShareScaled(p: Participant, q: Participant, amount: real, total: real) {
    q.fairShare.Some? && Scaled(q.fairShare.value, total, amount, p.weight as real)
  }

  /** Shares that are each `amount * weight / total` add up to
      `amount * weights / total` (both stated multiplied out). */
  lemma {:induction false} ScaledShares(ps: seq<Participant>, r: seq<Participant>, amount: real, total: real)
    requires |r| == |ps|
    requires forall i :: 0 <= i < |ps| ==> ShareScaled(ps[i], r[i], amount, total)
    ensures Scaled(TotalShares(r), total, amount, TotalWeight(ps) as real)
    decreases |ps|
  {
    if |ps| > 0 {
      assert forall i :: 0 <= i < |ps[1..]| ==> r[1..][i] == r[i + 1] && ps[1..][i] == ps[i + 1];
      ScaledShares(ps[1..], r[1..], amount, total);
      assert ShareScaled(ps[0], r[0], amount, total);
      ScaledSum(TotalShares(r), r[0].fairShare.value, TotalShares(r[1..]), total,
        amount, TotalWeight(ps) as real, ps[0].weight as real, TotalWeight(ps[1..]) as real);
    } else {
      ScaledSum(TotalShares(r), 0.0, 0.0, total, amount, TotalWeight(ps) as real, 0.0, 0.0);
    }
  }

  /** Adding two scaled equations term by term. */
  lemma ScaledSum(sum: real, a: real, b: real, t: real, m: real, w: real, x: real, y: real)
    requires sum == a + b && w == x + y
    requires Scaled(a, t, m, x) && Scaled(b, t, m, y)
    ensures Scaled(sum, t, m, w)
  {
    assert (a + b) * t == a * t + b * t;
    assert m * (x + y) == m * x + m * y;
  }

  /** Two reals with equal products by the same positive factor are equal. */
  lemma CancelFactor(x: real, y: real, total: real)
    requires total > 0.0 && x * total == y * total
    ensures x == y
  {
    assert (x - y) * total == 0.0;
  }

  /** With the total weight as divisor, the fair shares add up to the amount. */
  lemma SharesSumToAmount(ps: seq<Participant>, amount: real)
    requires TotalWeight(ps) > 0
    ensures TotalShares(WithShares(ps, amount, TotalWeight(ps) as real)) == amount
  {
    var total := TotalWeight(ps) as real;
    SharesProportional(ps, amount, total);
    var sum := TotalShares(WithShares(ps, amount, total));
    assert sum * total == amount * (TotalWeight(ps) as real);
    assert amount * (TotalWeight(ps) as real) == amount * total;
    assert sum * total == amount * total;
    CancelFactor(TotalShares(WithShares(ps, amount, total)), amount, total);
  }

  /** The check of `record_weighted_payment`: as many participants as users,
      and every participant name is a user. */
  predicate ParticipantsValid(us: Users, t: Transaction) {
    && |t.participants| == |us.users|
    && forall p :: p in t.participants ==> p.name in us.users
  }

  /** `record_weighted_payment`: validate the participants, compute the fair
      shares (which panics unless the weights fit), then look up the payer. */
  function RecordWeightedPayment(us: Users, payer: string, t: Transaction): (r: Users)
    requires ParticipantsValid(us, t) ==> WeightsFit(t.participants)
    ensures !ParticipantsValid(us, t) || payer !in us.users ==> r == us
    ensures ParticipantsValid(us, t) && payer in us.users ==>
      && r.users.Keys == us.users.Keys
      && r.users[payer] == us.users[payer].(amountPaid := us.users[payer].amountPaid + t.amount)
      && (forall n :: n in us.users && n != payer ==> r.users[n] == us.users[n])
      && r.transactions == us.transactions + [CalculateFairShares(t)]
  {
    if !ParticipantsValid(us, t) then us
    else
      var shared := CalculateFairShares(t);
      if payer !in us.users then us
      else
        var u := us.users[payer];
        Users(us.users[payer := u.(amountPaid := u.amountPaid + t.amount)], us.transactions + [shared])
  }

  /** The participant check the weighted payment evidently intends: the
      participant names are exactly the user names, each listed once. */
  predicate ParticipantsExact(us: Users, t: Transaction) {
    && ParticipantsValid(us, t)
    && Distinct(Names(t.participants))
  }

  /** `record_weighted_payment` with the participant check corrected to
      reject duplicate names. */
  function RecordWeightedPaymentExact(us: Users, payer: string, t: Transaction): (r: Users)
    requires ParticipantsExact(us, t) ==> WeightsFit(t.participants)
    ensures !ParticipantsExact(us, t) || payer !in us.users ==> r == us
    ensures ParticipantsExact(us, t) ==> r == RecordWeightedPayment(us, payer, t)
    ensures ParticipantsExact(us, t) && payer in us.users ==>
      && IsEnumeration(Names(r.transactions[|us.transactions|].participants), us.users.Keys)
      && TotalShares(r.transactions[|us.transactions|].participants) == t.amount
  {
    if !ParticipantsExact(us, t) then us
    else
      var r := RecordWeightedPayment(us, payer, t);
      if payer in us.users then
        var ns := Names(r.transactions[|us.transactions|].participants);
        assert ns == Names(t.participants);
        assert forall i :: 0 <= i < |ns| ==> ns[i] in us.users by {
          forall i | 0 <= i < |ns| ensures ns[i] in us.users {
            assert t.participants[i] in t.participants;
          }
        }
        DistinctCovers(ns, us.users.Keys);
        r
      else r
  }

  /** A duplicate-free sequence of members of `keys` that is as long as `keys` lists all of it. */
  lemma DistinctCovers(ns: seq<string>, keys: set<string>)
    requires Distinct(ns) && |ns| == |keys|
    requires forall i :: 0 <= i < |ns| ==> ns[i] in keys
    ensures IsEnumeration(ns, keys)
  {
    var s := set i | 0 <= i < |ns| :: ns[i];
    assert s <= keys;
    DistinctCard(ns);
    if s != keys {
      var x :| x in keys && x !in s;
      SubsetCard(s, keys - {x});
      assert false;
    }
    assert forall x :: x in keys ==> x in ns by {
      forall x | x in keys ensures x in ns {
        assert x in s;
      }
    }
  }

  /** A subset is no larger than its superset. */
  lemma {:induction false} SubsetCard(a: set<string>, b: set<string>)
    requires a <= b
    ensures |a| <= |b|
    decreases |b|
  {
    if a != {} {
      var x :| x in a;
      SubsetCard(a - {x}, b - {x});
    }
  }

  /** A duplicate-free sequence has as many distinct elements as entries. */
  lemma {:induction false} DistinctCard(ns: seq<string>)
    requires Distinct(ns)
    ensures |set i | 0 <= i < |ns| :: ns[i]| == |ns|
    decreases |ns|
  {
    if |ns| > 0 {
      var t := ns[..|ns| - 1];
      DistinctCard(t);
      var st := set i | 0 <= i < |t| :: t[i];
      var s := set i | 0 <= i < |ns| :: ns[i];
      assert s == st + {ns[|ns| - 1]};
      assert ns[|ns| - 1] !in st;
    }
  }

  /** `remove_payment`: lower the payer's paid amount, clamped at zero. */
  function RemovePayment(us: Users, payer: string, amount: real): (r: Users)
    ensures payer !in us.users ==> r == us
    ensures r.transactions == us.transactions
    ensures r.users.Keys == us.users.Keys
    ensures forall n :: n in us.users && n != payer ==> r.users[n] == us.users[n]
    ensures payer in us.users ==>
      && r.users[payer].netBalance == us.users[payer].netBalance
      && r.users[payer].amountPaid >= 0.0
      && r.users[payer].amountPaid >= us.users[payer].amountPaid - amount
      && (r.users[payer].amountPaid == 0.0 || r.users[payer].amountPaid == us.users[payer].amountPaid - amount)
  {
    if payer !in us.users then us
    else
      var u := us.users[payer];
      var paid := u.amountPaid - amount;
      us.(users := us.users[payer := u.(amountPaid := if paid < 0.0 then 0.0 else paid)])
  }

  /** `settle_up`: zero every user and forget all transactions. */
  function SettleUp(us: Users): (r: Users)
    ensures r.users.Keys == us.users.Keys
    ensures forall n :: n in r.users ==> r.users[n] == Fresh
    ensures r.transactions == []
  {
    Users(map n | n in us.users :: Fresh, [])
  }

  // Relations between the mutators.

  /** Adding a name twice is the same as adding it once, and the name is then present. */
  lemma AddUserIdempotent(us: Users, name: string)
    ensures AddUser(AddUser(us, name), name) == AddUser(us, name)
    ensures name in AddUser(us, name).users
  {
  }

  /** Removing a freshly added user restores the ledger; adding back a removed
      user restores it up to that user's totals. */
  lemma AddRemoveInverse(us: Users, name: string)
    ensures name !in us.users ==> RemoveUser(AddUser(us, name), name) == us
    ensures name in us.users ==>
      AddUser(RemoveUser(us, name), name) == us.(users := us.users[name := Fresh])
  {
    if name !in us.users {
      assert us.users[name := Fresh] - {name} == us.users;
    } else {
      assert (us.users - {name})[name := Fresh] == us.users[name := Fresh];
    }
  }

  /** Removing a payment just recorded restores every user's totals (but
      not the transaction list) when nothing gets clamped. */
  lemma RemovePaymentUndoesRecord(us: Users, payer: string, amount: real, order: seq<string>)
    requires IsEnumeration(order, us.users.Keys)
    requires payer in us.users ==> us.users[payer].amountPaid >= 0.0
    ensures RemovePayment(RecordPayment(us, payer, amount, order), payer, amount).users == us.users
  {
    var r := RemovePayment(RecordPayment(us, payer, amount, order), payer, amount);
    if payer in us.users {
      assert r.users[payer] == us.users[payer];
    }
  }

  /** Settling twice is settling once. */
  lemma SettleUpIdempotent(us: Users)
    ensures SettleUp(SettleUp(us)) == SettleUp(us)
  {
  }
}
