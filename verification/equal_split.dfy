/** The earlier, equal-split ledger of `src/main.rs`: users in a vector,
    payments added to (or taken from) whoever carries the given name, and a
    settlement that charges everybody the same share of the total paid. */
module EqualSplit {
  import opened Collections

  datatype User = User(name: string, amountPaid: real, netBalance: real)

  datatype Users = Users(users: seq<User>)

  /** The names of `us`, in vector order. */
  function Names(us: seq<User>): (ns: seq<string>)
    ensures |ns| == |us|
    ensures forall i :: 0 <= i < |us| ==> ns[i] == us[i].name
  {
    seq(|us|, i requires 0 <= i < |us| => us[i].name)
  }

  /** `add_user`: append a fresh user unless the name is taken. */
  function AddUser(us: Users, name: string): (r: Users)
    ensures name in Names(us.users) ==> r == us
    ensures name !in Names(us.users) ==> r.users == us.users + [User(name, 0.0, 0.0)]
    ensures name in Names(r.users)
    ensures Distinct(Names(us.users)) ==> Distinct(Names(r.users))
  {
    if name in Names(us.users) then us
    else
      var r := Users(us.users + [User(name, 0.0, 0.0)]);
      assert Names(r.users) == Names(us.users) + [name];
      assert Names(r.users)[|us.users|] == name;
      r
  }

  /** Every user named `name` with `delta` added to the amount paid: the
      reference for the two payment loops. */
  function Adjust(us: seq<User>, name: string, delta: real): (r: seq<User>)
    ensures |r| == |us| && Names(r) == Names(us)
    ensures forall i :: 0 <= i < |us| ==>
      && r[i].netBalance == us[i].netBalance
      && r[i].amountPaid == us[i].amountPaid + (if us[i].name == name then delta else 0.0)
  {
    seq(|us|, i requires 0 <= i < |us| =>
      if us[i].name == name then us[i].(amountPaid := us[i].amountPaid + delta) else us[i])
  }

  /** `record_payment`: add `amount` to every user named `user`; `found`
      reports whether there was one. */
  method RecordPayment(us: Users, user: string, amount: real) returns (r: Users, found: bool)
    ensures r.users == Adjust(us.users, user, amount)
    ensures found <==> user in Names(us.users)
  {
    var vs := us.users;
    found := false;
    var i := 0;
    while i < |vs|
      invariant 0 <= i <= |vs| && |vs| == |us.users|
      invariant vs[..i] == Adjust(us.users, user, amount)[..i]
      invariant vs[i..] == us.users[i..]
      invariant found <==> user in Names(us.users)[..i]
    {
      if vs[i].name == user {
        vs := vs[i := vs[i].(amountPaid := vs[i].amountPaid + amount)];
        found := true;
      }
      assert Names(us.users)[..i + 1] == Names(us.users)[..i] + [us.users[i].name];
      i := i + 1;
    }
    assert Names(us.users)[..i] == Names(us.users);
    r := Users(vs);
  }

  /** `remove_payment`: subtract `amount` from every user named `user`, with
      no lower bound; `found` reports whether there was one. */
  method RemovePayment(us: Users, user: string, amount: real) returns (r: Users, found: bool)
    ensures r.users == Adjust(us.users, user, -amount)
    ensures found <==> user in Names(us.users)
  {
    var vs := us.users;
    found := false;
    var i := 0;
    while i < |vs|
      invariant 0 <= i <= |vs| && |vs| == |us.users|
      invariant vs[..i] == Adjust(us.users, user, -amount)[..i]
      invariant vs[i..] == us.users[i..]
      invariant found <==> user in Names(us.users)[..i]
    {
      if vs[i].name == user {
        vs := vs[i := vs[i].(amountPaid := vs[i].amountPaid - amount)];
        found := true;
      }
      assert Names(us.users)[..i + 1] == Names(us.users)[..i] + [us.users[i].name];
      i := i + 1;
    }
    assert Names(us.users)[..i] == Names(us.users);
    r := Users(vs);
  }

  /** Removing a payment just recorded restores every user. */
  lemma RemoveUndoesRecord(us: seq<User>, name: string, amount: real)
    ensures Adjust(Adjust(us, name, amount), name, -amount) == us
  {
  }

  /** A payment for a name nobody carries changes nothing. */
  lemma AdjustUnknown(us: seq<User>, name: string, delta: real)
    requires name !in Names(us)
    ensures Adjust(us, name, delta) == us
  {
    assert forall i :: 0 <= i < |us| ==> us[i].name == Names(us)[i];
  }

  /** The amounts paid, added up. */
  function SumPaid(us: seq<User>): real {
    if |us| == 0 then 0.0 else us[0].amountPaid + SumPaid(us[1..])
  }

  /** The net balances, added up. */
  function SumNet(us: seq<User>): real {
    if |us| == 0 then 0.0 else us[0].netBalance + SumNet(us[1..])
  }

  /** Every user charged `share`: the net balance becomes paid minus share. */
  function Charge(us: seq<User>, share: real): (r: seq<User>)
    ensures |r| == |us|
    ensures forall i :: 0 <= i < |us| ==>
      r[i].name == us[i].name && r[i].amountPaid == us[i].amountPaid
      && r[i].netBalance == us[i].amountPaid - share
  {
    seq(|us|, i requires 0 <= i < |us| => us[i].(netBalance := us[i].amountPaid - share))
  }

  /** Charging everybody `share` leaves net balances summing to the total
      paid less `share` per user. */
  lemma {:induction false} ChargeSum(us: seq<User>, share: real)
    ensures SumNet(Charge(us, share)) == SumPaid(us) - (|us| as real) * share
    decreases |us|
  {
    if |us| > 0 {
      var r := Charge(us, share);
      assert r[1..] == Charge(us[1..], share);
      ChargeSum(us[1..], share);
      var n := |us[1..]| as real;
      assert (n + 1.0) * share == n * share + share;
    }
  }

  /** `calculate_total_payments`: with no users nothing happens; otherwise
      every user's net balance becomes what they paid less an equal share of
      the total, so the net balances add up to zero and names and payments
      stay as they were. */
  function CalculateTotalPayments(us: Users): (r: Users)
    ensures |us.users| == 0 ==> r == us
    ensures |r.users| == |us.users| && Names(r.users) == Names(us.users)
    ensures forall i :: 0 <= i < |us.users| ==> r.users[i].amountPaid == us.users[i].amountPaid
    ensures SumNet(r.users) == 0.0
    ensures forall i, j :: 0 <= i < |us.users| && 0 <= j < |us.users| ==>
      r.users[i].amountPaid - r.users[i].netBalance == r.users[j].amountPaid - r.users[j].netBalance
  {
    if |us.users| == 0 then us
    else
      var n := |us.users| as real;
      var share := SumPaid(us.users) / n;
      var r := Charge(us.users, share);
      ChargeSum(us.users, share);
      assert n * share == SumPaid(us.users);
      Users(r)
  }

  /** The run of `main`: users A, B and C, A pays 50 and B pays 30; the
      settlement charges each 80/3, so A is owed 70/3, B is owed 10/3 and C
      owes 80/3. */
  lemma MainScenario()
    ensures var us := AddUser(AddUser(AddUser(Users([]), "A"), "B"), "C");
      var paid := Users(Adjust(Adjust(us.users, "A", 50.0), "B", 30.0));
      CalculateTotalPayments(paid).users
        == [User("A", 50.0, 70.0 / 3.0), User("B", 30.0, 10.0 / 3.0), User("C", 0.0, -80.0 / 3.0)]
  {
    var us := AddUser(AddUser(AddUser(Users([]), "A"), "B"), "C");
    assert us.users == [User("A", 0.0, 0.0), User("B", 0.0, 0.0), User("C", 0.0, 0.0)];
    var paid := Adjust(Adjust(us.users, "A", 50.0), "B", 30.0);
    assert paid == [User("A", 50.0, 0.0), User("B", 30.0, 0.0), User("C", 0.0, 0.0)];
    assert paid[1..] == [User("B", 30.0, 0.0), User("C", 0.0, 0.0)];
    assert paid[1..][1..] == [User("C", 0.0, 0.0)];
    assert paid[1..][1..][1..] == [];
    assert SumPaid(paid[1..][1..]) == 0.0;
    assert SumPaid(paid[1..]) == 30.0;
    assert SumPaid(paid) == 80.0;
  }
}
