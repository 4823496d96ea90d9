/** Showings, attendees and what they owe: mutations as transactions over two tables.
    Source: internal/graph/showing.resolvers.go and internal/database/dao. */
module Payments {
  import opened Wrappers

  type User = nat
  type ShowingId = nat

  datatype PaymentType = Swish | GiftCertificate

  datatype Showing = Showing(price: int, ticketsBought: bool, admin: User, payTo: User)

  datatype Attendee = Attendee(kind: PaymentType, hasPaid: bool, amountOwed: int, giftCertificate: Option<string>)

  /** The primary key of an attendee */
  datatype Key = Key(showing: ShowingId, user: User)

  datatype Tables = Tables(showings: map<ShowingId, Showing>, attendees: map<Key, Attendee>)

  // ---------- Statements ----------

  predicate IsAdmin(t: Tables, id: ShowingId, user: User) {
    id in t.showings && t.showings[id].admin == user
  }

  /** Gift certificates are used by one attendee at most. */
  predicate CertificateFree(t: Tables, certificate: Option<string>) {
    certificate.Some? ==> forall k :: k in t.attendees ==> t.attendees[k].giftCertificate != certificate
  }

  /** The constraints of an inserted attendee: foreign key, primary key and unique certificate */
  predicate CanAddAttendee(t: Tables, k: Key, a: Attendee) {
    k.showing in t.showings && k !in t.attendees && CertificateFree(t, a.giftCertificate)
  }

  function MarkGiftCertificates(t: Tables, admin: User, id: ShowingId): Tables {
    if !IsAdmin(t, id, admin) then t
    else t.(attendees := map k | k in t.attendees ::
              if k.showing == id && (t.attendees[k].giftCertificate.Some? || k.user == admin)
              then t.attendees[k].(hasPaid := true, amountOwed := 0) else t.attendees[k])
  }

  function SetAmountOwed(t: Tables, amount: int, admin: User, id: ShowingId): Tables {
    if !IsAdmin(t, id, admin) then t
    else t.(attendees := map k | k in t.attendees ::
              if k.showing == id && t.attendees[k].giftCertificate.None? && !t.attendees[k].hasPaid
              then t.attendees[k].(amountOwed := amount) else t.attendees[k])
  }

  function SetBought(t: Tables, price: int, id: ShowingId, admin: User): Tables {
    if IsAdmin(t, id, admin) && !t.showings[id].ticketsBought
    then t.(showings := t.showings[id := t.showings[id].(ticketsBought := true, price := price)])
    else t
  }

  function SetValues(t: Tables, price: int, payTo: User, id: ShowingId, admin: User): Tables {
    if IsAdmin(t, id, admin)
    then t.(showings := t.showings[id := t.showings[id].(price := price, payTo := payTo)])
    else t
  }

  function SetAdmin(t: Tables, newAdmin: User, id: ShowingId, admin: User): Tables {
    if IsAdmin(t, id, admin) && !t.showings[id].ticketsBought
    then t.(showings := t.showings[id := t.showings[id].(admin := newAdmin, payTo := newAdmin)])
    else t
  }

  function SetPayment(t: Tables, k: Key, hasPaid: bool, amountOwed: int): Tables {
    if k in t.attendees
    then t.(attendees := t.attendees[k := t.attendees[k].(hasPaid := hasPaid, amountOwed := amountOwed)])
    else t
  }

  /** Deletes a showing, and with it its attendees. */
  function RemoveShowing(t: Tables, id: ShowingId): Tables {
    Tables(t.showings - {id}, map k | k in t.attendees && k.showing != id :: t.attendees[k])
  }

  // ---------- Mutations ----------

  datatype Mutation =
    | AttendShowing(id: ShowingId, kind: PaymentType, ticketNumber: Option<string>)
    | UnattendShowing(id: ShowingId)
    | CreateShowing(id: ShowingId)
    | DeleteShowing(id: ShowingId)
    | MarkAsBought(id: ShowingId, price: int)
    | UpdateShowing(id: ShowingId, price: int, payTo: User)
    | PromoteToAdmin(id: ShowingId, newAdmin: User)
    | UpdatePayment(id: ShowingId, user: User, hasPaid: bool, amountOwed: int)

  function NewAttendee(price: int, kind: PaymentType, ticketNumber: Option<string>): Attendee {
    Attendee(kind, kind.GiftCertificate?, if kind.Swish? then price else 0, ticketNumber)
  }

  /** Whether the tables accept a mutation by a user. Prices are checked where a row is updated. */
  predicate Succeeds(t: Tables, caller: User, m: Mutation) {
    match m
    case AttendShowing(id, kind, number) =>
      id in t.showings && !t.showings[id].ticketsBought
      && CanAddAttendee(t, Key(id, caller), NewAttendee(t.showings[id].price, kind, number))
    case UnattendShowing(id) => Key(id, caller) in t.attendees
    case CreateShowing(id) => id !in t.showings && Key(id, caller) !in t.attendees
    case DeleteShowing(id) => id in t.showings
    case MarkAsBought(id, price) => id in t.showings && !t.showings[id].ticketsBought
      && (IsAdmin(t, id, caller) ==> price >= 0)
    case UpdateShowing(id, price, _) => IsAdmin(t, id, caller) ==> price >= 0
    case PromoteToAdmin(_, _) => true
    case UpdatePayment(id, user, _, _) => Key(id, user) in t.attendees
  }

  /** The tables after a mutation that succeeds */
  function Effect(t: Tables, caller: User, m: Mutation): Tables
    requires Succeeds(t, caller, m)
  {
    match m
    case AttendShowing(id, kind, number) =>
      t.(attendees := t.attendees[Key(id, caller) := NewAttendee(t.showings[id].price, kind, number)])
    case UnattendShowing(id) => t.(attendees := t.attendees - {Key(id, caller)})
    case CreateShowing(id) =>
      Tables(t.showings[id := Showing(0, false, caller, caller)],
        t.attendees[Key(id, caller) := Attendee(Swish, true, 0, None)])
    case DeleteShowing(id) => RemoveShowing(t, id)
    case MarkAsBought(id, price) =>
      SetBought(SetAmountOwed(MarkGiftCertificates(t, caller, id), price, caller, id), price, id, caller)
    case UpdateShowing(id, price, payTo) => SetValues(t, price, payTo, id, caller)
    case PromoteToAdmin(id, newAdmin) => SetAdmin(t, newAdmin, id, caller)
    case UpdatePayment(id, user, hasPaid, amountOwed) => SetPayment(t, Key(id, user), hasPaid, amountOwed)
  }

  /** One mutation, atomically: a failed one changes nothing. */
  function Step(t: Tables, caller: User, m: Mutation): Tables {
    if Succeeds(t, caller, m) then Effect(t, caller, m) else t
  }

  // ---------- What buying settles ----------

  /** Every attendee has paid, or owes exactly this price. */
  ghost predicate Settled(t: Tables, id: ShowingId, price: int) {
    forall k :: k in t.attendees && k.showing == id ==> t.attendees[k].hasPaid || t.attendees[k].amountOwed == price
  }

  /** The attendees who have not paid */
  ghost function Unpaid(t: Tables, id: ShowingId): (s: set<Key>)
    ensures forall k :: k in s <==> k in t.attendees && k.showing == id && !t.attendees[k].hasPaid
  {
    set k | k in t.attendees && k.showing == id && !t.attendees[k].hasPaid
  }

  ghost function Debt(t: Tables, keys: set<Key>): int
    requires keys <= t.attendees.Keys
  {
    if keys == {} then 0 else
      var k :| k in keys;
      t.attendees[k].amountOwed + Debt(t, keys - {k})
  }

  lemma {:induction false} EqualDebts(t: Tables, keys: set<Key>, price: int)
    requires keys <= t.attendees.Keys && forall k :: k in keys ==> t.attendees[k].amountOwed == price
    ensures Debt(t, keys) == price * |keys|
  {
    if keys != {} {
      var k :| k in keys && Debt(t, keys) == t.attendees[k].amountOwed + Debt(t, keys - {k});
      EqualDebts(t, keys - {k}, price);
      OneMore(price, |keys|);
    }
  }

  lemma OneMore(price: int, n: int)
    ensures price + price * (n - 1) == price * n
  {
  }

  lemma {:induction false} DebtLocal(t: Tables, r: Tables, keys: set<Key>)
    requires keys <= t.attendees.Keys && keys <= r.attendees.Keys
    requires forall k :: k in keys ==> t.attendees[k] == r.attendees[k]
    ensures Debt(t, keys) == Debt(r, keys)
  {
    if keys != {} {
      var k :| k in keys && Debt(t, keys) == t.attendees[k].amountOwed + Debt(t, keys - {k});
      DebtLocal(t, r, keys - {k});
      DebtWith(r, keys, k);
    }
  }

  /** The order in which debts are added up does not matter. */
  lemma {:induction false} DebtWith(t: Tables, keys: set<Key>, k: Key)
    requires keys <= t.attendees.Keys && k in keys
    ensures Debt(t, keys) == t.attendees[k].amountOwed + Debt(t, keys - {k})
  {
    var l :| l in keys && Debt(t, keys) == t.attendees[l].amountOwed + Debt(t, keys - {l});
    if l != k {
      DebtWith(t, keys - {l}, k);
      DebtWith(t, keys - {k}, l);
      assert keys - {l} - {k} == keys - {k} - {l};
    }
  }

  /** Attending raises the unpaid debt by exactly the price for a Swish payer, and not at all for the holder of a gift
      certificate. */
  lemma AttendingOwesPrice(t: Tables, caller: User, id: ShowingId, kind: PaymentType, ticketNumber: Option<string>)
    requires Succeeds(t, caller, AttendShowing(id, kind, ticketNumber))
    ensures var r := Step(t, caller, AttendShowing(id, kind, ticketNumber));
            Debt(r, Unpaid(r, id)) == Debt(t, Unpaid(t, id)) + if kind == Swish then t.showings[id].price else 0
  {
    var r, k := Step(t, caller, AttendShowing(id, kind, ticketNumber)), Key(id, caller);
    if kind == Swish {
      assert Unpaid(r, id) == Unpaid(t, id) + {k};
      DebtWith(r, Unpaid(r, id), k);
      assert Unpaid(r, id) - {k} == Unpaid(t, id);
    } else {
      assert Unpaid(r, id) == Unpaid(t, id);
    }
    DebtLocal(t, r, Unpaid(t, id));
  }

  /** Leaving takes what the leaver still owes from the debt. */
  lemma LeavingCancelsDebt(t: Tables, caller: User, id: ShowingId)
    requires Succeeds(t, caller, UnattendShowing(id))
    ensures var r, a := Step(t, caller, UnattendShowing(id)), t.attendees[Key(id, caller)];
            Debt(r, Unpaid(r, id)) == Debt(t, Unpaid(t, id)) - if a.hasPaid then 0 else a.amountOwed
  {
    var r, k := Step(t, caller, UnattendShowing(id)), Key(id, caller);
    if k in Unpaid(t, id) {
      DebtWith(t, Unpaid(t, id), k);
    }
    assert Unpaid(r, id) == Unpaid(t, id) - {k};
    assert k !in Unpaid(t, id) ==> Unpaid(r, id) == Unpaid(t, id);
    DebtLocal(t, r, Unpaid(r, id));
  }

  /** Once the admin's purchase is committed, every attendee has paid or owes exactly the price, so the unpaid debt
      is the price times the number who have not paid; nothing changes for other showings. */
  lemma PurchaseSettles(t: Tables, admin: User, id: ShowingId, price: int)
    requires Succeeds(t, admin, MarkAsBought(id, price)) && IsAdmin(t, id, admin)
    ensures var r := Effect(t, admin, MarkAsBought(id, price));
            && r.showings == t.showings[id := t.showings[id].(ticketsBought := true, price := price)]
            && r.attendees.Keys == t.attendees.Keys
            && Settled(r, id, price) && Debt(r, Unpaid(r, id)) == price * |Unpaid(r, id)|
            && (forall k :: k in t.attendees && k.showing != id ==> r.attendees[k] == t.attendees[k])
            && (forall k :: k in t.attendees && k.showing == id ==>
                  r.attendees[k] == var a := t.attendees[k];
                                    if a.giftCertificate.Some? || k.user == admin
                                    then a.(hasPaid := true, amountOwed := 0)
                                    else if a.hasPaid then a else a.(amountOwed := price))
            && Unpaid(r, id) == set k | k in Unpaid(t, id) && t.attendees[k].giftCertificate.None? && k.user != admin
  {
    var r := Effect(t, admin, MarkAsBought(id, price));
    EqualDebts(r, Unpaid(r, id), price);
  }

  /** A purchase by anyone else is committed too, but changes nothing. */
  lemma OnlyAdminBuys(t: Tables, caller: User, id: ShowingId, price: int)
    requires id in t.showings ==> t.showings[id].admin != caller
    ensures Step(t, caller, MarkAsBought(id, price)) == t
  {
  }

  // ---------- Runs ----------

  datatype Call = Call(caller: User, mutation: Mutation)

  function After(t: Tables, calls: seq<Call>): Tables
    decreases |calls|
  {
    if calls == [] then t else After(Step(t, calls[0].caller, calls[0].mutation), calls[1..])
  }

  /** Every attendee attends a showing that exists, no price is negative, and no gift certificate is used twice. */
  ghost predicate Consistent(t: Tables) {
    && (forall k :: k in t.attendees ==> k.showing in t.showings)
    && (forall id :: id in t.showings ==> t.showings[id].price >= 0)
    && CertificatesUnique(t)
  }

  ghost predicate CertificatesUnique(t: Tables) {
    forall k, l :: k in t.attendees && l in t.attendees && k != l ==>
      t.attendees[k].giftCertificate.None? || t.attendees[k].giftCertificate != t.attendees[l].giftCertificate
  }

  lemma StepKeepsCertificates(t: Tables, caller: User, m: Mutation)
    requires CertificatesUnique(t)
    ensures CertificatesUnique(Step(t, caller, m))
  {
  }

  lemma StepConsistent(t: Tables, caller: User, m: Mutation)
    requires Consistent(t)
    ensures Consistent(Step(t, caller, m))
  {
    StepKeepsCertificates(t, caller, m);
    hide CertificatesUnique;
  }

  lemma {:induction false} RunConsistent(t: Tables, calls: seq<Call>)
    requires Consistent(t)
    ensures Consistent(After(t, calls))
    decreases |calls|
  {
    if calls != [] {
      StepConsistent(t, calls[0].caller, calls[0].mutation);
      RunConsistent(Step(t, calls[0].caller, calls[0].mutation), calls[1..]);
    }
  }

  /** Ids of new showings are fresh, so none of these calls creates this showing again. */
  predicate NeverCreated(calls: seq<Call>, id: ShowingId) {
    forall i :: 0 <= i < |calls| ==> calls[i].mutation != CreateShowing(id)
  }

  predicate NoPaymentUpdates(calls: seq<Call>, id: ShowingId) {
    forall i :: 0 <= i < |calls| ==> !(calls[i].mutation.UpdatePayment? && calls[i].mutation.id == id)
  }

  /** Bought by this admin, or deleted since */
  ghost predicate BoughtBy(t: Tables, id: ShowingId, admin: User) {
    id in t.showings ==> t.showings[id].ticketsBought && t.showings[id].admin == admin
  }

  lemma StepKeepsBought(t: Tables, caller: User, m: Mutation, id: ShowingId, admin: User)
    requires BoughtBy(t, id, admin) && m != CreateShowing(id)
    ensures BoughtBy(Step(t, caller, m), id, admin)
  {
  }

  /** Over every run a bought showing stays bought, with the same admin, as long as it exists. */
  lemma {:induction false} RunKeepsBought(t: Tables, calls: seq<Call>, id: ShowingId, admin: User)
    requires BoughtBy(t, id, admin) && NeverCreated(calls, id)
    ensures BoughtBy(After(t, calls), id, admin)
    decreases |calls|
  {
    if calls != [] {
      StepKeepsBought(t, calls[0].caller, calls[0].mutation, id, admin);
      RunKeepsBought(Step(t, calls[0].caller, calls[0].mutation), calls[1..], id, admin);
    }
  }

  lemma StepKeepsSettled(t: Tables, caller: User, m: Mutation, id: ShowingId, admin: User, price: int)
    requires Consistent(t) && BoughtBy(t, id, admin) && Settled(t, id, price)
    requires m != CreateShowing(id) && !(m.UpdatePayment? && m.id == id)
    ensures Settled(Step(t, caller, m), id, price)
  {
  }

  /** After a purchase, whatever is done short of setting a payment by hand leaves every attendee paid or owing the
      price at which the tickets were bought, even if the price of the showing is changed later. */
  lemma {:induction false} RunKeepsSettled(t: Tables, calls: seq<Call>, id: ShowingId, admin: User, price: int)
    requires Consistent(t) && BoughtBy(t, id, admin) && Settled(t, id, price)
    requires NeverCreated(calls, id) && NoPaymentUpdates(calls, id)
    ensures Settled(After(t, calls), id, price)
    decreases |calls|
  {
    if calls != [] {
      var caller, m := calls[0].caller, calls[0].mutation;
      StepConsistent(t, caller, m);
      StepKeepsBought(t, caller, m, id, admin);
      StepKeepsSettled(t, caller, m, id, admin, price);
      hide Consistent, BoughtBy, Settled, Step;
      RunKeepsSettled(Step(t, caller, m), calls[1..], id, admin, price);
    }
  }

  /** The price shown after some calls: the admin's updates replace it, refused ones do not. */
  function ShownPrice(calls: seq<Call>, id: ShowingId, admin: User, price: int): int
    decreases |calls|
  {
    if calls == [] then price
    else
      var m := calls[0].mutation;
      var updated := calls[0].caller == admin && m.UpdateShowing? && m.id == id && m.price >= 0;
      ShownPrice(calls[1..], id, admin, if updated then m.price else price)
  }

  lemma {:induction false} StaysDeleted(t: Tables, calls: seq<Call>, id: ShowingId)
    requires id !in t.showings && NeverCreated(calls, id)
    ensures id !in After(t, calls).showings
    decreases |calls|
  {
    if calls != [] {
      StepStaysDeleted(t, calls[0].caller, calls[0].mutation, id);
      StaysDeleted(Step(t, calls[0].caller, calls[0].mutation), calls[1..], id);
    }
  }

  lemma StepStaysDeleted(t: Tables, caller: User, m: Mutation, id: ShowingId)
    requires id !in t.showings && m != CreateShowing(id)
    ensures id !in Step(t, caller, m).showings
  {
  }

  lemma StepPrice(t: Tables, caller: User, m: Mutation, id: ShowingId, admin: User)
    requires BoughtBy(t, id, admin) && id in t.showings && m != CreateShowing(id)
    requires id in Step(t, caller, m).showings
    ensures Step(t, caller, m).showings[id].price ==
      if caller == admin && m.UpdateShowing? && m.id == id && m.price >= 0 then m.price else t.showings[id].price
  {
  }

  /** A bought showing's price is what its admin's last update says, whatever other calls there are. */
  lemma {:induction false} RunPrice(t: Tables, calls: seq<Call>, id: ShowingId, admin: User)
    requires BoughtBy(t, id, admin) && id in t.showings && NeverCreated(calls, id) && id in After(t, calls).showings
    ensures After(t, calls).showings[id].price == ShownPrice(calls, id, admin, t.showings[id].price)
    decreases |calls|
  {
    if calls != [] {
      var caller, m := calls[0].caller, calls[0].mutation;
      var s := Step(t, caller, m);
      StepKeepsBought(t, caller, m, id, admin);
      hide Step, BoughtBy;
      if id in s.showings {
        StepPrice(t, caller, m, id, admin);
        RunPrice(s, calls[1..], id, admin);
      } else {
        StaysDeleted(s, calls[1..], id);
      }
    }
  }

  lemma SettledAtBoth(t: Tables, id: ShowingId, p: int, q: int)
    requires Settled(t, id, p)
    ensures Settled(t, id, q) <==> q == p || Unpaid(t, id) == {}
  {
    if q != p && Unpaid(t, id) != {} {
      var k :| k in Unpaid(t, id);
      assert !t.attendees[k].hasPaid && t.attendees[k].amountOwed == p;
    }
  }

  /** The price shown is not always what attendees owe, as the admin can still change it after the purchase. It is,
      however long the run, exactly if the admin's updates end at the price of the purchase, or everybody has paid. */
  lemma ShownPriceIsOwed(t: Tables, calls: seq<Call>, id: ShowingId, admin: User, price: int)
    requires Consistent(t) && BoughtBy(t, id, admin) && Settled(t, id, price)
    requires id in t.showings && t.showings[id].price == price
    requires NeverCreated(calls, id) && NoPaymentUpdates(calls, id) && id in After(t, calls).showings
    ensures var r := After(t, calls);
            Settled(r, id, r.showings[id].price) <==>
              ShownPrice(calls, id, admin, price) == price || Unpaid(r, id) == {}
  {
    RunKeepsSettled(t, calls, id, admin, price);
    RunPrice(t, calls, id, admin);
    SettledAtBoth(After(t, calls), id, price, After(t, calls).showings[id].price);
  }

  /** An example where it is not */
  lemma PriceMayChangeLater()
    ensures var t := Tables(map[1 := Showing(100, false, 7, 7)], map[Key(1, 8) := Attendee(Swish, false, 100, None)]);
            var r := After(t, [Call(7, MarkAsBought(1, 120)), Call(7, UpdateShowing(1, 90, 7))]);
            r.showings[1].price == 90 && r.attendees[Key(1, 8)].amountOwed == 120 && !r.attendees[Key(1, 8)].hasPaid
  {
    var t := Tables(map[1 := Showing(100, false, 7, 7)], map[Key(1, 8) := Attendee(Swish, false, 100, None)]);
    var s := Step(t, 7, MarkAsBought(1, 120));
    PurchaseSettles(t, 7, 1, 120);
    assert [Call(7, MarkAsBought(1, 120)), Call(7, UpdateShowing(1, 90, 7))][1..] == [Call(7, UpdateShowing(1, 90, 7))];
    assert After(s, [Call(7, UpdateShowing(1, 90, 7))]) == Step(s, 7, UpdateShowing(1, 90, 7));
    assert s.attendees[Key(1, 8)] == Attendee(Swish, false, 120, None);
  }

  // ---------- The database ----------

  /** None of the first n statements of a call fails for reasons outside the tables. */
  predicate NoFault(faults: set<nat>, n: nat) {
    forall i :: 0 <= i < n ==> i !in faults
  }

  /** What a mutation that is done replies: the showing as it is now. The query for it fails for a showing that does
      not exist. */
  ghost predicate Replied(r: Result<Showing>, t: Tables, id: ShowingId, done: bool) {
    && (r.Ok? <==> done && id in t.showings)
    && (r.Ok? ==> r.value == t.showings[id])
  }

  /** Apart from key, the new table has the rows of the old one, unchanged. */
  ghost predicate OnlyAt<K(!new), V>(was: map<K, V>, now: map<K, V>, key: K) {
    forall k :: k != key ==> (k in now <==> k in was) && (k in was ==> now[k] == was[k])
  }

  /** Every method below takes the numbers of its statements that fail. An error says nothing about the tables: the
      change is stored as soon as the statements before the reply are done. */
  class Database {
    var showings: map<ShowingId, Showing>
    var attendees: map<Key, Attendee>

    ghost function Current(): Tables
      reads this
    {
      Tables(showings, attendees)
    }

    constructor ()
      ensures Current() == Tables(map[], map[]) && Consistent(Current())
    {
      showings := map[];
      attendees := map[];
    }

    /** No row comes or goes. The admin's own row and those with a gift certificate are paid and owe nothing, but are
        otherwise as before; all other rows, and all if the caller is not the admin, are as before. */
    method ExecMarkGiftCertificates(adminID: User, showingID: ShowingId)
      modifies this`attendees
      ensures Current() == MarkGiftCertificates(old(Current()), adminID, showingID)
      ensures !IsAdmin(Current(), showingID, adminID) ==> attendees == old(attendees)
      ensures attendees.Keys == old(attendees).Keys
      ensures forall k :: k in attendees && k.showing != showingID ==> attendees[k] == old(attendees)[k]
      ensures forall k :: k in attendees ==>
        attendees[k].kind == old(attendees)[k].kind && attendees[k].giftCertificate == old(attendees)[k].giftCertificate
      ensures IsAdmin(Current(), showingID, adminID) ==> forall k :: k in attendees && k.showing == showingID ==>
        if attendees[k].giftCertificate.Some? || k.user == adminID
        then attendees[k].hasPaid && attendees[k].amountOwed == 0
        else attendees[k] == old(attendees)[k]
    {
      if showingID in showings && showings[showingID].admin == adminID {
        attendees := map k | k in attendees ::
          if k.showing == showingID && (attendees[k].giftCertificate.Some? || k.user == adminID)
          then attendees[k].(hasPaid := true, amountOwed := 0) else attendees[k];
      }
    }

    /** No row comes or goes, and nobody's status changes. What is owed changes only in the rows of those who have
        neither paid nor a gift certificate, and only if the caller is the admin. */
    method ExecSetAmountOwed(amountOwed: int, adminID: User, showingID: ShowingId)
      modifies this`attendees
      ensures Current() == SetAmountOwed(old(Current()), amountOwed, adminID, showingID)
      ensures !IsAdmin(Current(), showingID, adminID) ==> attendees == old(attendees)
      ensures attendees.Keys == old(attendees).Keys
      ensures forall k :: k in attendees ==>
        && attendees[k].kind == old(attendees)[k].kind && attendees[k].hasPaid == old(attendees)[k].hasPaid
        && attendees[k].giftCertificate == old(attendees)[k].giftCertificate
      ensures forall k :: k in attendees && attendees[k].amountOwed != old(attendees)[k].amountOwed ==>
        k.showing == showingID && !attendees[k].hasPaid && attendees[k].giftCertificate.None?
      ensures IsAdmin(Current(), showingID, adminID) ==>
        forall k ::
          k in attendees && k.showing == showingID && !attendees[k].hasPaid && attendees[k].giftCertificate.None? ==>
          attendees[k].amountOwed == amountOwed
    {
      if showingID in showings && showings[showingID].admin == adminID {
        attendees := map k | k in attendees ::
          if k.showing == showingID && attendees[k].giftCertificate.None? && !attendees[k].hasPaid
          then attendees[k].(amountOwed := amountOwed) else attendees[k];
      }
    }

    /** Fails if the row it finds would get a negative price. */
    method ExecMarkShowingAsBought(price: int, showingID: ShowingId, adminID: User) returns (ok: bool)
      modifies this`showings
      ensures ok <==>
        (IsAdmin(old(Current()), showingID, adminID) && !old(showings)[showingID].ticketsBought ==> price >= 0)
      ensures Current() == if ok then SetBought(old(Current()), price, showingID, adminID) else old(Current())
    {
      if showingID in showings && showings[showingID].admin == adminID && !showings[showingID].ticketsBought {
        if price < 0 {
          return false;
        }
        showings := showings[showingID := showings[showingID].(ticketsBought := true, price := price)];
      }
      return true;
    }

    method ExecAddAttendee(k: Key, a: Attendee) returns (ok: bool)
      modifies this`attendees
      ensures ok <==> CanAddAttendee(old(Current()), k, a)
      ensures attendees == if ok then old(attendees)[k := a] else old(attendees)
    {
      if k.showing !in showings || k in attendees {
        return false;
      }
      if a.giftCertificate.Some? {
        if exists other :: other in attendees && attendees[other].giftCertificate == a.giftCertificate {
          return false;
        }
      }
      attendees := attendees[k := a];
      return true;
    }

    /** The query that ends most mutations */
    method FindShowing(id: ShowingId, fault: bool) returns (r: Result<Showing>)
      ensures Replied(r, Current(), id, !fault)
    {
      if fault || id !in showings {
        return Err("failed to find showing");
      }
      return Ok(showings[id]);
    }

    method AttendShowing(caller: User, showingID: ShowingId, kind: PaymentType, ticketNumber: Option<string>,
      faults: set<nat>)
      returns (r: Result<Showing>)
      modifies this`attendees
      ensures var m := Mutation.AttendShowing(showingID, kind, ticketNumber);
              var stored := Succeeds(old(Current()), caller, m) && NoFault(faults, 2);
              && Current() == (if stored then Effect(old(Current()), caller, m) else old(Current()))
              && Replied(r, Current(), showingID, stored && 2 !in faults)
      ensures var k := Key(showingID, caller);
              var added := showingID in showings && !showings[showingID].ticketsBought && k !in old(attendees)
                && (ticketNumber.Some? ==> forall o :: o in old(attendees) ==>
                      old(attendees)[o].giftCertificate != ticketNumber)
                && 0 !in faults && 1 !in faults;
              if added then
                && OnlyAt(old(attendees), attendees, k) && k in attendees
                && attendees[k].kind == kind && attendees[k].giftCertificate == ticketNumber
                && (attendees[k].hasPaid <==> kind == GiftCertificate)
                && attendees[k].amountOwed == (if kind == Swish then showings[showingID].price else 0)
              else attendees == old(attendees)
      ensures r.Ok? <==>
        showingID in showings && !showings[showingID].ticketsBought && Key(showingID, caller) !in old(attendees)
        && CertificateFree(old(Current()), ticketNumber) && NoFault(faults, 3)
    {
      if 0 in faults || showingID !in showings {
        return Err("internal server error");
      }
      var priceInfo := showings[showingID];
      if priceInfo.ticketsBought {
        return Err("cannot attend a showing that has already been bought");
      }
      if 1 in faults {
        return Err("failed to add you as an attendee");
      }
      var owed := if kind.Swish? then priceInfo.price else 0;
      var ok := ExecAddAttendee(Key(showingID, caller), Attendee(kind, kind.GiftCertificate?, owed, ticketNumber));
      if !ok {
        return Err("failed to add you as an attendee");
      }
      r := FindShowing(showingID, 2 in faults);
    }

    method UnattendShowing(caller: User, showingID: ShowingId, faults: set<nat>) returns (r: Result<Showing>)
      modifies this`attendees
      ensures var m := Mutation.UnattendShowing(showingID);
              var stored := Succeeds(old(Current()), caller, m) && NoFault(faults, 1);
              && Current() == (if stored then Effect(old(Current()), caller, m) else old(Current()))
              && Replied(r, Current(), showingID, stored && 1 !in faults)
      ensures OnlyAt(old(attendees), attendees, Key(showingID, caller))
      ensures if 0 in faults then attendees == old(attendees) else Key(showingID, caller) !in attendees
      ensures r.Ok? <==> Key(showingID, caller) in old(attendees) && showingID in showings && NoFault(faults, 2)
    {
      if 0 in faults {
        return Err("failed to delete attendee");
      }
      var rowCount := if Key(showingID, caller) in attendees then 1 else 0;
      attendees := attendees - {Key(showingID, caller)};
      if rowCount == 0 {
        assert attendees == old(attendees);
        return Err("user is not an attendee on the showing");
      }
      r := FindShowing(showingID, 1 in faults);
    }

    /** Showing and first attendee in one transaction */
    method CreateShowing(caller: User, showingID: ShowingId, faults: set<nat>) returns (r: Result<()>)
      modifies this
      ensures var m := Mutation.CreateShowing(showingID);
              && (r.Ok? <==> Succeeds(old(Current()), caller, m) && NoFault(faults, 3))
              && Current() == if r.Ok? then Effect(old(Current()), caller, m) else old(Current())
      ensures var k := Key(showingID, caller);
              (r.Ok? <==> showingID !in old(showings) && k !in old(attendees) && NoFault(faults, 3))
              && (r.Ok? ==>
                    && OnlyAt(old(showings), showings, showingID) && OnlyAt(old(attendees), attendees, k)
                    && showingID in showings && k in attendees
                    && showings[showingID].admin == caller && showings[showingID].payTo == caller
                    && showings[showingID].price == 0 && !showings[showingID].ticketsBought
                    && attendees[k].kind == Swish && attendees[k].hasPaid && attendees[k].amountOwed == 0
                    && attendees[k].giftCertificate.None?)
    {
      var savedShowings, savedAttendees := showings, attendees;
      if 0 in faults || showingID in showings {
        return Err("failed to add your showing");
      }
      showings := showings[showingID := Showing(0, false, caller, caller)];
      var ok := false;
      if 1 !in faults {
        ok := ExecAddAttendee(Key(showingID, caller), Attendee(Swish, true, 0, None));
      }
      if !ok {
        showings, attendees := savedShowings, savedAttendees;
        return Err("failed to add you as an attendee");
      }
      if 2 in faults {
        showings, attendees := savedShowings, savedAttendees;
        return Err("failed to insert new showing");
      }
      return Ok(());
    }

    /** Its reply is a list query. */
    method DeleteShowing(showingID: ShowingId, caller: User, faults: set<nat>) returns (r: Result<()>)
      modifies this
      ensures var m := Mutation.DeleteShowing(showingID);
              var stored := Succeeds(old(Current()), caller, m) && NoFault(faults, 1);
              && Current() == (if stored then Effect(old(Current()), caller, m) else old(Current()))
              && (r.Ok? <==> stored && 1 !in faults)
      ensures OnlyAt(old(showings), showings, showingID)
      ensures if 0 in faults || showingID !in old(showings) then Current() == old(Current())
              else
                && showingID !in showings
                && (forall k :: k in attendees <==> k in old(attendees) && k.showing != showingID)
                && (forall k :: k in attendees ==> attendees[k] == old(attendees)[k])
      ensures r.Ok? <==> showingID in old(showings) && NoFault(faults, 2)
    {
      if 0 in faults {
        return Err("failed to delete showing");
      }
      if showingID !in showings {
        return Err("showing already removed or didn't exist");
      }
      showings := showings - {showingID};
      attendees := map k | k in attendees && k.showing != showingID :: attendees[k];
      if 1 in faults {
        return Err("failed to fetch public showings");
      }
      return Ok(());
    }

    /** Three updates in one transaction, rolled back if the tickets are bought already or if any of them fails */
    method MarkAsBought(caller: User, showingID: ShowingId, price: int, faults: set<nat>) returns (r: Result<Showing>)
      modifies this
      ensures var m := Mutation.MarkAsBought(showingID, price);
              var stored := Succeeds(old(Current()), caller, m) && NoFault(faults, 5);
              && Current() == (if stored then Effect(old(Current()), caller, m) else old(Current()))
              && Replied(r, Current(), showingID, stored && 5 !in faults)
      ensures r.Ok? <==>
        showingID in old(showings) && !old(showings)[showingID].ticketsBought
        && (old(showings)[showingID].admin == caller ==> price >= 0) && NoFault(faults, 6)
    {
      var savedShowings, savedAttendees := showings, attendees;
      if 0 in faults || showingID !in showings {
        return Err("internal server error");
      }
      if showings[showingID].ticketsBought {
        return Err("tickets already bought");
      }
      if 1 in faults {
        return Err("internal server error");
      }
      ExecMarkGiftCertificates(caller, showingID);
      if 2 in faults {
        showings, attendees := savedShowings, savedAttendees;
        return Err("internal server error");
      }
      ExecSetAmountOwed(price, caller, showingID);
      var ok := false;
      if 3 !in faults {
        ok := ExecMarkShowingAsBought(price, showingID, caller);
      }
      if !ok {
        showings, attendees := savedShowings, savedAttendees;
        return Err("internal server error");
      }
      if 4 in faults {
        showings, attendees := savedShowings, savedAttendees;
        return Err("failed to mark showing as bought");
      }
      r := FindShowing(showingID, 5 in faults);
    }

    method UpdateShowing(caller: User, showingID: ShowingId, price: int, payToUser: User, faults: set<nat>)
      returns (r: Result<Showing>)
      modifies this`showings
      ensures var m := Mutation.UpdateShowing(showingID, price, payToUser);
              var stored := Succeeds(old(Current()), caller, m) && NoFault(faults, 1);
              && Current() == (if stored then Effect(old(Current()), caller, m) else old(Current()))
              && Replied(r, Current(), showingID, stored && 1 !in faults)
      ensures OnlyAt(old(showings), showings, showingID)
      ensures if 0 !in faults && price >= 0 && showingID in old(showings) && old(showings)[showingID].admin == caller
              then
                && showingID in showings
                && showings[showingID].price == price && showings[showingID].payTo == payToUser
                && showings[showingID].admin == caller
                && showings[showingID].ticketsBought == old(showings)[showingID].ticketsBought
              else showings == old(showings)
      ensures r.Ok? <==>
        showingID in showings && (old(showings)[showingID].admin == caller ==> price >= 0) && NoFault(faults, 2)
    {
      if 0 in faults {
        return Err("failed to update showing");
      }
      if showingID in showings && showings[showingID].admin == caller {
        if price < 0 {
          return Err("failed to update showing");
        }
        showings := showings[showingID := showings[showingID].(price := price, payTo := payToUser)];
      }
      r := FindShowing(showingID, 1 in faults);
    }

    method PromoteToAdmin(caller: User, showingID: ShowingId, userToPromote: User, faults: set<nat>)
      returns (r: Result<Showing>)
      modifies this`showings
      ensures var m := Mutation.PromoteToAdmin(showingID, userToPromote);
              var stored := Succeeds(old(Current()), caller, m) && NoFault(faults, 1);
              && Current() == (if stored then Effect(old(Current()), caller, m) else old(Current()))
              && Replied(r, Current(), showingID, stored && 1 !in faults)
      ensures OnlyAt(old(showings), showings, showingID)
      ensures if 0 !in faults && showingID in old(showings) && old(showings)[showingID].admin == caller
                 && !old(showings)[showingID].ticketsBought then
                && showingID in showings
                && showings[showingID].admin == userToPromote && showings[showingID].payTo == userToPromote
                && showings[showingID].price == old(showings)[showingID].price && !showings[showingID].ticketsBought
              else showings == old(showings)
      ensures r.Ok? <==> showingID in showings && NoFault(faults, 2)
    {
      if 0 in faults {
        return Err("failed to promote new user to showing admin");
      }
      if showingID in showings && showings[showingID].admin == caller && !showings[showingID].ticketsBought {
        showings := showings[showingID := showings[showingID].(admin := userToPromote, payTo := userToPromote)];
      }
      r := FindShowing(showingID, 1 in faults);
    }

    method UpdatePayment(caller: User, showingID: ShowingId, userID: User, hasPaid: bool, amountOwed: int,
      faults: set<nat>)
      returns (r: Result<()>)
      modifies this`attendees
      ensures var m := Mutation.UpdatePayment(showingID, userID, hasPaid, amountOwed);
              && (0 in faults || Key(showingID, userID) !in old(attendees) ==> r.Err? && Current() == old(Current()))
              && (0 !in faults && Key(showingID, userID) in old(attendees) ==>
                    Current() == Effect(old(Current()), caller, m) && (r.Ok? <==> 1 !in faults))
      ensures var k := Key(showingID, userID);
              && OnlyAt(old(attendees), attendees, k) && (k in attendees <==> k in old(attendees))
              && (0 !in faults && k in attendees ==>
                    && attendees[k].hasPaid == hasPaid && attendees[k].amountOwed == amountOwed
                    && attendees[k].kind == old(attendees)[k].kind
                    && attendees[k].giftCertificate == old(attendees)[k].giftCertificate)
    {
      if 0 in faults {
        return Err("failed to update attendee payment info");
      }
      if Key(showingID, userID) in attendees {
        var k := Key(showingID, userID);
        attendees := attendees[k := attendees[k].(hasPaid := hasPaid, amountOwed := amountOwed)];
      }
      if 1 in faults || Key(showingID, userID) !in attendees {
        return Err("failed to fetch attendee");
      }
      return Ok(());
    }
  }
}
