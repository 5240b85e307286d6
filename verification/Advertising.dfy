/** An advertising space: orders for stretches of time, paid into escrow until they are settled. */
module Advertising {
  import opened Arithmetic
  import opened Ledger

  datatype Status = Undetermined | Accepted | Refused | Ransomed

  datatype Order = Order(user: nat, start: nat, end: nat, requested: nat, status: Status, released: nat)

  const TEN_YEARS: nat := 10 * 365 * 86400
  const CONFIRM_TIME: nat := 60 * 60 * 24 * 7
  const HUNDRED_PERCENT: nat := 10000

  /** Two orders do not share any time. */
  predicate Apart(a: Order, b: Order) {
    a.start >= b.end || a.end <= b.start
  }

  /** A moment that belongs to an order. */
  ghost predicate Covers(o: Order, t: nat) {
    o.start <= t < o.end
  }

  /** Orders that are not empty are apart exactly if no moment belongs to both. */
  lemma ApartExact(a: Order, b: Order)
    requires a.start < a.end && b.start < b.end
    ensures Apart(a, b) <==> forall t :: !(Covers(a, t) && Covers(b, t))
  {
    var t := Max(a.start, b.start);
    if !Apart(a, b) { assert Covers(a, t) && Covers(b, t); }
  }

  /** Accepted or still open. */
  predicate Standing(o: Order) {
    o.status.Accepted? || o.status.Undetermined?
  }

  /** Accepted orders do not overlap each other, nor any order that is still open. */
  ghost predicate Exclusive(orders: seq<Order>) {
    forall i, j ::
      (0 <= i < |orders| && 0 <= j < |orders| && i != j && orders[i].status.Accepted? && Standing(orders[j])) ==>
      Apart(orders[i], orders[j])
  }

  /** At no moment are two orders shown, nor is one shown while another one may still be accepted for it. */
  lemma OneAtATime(orders: seq<Order>, i: nat, j: nat, t: nat)
    requires Exclusive(orders) && i < |orders| && j < |orders| && Covers(orders[i], t) && Covers(orders[j], t)
    requires orders[i].status.Accepted? && Standing(orders[j])
    ensures i == j
  {
    if i != j { ApartExact(orders[i], orders[j]); }
  }

  /** What is held for an order. */
  function Held(o: Order): nat {
    if o.status.Undetermined? then o.released else 0
  }

  function Escrow(orders: seq<Order>): nat {
    if orders == [] then 0 else Escrow(orders[..|orders| - 1]) + Held(orders[|orders| - 1])
  }

  lemma {:induction false} EscrowUpdate(orders: seq<Order>, i: nat, o: Order)
    requires i < |orders|
    ensures Escrow(orders[i := o]) == Escrow(orders) - Held(orders[i]) + Held(o)
    decreases |orders|
  {
    var n := |orders| - 1;
    if i == n {
      assert orders[i := o][..n] == orders[..n];
    } else {
      assert orders[i := o][..n] == orders[..n][i := o];
      EscrowUpdate(orders[..n], i, o);
    }
  }

  /** An open order that overlaps `a` is refused. */
  function Outbid(a: Order, o: Order): Order {
    if o.status.Undetermined? && !Apart(o, a) then o.(status := Refused) else o
  }

  /** What has to be paid back when `a` is accepted. */
  function Refund(a: Order, o: Order): nat {
    if o.status.Undetermined? && !Apart(o, a) then o.released else 0
  }

  /** The fee for an accepted order: a share of its price, but not less than the minimum. */
  function ConfirmFee(released: nat, feeRate: nat, minFee: nat): nat {
    Max(Div(released * feeRate, HUNDRED_PERCENT), minFee)
  }

  /** A share of the price in hundredths of a percent, rounded down, and the minimum if that is more. */
  ghost predicate IsFee(released: nat, feeRate: nat, minFee: nat, fee: nat) {
    && fee >= minFee && released * feeRate < (fee + 1) * HUNDRED_PERCENT
    && (fee == minFee || fee * HUNDRED_PERCENT <= released * feeRate)
  }

  lemma FeeExact(released: nat, feeRate: nat, minFee: nat)
    ensures IsFee(released, feeRate, minFee, ConfirmFee(released, feeRate, minFee))
  {
    var n := released * feeRate;
    Quotient(n, HUNDRED_PERCENT);
  }

  /** What is held for the orders of one account. */
  ghost function HeldFor(orders: seq<Order>, user: nat): nat {
    if orders == [] then 0
    else
      var o := orders[|orders| - 1];
      HeldFor(orders[..|orders| - 1], user) + if o.user == user && o.status.Undetermined? then o.released else 0
  }

  lemma {:induction false} HeldForUpdate(orders: seq<Order>, i: nat, o: Order, user: nat)
    requires i < |orders| && o.user == orders[i].user
    ensures HeldFor(orders[i := o], user) ==
      HeldFor(orders, user) + if o.user == user then Held(o) - Held(orders[i]) else 0
    decreases |orders|
  {
    var n := |orders| - 1;
    if i == n {
      assert orders[i := o][..n] == orders[..n];
    } else {
      assert orders[i := o][..n] == orders[..n][i := o];
      HeldForUpdate(orders[..n], i, o, user);
    }
  }

  lemma {:induction false} HeldForOutbid(orders: seq<Order>, after: seq<Order>, a: Order, user: nat)
    requires |after| == |orders| && forall k :: 0 <= k < |orders| ==> after[k] == Outbid(a, orders[k])
    ensures HeldFor(after, user) + RefundsTo(a, orders, user) == HeldFor(orders, user)
    decreases |orders|
  {
    if orders == [] {
    } else {
      HeldForOutbid(orders[..|orders| - 1], after[..|orders| - 1], a, user);
    }
  }

  /** What an account receives when an order is decided on is what was held for it before and is not any
      longer. Only the price of an accepted order goes to the platform instead, less the fee. */
  lemma ReceivedExact(orders: seq<Order>, i: nat, accept: bool, platform: nat, fee: nat, user: nat)
    requires i < |orders| && orders[i].status.Undetermined?
    ensures var after := if accept then Settled(orders, i) else orders[i := orders[i].(status := Refused)];
      Received(orders, i, accept, platform, fee, user) == HeldFor(orders, user) - HeldFor(after, user)
        - (if accept && user == orders[i].user then orders[i].released else 0)
        + (if accept && user == platform then orders[i].released - fee else 0)
  {
    var taken := Taken(orders[i]);
    if accept {
      HeldForUpdate(orders, i, taken, user);
      HeldForOutbid(orders[i := taken], Settled(orders, i), taken, user);
    } else {
      HeldForUpdate(orders, i, orders[i].(status := Refused), user);
    }
  }

  class Space {
    const platform: nat
    const accounts: Accounts
    var onSell: bool
    var unitTime: nat
    var unitPrice: nat
    var orders: seq<Order>
    /** How much more there is in balances and escrow than the supply says. */
    ghost const surplus: int

    ghost predicate Valid()
      reads this, accounts
    {
      accounts.Valid() && Exclusive(orders) && Balanced()
    }

    /** Balances and escrow change only with the supply. */
    ghost predicate Balanced()
      reads this, accounts
    {
      Total(accounts.balances) + Escrow(orders) == accounts.supply + surplus
    }

    constructor (platform: nat, accounts: Accounts, unitTime: nat, unitPrice: nat)
      requires accounts.Valid()
      ensures Valid() && this.accounts == accounts && orders == [] && this.platform == platform
    {
      this.platform, this.accounts, this.unitTime, this.unitPrice := platform, accounts, unitTime, unitPrice;
      onSell, orders, surplus := true, [], Total(accounts.balances) - accounts.supply;
    }

    method Update(unitTime: nat, unitPrice: nat, onSell: bool)
      requires Valid()
      modifies this`unitTime, this`unitPrice, this`onSell
      ensures Valid() && this.unitTime == unitTime && this.unitPrice == unitPrice && this.onSell == onSell
    {
      this.unitTime, this.unitPrice, this.onSell := unitTime, unitPrice, onSell;
    }

    /** Whether no accepted order shares time with `o`. */
    method Free(o: Order) returns (ok: bool)
      ensures ok <==> forall i :: 0 <= i < |orders| && orders[i].status.Accepted? ==> Apart(o, orders[i])
    {
      var i := 0;
      while i < |orders|
        invariant i <= |orders| && forall k :: 0 <= k < i && orders[k].status.Accepted? ==> Apart(o, orders[k])
      {
        if orders[i].status.Accepted? && !Apart(o, orders[i]) {
          return false;
        }
        i := i + 1;
      }
      ok := true;
    }

    /** The space is for sale, the stretch of time is not too far off, not too long and not taken, and
        the price covers the fee and can be paid. */
    ghost predicate MayBuy(oid: nat, from: nat, start: nat, number: nat, head: nat, minFee: nat)
      requires number > 0
      reads this, accounts
    {
      && onSell && head <= start <= head + TEN_YEARS && oid == |orders| + 1 && unitTime * number <= TEN_YEARS
      && (forall i :: 0 <= i < |orders| && orders[i].status.Accepted? ==>
            start >= orders[i].end || start + unitTime * number <= orders[i].start)
      && unitPrice * number > minFee && accounts.CanAdjust(from, 0 - unitPrice * number)
    }

    /** Buys `number` units of time from `start` on; the price goes into escrow. */
    method Buy(oid: nat, from: nat, start: nat, number: nat, head: nat, minFee: nat) returns (ok: bool)
      requires Valid() && number > 0
      modifies this`orders, accounts`balances, accounts`core
      ensures Valid() && accounts.supply == old(accounts.supply)
      ensures ok ==>
        var o := Order(from, start, start + unitTime * number, head, Undetermined, unitPrice * number);
        orders == old(orders) + [o]
      ensures ok ==> forall u :: Of(accounts.balances, u) ==
                       Of(old(accounts.balances), u) - (if u == from then unitPrice * number else 0)
      ensures !ok ==> orders == old(orders) && forall a :: Of(accounts.balances, a) == Of(old(accounts.balances), a)
      ensures ok <==> old(MayBuy(oid, from, start, number, head, minFee))
    {
      hide Total, Escrow, Div, Of;
      TimeExact(unitTime, number);
      if !onSell || start < head || start > head + TEN_YEARS || oid != |orders| + 1
        || unitTime > Div(TEN_YEARS, number) {
        return false;
      }
      var o := Order(from, start, start + unitTime * number, head, Undetermined, unitPrice * number);
      ok := Free(o);
      if !ok {
        return;
      }
      var necessary := unitPrice * number;
      if necessary <= minFee {
        return false;
      }
      EscrowAppend(orders, o);
      ok := accounts.AdjustBalance(from, 0 - necessary);
      if ok {
        orders := orders + [o];
      }
    }

    /** Pays back every open order that overlaps an accepted one; which those were. */
    method RefundOverlapping(a: Order) returns (refs: seq<nat>)
      requires accounts.Valid()
      modifies accounts`balances, accounts`core
      ensures accounts.Valid()
      ensures forall k :: k in refs <==> 0 <= k < |orders| && orders[k].status.Undetermined? && !Apart(orders[k], a)
      ensures Total(accounts.balances) == Total(old(accounts.balances)) + Refunds(a, orders)
      ensures forall u :: Of(accounts.balances, u) == Of(old(accounts.balances), u) + RefundsTo(a, orders, u)
    {
      hide Total, Of, Apart;
      refs := [];
      var i := 0;
      while i < |orders|
        invariant i <= |orders| && accounts.Valid()
        invariant forall k :: k in refs <==> 0 <= k < i && orders[k].status.Undetermined? && !Apart(orders[k], a)
        invariant Total(accounts.balances) == Total(old(accounts.balances)) + Refunds(a, orders[..i])
        invariant forall u :: Of(accounts.balances, u) == Of(old(accounts.balances), u) + RefundsTo(a, orders[..i], u)
      {
        assert orders[..i + 1][..i] == orders[..i];
        if orders[i].status.Undetermined? && !Apart(orders[i], a) {
          var paid := accounts.AdjustBalance(orders[i].user, orders[i].released);
          refs := refs + [i];
        }
        i := i + 1;
      }
      assert orders[..i] == orders;
    }

    /** Marks orders as refused. */
    method Refuse(refs: seq<nat>)
      requires forall k :: k in refs ==> k < |orders|
      modifies this`orders
      ensures |orders| == |old(orders)|
      ensures forall k :: 0 <= k < |orders| ==>
                orders[k] == if k in refs then old(orders)[k].(status := Refused) else old(orders)[k]
    {
      var i := 0;
      while i < |refs|
        invariant i <= |refs| && |orders| == |old(orders)|
        invariant forall k :: 0 <= k < |orders| ==>
                    orders[k] == if k in refs[..i] then old(orders)[k].(status := Refused) else old(orders)[k]
      {
        assert refs[..i + 1] == refs[..i] + [refs[i]] && refs[i] in refs;
        orders := orders[refs[i] := orders[refs[i]].(status := Refused)];
        i := i + 1;
      }
      assert refs[..i] == refs;
    }

    /** Accepts an open order: the platform is paid less the fee, the fee leaves the supply, and every
        open order that overlaps is refused and paid back. */
    method Accept(i: nat, feeRate: nat, minFee: nat) returns (ok: bool)
      requires Valid() && i < |orders| && orders[i].status.Undetermined?
      modifies this`orders, accounts`balances, accounts`core, accounts`supply
      ensures Valid()
      ensures var o, fee := old(orders)[i], ConfirmFee(old(orders)[i].released, feeRate, minFee);
        && (ok <==> o.released > minFee && old(accounts.CanAdjust(platform, o.released - fee)))
        && (ok ==> orders == Settled(old(orders), i) && accounts.supply == old(accounts.supply) - fee)
        && (ok ==> forall u :: Of(accounts.balances, u) ==
                     Of(old(accounts.balances), u) + Payout(old(orders), i, platform, fee, u))
        && IsFee(o.released, feeRate, minFee, fee)
        && (!ok ==> orders == old(orders) && accounts.supply == old(accounts.supply))
        && (!ok ==> forall u :: Of(accounts.balances, u) == Of(old(accounts.balances), u))
    {
      hide Total, Of, Apart, Escrow, ConfirmFee, Refunds, RefundsTo, Exclusive, IsFee;
      var o := orders[i];
      FeeExact(o.released, feeRate, minFee);
      if o.released <= minFee {
        return false;
      }
      var fee := ConfirmFee(o.released, feeRate, minFee);
      SettledExclusive(orders, i);
      EscrowSettled(orders, i);
      ok := accounts.AdjustBalance(platform, o.released - fee);
      if !ok {
        return;
      }
      orders := orders[i := Taken(o)];
      accounts.supply := accounts.supply - fee;
      var refs := RefundOverlapping(Taken(o));
      Refuse(refs);
      assert orders == Settled(old(orders), i) by { IsSettled(old(orders), i, orders, refs); }
    }

    /** Pays an open order back and closes it. */
    method GiveBack(i: nat, status: Status)
      requires Valid() && i < |orders| && orders[i].status.Undetermined? && (status.Refused? || status.Ransomed?)
      modifies this`orders, accounts`balances, accounts`core
      ensures Valid() && orders == old(orders)[i := old(orders)[i].(status := status)]
      ensures accounts.supply == old(accounts.supply)
      ensures forall u :: Of(accounts.balances, u) ==
                Of(old(accounts.balances), u) + (if u == old(orders)[i].user then old(orders)[i].released else 0)
    {
      hide Total, Of, Apart, Escrow;
      var o := orders[i];
      var ok := accounts.AdjustBalance(o.user, o.released);
      EscrowUpdate(orders, i, o.(status := status));
      StaysExclusive(orders, i, status);
      orders := orders[i := o.(status := status)];
    }

    /** The order is open; to be accepted, it must cover the minimum fee. */
    ghost predicate MayConfirm(oid: nat, accept: bool, feeRate: nat, minFee: nat)
      reads this, accounts
    {
      && 1 <= oid <= |orders| && orders[oid - 1].status.Undetermined?
      && var o := orders[oid - 1];
         accept ==>
           o.released > minFee && accounts.CanAdjust(platform, o.released - ConfirmFee(o.released, feeRate, minFee))
    }

    /** The platform accepts or refuses an open order. */
    method Confirm(oid: nat, accept: bool, feeRate: nat, minFee: nat) returns (ok: bool)
      requires Valid()
      modifies this`orders, accounts`balances, accounts`core, accounts`supply
      ensures Valid()
      ensures ok <==> old(MayConfirm(oid, accept, feeRate, minFee))
      ensures ok && accept ==>
        && orders == Settled(old(orders), oid - 1)
        && accounts.supply == old(accounts.supply) - ConfirmFee(old(orders)[oid - 1].released, feeRate, minFee)
      ensures ok && !accept ==>
        && orders == old(orders)[oid - 1 := old(orders)[oid - 1].(status := Refused)]
        && accounts.supply == old(accounts.supply)
      ensures ok ==> var fee := ConfirmFee(old(orders)[oid - 1].released, feeRate, minFee);
        forall u :: Of(accounts.balances, u) ==
          Of(old(accounts.balances), u) + Received(old(orders), oid - 1, accept, platform, fee, u)
      ensures !ok ==> orders == old(orders) && accounts.supply == old(accounts.supply)
      ensures !ok ==> forall u :: Of(accounts.balances, u) == Of(old(accounts.balances), u)
    {
      hide Total, Of, Apart, Escrow, ConfirmFee, Refunds, RefundsTo, Exclusive, Settled, Payout;
      if oid < 1 || oid > |orders| || !orders[oid - 1].status.Undetermined? {
        return false;
      }
      if accept {
        ok := Accept(oid - 1, feeRate, minFee);
      } else {
        GiveBack(oid - 1, Refused);
        ok := true;
      }
    }

    /** The buyer takes back an order that has stayed open for a week. */
    method Ransom(oid: nat, from: nat, head: nat) returns (ok: bool)
      requires Valid()
      modifies this`orders, accounts`balances, accounts`core
      ensures Valid() && accounts.supply == old(accounts.supply)
      ensures ok <==>
        && 1 <= oid <= |old(orders)| && old(orders)[oid - 1].user == from && old(orders)[oid - 1].status.Undetermined?
        && old(orders)[oid - 1].requested + 7 * 24 * 60 * 60 < head
      ensures ok ==> orders == old(orders)[oid - 1 := old(orders)[oid - 1].(status := Ransomed)]
      ensures ok ==> forall u :: Of(accounts.balances, u) ==
                       Of(old(accounts.balances), u) + (if u == from then old(orders)[oid - 1].released else 0)
      ensures !ok ==> orders == old(orders) && accounts.balances == old(accounts.balances)
    {
      hide Total, Of, Apart, Escrow, Exclusive;
      if oid < 1 || oid > |orders| {
        return false;
      }
      var o := orders[oid - 1];
      if o.user != from || o.requested + CONFIRM_TIME >= head || !o.status.Undetermined? {
        return false;
      }
      GiveBack(oid - 1, Ransomed);
      ok := true;
    }
  }

  lemma TimeExact(unitTime: nat, number: nat)
    requires number > 0
    ensures unitTime <= Div(TEN_YEARS, number) <==> unitTime * number <= TEN_YEARS
  {
    var d := Div(TEN_YEARS, number);
    Quotient(TEN_YEARS, number);
    hide Div;
    if unitTime <= d { Times(unitTime, d, number); } else { Times(d + 1, unitTime, number); }
  }

  /** What an account receives when order `i` is accepted. */
  function Payout(orders: seq<Order>, i: nat, platform: nat, fee: nat, user: nat): int
    requires i < |orders|
  {
    var taken := Taken(orders[i]);
    (if user == platform then orders[i].released - fee else 0) + RefundsTo(taken, orders[i := taken], user)
  }

  /** What an account receives when order `i` is decided on: a refused order is paid back. */
  function Received(orders: seq<Order>, i: nat, accept: bool, platform: nat, fee: nat, user: nat): int
    requires i < |orders|
  {
    if accept then Payout(orders, i, platform, fee, user) else if user == orders[i].user then orders[i].released else 0
  }

  function Taken(o: Order): Order {
    o.(status := Accepted)
  }

  /** The orders after order `i` has been accepted. */
  function Settled(orders: seq<Order>, i: nat): seq<Order>
    requires i < |orders|
  {
    var taken := Taken(orders[i]);
    seq(|orders|, j requires 0 <= j < |orders| => if j == i then taken else Outbid(taken, orders[j]))
  }

  /** What accepting `a` pays back in all, and to one account. */
  function Refunds(a: Order, orders: seq<Order>): nat {
    if orders == [] then 0 else Refunds(a, orders[..|orders| - 1]) + Refund(a, orders[|orders| - 1])
  }

  function RefundsTo(a: Order, orders: seq<Order>, user: nat): nat {
    if orders == [] then 0
    else
      RefundsTo(a, orders[..|orders| - 1], user)
      + if orders[|orders| - 1].user == user then Refund(a, orders[|orders| - 1]) else 0
  }

  lemma SettledExclusive(orders: seq<Order>, i: nat)
    requires Exclusive(orders) && i < |orders| && orders[i].status.Undetermined?
    ensures Exclusive(Settled(orders, i))
  {
    var after := Settled(orders, i);
    forall j, k | 0 <= j < |after| && 0 <= k < |after| && j != k && after[j].status.Accepted? && Standing(after[k])
      ensures Apart(after[j], after[k]) {
      if j != i && k != i { assert Apart(orders[j], orders[k]); }
      else if k == i { assert Apart(orders[j], orders[i]); }
    }
  }

  lemma StaysExclusive(orders: seq<Order>, i: nat, status: Status)
    requires Exclusive(orders) && i < |orders| && (status.Refused? || status.Ransomed?)
    ensures Exclusive(orders[i := orders[i].(status := status)])
  {
  }

  lemma IsSettled(orders: seq<Order>, i: nat, after: seq<Order>, refs: seq<nat>)
    requires i < |orders| == |after|
    requires var base := orders[i := Taken(orders[i])];
      && (forall k :: k in refs <==>
            0 <= k < |base| && base[k].status.Undetermined? && !Apart(base[k], Taken(orders[i])))
      && (forall k :: 0 <= k < |after| ==> after[k] == if k in refs then base[k].(status := Refused) else base[k])
    ensures after == Settled(orders, i)
  {
  }

  lemma {:induction false} EscrowOutbid(orders: seq<Order>, after: seq<Order>, a: Order)
    requires |after| == |orders| && forall k :: 0 <= k < |orders| ==> after[k] == Outbid(a, orders[k])
    ensures Escrow(after) + Refunds(a, orders) == Escrow(orders)
    decreases |orders|
  {
    if orders != [] { EscrowOutbid(orders[..|orders| - 1], after[..|orders| - 1], a); }
  }

  /** Escrow shrinks by the accepted order and by what is paid back. */
  lemma EscrowSettled(orders: seq<Order>, i: nat)
    requires i < |orders| && orders[i].status.Undetermined?
    ensures var taken := Taken(orders[i]);
      Escrow(Settled(orders, i)) + Refunds(taken, orders[i := taken]) + orders[i].released == Escrow(orders)
  {
    var base := orders[i := Taken(orders[i])];
    EscrowUpdate(orders, i, Taken(orders[i]));
    EscrowOutbid(base, Settled(orders, i), Taken(orders[i]));
  }

  lemma EscrowAppend(orders: seq<Order>, o: Order)
    ensures Escrow(orders + [o]) == Escrow(orders) + Held(o)
  {
    assert (orders + [o])[..|orders|] == orders;
  }
}
