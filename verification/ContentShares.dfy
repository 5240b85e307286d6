/** Shares in a post: trading them, and splitting what the post earns by them. */
module ContentShares {
  import opened Arithmetic
  import opened Ledger

  const HUNDRED_PERCENT: nat := 10000
  const PLATFORM_RATIO: nat := 2500
  const POSTER_MIN_RATIO: nat := 2500
  const MAX_RECEIPTORS: nat := 5

  /** A share, and the part of it that is offered for sale. */
  datatype Receiptor = Receiptor(ratio: nat, toBuyout: bool, buyoutRatio: nat, buyoutPrice: nat, expiration: nat)

  type Receiptors = map<nat, Receiptor>

  function Ratios(r: Receiptors): Balances {
    map a | a in r :: r[a].ratio
  }

  /** The poster's smallest share: with the platform's share on top if they are the same. */
  function LeastRatio(poster: nat, platform: nat): nat {
    if poster == platform then POSTER_MIN_RATIO + PLATFORM_RATIO else POSTER_MIN_RATIO
  }

  /** What every post keeps: shares add up to one hundred percent, there are at most five, and the poster
      has the smallest share or more. */
  ghost predicate Fair(r: Receiptors, poster: nat, platform: nat) {
    Total(Ratios(r)) == HUNDRED_PERCENT && |r| <= MAX_RECEIPTORS
      && Of(Ratios(r), poster) >= LeastRatio(poster, platform)
  }

  /** What is checked before a share is traded. */
  ghost predicate Validated(r: Receiptors, poster: nat, platform: nat) {
    && platform in r
    && (if poster == platform then r[platform].ratio >= LeastRatio(poster, platform)
      else r[platform].ratio == PLATFORM_RATIO)
    && (forall a :: a in r ==> r[a].ratio <= HUNDRED_PERCENT && (r[a].toBuyout ==> r[a].buyoutRatio <= r[a].ratio))
    && Total(Ratios(r)) == HUNDRED_PERCENT
  }

  /** The offer is open, leaves the poster enough, and does not make too many receiptors. */
  ghost predicate MayBuy(r: Receiptors, poster: nat, platform: nat, seller: nat, buyer: nat, now: nat) {
    && seller in r
    && var p := r[seller];
       && p.toBuyout && p.buyoutPrice > 0 && 0 < p.buyoutRatio <= p.ratio && p.expiration >= now
       && (seller == poster ==> p.ratio >= p.buyoutRatio + LeastRatio(poster, platform))
       && (p.buyoutRatio < p.ratio && buyer !in r ==> |r| < MAX_RECEIPTORS)
  }

  /** All that is checked before a share is traded, including what the buyer has deposited. */
  ghost predicate MayTrade(r: Receiptors, poster: nat, platform: nat, seller: nat, buyer: nat, now: nat, deposit: nat) {
    Validated(r, poster, platform) && MayBuy(r, poster, platform, seller, buyer, now)
      && deposit >= r[seller].buyoutPrice
  }

  /** The shares after `seller` has lost what was offered. */
  function Sold(r: Receiptors, seller: nat): Receiptors
    requires seller in r && r[seller].buyoutRatio <= r[seller].ratio
  {
    var p := r[seller];
    if p.buyoutRatio < p.ratio
      then r[seller := p.(ratio := p.ratio - p.buyoutRatio, toBuyout := false, buyoutPrice := 0, buyoutRatio := 0)]
    else r - {seller}
  }

  /** The shares after `buyer` has got that much. */
  function Bought(r: Receiptors, buyer: nat, ratio: nat): Receiptors {
    if buyer in r then r[buyer := r[buyer].(ratio := r[buyer].ratio + ratio)]
    else r[buyer := Receiptor(ratio, false, 0, 0, 0)]
  }

  lemma SoldTotal(r: Receiptors, seller: nat)
    requires seller in r && r[seller].buyoutRatio <= r[seller].ratio
    ensures Total(Ratios(Sold(r, seller))) == Total(Ratios(r)) - r[seller].buyoutRatio
    ensures forall a :: Of(Ratios(Sold(r, seller)), a) ==
              Of(Ratios(r), a) - if a == seller then r[seller].buyoutRatio else 0
    ensures |Sold(r, seller)| == if r[seller].buyoutRatio < r[seller].ratio then |r| else |r| - 1
  {
    var p := r[seller];
    if p.buyoutRatio < p.ratio {
      assert Ratios(Sold(r, seller)) == Ratios(r)[seller := p.ratio - p.buyoutRatio];
      TotalPut(Ratios(r), seller, p.ratio - p.buyoutRatio);
      assert Sold(r, seller).Keys == r.Keys;
    } else {
      assert Ratios(Sold(r, seller)) == Ratios(r) - {seller};
      TotalTake(Ratios(r), seller);
      assert Sold(r, seller).Keys == r.Keys - {seller};
    }
  }

  lemma BoughtTotal(r: Receiptors, buyer: nat, ratio: nat)
    ensures Total(Ratios(Bought(r, buyer, ratio))) == Total(Ratios(r)) + ratio
    ensures forall a :: Of(Ratios(Bought(r, buyer, ratio)), a) == Of(Ratios(r), a) + if a == buyer then ratio else 0
    ensures |Bought(r, buyer, ratio)| == if buyer in r then |r| else |r| + 1
  {
    BoughtRatios(r, buyer, ratio);
    hide Total, Ratios;
    TotalPut(Ratios(r), buyer, Of(Ratios(r), buyer) + ratio);
  }

  lemma BoughtRatios(r: Receiptors, buyer: nat, ratio: nat)
    ensures Ratios(Bought(r, buyer, ratio)) == Ratios(r)[buyer := Of(Ratios(r), buyer) + ratio]
    ensures Bought(r, buyer, ratio).Keys == r.Keys + {buyer}
  {
  }

  /** The share of an account after a trade. */
  function RatioAfter(r: Receiptors, seller: nat, buyer: nat, a: nat): int
    requires seller in r
  {
    var bought := r[seller].buyoutRatio;
    Of(Ratios(r), a) - (if a == seller then bought else 0) + (if a == buyer then bought else 0)
  }

  function Traded(r: Receiptors, seller: nat, buyer: nat): Receiptors
    requires seller in r && r[seller].buyoutRatio <= r[seller].ratio
  {
    Bought(Sold(r, seller), buyer, r[seller].buyoutRatio)
  }

  lemma TradedRatios(r: Receiptors, seller: nat, buyer: nat)
    requires seller in r && r[seller].buyoutRatio <= r[seller].ratio
    ensures Total(Ratios(Traded(r, seller, buyer))) == Total(Ratios(r))
    ensures forall a :: Of(Ratios(Traded(r, seller, buyer)), a) == RatioAfter(r, seller, buyer, a)
    ensures |Traded(r, seller, buyer)| <=
      if r[seller].buyoutRatio < r[seller].ratio && buyer !in r then |r| + 1 else |r|
  {
    hide Total;
    SoldTotal(r, seller);
    BoughtTotal(Sold(r, seller), buyer, r[seller].buyoutRatio);
  }

  /** Nobody else's share or offer changes; what the seller keeps is no longer offered, and what the buyer
      offered stays so. */
  lemma TradedOffers(r: Receiptors, seller: nat, buyer: nat, a: nat)
    requires seller in r && r[seller].buyoutRatio <= r[seller].ratio && seller != buyer
    ensures var after, p := Traded(r, seller, buyer), r[seller];
      && (a != seller && a != buyer ==> (a in after <==> a in r) && (a in r ==> after[a] == r[a]))
      && (seller in after <==> p.buyoutRatio < p.ratio)
      && (seller in after ==> after[seller] == Receiptor(p.ratio - p.buyoutRatio, false, 0, 0, p.expiration))
      && buyer in after
      && after[buyer] == (if buyer in r then r[buyer].(ratio := r[buyer].ratio + p.buyoutRatio)
                          else Receiptor(p.buyoutRatio, false, 0, 0, 0))
  {
    var sold := Sold(r, seller);
  }

  /** A trade keeps the shares fair. */
  lemma TradeFair(r: Receiptors, poster: nat, platform: nat, seller: nat, buyer: nat, now: nat)
    requires Fair(r, poster, platform) && MayBuy(r, poster, platform, seller, buyer, now)
    ensures Fair(Traded(r, seller, buyer), poster, platform)
  {
    hide Total, Traded;
    TradedRatios(r, seller, buyer);
    assert Of(Ratios(Traded(r, seller, buyer)), poster) >= LeastRatio(poster, platform);
  }

  /** After a trade the next one is possible exactly when the platform's share was left alone: the check
      demands that share to be what it was. */
  lemma TradeValidates(r: Receiptors, poster: nat, platform: nat, seller: nat, buyer: nat, now: nat)
    requires Validated(r, poster, platform) && MayBuy(r, poster, platform, seller, buyer, now)
    ensures Validated(Traded(r, seller, buyer), poster, platform) <==>
      poster == platform || (seller == platform <==> buyer == platform)
  {
    hide Total;
    TradedRatios(r, seller, buyer);
    var after := Traded(r, seller, buyer);
    forall a | a in after
      ensures after[a].ratio <= HUNDRED_PERCENT && (after[a].toBuyout ==> after[a].buyoutRatio <= after[a].ratio) {
      RatioBelowTotal(Ratios(after), a);
    }
    assert Of(Ratios(after), platform) == RatioAfter(r, seller, buyer, platform);
  }

  lemma RatioBelowTotal(ratios: Balances, a: nat)
    requires a in ratios
    ensures ratios[a] <= Total(ratios)
  {
    TotalTake(ratios, a);
  }

  /** What a share of `ratio` gets out of an amount. */
  function Share(amount: nat, ratio: nat): nat {
    Div(amount * ratio, HUNDRED_PERCENT)
  }

  /** What everybody but the platform gets. */
  function Shares(r: Receiptors, platform: nat, amount: nat): Balances {
    map a | a in r && a != platform :: Share(amount, r[a].ratio)
  }

  /** A share is rounded down, by less than one. */
  lemma ShareExact(amount: nat, ratio: nat)
    ensures var s := Share(amount, ratio);
      s * HUNDRED_PERCENT <= amount * ratio < (s + 1) * HUNDRED_PERCENT
  {
    var n := amount * ratio;
    Quotient(n, HUNDRED_PERCENT);
  }

  /** Shares rounded down never add up to more than the amount times the ratios. */
  lemma {:induction false} SharesScaled(shares: Balances, ratios: Balances, amount: nat)
    requires shares.Keys <= ratios.Keys && forall a :: a in shares ==> shares[a] == Share(amount, ratios[a])
    ensures Total(shares) * HUNDRED_PERCENT <= amount * Total(ratios)
    decreases |shares|
  {
    hide Share, Total;
    if shares == map[] {
      NoneTotal();
      Times(0, amount, Total(ratios));
    } else {
      var a :| a in shares;
      TotalTake(shares, a);
      TotalTake(ratios, a);
      SharesScaled(shares - {a}, ratios - {a}, amount);
      ShareExact(amount, ratios[a]);
      Combine(shares[a], Total(shares - {a}), amount, ratios[a], Total(ratios - {a}));
    }
  }

  lemma Combine(x: nat, y: nat, amount: nat, p: nat, q: nat)
    requires x * HUNDRED_PERCENT <= amount * p && y * HUNDRED_PERCENT <= amount * q
    ensures (x + y) * HUNDRED_PERCENT <= amount * (p + q)
  {
    Spread(amount, p, q);
  }

  /** The platform's part is never negative. */
  lemma SurplusLeft(r: Receiptors, platform: nat, amount: nat)
    requires Total(Ratios(r)) <= HUNDRED_PERCENT
    ensures Total(Shares(r, platform, amount)) <= amount
  {
    hide Share;
    SharesScaled(Shares(r, platform, amount), Ratios(r), amount);
    Times(Total(Ratios(r)), HUNDRED_PERCENT, amount);
  }

  /** What one account gets out of an amount. */
  ghost function Portion(r: Receiptors, platform: nat, amount: nat, a: nat): int {
    if a == platform then amount - Total(Shares(r, platform, amount)) else Of(Shares(r, platform, amount), a)
  }

  class Post {
    const poster: nat
    const platform: nat
    var receiptors: Receiptors

    ghost predicate Valid()
      reads this
    {
      Fair(receiptors, poster, platform)
    }

    constructor (poster: nat, platform: nat, receiptors: Receiptors)
      requires Fair(receiptors, poster, platform)
      ensures Valid() && this.poster == poster && this.platform == platform && this.receiptors == receiptors
    {
      this.poster, this.platform, this.receiptors := poster, platform, receiptors;
    }
  }

  /** What accounts have deposited for content. */
  class Deposits {
    var prepaid: Balances

    constructor (prepaid: Balances)
      ensures this.prepaid == prepaid
    {
      this.prepaid := prepaid;
    }

    method Add(account: nat, amount: nat)
      modifies this
      ensures forall a :: Of(prepaid, a) == Of(old(prepaid), a) + if a == account then amount else 0
      ensures Total(prepaid) == Total(old(prepaid)) + amount
    {
      hide Total;
      TotalPut(prepaid, account, Of(prepaid, account) + amount);
      prepaid := prepaid[account := Of(prepaid, account) + amount];
    }

    method Take(account: nat, amount: nat)
      requires Of(prepaid, account) >= amount
      modifies this
      ensures forall a :: Of(prepaid, a) == Of(old(prepaid), a) - if a == account then amount else 0
      ensures Total(prepaid) == Total(old(prepaid)) - amount
    {
      hide Total;
      TotalPut(prepaid, account, Of(prepaid, account) - amount);
      prepaid := prepaid[account := Of(prepaid, account) - amount];
    }

    /** Buys the share a receiptor offers: the price and the share change hands, nothing else does. */
    method Buyout(post: Post, seller: nat, buyer: nat, now: nat) returns (ok: bool)
      requires post.Valid()
      modifies this, post`receiptors
      ensures post.Valid() && Total(prepaid) == Total(old(prepaid))
      ensures ok <==>
        MayTrade(old(post.receiptors), post.poster, post.platform, seller, buyer, now, Of(old(prepaid), buyer))
      ensures ok ==> post.receiptors == Traded(old(post.receiptors), seller, buyer)
      ensures ok ==>
        forall a :: Of(prepaid, a) == Paid(old(prepaid), buyer, seller, old(post.receiptors)[seller].buyoutPrice, a)
      ensures !ok ==> post.receiptors == old(post.receiptors) && prepaid == old(prepaid)
    {
      hide Total, Fair, Traded, Of;
      var r := post.receiptors;
      var valid := Validate(r, post.poster, post.platform);
      if !valid || seller !in r {
        return false;
      }
      var p := r[seller];
      if !p.toBuyout || p.buyoutPrice == 0 || p.buyoutRatio == 0 || p.buyoutRatio > p.ratio || p.expiration < now {
        return false;
      }
      if seller == post.poster {
        if p.ratio < p.buyoutRatio + POSTER_MIN_RATIO {
          return false;
        }
        if post.poster == post.platform && p.ratio < p.buyoutRatio + POSTER_MIN_RATIO + PLATFORM_RATIO {
          return false;
        }
      }
      if p.buyoutRatio < p.ratio && buyer !in r && |r| >= MAX_RECEIPTORS {
        return false;
      }
      if Of(prepaid, buyer) < p.buyoutPrice {
        return false;
      }
      TradeFair(r, post.poster, post.platform, seller, buyer, now);
      Take(buyer, r[seller].buyoutPrice);
      Add(seller, r[seller].buyoutPrice);
      post.receiptors := Traded(r, seller, buyer);
      ok := true;
    }

    /** Splits an amount taken from one account among the receiptors; the platform gets what is left. */
    method Distribute(post: Post, from: nat, amount: nat) returns (ok: bool)
      requires post.Valid()
      modifies this
      ensures Total(prepaid) == Total(old(prepaid)) && (ok <==> Of(old(prepaid), from) >= amount)
      ensures ok ==> Portion(post.receiptors, post.platform, amount, post.platform) >= 0
      ensures ok ==>
        forall a :: Of(prepaid, a) == AfterReward(old(prepaid), post.receiptors, post.platform, from, amount, a)
      ensures !ok ==> prepaid == old(prepaid)
    {
      hide Total, Share, Of, Shares;
      if Of(prepaid, from) < amount {
        return false;
      }
      Take(from, amount);
      ghost var start := prepaid;
      var r, surplus := post.receiptors, amount;
      var todo := r.Keys;
      ghost var paid: Balances := map[];
      NoneTotal();
      NoneOf();
      while todo != {}
        invariant todo <= r.Keys && PaidOut(r, post.platform, amount, paid, r.Keys - todo)
        invariant surplus == amount - Total(paid) && Total(prepaid) == Total(start) + Total(paid)
        invariant forall a :: Of(prepaid, a) == Of(start, a) + Of(paid, a)
        decreases |todo|
      {
        var a :| a in todo;
        todo := todo - {a};
        if a == post.platform {
          continue;
        }
        var temp := Share(amount, r[a].ratio);
        PayOne(paid, a, temp);
        paid := paid[a := temp];
        PartLeft(r, amount, paid);
        surplus := surplus - temp;
        Add(a, temp);
      }
      AllPaid(r, post.platform, amount, paid);
      Add(post.platform, surplus);
      SurplusLeft(r, post.platform, amount);
      ok := true;
    }
  }

  /** Everybody has got what is paid. */
  ghost predicate Credited(before: Balances, after: Balances, paid: Balances) {
    && Total(after) == Total(before) + Total(paid)
    && forall a :: Of(after, a) == Of(before, a) + Of(paid, a)
  }

  lemma CreditedNone(before: Balances)
    ensures Credited(before, before, map[]) && Total(map[]) == 0
  {
    hide Total;
    NoneTotal();
    NoneOf();
  }

  lemma CreditedMore(before: Balances, was: Balances, now: Balances, paid: Balances, a: nat, amount: nat)
    requires Credited(before, was, paid) && a !in paid && Total(now) == Total(was) + amount
    requires forall x :: Of(now, x) == Of(was, x) + if x == a then amount else 0
    ensures Credited(before, now, paid[a := amount]) && Total(paid[a := amount]) == Total(paid) + amount
  {
    hide Total, Of;
    PayOne(paid, a, amount);
  }

  lemma CreditedAll(before: Balances, after: Balances, paid: Balances)
    requires Credited(before, after, paid)
    ensures Total(after) == Total(before) + Total(paid) && forall a :: Of(after, a) == Of(before, a) + Of(paid, a)
  {
    hide Total, Of;
  }

  /** Credits everybody but the platform with a share of an amount; what is left of it. */
  method PayShares(accounts: Accounts, r: Receiptors, platform: nat, amount: nat) returns (surplus: nat)
    requires accounts.Valid() && Total(Ratios(r)) <= HUNDRED_PERCENT
    modifies accounts`balances, accounts`core
    ensures accounts.Valid() && surplus == amount - Total(Shares(r, platform, amount))
    ensures Total(accounts.balances) == Total(old(accounts.balances)) + Total(Shares(r, platform, amount))
    ensures forall a :: Of(accounts.balances, a) == Of(old(accounts.balances), a) + Of(Shares(r, platform, amount), a)
    ensures Of(Shares(r, platform, amount), platform) == 0
  {
    hide Total, Share, Of, Shares, Ratios, Credited, PaidOut, Accounts.Valid;
    surplus := amount;
    var todo := r.Keys;
    ghost var paid: Balances := map[];
    CreditedNone(accounts.balances);
    PaidNone(r, platform, amount);
    while todo != {}
      invariant accounts.Valid() && todo <= r.Keys && PaidOut(r, platform, amount, paid, r.Keys - todo)
      invariant surplus == amount - Total(paid) && Credited(old(accounts.balances), accounts.balances, paid)
      decreases |todo|
    {
      var a :| a in todo;
      PaidMore(r, platform, amount, paid, todo, a);
      todo := todo - {a};
      if a == platform {
        continue;
      }
      var temp := Share(amount, r[a].ratio);
      ghost var was := accounts.balances;
      var credited := accounts.AdjustBalance(a, temp);
      CreditedMore(old(accounts.balances), was, accounts.balances, paid, a, temp);
      paid := paid[a := temp];
      PaidPart(r, platform, amount, paid, r.Keys - todo);
      surplus := surplus - temp;
    }
    assert r.Keys - todo == r.Keys;
    AllPaid(r, platform, amount, paid);
    CreditedAll(old(accounts.balances), accounts.balances, paid);
  }

  /** Rewards a post out of a balance: split among the receiptors, the platform gets what is left. */
  method Reward(accounts: Accounts, post: Post, from: nat, amount: nat) returns (ok: bool)
    requires accounts.Valid() && post.Valid()
    modifies accounts`balances, accounts`core
    ensures accounts.Valid() && Total(accounts.balances) == Total(old(accounts.balances))
    ensures ok <==> old(accounts.CanAdjust(from, 0 - amount))
    ensures ok ==> Portion(post.receiptors, post.platform, amount, post.platform) >= 0
    ensures ok ==> forall a :: Of(accounts.balances, a) ==
                     AfterReward(old(accounts.balances), post.receiptors, post.platform, from, amount, a)
  {
    hide Total, Of, Shares, Ratios;
    ok := accounts.AdjustBalance(from, 0 - amount);
    if !ok {
      return;
    }
    var surplus := PayShares(accounts, post.receiptors, post.platform, amount);
    var credited := accounts.AdjustBalance(post.platform, surplus);
  }

  /** The balance of an account after one has paid another. */
  ghost function Paid(b: Balances, from: nat, to: nat, amount: nat, a: nat): int {
    Of(b, a) - (if a == from then amount else 0) + (if a == to then amount else 0)
  }

  /** The balance of an account after another has rewarded a post. */
  ghost function AfterReward(b: Balances, r: Receiptors, platform: nat, from: nat, amount: nat, a: nat): int {
    Of(b, a) - (if a == from then amount else 0) + Portion(r, platform, amount, a)
  }

  /** The shares paid out so far, to the accounts seen so far. */
  ghost predicate PaidOut(r: Receiptors, platform: nat, amount: nat, paid: Balances, seen: set<nat>) {
    paid.Keys == seen - {platform} && forall a :: a in paid ==> a in r && paid[a] == Share(amount, r[a].ratio)
  }

  lemma PayOne(paid: Balances, a: nat, amount: nat)
    requires a !in paid
    ensures Total(paid[a := amount]) == Total(paid) + amount
    ensures forall x :: Of(paid[a := amount], x) == Of(paid, x) + if x == a then amount else 0
  {
    hide Total;
    TotalPut(paid, a, amount);
  }

  lemma NoneOf()
    ensures forall a :: Of(map[], a) == 0
  {
  }

  lemma PartLeft(r: Receiptors, amount: nat, paid: Balances)
    requires Total(Ratios(r)) <= HUNDRED_PERCENT
    requires forall a :: a in paid ==> a in r && paid[a] == Share(amount, r[a].ratio)
    ensures Total(paid) <= amount
  {
    hide Share, Total;
    SharesScaled(paid, Ratios(r), amount);
    Times(Total(Ratios(r)), HUNDRED_PERCENT, amount);
  }

  lemma PaidNone(r: Receiptors, platform: nat, amount: nat)
    ensures PaidOut(r, platform, amount, map[], r.Keys - r.Keys)
  {
  }

  lemma PaidMore(r: Receiptors, platform: nat, amount: nat, paid: Balances, todo: set<nat>, a: nat)
    requires PaidOut(r, platform, amount, paid, r.Keys - todo) && a in todo && todo <= r.Keys
    ensures a !in paid
    ensures var more := if a == platform then paid else paid[a := Share(amount, r[a].ratio)];
      PaidOut(r, platform, amount, more, r.Keys - (todo - {a}))
  {
    hide Share;
  }

  lemma PaidPart(r: Receiptors, platform: nat, amount: nat, paid: Balances, seen: set<nat>)
    requires Total(Ratios(r)) <= HUNDRED_PERCENT && PaidOut(r, platform, amount, paid, seen)
    ensures Total(paid) <= amount
  {
    hide Share, Total;
    PartLeft(r, amount, paid);
  }

  lemma AllPaid(r: Receiptors, platform: nat, amount: nat, paid: Balances)
    requires PaidOut(r, platform, amount, paid, r.Keys)
    ensures paid == Shares(r, platform, amount) && Of(paid, platform) == 0
  {
    hide Share;
  }

  /** The check made before a trade. */
  method Validate(r: Receiptors, poster: nat, platform: nat) returns (ok: bool)
    ensures ok <==> Validated(r, poster, platform)
  {
    hide Total;
    if platform !in r {
      return false;
    }
    if poster == platform {
      if r[platform].ratio < PLATFORM_RATIO + POSTER_MIN_RATIO {
        return false;
      }
    } else if r[platform].ratio != PLATFORM_RATIO {
      return false;
    }
    var total, todo := 0, r.Keys;
    ghost var seen: Balances := map[];
    NoneTotal();
    while todo != {}
      invariant todo <= r.Keys && seen.Keys == r.Keys - todo && total == Total(seen)
      invariant forall a :: a in seen ==> seen[a] == r[a].ratio
      invariant forall a :: a in seen ==>
                  r[a].ratio <= HUNDRED_PERCENT && (r[a].toBuyout ==> r[a].buyoutRatio <= r[a].ratio)
      decreases |todo|
    {
      var a :| a in todo;
      if r[a].ratio > HUNDRED_PERCENT || (r[a].toBuyout && r[a].ratio < r[a].buyoutRatio) {
        return false;
      }
      TotalPut(seen, a, r[a].ratio);
      seen := seen[a := r[a].ratio];
      total, todo := total + r[a].ratio, todo - {a};
    }
    assert seen == Ratios(r);
    ok := total == HUNDRED_PERCENT;
  }

  lemma NoneTotal()
    ensures Total(map[]) == 0
  {
  }
}
