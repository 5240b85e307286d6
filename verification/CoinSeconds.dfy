/** Coin-seconds: what an account earns by locking its balance over time, and collects as CSAF. */
module CoinSeconds {
  import opened Arithmetic

  /** Times are rounded down to the minute. */
  function Rounded(t: nat): (r: nat)
    ensures r % 60 == 0 && r <= t < r + 60
  {
    t / 60 * 60
  }

  lemma RoundedMonotone(s: nat, t: nat)
    requires s <= t
    ensures Rounded(s) <= Rounded(t)
    ensures Rounded(Rounded(t)) == Rounded(t)
  {
  }

  const COLLECTING_TIME_OFFSET: nat := 300
  const HUNDRED_PERCENT: nat := 10000

  /** The average balance over the window, given the effective balance since the last update. */
  function NewAverage(average: nat, since: nat, balance: nat, window: nat, now: nat): nat {
    if now <= since then average
    else if now - since >= window then balance
    else Div(average * (window - (now - since)) + balance * (now - since), window)
  }

  /** What has been earned by `now`, at most the average over the window times the window. */
  function NewEarned(earned: nat, since: nat, average: nat, balance: nat, window: nat, now: nat): nat {
    var more := if now <= since then earned else earned + balance * (now - since);
    Min(more, average * window)
  }

  /** The average over the window: the balance weighs as many seconds as it was there, the old average the
      rest of the window, rounded down; after a whole window only the balance counts. */
  ghost predicate Averaged(average: nat, since: nat, balance: nat, window: nat, now: nat, r: nat) {
    if now <= since then r == average
    else if now >= since + window then r == balance
    else
      var weighed := average * (since + window - now) + balance * (now - since);
      r * window <= weighed < (r + 1) * window
  }

  lemma AverageExact(average: nat, since: nat, balance: nat, window: nat, now: nat)
    ensures Averaged(average, since, balance, window, now, NewAverage(average, since, balance, window, now))
  {
    if since < now < since + window {
      var weighed := average * (since + window - now) + balance * (now - since);
      Quotient(weighed, window);
      Spread(window, Div(weighed, window), 1);
    }
  }

  /** What is earned grows by the balance for every second, up to a cap; what goes beyond it is lost. */
  ghost predicate Accrues(earned: nat, balance: nat, seconds: nat, cap: nat, r: nat, lost: int) {
    r + lost == earned + balance * seconds && r <= cap && lost >= 0 && (lost > 0 ==> r == cap)
  }

  ghost function Excess(earned: nat, balance: nat, seconds: nat, cap: nat, r: nat): nat
    requires Accrues(earned, balance, seconds, cap, r, earned + balance * seconds - r)
  {
    earned + balance * seconds - r
  }

  /** The seconds from one time to another, if that is later. */
  function Later(from: nat, to: nat): nat {
    if from < to then to - from else 0
  }

  lemma EarnedExact(earned: nat, since: nat, average: nat, balance: nat, window: nat, now: nat)
    ensures var r := NewEarned(earned, since, average, balance, window, now);
      Accrues(earned, balance, Later(since, now), average * window, r, earned + balance * Later(since, now) - r)
  {
  }

  lemma Mean(a: nat, b: nat, p: nat, q: nat)
    requires p + q > 0
    ensures Min(a, b) <= Div(a * p + b * q, p + q) <= Max(a, b)
  {
    var lo, hi, w := Min(a, b), Max(a, b), p + q;
    Times(lo, a, p);
    Times(lo, b, q);
    Times(a, hi, p);
    Times(b, hi, q);
    Spread(lo, p, q);
    Spread(hi, p, q);
    DivBetween(a * p + b * q, w, lo, hi);
  }

  /** The new average lies between the old one and the balance. */
  lemma AverageBetween(average: nat, since: nat, balance: nat, window: nat, now: nat)
    ensures Min(average, balance) <= NewAverage(average, since, balance, window, now) <= Max(average, balance)
  {
    if since < now && now - since < window { Mean(average, balance, window - (now - since), now - since); }
  }

  /** What there is to collect at a time: what has accrued by then, up to the average then over the window. */
  ghost predicate Available(earned: nat, since: nat, average: nat, averageSince: nat, balance: nat, window: nat,
                            now: nat, r: nat, lost: int) {
    exists a: nat :: Averaged(average, averageSince, balance, window, now, a)
      && Accrues(earned, balance, Later(since, now), a * window, r, lost)
  }

  /** How much CSAF an account may hold: more with a locked balance, by a rate in hundredths of a percent. */
  ghost predicate MayHold(locked: nat, csaf: nat, most: nat, modulus: nat) {
    csaf <= most || (csaf - most) * HUNDRED_PERCENT <= locked * modulus
  }

  lemma HoldExact(locked: nat, csaf: nat, most: nat, modulus: nat)
    ensures MayHold(locked, csaf, most, modulus) <==> csaf <= most + Div(locked * modulus, HUNDRED_PERCENT)
  {
    var n := locked * modulus;
    Quotient(n, HUNDRED_PERCENT);
  }

  /** The locked balance over time, last change first: from each minute on, the balance locked. */
  datatype Changes = Start(balance: nat, since: nat) | Change(balance: nat, since: nat, before: Changes)

  ghost predicate InOrder(h: Changes) {
    h.Change? ==> h.before.since <= h.since && InOrder(h.before)
  }

  /** The locked balance summed over every second from the start to `t`. */
  ghost function Integral(h: Changes, t: nat): nat
    requires InOrder(h) && h.since <= t
  {
    h.balance * (t - h.since) + if h.Change? then Integral(h.before, h.since) else 0
  }

  lemma IntegralGrows(h: Changes, s: nat, t: nat)
    requires InOrder(h) && h.since <= s <= t
    ensures Integral(h, t) == Integral(h, s) + h.balance * (t - s) >= Integral(h, s)
  {
    Spread(h.balance, s - h.since, t - s);
    Times(0, t - s, h.balance);
  }

  lemma IntegralChange(h: Changes, balance: nat, at: nat)
    requires InOrder(h) && h.since <= at
    ensures InOrder(Change(balance, at, h)) && Integral(Change(balance, at, h), at) == Integral(h, at)
  {
  }

  class Account {
    var earned: nat
    var earnedLast: nat
    var average: nat
    var averageLast: nat
    var locked: nat
    var csaf: nat
    /** What was earned at the start, what has been spent and what the cap has cost since, the changes of
        the locked balance, and the last head block time. */
    ghost var initial: nat
    ghost var spent: nat
    ghost var lost: nat
    ghost var history: Changes
    ghost var clock: nat

    /** What has been spent, what is left and what the cap has cost add up to what the locked balance has
        earned up to the last update. */
    ghost predicate Valid()
      reads this
    {
      && InOrder(history) && history.since <= earnedLast <= Rounded(clock) && averageLast <= Rounded(clock)
        && history.balance == locked
      && Rounded(earnedLast) == earnedLast
      && earned + spent + lost == initial + Integral(history, earnedLast)
    }

    constructor (earned: nat, average: nat, locked: nat, now: nat)
      ensures Valid() && initial == earned && spent == lost == 0 && clock == now
      ensures history == Start(locked, Rounded(now))
      ensures this.earned == earned && this.locked == locked
    {
      this.earned, this.average, this.locked, csaf := earned, average, locked, 0;
      earnedLast, averageLast := Rounded(now), Rounded(now);
      initial, spent, lost, history, clock := earned, 0, 0, Start(locked, Rounded(now)), now;
    }

    /** How much CSAF the account may hold: more with a locked balance. */
    function Limit(most: nat, modulus: nat): nat
      reads this`locked
    {
      most + Div(locked * modulus, HUNDRED_PERCENT)
    }

    /** What would be earned at `now`, and the average then. */
    function Compute(window: nat, now: nat): (nat, nat)
      reads this`earned, this`earnedLast, this`average, this`averageLast, this`locked
    {
      var newAverage := NewAverage(average, averageLast, locked, window, Rounded(now));
      (NewEarned(earned, earnedLast, newAverage, locked, window, Rounded(now)), newAverage)
    }

    /** What has been earned at `now`, and the average then. */
    lemma ComputeExact(window: nat, now: nat)
      requires Valid()
      ensures var (e, a) := Compute(window, now);
        var seconds := Later(earnedLast, Rounded(now));
        var excess := earned + locked * seconds - e;
        && Averaged(average, averageLast, locked, window, Rounded(now), a)
        && Accrues(earned, locked, seconds, a * window, e, excess)
        && e + spent + lost + excess == initial + Integral(history, Max(Rounded(now), earnedLast))
        && Min(average, locked) <= a <= Max(average, locked)
    {
      hide NewAverage, NewEarned, Averaged, Integral, Rounded;
      var t := Rounded(now);
      AverageBetween(average, averageLast, locked, window, t);
      AverageExact(average, averageLast, locked, window, t);
      EarnedExact(earned, earnedLast, Compute(window, now).1, locked, window, t);
      if t > earnedLast { IntegralGrows(history, earnedLast, t); }
    }

    /** The state of the earnings before and after they are brought up to date at `now`. */
    twostate predicate UpToDate(window: nat, now: nat)
      reads this
    {
      && earnedLast % 60 == 0 && earnedLast <= now < earnedLast + 60 && earnedLast >= old(earnedLast)
      && if earnedLast > old(earnedLast) || earnedLast > old(averageLast) then
           && averageLast == earnedLast
           && Averaged(old(average), old(averageLast), old(locked), window, earnedLast, average)
           && Accrues(
                old(earned), old(locked), earnedLast - old(earnedLast), average * window, earned, lost - old(lost))
         else earned == old(earned) && lost == old(lost) && average == old(average) && averageLast == old(averageLast)
    }

    /** Brings the earnings up to date. */
    method UpdateCoinSeconds(window: nat, now: nat)
      requires Valid() && clock <= now
      modifies this`earned, this`earnedLast, this`average, this`averageLast, this`clock, this`lost
      ensures Valid() && clock == now && earnedLast == Rounded(now) && UpToDate(window, now)
      ensures Min(old(average), locked) <= average <= Max(old(average), locked)
    {
      hide Integral, Rounded, NewAverage, NewEarned, Averaged, Accrues;
      RoundedMonotone(clock, now);
      clock := now;
      if Rounded(now) <= earnedLast && Rounded(now) <= averageLast {
        return;
      }
      ComputeExact(window, Rounded(now));
      RoundedMonotone(now, now);
      var result := Compute(window, Rounded(now));
      lost := lost + Excess(earned, locked, Rounded(now) - earnedLast, result.1 * window, result.0);
      earned, earnedLast := result.0, Rounded(now);
      average, averageLast := result.1, Rounded(now);
    }

    /** Locks another balance from this block on. */
    method LockBalance(window: nat, now: nat, balance: nat)
      requires Valid() && clock <= now
      modifies this`earned, this`earnedLast, this`average, this`averageLast, this`clock, this`lost
      modifies this`locked, this`history
      ensures Valid() && clock == now && locked == balance && history == Change(balance, Rounded(now), old(history))
      ensures UpToDate(window, now)
    {
      UpdateCoinSeconds(window, now);
      IntegralChange(history, balance, Rounded(now));
      locked := balance;
      history := Change(balance, Rounded(now), history);
    }

    /** Leaves `left` earned at `now`. */
    method SetCoinSeconds(left: nat, now: nat)
      modifies this`earned, this`earnedLast
      ensures earned == left && earnedLast == Max(old(earnedLast), Rounded(now))
    {
      earned := left;
      if earnedLast < Rounded(now) {
        earnedLast := Rounded(now);
      }
    }

    method TakeOut(collecting: nat, time: nat, window: nat)
      requires Valid() && time <= clock && collecting <= Compute(window, time).0
      modifies this`earned, this`earnedLast, this`spent, this`lost
      ensures Valid() && spent == old(spent) + collecting && earnedLast == Max(old(earnedLast), Rounded(time))
      ensures Available(old(earned), old(earnedLast), average, averageLast, locked, window, Rounded(time),
                        earned + collecting, lost - old(lost))
    {
      hide Integral, Rounded, NewAverage, NewEarned, Averaged, Accrues, Later;
      RoundedMonotone(time, clock);
      RoundedMonotone(time, time);
      ComputeExact(window, time);
      var (available, cap) := Compute(window, time);
      ghost var seconds := Later(earnedLast, Rounded(time));
      lost := lost + Excess(earned, locked, seconds, cap * window, available);
      SetCoinSeconds(available - collecting, time);
      spent := spent + collecting;
      assert Averaged(average, averageLast, locked, window, Rounded(time), cap);
    }

    /** Collects `amount` at `time`, up to five minutes before the head block, at `rate` coin-seconds
        each, if that much has been earned and the receiver may hold it. */
    method Collect(to: Account, amount: nat, time: nat, head: nat, window: nat, rate: nat, most: nat,
                   modulus: nat) returns (ok: bool)
      requires Valid() && clock <= head
      modifies this, to`csaf
      ensures Valid() && clock == head && history == old(history) && initial == old(initial) && locked == old(locked)
      ensures ok <==>
        && MayHold(old(to.locked), amount + old(to.csaf), most, modulus)
        && time <= head <= time + COLLECTING_TIME_OFFSET && amount * rate <= old(Compute(window, time)).0
      ensures ok ==> to.csaf == old(to.csaf) + amount && spent == old(spent) + amount * rate
      ensures ok ==> earnedLast == Max(old(earnedLast), Rounded(time))
      ensures ok ==> Available(old(earned), old(earnedLast), average, averageLast, locked, window, Rounded(time),
                               earned + amount * rate, lost - old(lost))
      ensures !ok ==> earned == old(earned) && spent == old(spent) && lost == old(lost) && to.csaf == old(to.csaf)
    {
      hide Integral, Rounded, NewAverage, NewEarned, Div, Available, MayHold, Compute;
      HoldExact(to.locked, amount + to.csaf, most, modulus);
      RoundedMonotone(clock, head);
      clock := head;
      if amount + to.csaf > to.Limit(most, modulus) || time > head || time + COLLECTING_TIME_OFFSET < head {
        return false;
      }
      var collecting := amount * rate;
      if Compute(window, time).0 < collecting {
        return false;
      }
      TakeOut(collecting, time, window);
      to.csaf := to.csaf + amount;
      ok := true;
    }

    /** At any time, no more has been spent than the locked balance, summed over time, has earned. */
    lemma SpentCovered(now: nat)
      requires Valid() && clock <= now
      ensures history.since <= Rounded(now) && spent <= initial + Integral(history, Rounded(now))
    {
      hide Integral, Rounded;
      RoundedMonotone(clock, now);
      IntegralGrows(history, earnedLast, Rounded(now));
    }
  }
}
