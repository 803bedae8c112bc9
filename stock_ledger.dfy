/** The trading rules of stocks_simulator.py as functions on the ledger: the
    player's money, the number of shares held in each of the five companies
    (`stocks1`) and the list of company ids recorded by purchases
    (`userchoices`). Money and prices are whole cents. */
module StockLedger {

  /** `money`, `stocks1` and `userchoices`; company ids are 1 to 5, and
      `holdings[id - 1]` is the count for company `id`. */
  datatype Account = Account(money: int, holdings: seq<int>, choices: seq<int>)

  /** The ledger after a transaction and whether it was reported successful. */
  datatype Trade = Trade(after: Account, ok: bool)

  /** What the player does on one trading day: buy from a company, sell shares
      of a company, or nothing (`'x'` then `'n'`, or `'x'`, `'y'`, `'x'`). */
  datatype Action = BuyShares(company: int, amount: nat) | SellShares(stock: int, amount: nat) | NoTrade

  const COMPANY_COUNT := 5
  /** The starting balance of $1000, in cents. */
  const STARTING_MONEY := 100000

  predicate IsCompany(id: int)
  {
    1 <= id <= COMPANY_COUNT
  }

  predicate WellFormed(a: Account)
  {
    |a.holdings| == COMPANY_COUNT
  }

  /** The state when trading starts: $1000, no shares, no recorded choices. */
  function InitialAccount(): (a: Account)
    ensures WellFormed(a)
  {
    Account(STARTING_MONEY, [0, 0, 0, 0, 0], [])
  }

  /** `list.count(x)`. */
  function Count(s: seq<int>, x: int): (n: nat)
    ensures n <= |s|
  {
    if s == [] then 0 else (if s[0] == x then 1 else 0) + Count(s[1..], x)
  }

  /** A list holds `x` exactly when it counts at least one copy of it. */
  lemma {:induction false} CountPositive(s: seq<int>, x: int)
    ensures Count(s, x) > 0 <==> x in s
  {
    if s != [] {
      CountPositive(s[1..], x);
      assert s == [s[0]] + s[1..];
    }
  }

  /** Counting distributes over concatenation. */
  lemma {:induction false} CountAppend(a: seq<int>, b: seq<int>, x: int)
    ensures Count(a + b, x) == Count(a, x) + Count(b, x)
  {
    if a == [] {
      assert a + b == b;
    } else {
      assert (a + b)[1..] == a[1..] + b;
      CountAppend(a[1..], b, x);
    }
  }

  /** `n` copies of `x`, as left behind by `n` calls of `extend` with one id. */
  function Repeat(x: int, n: nat): (r: seq<int>)
    ensures |r| == n
    ensures forall i :: 0 <= i < n ==> r[i] == x
  {
    if n == 0 then [] else Repeat(x, n - 1) + [x]
  }

  /** `n` copies of `x` count `n` times for `x` and never for anything else. */
  lemma {:induction false} CountRepeat(x: int, n: nat, y: int)
    ensures Count(Repeat(x, n), y) == if y == x then n else 0
  {
    if n > 0 {
      CountRepeat(x, n - 1, y);
      CountAppend(Repeat(x, n - 1), [x], y);
      assert [x][1..] == [];
    }
  }

  /** `list.remove(x)` on a list that holds `x`: one copy of `x` goes. */
  function RemoveFirst(s: seq<int>, x: int): (r: seq<int>)
    requires x in s
    ensures |r| == |s| - 1
    ensures Count(r, x) == Count(s, x) - 1
    ensures forall y :: y != x ==> Count(r, y) == Count(s, y)
  {
    if s[0] == x then s[1..]
    else
      assert x in s[1..] by {
        var j :| 0 <= j < |s| && s[j] == x;
        assert s[1..][j - 1] == x;
      }
      var r := [s[0]] + RemoveFirst(s[1..], x);
      assert r[1..] == RemoveFirst(s[1..], x);
      r
  }

  /** `list.index(x)`: the position of the first copy of `x`. */
  function IndexOf(s: seq<int>, x: int): (k: nat)
    requires x in s
    ensures k < |s| && s[k] == x && x !in s[..k]
  {
    if s[0] == x then 0
    else
      assert x in s[1..] by {
        var j :| 0 <= j < |s| && s[j] == x;
        assert s[1..][j - 1] == x;
      }
      var k := IndexOf(s[1..], x);
      assert s[..k + 1] == [s[0]] + s[1..][..k];
      k + 1
  }

  /** A copy of `x` past the head is a copy in the tail. */
  lemma InTail(s: seq<int>, x: int)
    requires x in s && s[0] != x
    ensures x in s[1..] && IndexOf(s, x) == IndexOf(s[1..], x) + 1
  {
    var j :| 0 <= j < |s| && s[j] == x;
    assert s[1..][j - 1] == x;
  }

  /** The copy that `remove` takes out is the first one; everything else stays
      in order. */
  lemma {:induction false} RemoveFirstSplice(s: seq<int>, x: int)
    requires x in s
    ensures RemoveFirst(s, x) == s[..IndexOf(s, x)] + s[IndexOf(s, x) + 1..]
  {
    if s[0] == x {
      assert IndexOf(s, x) == 0;
      assert s[..0] + s[1..] == s[1..];
    } else {
      InTail(s, x);
      var k := IndexOf(s[1..], x);
      RemoveFirstSplice(s[1..], x);
      assert RemoveFirst(s, x) == [s[0]] + RemoveFirst(s[1..], x);
      SpliceCons(s, k);
    }
  }

  lemma SpliceCons(s: seq<int>, k: nat)
    requires k + 1 < |s|
    ensures [s[0]] + (s[1..][..k] + s[1..][k + 1..]) == s[..k + 1] + s[k + 2..]
  {
    assert s[..k + 1] == [s[0]] + s[1..][..k];
    assert s[k + 2..] == s[1..][k + 1..];
  }

  /** `amount` calls of `remove(x)` in a row. */
  function RemoveFirstN(s: seq<int>, x: int, n: nat): (r: seq<int>)
    requires Count(s, x) >= n
    ensures |r| == |s| - n
    ensures Count(r, x) == Count(s, x) - n
    ensures forall y :: y != x ==> Count(r, y) == Count(s, y)
  {
    if n == 0 then s
    else
      var before := RemoveFirstN(s, x, n - 1);
      CountPositive(before, x);
      RemoveFirst(before, x)
  }

  /** The sell branch: it goes through when `userchoices` holds the id at all
      and holds at least `amount` copies of it; then `amount` copies are
      removed, the holding drops by `amount` and the money rises by
      `amount * price`. Otherwise nothing changes. */
  function Sell(a: Account, choice: int, amount: nat, price: int): (t: Trade)
    requires WellFormed(a) && IsCompany(choice)
    ensures WellFormed(t.after)
    ensures t.ok <==> choice in a.choices && Count(a.choices, choice) >= amount
    ensures t.ok ==> t.after.money == a.money + amount * price
    ensures t.ok ==> t.after.holdings == a.holdings[choice - 1 := a.holdings[choice - 1] - amount]
    ensures t.ok ==> Count(t.after.choices, choice) == Count(a.choices, choice) - amount
    ensures t.ok ==> forall c :: c != choice ==> Count(t.after.choices, c) == Count(a.choices, c)
    ensures !t.ok ==> t.after == a
  {
    var count := Count(a.choices, choice);
    if count >= amount && choice in a.choices then
      var choices := RemoveFirstN(a.choices, choice, amount);
      Trade(Account(a.money + amount * price, a.holdings[choice - 1 := a.holdings[choice - 1] - amount], choices), true)
    else
      Trade(a, false)
  }

  /** The transaction a successful sell performs, step by step. */
  lemma SellSucceeds(a: Account, choice: int, amount: nat, price: int)
    requires WellFormed(a) && IsCompany(choice)
    requires choice in a.choices && Count(a.choices, choice) >= amount
    ensures Sell(a, choice, amount, price) ==
      Trade(Account(a.money + amount * price,
                    a.holdings[choice - 1 := a.holdings[choice - 1] - amount],
                    RemoveFirstN(a.choices, choice, amount)), true)
  {
  }

  /** The buy branch as the program has it: `amount` copies of the company id
      are appended to `userchoices` first, and only then is the cost checked.
      The purchase goes through when the cost is at most the money; then the
      money drops by the cost and the holding rises by `amount`. */
  function Buy(a: Account, company: int, amount: nat, price: int): (t: Trade)
    requires WellFormed(a) && IsCompany(company)
    ensures WellFormed(t.after)
    ensures t.after.choices == a.choices + Repeat(company, amount)
    ensures t.ok <==> amount * price <= a.money
    ensures t.ok ==> t.after.money == a.money - amount * price
    ensures t.ok ==> t.after.holdings == a.holdings[company - 1 := a.holdings[company - 1] + amount]
    ensures !t.ok ==> t.after.money == a.money && t.after.holdings == a.holdings
  {
    var choices := a.choices + Repeat(company, amount);
    var cost := amount * price;
    if cost > a.money then
      Trade(Account(a.money, a.holdings, choices), false)
    else
      Trade(Account(a.money - cost, a.holdings[company - 1 := a.holdings[company - 1] + amount], choices), true)
  }

  /** The buy branch as evidently intended: the purchase is recorded in
      `userchoices` only when it goes through, so a failed purchase changes
      nothing. */
  function BuyChecked(a: Account, company: int, amount: nat, price: int): (t: Trade)
    requires WellFormed(a) && IsCompany(company)
    ensures WellFormed(t.after)
    ensures t.ok <==> amount * price <= a.money
    ensures t.ok ==> t.after.money == a.money - amount * price
    ensures t.ok ==> t.after.holdings == a.holdings[company - 1 := a.holdings[company - 1] + amount]
    ensures t.ok ==> t.after.choices == a.choices + Repeat(company, amount)
    ensures !t.ok ==> t.after == a
  {
    var cost := amount * price;
    if cost > a.money then
      Trade(a, false)
    else
      Trade(Account(a.money - cost, a.holdings[company - 1 := a.holdings[company - 1] + amount],
                    a.choices + Repeat(company, amount)), true)
  }

  predicate ActionTargetsCompany(action: Action)
  {
    match action
    case BuyShares(c, _) => IsCompany(c)
    case SellShares(c, _) => IsCompany(c)
    case NoTrade => true
  }

  /** The trade of one day at the day's prices (`stocks`, index id - 1). */
  function Apply(a: Account, action: Action, prices: seq<int>): (t: Trade)
    requires WellFormed(a) && ActionTargetsCompany(action) && |prices| >= COMPANY_COUNT
    ensures WellFormed(t.after)
  {
    match action
    case BuyShares(c, n) => Buy(a, c, n, prices[c - 1])
    case SellShares(c, n) => Sell(a, c, n, prices[c - 1])
    case NoTrade => Trade(a, false)
  }

  /** The ledger agrees with itself: for every company the number of copies of
      its id in `userchoices` is the number of shares held. */
  ghost predicate Consistent(a: Account)
  {
    && WellFormed(a)
    && forall c :: IsCompany(c) ==> Count(a.choices, c) == a.holdings[c - 1]
  }

  /** A consistent ledger never holds a negative number of shares. */
  lemma ConsistentHoldingsNonNegative(a: Account)
    requires Consistent(a)
    ensures forall i :: 0 <= i < COMPANY_COUNT ==> a.holdings[i] >= 0
  {
    forall i | 0 <= i < COMPANY_COUNT ensures a.holdings[i] >= 0 {
      assert Count(a.choices, i + 1) == a.holdings[i];
    }
  }

  lemma InitialConsistent()
    ensures Consistent(InitialAccount())
  {
  }

  /** Selling keeps the ledger consistent: it removes as many ids as it takes
      shares away. */
  lemma SellKeepsConsistent(a: Account, choice: int, amount: nat, price: int)
    requires Consistent(a) && IsCompany(choice)
    ensures Consistent(Sell(a, choice, amount, price).after)
  {
    var t := Sell(a, choice, amount, price);
    if t.ok {
      forall c | IsCompany(c) ensures Count(t.after.choices, c) == t.after.holdings[c - 1] {
        if c == choice {
        } else {
          assert t.after.holdings[c - 1] == a.holdings[c - 1];
        }
      }
    }
  }

  /** The corrected purchase keeps the ledger consistent, and with it every
      holding non-negative under any sequence of buys and sells. */
  lemma BuyCheckedKeepsConsistent(a: Account, company: int, amount: nat, price: int)
    requires Consistent(a) && IsCompany(company)
    ensures Consistent(BuyChecked(a, company, amount, price).after)
  {
    var t := BuyChecked(a, company, amount, price);
    if t.ok {
      forall c | IsCompany(c) ensures Count(t.after.choices, c) == t.after.holdings[c - 1] {
        CountAppend(a.choices, Repeat(company, amount), c);
        CountRepeat(company, amount, c);
        if c != company {
          assert t.after.holdings[c - 1] == a.holdings[c - 1];
        }
      }
    }
  }

  /** The purchase as written breaks the ledger: from the starting state a buy
      of one $2000 share fails for lack of money but still records the id, and
      selling that share then succeeds, pays out $2000 and leaves a holding of
      -1 shares. */
  lemma BuyThenSellAsWritten()
    ensures var a0 := InitialAccount();
            var bought := Buy(a0, 1, 1, 200000);
            var sold := Sell(bought.after, 1, 1, 200000);
            && Consistent(a0)
            && !bought.ok
            && !Consistent(bought.after)
            && sold.ok
            && sold.after.money == a0.money + 200000
            && sold.after.holdings[0] == -1
  {
    var a0 := InitialAccount();
    var bought := Buy(a0, 1, 1, 200000);
    assert bought.after.choices == [1];
    assert Count(bought.after.choices, 1) == 1;
    assert bought.after.holdings[0] == 0;
  }

  /** With the corrected purchase the same two steps do nothing: the failed buy
      records no id, so the sell fails too. */
  lemma BuyThenSellChecked()
    ensures var a0 := InitialAccount();
            var bought := BuyChecked(a0, 1, 1, 200000);
            var sold := Sell(bought.after, 1, 1, 200000);
            !bought.ok && !sold.ok && sold.after == a0
  {
  }
}
