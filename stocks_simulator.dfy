/** Model of the helpers and the trading-day state of stocks_simulator.py: the
    password check `validity`, the holdings line `stocks_owned`, and the module
    globals that the buy, sell and end-of-day code update in place. */
module StocksSimulator {
  import opened StockLedger

  // ---------------------------------------------------------------------------
  // validity
  // ---------------------------------------------------------------------------

  /** What `validity` returns: `'valid'`, `False`, or `None` when the loop over
      the password never runs because the password is empty. */
  datatype Verdict = Valid | NotValid | NoVerdict

  /** The three character tests the password check uses. */
  datatype CharClass = Upper | Lower | Digit

  /** `isupper`, `islower` and `isdigit`, restricted to ASCII: only ASCII
      characters pass any of them. */
  predicate InClass(c: char, k: CharClass)
    ensures InClass(c, k) ==> c as int < 128
  {
    match k
    case Upper => 'A' <= c <= 'Z'
    case Lower => 'a' <= c <= 'z'
    case Digit => '0' <= c <= '9'
  }

  /** `any([x.isupper() for x in s])` and its two siblings. */
  function AnyOf(s: string, k: CharClass): (b: bool)
    ensures b <==> exists i :: 0 <= i < |s| && InClass(s[i], k)
  {
    if s == [] then false
    else
      assert forall i :: 1 <= i < |s| ==> s[i] == s[1..][i - 1];
      InClass(s[0], k) || AnyOf(s[1..], k)
  }

  /** The password check: valid exactly when the password has an upper-case
      letter, a lower-case letter and a digit; an empty password gets no
      verdict at all, which callers comparing with `'valid'` treat as invalid. */
  function Validity(password: string): (v: Verdict)
    ensures v == NoVerdict <==> password == []
    ensures v == Valid <==>
      && (exists i :: 0 <= i < |password| && InClass(password[i], Upper))
      && (exists i :: 0 <= i < |password| && InClass(password[i], Lower))
      && (exists i :: 0 <= i < |password| && InClass(password[i], Digit))
  {
    if |password| == 0 then NoVerdict
    else if AnyOf(password, Upper) && AnyOf(password, Lower) && AnyOf(password, Digit) then Valid
    else NotValid
  }

  // ---------------------------------------------------------------------------
  // stocks_owned
  // ---------------------------------------------------------------------------

  function DigitChar(d: int): (c: char)
    requires 0 <= d < 10
    ensures '0' <= c <= '9' && c as int - '0' as int == d
  {
    ('0' as int + d) as char
  }

  /** The value of a string of decimal digits. */
  function DecimalValue(s: string): int
  {
    if s == [] then 0
    else
      var c := s[|s| - 1];
      DecimalValue(s[..|s| - 1]) * 10 + (if '0' <= c <= '9' then c as int - '0' as int else 0)
  }

  /** `str(n)` for a natural number: its decimal digits without leading zeros. */
  function NatToString(n: nat): (s: string)
    ensures |s| >= 1
    ensures forall i :: 0 <= i < |s| ==> '0' <= s[i] <= '9'
    ensures s[0] == '0' ==> n == 0
    ensures DecimalValue(s) == n
  {
    if n < 10 then
      assert [DigitChar(n)][..0] == [];
      [DigitChar(n)]
    else
      var front := NatToString(n / 10);
      var d := DigitChar(n % 10);
      var s := front + [d];
      assert s[..|s| - 1] == front && s[|s| - 1] == d && s[0] == front[0];
      assert DecimalValue(s) == DecimalValue(front) * 10 + n % 10;
      s
  }

  /** The text for one holding: `"<count> <name> "`. */
  function Entry(count: nat, name: string): (e: string)
    ensures |e| > 0 && e[|e| - 1] == ' '
  {
    NatToString(count) + " " + name + " "
  }

  /** The text `stocks_owned` has built after looking at the first `k`
      companies: one entry for each positive count, in index order. */
  function Holdings(num: seq<int>, names: seq<string>, k: nat): (text: string)
    requires k <= |num| && k <= |names|
    ensures (forall i :: 0 <= i < k ==> num[i] <= 0) ==> text == ""
  {
    if k == 0 then ""
    else Holdings(num, names, k - 1) + (if num[k - 1] > 0 then Entry(num[k - 1], names[k - 1]) else "")
  }

  /** The built text is empty exactly when none of the counts looked at is
      positive, and otherwise ends in a space. */
  lemma {:induction false} HoldingsEmpty(num: seq<int>, names: seq<string>, k: nat)
    requires k <= |num| && k <= |names|
    ensures Holdings(num, names, k) == "" <==> forall i :: 0 <= i < k ==> num[i] <= 0
    ensures Holdings(num, names, k) != "" ==> Holdings(num, names, k)[|Holdings(num, names, k)| - 1] == ' '
  {
    if k > 0 {
      HoldingsEmpty(num, names, k - 1);
      var h := Holdings(num, names, k - 1);
      var e := if num[k - 1] > 0 then Entry(num[k - 1], names[k - 1]) else "";
      assert Holdings(num, names, k) == h + e;
      if e == "" {
        assert h + e == h;
      } else {
        assert (h + e)[|h + e| - 1] == e[|e| - 1];
      }
    }
  }

  /** `stocks_owned`: `'none'` when no company among the first five has a
      positive count, else the entries of the companies with one. */
  method StocksOwned(num: seq<int>, name: seq<string>) returns (owned: string)
    requires |num| >= COMPANY_COUNT && |name| >= COMPANY_COUNT
    ensures owned == "none" <==> forall i :: 0 <= i < COMPANY_COUNT ==> num[i] <= 0
    ensures (exists i :: 0 <= i < COMPANY_COUNT && num[i] > 0) ==> owned == Holdings(num, name, COMPANY_COUNT)
  {
    var ownedList := "";
    for i := 0 to COMPANY_COUNT
      invariant ownedList == Holdings(num, name, i)
    {
      if num[i] > 0 {
        ghost var before := ownedList;
        ghost var digits := NatToString(num[i]);
        ownedList := ownedList + NatToString(num[i]);
        ownedList := ownedList + " ";
        ownedList := ownedList + name[i];
        ownedList := ownedList + " ";
        assert ownedList == before + Entry(num[i], name[i]) by {
          assert ownedList == before + digits + " " + name[i] + " ";
          SeqAssoc4(before, digits, " ", name[i], " ");
        }
      }
    }
    HoldingsEmpty(num, name, COMPANY_COUNT);
    if ownedList == "" {
      owned := "none";
    } else {
      assert ownedList[|ownedList| - 1] == ' ';
      assert "none"[3] == 'e';
      owned := ownedList;
    }
  }

  lemma SeqAssoc4(a: string, b: string, c: string, d: string, e: string)
    ensures a + b + c + d + e == a + (b + c + d + e)
  {
  }

  // ---------------------------------------------------------------------------
  // The trading state
  // ---------------------------------------------------------------------------

  /** The price lists of the day: `stocks`, `previous_price`,
      `price_difference`, `price_difference_percent`, `gain_loss_amount` and
      `gain_loss_name`. */
  datatype Quotes = Quotes(
    stocks: seq<int>,
    previousPrice: seq<int>,
    priceDifference: seq<int>,
    priceDifferencePercent: seq<real>,
    gainLossAmount: seq<int>,
    gainLossName: seq<string>)

  /** The module globals of the trading loop. */
  class Market {
    var money: int
    var day: int
    var holdings: seq<int>
    var userChoices: seq<int>
    var stocks: seq<int>
    var previousPrice: seq<int>
    var priceDifference: seq<int>
    var priceDifferencePercent: seq<real>
    var gainLossAmount: seq<int>
    var gainLossName: seq<string>

    ghost predicate Valid()
      reads this`holdings
    {
      |holdings| == COMPANY_COUNT
    }

    /** The ledger part of the state. */
    function Ledger(): Account
      reads this`money, this`holdings, this`userChoices
    {
      Account(money, holdings, userChoices)
    }

    /** The price lists. */
    function Prices(): Quotes
      reads this`stocks, this`previousPrice, this`priceDifference, this`priceDifferencePercent,
            this`gainLossAmount, this`gainLossName
    {
      Quotes(stocks, previousPrice, priceDifference, priceDifferencePercent, gainLossAmount, gainLossName)
    }

    /** The state before trading starts: $1000, no shares, day 1, and the
        closing prices of eleven days ago as `previous_price`. */
    constructor (elevenDaysAgo: seq<int>)
      ensures Valid()
      ensures Ledger() == InitialAccount() && day == 1
      ensures Prices() == Quotes([], elevenDaysAgo, [], [], [], [])
    {
      money := STARTING_MONEY;
      day := 1;
      holdings := [0, 0, 0, 0, 0];
      userChoices := [];
      stocks := [];
      previousPrice := elevenDaysAgo;
      priceDifference := [];
      priceDifferencePercent := [];
      gainLossAmount := [];
      gainLossName := [];
    }

    /** The day's closing prices are appended to `stocks`, one per company. */
    method RecordPrices(prices: seq<int>)
      modifies this
      ensures stocks == old(stocks) + prices
      ensures Ledger() == old(Ledger()) && day == old(day)
      ensures Prices() == old(Prices()).(stocks := old(stocks) + prices)
    {
      for i := 0 to |prices|
        invariant stocks == old(stocks) + prices[..i]
        invariant Ledger() == old(Ledger()) && day == old(day)
        invariant Prices() == old(Prices()).(stocks := stocks)
      {
        assert prices[..i + 1] == prices[..i] + [prices[i]];
        stocks := stocks + [prices[i]];
      }
      assert prices[..|prices|] == prices;
    }

    /** `for i in range(amount): userchoices.remove(id)`. */
    method RemoveChoices(id: int, amount: nat)
      requires Count(userChoices, id) >= amount
      modifies this`userChoices
      ensures userChoices == RemoveFirstN(old(userChoices), id, amount)
    {
      for i := 0 to amount
        invariant userChoices == RemoveFirstN(old(userChoices), id, i)
      {
        assert Count(userChoices, id) == Count(old(userChoices), id) - i;
        CountPositive(userChoices, id);
        userChoices := RemoveFirst(userChoices, id);
      }
    }

    /** `for i in range(amount): userchoices.extend(id)`. */
    method AppendChoices(id: int, amount: nat)
      modifies this`userChoices
      ensures userChoices == old(userChoices) + Repeat(id, amount)
    {
      for i := 0 to amount
        invariant userChoices == old(userChoices) + Repeat(id, i)
      {
        userChoices := userChoices + [id];
      }
    }

    /** The sell branch for stock `choice` at today's price. */
    method SellStock(choice: int, amount: nat) returns (ok: bool)
      requires Valid() && IsCompany(choice) && |stocks| >= COMPANY_COUNT
      modifies this
      ensures Valid()
      ensures Trade(Ledger(), ok) == Sell(old(Ledger()), choice, amount, old(stocks[choice - 1]))
      ensures Prices() == old(Prices()) && day == old(day)
    {
      ghost var before := Ledger();
      var price := stocks[choice - 1];
      var count := Count(userChoices, choice);
      if count >= amount && choice in userChoices {
        SellSucceeds(before, choice, amount, price);
        RemoveChoices(choice, amount);
        var value := amount * price;
        money := money + value;
        holdings := holdings[choice - 1 := holdings[choice - 1] - amount];
        ok := true;
      } else {
        ok := false;
      }
    }

    /** The buy branch for `company` at today's price, as the program has it:
        the ids are appended before the cost is checked. */
    method BuyStock(company: int, amount: nat) returns (ok: bool)
      requires Valid() && IsCompany(company) && |stocks| >= COMPANY_COUNT
      modifies this
      ensures Valid()
      ensures Trade(Ledger(), ok) == Buy(old(Ledger()), company, amount, old(stocks[company - 1]))
      ensures Prices() == old(Prices()) && day == old(day)
    {
      AppendChoices(company, amount);
      var cost := amount * stocks[company - 1];
      if cost > money {
        ok := false;
      } else {
        money := money - cost;
        holdings := holdings[company - 1 := holdings[company - 1] + amount];
        ok := true;
      }
    }

    /** The end of a day on which the player had money: today's prices become
        the previous prices, the other lists are emptied and the day advances. */
    method EndOfDay()
      modifies this
      ensures Prices() == Quotes([], old(stocks), [], [], [], [])
      ensures Ledger() == old(Ledger()) && day == old(day) + 1
    {
      previousPrice := [];
      priceDifference := [];
      priceDifferencePercent := [];
      gainLossAmount := [];
      gainLossName := [];
      for i := 0 to |stocks|
        invariant stocks == old(stocks) && Ledger() == old(Ledger()) && day == old(day)
        invariant previousPrice == stocks[..i]
        invariant priceDifference == [] && priceDifferencePercent == [] && gainLossAmount == [] && gainLossName == []
      {
        assert stocks[..i + 1] == stocks[..i] + [stocks[i]];
        previousPrice := previousPrice + [stocks[i]];
      }
      assert stocks[..|stocks|] == stocks;
      stocks := [];
      day := day + 1;
    }

    /** The trading part of one day. With money left, the chosen trade is made
        and the day is rolled over; with none, only the day advances and every
        list, `stocks` included, is kept. */
    method TradingDay(action: Action) returns (ok: bool)
      requires Valid() && ActionTargetsCompany(action) && |stocks| >= COMPANY_COUNT
      modifies this
      ensures Valid() && day == old(day) + 1
      ensures old(money) > 0 ==> Trade(Ledger(), ok) == Apply(old(Ledger()), action, old(stocks))
      ensures old(money) > 0 ==> Prices() == Quotes([], old(stocks), [], [], [], [])
      ensures old(money) <= 0 ==> !ok && Ledger() == old(Ledger()) && Prices() == old(Prices())
    {
      ok := false;
      if money > 0 {
        match action {
          case BuyShares(c, n) => ok := BuyStock(c, n);
          case SellShares(c, n) => ok := SellStock(c, n);
          case NoTrade =>
        }
        EndOfDay();
      } else {
        day := day + 1;
      }
    }
  }
}
