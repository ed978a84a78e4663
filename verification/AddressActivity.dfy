/**
 * Funds in and out of one address (addressActivity.ts): netting a UTXO chain's transactions, merging an EVM chain's
 * two lists, and the newest 25 of what comes out.
 */
module AddressActivity {
  import opened Ordering
  import opened Decimals

  datatype Direction = In | Out

  datatype Item = Item(
    direction: Direction, amount: string, asset: string, counterparty: string, hash: string, timestamp: int)

  datatype Result = Activity(activity: seq<Item>, truncated: bool) | Unavailable

  const LIMIT := 25

  /** weiToDecimalString. */
  function WeiToDecimalString(wei: int, decimals: int): string {
    if decimals <= 0 then (if wei < 0 then "-" + TextOf(-wei) else TextOf(wei))
    else
      var digits := PadStart(TextOf(if wei < 0 then -wei else wei), decimals + 1);
      PadStartLength(TextOf(if wei < 0 then -wei else wei), decimals + 1);
      var out := PointInto(digits, decimals);
      if wei < 0 then "-" + out else out
  }

  lemma PadStartLength(s: string, w: nat)
    ensures |PadStart(s, w)| >= w
  {
  }

  /** The number an amount text denotes, with its sign. */
  function Denoted(amount: string): Option<real> {
    if amount != "" && amount[0] == '-' then
      match ParseDecimal(amount[1..]) case None => None case Some(x) => Some(-Value(x))
    else
      match ParseDecimal(amount) case None => None case Some(x) => Some(Value(x))
  }

  lemma FormatStartsWithDigit(x: Scaled)
    ensures FormatScaled(x) != "" && FormatScaled(x)[0] != '-'
    ensures ParseDecimal(FormatScaled(x)) == Some(Normalize(x)) && Value(Normalize(x)) == Value(x)
  {
    var whole, frac := FormatParts(x);
    assert whole[0] in whole && FormatScaled(x)[0] == whole[0];
    ParseOfFormat(x);
    NormalizeKeepsValue(x);
  }

  /** The printed amount denotes exactly wei / 10^decimals. */
  lemma {:induction false} AmountIsExact(wei: int, decimals: nat)
    ensures Denoted(WeiToDecimalString(wei, decimals)) == Some(wei as real / Power10(decimals) as real)
  {
    var n: nat := if wei < 0 then -wei else wei;
    var x := Scaled(n, decimals);
    FormatStartsWithDigit(x);
    WeiIsSigned(wei, decimals);
    hide *;
    SignedDenotes(wei < 0, x);
    FractionOf(wei, decimals);
  }

  lemma WeiIsSigned(wei: int, decimals: nat)
    ensures var text := FormatScaled(Scaled(if wei < 0 then -wei else wei, decimals));
      WeiToDecimalString(wei, decimals) == if wei < 0 then "-" + text else text
  {
  }

  lemma SignedDenotes(negative: bool, x: Scaled)
    ensures Denoted(if negative then "-" + FormatScaled(x) else FormatScaled(x)) ==
      Some(if negative then -Value(x) else Value(x))
  {
    FormatStartsWithDigit(x);
    hide FormatScaled, ParseDecimal, Normalize, Value;
    assert ("-" + FormatScaled(x))[1..] == FormatScaled(x);
  }

  lemma FractionOf(wei: int, decimals: nat)
    ensures var value := Value(Scaled(if wei < 0 then -wei else wei, decimals));
      (if wei < 0 then -value else value) == wei as real / Power10(decimals) as real
  {
  }

  // ── Netting a UTXO transaction ────────────────────────────────────────────

  /** An input's spent output, or an output: coins held by an address, if it has one. */
  datatype Coin = Coin(address: Option<string>, value: nat)

  datatype Tx = Tx(vin: seq<Coin>, vout: seq<Coin>, txid: string, blockTime: int)

  /** The value of the coins that are the address's own. */
  function OwnValue(coins: seq<Coin>, address: string): nat {
    if coins == [] then 0
    else
      OwnValue(coins[..|coins| - 1], address)
      + if coins[|coins| - 1].address == Some(address) then coins[|coins| - 1].value else 0
  }

  predicate IsOther(c: Coin, address: string) {
    c.address.Some? && c.address.value != "" && c.address.value != address
  }

  /** The first other address among the coins, or '' where there is none. */
  function FirstOther(coins: seq<Coin>, address: string): string {
    if coins == [] then ""
    else if IsOther(coins[0], address) then coins[0].address.value
    else FirstOther(coins[1..], address)
  }

  lemma {:induction false} FirstOtherSoFar(coins: seq<Coin>, n: nat, address: string)
    requires n < |coins|
    ensures FirstOther(coins[..n + 1], address) ==
      if FirstOther(coins[..n], address) != "" then FirstOther(coins[..n], address)
      else if IsOther(coins[n], address) then coins[n].address.value else ""
  {
    if n > 0 {
      assert coins[..n + 1][1..] == coins[1..][..n] && coins[..n][1..] == coins[1..][..n - 1];
      FirstOtherSoFar(coins[1..], n - 1, address);
    }
  }

  function Net(tx: Tx, address: string): int { OwnValue(tx.vout, address) - OwnValue(tx.vin, address) }

  function UtxoItem(tx: Tx, address: string, asset: string): Option<Item> {
    var net := Net(tx, address);
    if net == 0 then None
    else if net > 0 then
      Some(Item(In, WeiToDecimalString(net, 8), asset, FirstOther(tx.vin, address), tx.txid, tx.blockTime))
    else Some(Item(Out, WeiToDecimalString(-net, 8), asset, FirstOther(tx.vout, address), tx.txid, tx.blockTime))
  }

  function ListOf(item: Option<Item>): seq<Item> { if item.Some? then [item.value] else [] }

  function UtxoItems(txs: seq<Tx>, address: string, asset: string): seq<Item> {
    if txs == [] then []
    else UtxoItems(txs[..|txs| - 1], address, asset) + ListOf(UtxoItem(txs[|txs| - 1], address, asset))
  }

  // ── The newest ────────────────────────────────────────────────────────────

  predicate NoOlder(a: Item, b: Item) { a.timestamp >= b.timestamp }

  function Sorted(items: seq<Item>): (s: seq<Item>)
  {
    StableSort(NoOlder, items)
  }

  function Newest(items: seq<Item>): Result {
    var sorted := Sorted(items);
    Activity(if |sorted| > LIMIT then sorted[..LIMIT] else sorted, |sorted| > LIMIT)
  }

  /**
   * The activity is the newest 25: with what was left out it makes up the items; nothing left out is newer than
   * anything kept; at most 25 are kept, all of them unless `truncated`; and items of one time stay in their order.
   */
  lemma {:induction false} NewestAreKept(items: seq<Item>) returns (dropped: seq<Item>)
    ensures var r := Newest(items);
      && r.Activity? && multiset(r.activity) + multiset(dropped) == multiset(items)
      && (r.truncated <==> dropped != []) && (r.truncated <==> |items| > LIMIT)
      && |r.activity| == (if |items| > LIMIT then LIMIT else |items|)
      && SortedBy(NoOlder, r.activity)
      && (forall kept, left | kept in r.activity && left in dropped :: kept.timestamp >= left.timestamp)
      && (forall k :: Ties(NoOlder, k, r.activity + dropped) == Ties(NoOlder, k, items))
  {
    var sorted := Sorted(items);
    StableSortIsSorted(NoOlder, items);
    var n := if |sorted| > LIMIT then LIMIT else |sorted|;
    dropped := sorted[n..];
    assert sorted == sorted[..n] + dropped;
    forall k ensures Ties(NoOlder, k, sorted) == Ties(NoOlder, k, items) { StableSortKeepsTies(NoOlder, k, items); }
    hide Ties, StableSort;
    assert Newest(items).activity == sorted[..n];
    forall kept, left | kept in sorted[..n] && left in dropped ensures kept.timestamp >= left.timestamp {
      var i :| 0 <= i < n && sorted[i] == kept;
      var j :| 0 <= j < |dropped| && dropped[j] == left;
      assert NoOlder(sorted[i], sorted[n + j]);
    }
  }

  // ── Where the items come from ─────────────────────────────────────────────

  /** The items there are, in the order of the rows they come from. */
  function Gathered(found: seq<Option<Item>>): seq<Item> {
    if found == [] then [] else Gathered(found[..|found| - 1]) + ListOf(found[|found| - 1])
  }

  lemma {:induction false} GatheredOfConcat(a: seq<Option<Item>>, b: seq<Option<Item>>)
    ensures Gathered(a + b) == Gathered(a) + Gathered(b)
  {
    if b == [] {
      assert a + b == a;
    } else {
      assert (a + b)[..|a + b| - 1] == a + b[..|b| - 1];
      GatheredOfConcat(a, b[..|b| - 1]);
    }
  }

  /** Each item has its own row, `from` says which, and each row that gives one is an item's. */
  ghost predicate ComesFrom(items: seq<Item>, from: seq<nat>, found: seq<Option<Item>>) {
    && |from| == |items|
    && (forall k | 0 <= k < |items| :: from[k] < |found| && found[from[k]] == Some(items[k]))
    && (forall j, k | 0 <= j < k < |from| :: from[j] != from[k])
    && (forall i | 0 <= i < |found| && found[i].Some? :: i in from)
  }

  lemma NothingComes(items: seq<Item>, from: seq<nat>, found: seq<Option<Item>>)
    requires ComesFrom(items, from, found)
    ensures ComesFrom(items, from, found + [None])
  {
  }

  lemma OneMoreComes(items: seq<Item>, from: seq<nat>, found: seq<Option<Item>>, item: Item)
    requires ComesFrom(items, from, found)
    ensures ComesFrom(items + [item], from + [|found|], found + [Some(item)])
  {
    var more := from + [|found|];
    assert more[|from|] == |found|;
    forall i | 0 <= i < |found| && found[i].Some? ensures i in more { assert i in from; }
  }

  lemma {:induction false} GatheredFrom(found: seq<Option<Item>>) returns (from: seq<nat>)
    ensures ComesFrom(Gathered(found), from, found)
  {
    from := [];
    if found != [] {
      var front, last := found[..|found| - 1], found[|found| - 1];
      var before := GatheredFrom(front);
      assert found == front + [last];
      if last.Some? {
        from := before + [|front|];
        OneMoreComes(Gathered(front), before, front, last.value);
      } else {
        from := before;
        NothingComes(Gathered(front), before, front);
        assert Gathered(front) + [] == Gathered(front);
      }
    }
  }

  lemma {:induction false} ShuffledComes(
      all: seq<Item>, items: seq<Item>, rows: seq<nat>, found: seq<Option<Item>>) returns (from: seq<nat>)
    requires multiset(all) == multiset(items) && ComesFrom(items, rows, found)
    ensures ComesFrom(all, from, found)
  {
    var at := Places(all, items);
    from := seq(|all|, k requires 0 <= k < |all| => rows[at[k]]);
    forall i | 0 <= i < |found| && found[i].Some? ensures i in from {
      var h :| 0 <= h < |rows| && rows[h] == i;
      assert h in at;
      var k :| 0 <= k < |at| && at[k] == h;
      assert from[k] == i;
    }
  }

  /** At most 25 are kept, all unless `truncated`, newest first, and none of those left out is newer than one kept. */
  ghost predicate KeepsNewest(r: Result, dropped: seq<Item>) {
    && r.Activity?
    && var n := |r.activity| + |dropped|;
    && |r.activity| == (if n > 25 then 25 else n) && (r.truncated <==> n > 25)
    && (forall j, k | 0 <= j < k < |r.activity| :: r.activity[j].timestamp >= r.activity[k].timestamp)
    && (forall kept, left | kept in r.activity && left in dropped :: kept.timestamp >= left.timestamp)
  }

  lemma NewestKeeps(items: seq<Item>) returns (dropped: seq<Item>)
    ensures var r := Newest(items); KeepsNewest(r, dropped) && multiset(r.activity + dropped) == multiset(items)
  {
    dropped := NewestAreKept(items);
    var r := Newest(items);
    hide Newest, Ties;
    assert multiset(r.activity + dropped) == multiset(items);
    assert |items| == |multiset(items)| == |r.activity + dropped|;
    forall j, k | 0 <= j < k < |r.activity| ensures r.activity[j].timestamp >= r.activity[k].timestamp {
      assert NoOlder(r.activity[j], r.activity[k]);
    }
  }

  lemma {:induction false} NewestOfRows(found: seq<Option<Item>>) returns (from: seq<nat>, dropped: seq<Item>)
    ensures var r := Newest(Gathered(found));
      KeepsNewest(r, dropped) && r.Activity? && ComesFrom(r.activity + dropped, from, found)
  {
    dropped := NewestKeeps(Gathered(found));
    var rows := GatheredFrom(found);
    assert Newest(Gathered(found)).Activity? by { hide Gathered; }
    hide *;
    from := ShuffledComes(Newest(Gathered(found)).activity + dropped, Gathered(found), rows, found);
  }

  // ── Esplora ───────────────────────────────────────────────────────────────

  /** One pass over a transaction's inputs or outputs: the address's own value, and one other address. */
  method NetSide(coins: seq<Coin>, address: string) returns (sat: int, cp: string)
    ensures sat == OwnValue(coins, address) && cp == FirstOther(coins, address)
  {
    sat, cp := 0, "";
    for n := 0 to |coins|
      invariant sat == OwnValue(coins[..n], address) && cp == FirstOther(coins[..n], address)
    {
      var v := coins[n];
      assert coins[..n + 1][..n] == coins[..n];
      FirstOtherSoFar(coins, n, address);
      if v.address == Some(address) { sat := sat + v.value; }
      else if v.address.Some? && v.address.value != "" && cp == "" { cp := v.address.value; }
    }
    assert coins[..|coins|] == coins;
  }

  method NetTransaction(tx: Tx, address: string, asset: string) returns (item: Option<Item>)
    ensures item == UtxoItem(tx, address, asset)
  {
    hide WeiToDecimalString;
    var spentSat, cpIn := NetSide(tx.vin, address);
    var receivedSat, cpOut := NetSide(tx.vout, address);
    var net: int := receivedSat - spentSat;
    if net == 0 { return None; }
    var dir := if net > 0 then In else Out;
    item := Some(Item(dir, WeiToDecimalString(if net < 0 then -net else net, 8), asset,
      if dir == Out then cpOut else cpIn, tx.txid, tx.blockTime));
  }

  /** `txs` is None where the explorer could not be read. */
  method EsploraActivity(txs: Option<seq<Tx>>, address: string, asset: string) returns (r: Result)
    ensures r == if txs.None? then Unavailable else Newest(UtxoItems(txs.value, address, asset))
  {
    if txs.None? { return Unavailable; }
    var items: seq<Item> := [];
    for n := 0 to |txs.value|
      invariant items == UtxoItems(txs.value[..n], address, asset)
    {
      var item := NetTransaction(txs.value[n], address, asset);
      assert txs.value[..n + 1][..n] == txs.value[..n];
      if item.Some? { items := items + [item.value]; }
    }
    assert txs.value[..|txs.value|] == txs.value;
    items := Sorted(items);
    r := Activity(if |items| > LIMIT then items[..LIMIT] else items, |items| > LIMIT);
  }

  // ── Conservation ──────────────────────────────────────────────────────────

  /** What an item says the address gained, in whole coins. */
  function Signed(item: Item): real {
    match Denoted(item.amount)
    case None => 0.0
    case Some(x) => if item.direction == In then x else -x
  }

  function SignedSum(items: seq<Item>): real {
    if items == [] then 0.0 else SignedSum(items[..|items| - 1]) + Signed(items[|items| - 1])
  }

  function Received(txs: seq<Tx>, address: string): nat {
    if txs == [] then 0 else Received(txs[..|txs| - 1], address) + OwnValue(txs[|txs| - 1].vout, address)
  }

  function Spent(txs: seq<Tx>, address: string): nat {
    if txs == [] then 0 else Spent(txs[..|txs| - 1], address) + OwnValue(txs[|txs| - 1].vin, address)
  }

  const SATOSHIS: real := 100_000_000.0

  lemma Power8()
    ensures Power10(8) as real == SATOSHIS
  {
  }

  /** Another address that holds a coin of this side, or '' exactly when there is none. */
  predicate IsCounterparty(cp: string, side: seq<Coin>, address: string) {
    && (cp == "" <==> forall c | c in side :: !IsOther(c, address))
    && (cp != "" ==> cp != address && exists c :: c in side && c.address == Some(cp))
  }

  /**
   * A transaction gives an item exactly when its net is not zero, of the right sign, for exactly the net, with a
   * counterparty among those who paid for money in, and among those paid for money out.
   */
  lemma {:induction false} ItemIsTheNet(tx: Tx, address: string, asset: string)
    ensures UtxoItem(tx, address, asset).Some? <==> Net(tx, address) != 0
    ensures var item := UtxoItem(tx, address, asset);
      item.Some? ==>
        && (item.value.direction == In <==> Net(tx, address) > 0)
        && item.value.hash == tx.txid && item.value.timestamp == tx.blockTime && item.value.asset == asset
        && Signed(item.value) == Net(tx, address) as real / SATOSHIS
        && IsCounterparty(item.value.counterparty, if Net(tx, address) > 0 then tx.vin else tx.vout, address)
  {
    UtxoItemShape(tx, address, asset);
    CounterpartyIsAnother(tx.vin, address);
    CounterpartyIsAnother(tx.vout, address);
    Power8();
    hide *;
    var net := Net(tx, address);
    if net != 0 { SignedAmount(UtxoItem(tx, address, asset).value, if net > 0 then net else -net, 8, SATOSHIS); }
  }

  lemma UtxoItemShape(tx: Tx, address: string, asset: string)
    ensures var item, net := UtxoItem(tx, address, asset), Net(tx, address);
      && (item.Some? <==> net != 0)
      && (item.Some? ==>
        && (item.value.direction == In <==> net > 0) && item.value.hash == tx.txid
        && item.value.timestamp == tx.blockTime && item.value.asset == asset
        && item.value.counterparty == FirstOther(if net > 0 then tx.vin else tx.vout, address)
        && item.value.amount == WeiToDecimalString(if net > 0 then net else -net, 8))
  {
    hide Net, WeiToDecimalString;
  }

  lemma SignedAmount(item: Item, value: int, decimals: nat, p: real)
    requires item.amount == WeiToDecimalString(value, decimals) && Power10(decimals) as real == p
    ensures p > 0.0 && Signed(item) == (if item.direction == In then value else -value) as real / p
  {
    AmountIsExact(value, decimals);
    hide WeiToDecimalString, Denoted, Power10;
    NegatedReal(value, p);
  }

  lemma NegatedReal(value: int, p: real)
    requires p > 0.0
    ensures -(value as real / p) == (-value) as real / p
  {
  }

  /**
   * Netting conserves value: before truncation the signed sum of the items is exactly what the transactions paid to
   * the address, minus what they spent from it.
   */
  lemma {:induction false} NettingConserves(txs: seq<Tx>, address: string, asset: string)
    ensures SignedSum(UtxoItems(txs, address, asset)) ==
      (Received(txs, address) - Spent(txs, address)) as real / SATOSHIS
  {
    if txs != [] {
      var front, tx := txs[..|txs| - 1], txs[|txs| - 1];
      NettingConserves(front, address, asset);
      ItemIsTheNet(tx, address, asset);
      var items, item := UtxoItems(front, address, asset), UtxoItem(tx, address, asset);
      hide UtxoItem, Signed;
      if item.Some? { assert (items + [item.value])[..|items|] == items; } else { assert items + [] == items; }
    }
  }

  /** The counterparty is an address other than one's own on the side the money came from or went to, if any is. */
  lemma {:induction false} CounterpartyIsAnother(coins: seq<Coin>, address: string)
    ensures IsCounterparty(FirstOther(coins, address), coins, address)
  {
    if coins != [] {
      CounterpartyIsAnother(coins[1..], address);
      assert coins == [coins[0]] + coins[1..];
    }
  }

  /** What the address holds of these coins. */
  function Held(coins: seq<Coin>, address: string): int {
    SumOf((c: Coin) => if c.address == Some(address) then c.value else 0, coins)
  }

  lemma {:induction false} OwnValueIsHeld(coins: seq<Coin>, address: string)
    ensures OwnValue(coins, address) == Held(coins, address)
  {
    var f := (c: Coin) => if c.address == Some(address) then c.value else 0;
    if coins != [] {
      var front, last := coins[..|coins| - 1], coins[|coins| - 1];
      OwnValueIsHeld(front, address);
      assert coins == front + [last] && [last][1..] == [];
      SumOfConcat(f, front, [last]);
    }
  }

  /** The item is of this transaction: money in when the address got more than it spent, and exactly the difference. */
  ghost predicate IsNetOf(item: Item, tx: Tx, address: string, asset: string) {
    var net := Held(tx.vout, address) - Held(tx.vin, address);
    && net != 0 && item.direction == (if net > 0 then In else Out)
    && Denoted(item.amount) == Some((if net > 0 then net else -net) as real / 100_000_000.0)
    && item.hash == tx.txid && item.timestamp == tx.blockTime && item.asset == asset
    && IsCounterparty(item.counterparty, if net > 0 then tx.vin else tx.vout, address)
  }

  /**
   * What the activity of a Bitcoin or Litecoin address lists: one item for each transaction in which what the address
   * got and what it spent differ, the newest 25 of these.
   */
  lemma {:induction false} EveryNetIsListed(txs: seq<Tx>, address: string, asset: string)
    returns (from: seq<nat>, dropped: seq<Item>)
    ensures KeepsNewest(Newest(UtxoItems(txs, address, asset)), dropped)
    ensures var all := Newest(UtxoItems(txs, address, asset)).activity + dropped;
      && |from| == |all| && (forall j, k | 0 <= j < k < |from| :: from[j] != from[k])
      && (forall k | 0 <= k < |all| :: from[k] < |txs| && IsNetOf(all[k], txs[from[k]], address, asset))
      && (forall i | 0 <= i < |txs| && Held(txs[i].vout, address) != Held(txs[i].vin, address) :: i in from)
  {
    var found := seq(|txs|, i requires 0 <= i < |txs| => UtxoItem(txs[i], address, asset));
    UtxoItemsAreGathered(txs, address, asset, found);
    from, dropped := NewestOfRows(found);
    forall i | 0 <= i < |txs| ensures found[i].Some? <==> Held(txs[i].vout, address) != Held(txs[i].vin, address)
      ensures found[i].Some? ==> IsNetOf(found[i].value, txs[i], address, asset)
    {
      NetIsOf(txs[i], address, asset);
    }
    hide Gathered, Newest, UtxoItem, UtxoItems, IsNetOf, Held, KeepsNewest;
  }

  lemma NetIsOf(tx: Tx, address: string, asset: string)
    ensures var item := UtxoItem(tx, address, asset);
      && (item.Some? <==> Held(tx.vout, address) != Held(tx.vin, address))
      && (item.Some? ==> IsNetOf(item.value, tx, address, asset))
  {
    NetIsHeld(tx, address);
    UtxoItemShape(tx, address, asset);
    hide WeiToDecimalString, Denoted, Power10, Held, UtxoItem, Net, FirstOther, IsCounterparty;
    var net := Net(tx, address);
    var moved := if net > 0 then net else -net;
    AmountIsExact(moved, 8);
    Power8();
    assert Denoted(WeiToDecimalString(moved, 8)) == Some(moved as real / 100_000_000.0);
    CounterpartyIsAnother(tx.vin, address);
    CounterpartyIsAnother(tx.vout, address);
  }

  lemma NetIsHeld(tx: Tx, address: string)
    ensures Net(tx, address) == Held(tx.vout, address) - Held(tx.vin, address)
  {
    OwnValueIsHeld(tx.vin, address);
    OwnValueIsHeld(tx.vout, address);
  }

  lemma {:induction false} UtxoItemsAreGathered(txs: seq<Tx>, address: string, asset: string, found: seq<Option<Item>>)
    requires |found| == |txs| && forall i | 0 <= i < |txs| :: found[i] == UtxoItem(txs[i], address, asset)
    ensures UtxoItems(txs, address, asset) == Gathered(found)
  {
    hide UtxoItem;
    if txs != [] { UtxoItemsAreGathered(txs[..|txs| - 1], address, asset, found[..|txs| - 1]); }
  }

  // ── An EVM chain's two lists ──────────────────────────────────────────────

  /** A row of either list, addresses in lower case; value is None where it is no integer. */
  datatype Transfer = Transfer(
    value: Option<int>, from: string, to: string, decimals: Option<int>, asset: string, hash: string, timestamp: int)

  const NATIVE_DECIMALS := 18

  /** Number(tokenDecimal ?? '18') || 18: zero counts as missing. */
  function DecimalsRead(t: Transfer): int {
    if t.decimals.None? || t.decimals.value == 0 then NATIVE_DECIMALS else t.decimals.value
  }

  predicate Touches(t: Transfer, addr: string) { t.from == addr || t.to == addr }

  function TransferItem(t: Transfer, addr: string, asset: string, decimals: int): Option<Item> {
    if !Touches(t, addr) || t.value.None? then None
    else
      var dir := if t.from == addr then Out else In;
      Some(Item(dir, WeiToDecimalString(t.value.value, decimals), asset,
        if dir == Out then t.to else t.from, t.hash, t.timestamp))
  }

  /** A native row that moves nothing is a contract call, and is left out. */
  function NativeItem(t: Transfer, addr: string, symbol: string): Option<Item> {
    if t.value == Some(0) then None else TransferItem(t, addr, symbol, NATIVE_DECIMALS)
  }

  function TokenItem(t: Transfer, addr: string): Option<Item> {
    TransferItem(t, addr, if t.asset == "" then "token" else t.asset, DecimalsRead(t))
  }

  function NativeItems(rows: seq<Transfer>, addr: string, symbol: string): seq<Item> {
    if rows == [] then []
    else NativeItems(rows[..|rows| - 1], addr, symbol) + ListOf(NativeItem(rows[|rows| - 1], addr, symbol))
  }

  function TokenItems(rows: seq<Transfer>, addr: string): seq<Item> {
    if rows == [] then []
    else TokenItems(rows[..|rows| - 1], addr) + ListOf(TokenItem(rows[|rows| - 1], addr))
  }

  function EvmResult(native: Option<seq<Transfer>>, tokens: Option<seq<Transfer>>, addr: string, symbol: string): Result
  {
    if native.None? && tokens.None? then Unavailable
    else Newest((if native.Some? then NativeItems(native.value, addr, symbol) else [])
      + (if tokens.Some? then TokenItems(tokens.value, addr) else []))
  }

  /** Each list is None where it could not be read; one that was is enough. */
  method EvmActivity(native: Option<seq<Transfer>>, tokens: Option<seq<Transfer>>, addr: string, symbol: string)
    returns (r: Result)
    ensures r == EvmResult(native, tokens, addr, symbol)
    ensures r == Unavailable <==> native.None? && tokens.None?
  {
    hide NativeItem, TokenItem;
    var items: seq<Item> := [];
    var reachedAny := false;
    if native.Some? {
      reachedAny := true;
      for n := 0 to |native.value|
        invariant items == NativeItems(native.value[..n], addr, symbol)
      {
        assert native.value[..n + 1][..n] == native.value[..n];
        var item := NativeItem(native.value[n], addr, symbol);
        if item.Some? { items := items + [item.value]; }
      }
      assert native.value[..|native.value|] == native.value;
    }
    if tokens.Some? {
      reachedAny := true;
      ghost var before := items;
      for n := 0 to |tokens.value|
        invariant items == before + TokenItems(tokens.value[..n], addr)
      {
        assert tokens.value[..n + 1][..n] == tokens.value[..n];
        var item := TokenItem(tokens.value[n], addr);
        if item.Some? { items := items + [item.value]; }
      }
      assert tokens.value[..|tokens.value|] == tokens.value;
    }
    if !reachedAny { return Unavailable; }
    assert items == (if native.Some? then NativeItems(native.value, addr, symbol) else [])
      + (if tokens.Some? then TokenItems(tokens.value, addr) else []);
    items := Sorted(items);
    r := Activity(if |items| > LIMIT then items[..LIMIT] else items, |items| > LIMIT);
  }

  /**
   * A row of either list gives an item exactly when it names the address and has a readable value, a native row only
   * for a value that is not zero: money out when the address sent it, with the other end as counterparty.
   */
  lemma {:induction false} RowsAreListedExactly(t: Transfer, addr: string, symbol: string)
    ensures NativeItem(t, addr, symbol).Some? <==>
      (t.from == addr || t.to == addr) && t.value.Some? && t.value.value != 0
    ensures TokenItem(t, addr).Some? <==> (t.from == addr || t.to == addr) && t.value.Some?
    ensures forall item: Item | NativeItem(t, addr, symbol) == Some(item) || TokenItem(t, addr) == Some(item) ::
      && (item.direction == Out <==> t.from == addr) && item.hash == t.hash && item.timestamp == t.timestamp
      && multiset{addr, item.counterparty} == multiset{t.from, t.to}
    ensures NativeItem(t, addr, symbol).Some? ==>
      && NativeItem(t, addr, symbol).value.asset == symbol
      && Denoted(NativeItem(t, addr, symbol).value.amount) == Some(t.value.value as real / WEI)
  {
    if t.value.Some? { AmountIsExact(t.value.value, 18); }
    Power18();
    hide WeiToDecimalString, Denoted, Power10;
  }

  /** The row is listed: it names the address and has a readable value, a native row one that is not zero. */
  predicate IsListed(t: Transfer, isNative: bool, addr: string) {
    (t.from == addr || t.to == addr) && t.value.Some? && (isNative ==> t.value.value != 0)
  }

  /**
   * The item is of this row: out to the other end when the address sent it, in from it otherwise; native amounts in
   * the chain's own coin, token amounts in the token, with the decimals it gives, 18 when it gives none or zero.
   */
  ghost predicate IsItemOf(item: Item, t: Transfer, isNative: bool, addr: string, symbol: string) {
    && t.value.Some? && item.hash == t.hash && item.timestamp == t.timestamp
    && item.asset == (if isNative then symbol else if t.asset == "" then "token" else t.asset)
    && (if t.from == addr then item.direction == Out && item.counterparty == t.to
      else item.direction == In && item.counterparty == t.from)
    && (isNative || t.decimals.None? || t.decimals.value == 0 ==>
      Denoted(item.amount) == Some(t.value.value as real / WEI))
    && (!isNative && t.decimals.Some? && t.decimals.value > 0 ==>
      Denoted(item.amount) == Some(t.value.value as real / Power10(t.decimals.value) as real))
  }

  lemma NativeRowGivesItsItem(t: Transfer, addr: string, symbol: string)
    ensures NativeItem(t, addr, symbol).Some? <==> IsListed(t, true, addr)
    ensures NativeItem(t, addr, symbol).Some? ==> IsItemOf(NativeItem(t, addr, symbol).value, t, true, addr, symbol)
  {
    if t.value.Some? { AmountIsExact(t.value.value, 18); }
    Power18();
    hide WeiToDecimalString, Denoted, Power10;
  }

  lemma TokenRowGivesItsItem(t: Transfer, addr: string, symbol: string)
    ensures TokenItem(t, addr).Some? <==> IsListed(t, false, addr)
    ensures TokenItem(t, addr).Some? ==> IsItemOf(TokenItem(t, addr).value, t, false, addr, symbol)
  {
    if t.value.Some? && DecimalsRead(t) >= 0 { AmountIsExact(t.value.value, DecimalsRead(t)); }
    Power18();
    hide WeiToDecimalString, Denoted, Power10;
  }

  /** What the rows of both lists give, native rows first. */
  function FoundIn(ns: seq<Transfer>, ts: seq<Transfer>, addr: string, symbol: string): (found: seq<Option<Item>>)
    ensures |found| == |ns| + |ts|
  {
    seq(|ns|, i requires 0 <= i < |ns| => NativeItem(ns[i], addr, symbol))
    + seq(|ts|, i requires 0 <= i < |ts| => TokenItem(ts[i], addr))
  }

  lemma {:induction false} NativeItemsAreGathered(
      rows: seq<Transfer>, addr: string, symbol: string, found: seq<Option<Item>>)
    requires |found| == |rows| && forall i | 0 <= i < |rows| :: found[i] == NativeItem(rows[i], addr, symbol)
    ensures NativeItems(rows, addr, symbol) == Gathered(found)
  {
    hide NativeItem;
    if rows != [] { NativeItemsAreGathered(rows[..|rows| - 1], addr, symbol, found[..|rows| - 1]); }
  }

  lemma {:induction false} TokenItemsAreGathered(rows: seq<Transfer>, addr: string, found: seq<Option<Item>>)
    requires |found| == |rows| && forall i | 0 <= i < |rows| :: found[i] == TokenItem(rows[i], addr)
    ensures TokenItems(rows, addr) == Gathered(found)
  {
    hide TokenItem;
    if rows != [] { TokenItemsAreGathered(rows[..|rows| - 1], addr, found[..|rows| - 1]); }
  }

  lemma FoundIsGathered(ns: seq<Transfer>, ts: seq<Transfer>, addr: string, symbol: string)
    ensures Gathered(FoundIn(ns, ts, addr, symbol)) == NativeItems(ns, addr, symbol) + TokenItems(ts, addr)
  {
    hide NativeItem, TokenItem;
    var a := seq(|ns|, i requires 0 <= i < |ns| => NativeItem(ns[i], addr, symbol));
    var b := seq(|ts|, i requires 0 <= i < |ts| => TokenItem(ts[i], addr));
    assert FoundIn(ns, ts, addr, symbol) == a + b;
    GatheredOfConcat(a, b);
    NativeItemsAreGathered(ns, addr, symbol, a);
    TokenItemsAreGathered(ts, addr, b);
  }

  /**
   * What the activity of an EVM address lists: one item for each native row with a readable value that is not zero,
   * and each token row with a readable value, that name the address; the newest 25 of these.
   */
  lemma {:induction false} EveryTransferIsListed(
      native: Option<seq<Transfer>>, tokens: Option<seq<Transfer>>, addr: string, symbol: string)
    returns (from: seq<nat>, dropped: seq<Item>)
    requires native.Some? || tokens.Some?
    ensures KeepsNewest(EvmResult(native, tokens, addr, symbol), dropped)
    ensures var all := EvmResult(native, tokens, addr, symbol).activity + dropped;
      var ns := if native.Some? then native.value else [];
      var rows := ns + if tokens.Some? then tokens.value else [];
      && |from| == |all| && (forall j, k | 0 <= j < k < |from| :: from[j] != from[k])
      && (forall k | 0 <= k < |all| ::
        from[k] < |rows| && IsItemOf(all[k], rows[from[k]], from[k] < |ns|, addr, symbol))
      && (forall i | 0 <= i < |rows| :: i in from <==> IsListed(rows[i], i < |ns|, addr))
  {
    var ns := if native.Some? then native.value else [];
    var ts := if tokens.Some? then tokens.value else [];
    var rows, found := ns + ts, FoundIn(ns, ts, addr, symbol);
    from, dropped := EvmIsOfRows(native, tokens, addr, symbol);
    forall i | 0 <= i < |rows|
      ensures found[i].Some? <==> IsListed(rows[i], i < |ns|, addr)
      ensures found[i].Some? ==> IsItemOf(found[i].value, rows[i], i < |ns|, addr, symbol)
    {
      NativeRowGivesItsItem(rows[i], addr, symbol);
      TokenRowGivesItsItem(rows[i], addr, symbol);
      FoundAt(ns, ts, addr, symbol, i);
      hide *;
    }
    hide EvmResult, NativeItem, TokenItem, IsListed, IsItemOf, FoundIn, KeepsNewest;
  }

  lemma EvmIsOfRows(native: Option<seq<Transfer>>, tokens: Option<seq<Transfer>>, addr: string, symbol: string)
    returns (from: seq<nat>, dropped: seq<Item>)
    requires native.Some? || tokens.Some?
    ensures var r := EvmResult(native, tokens, addr, symbol);
      var ns := if native.Some? then native.value else [];
      var ts := if tokens.Some? then tokens.value else [];
      KeepsNewest(r, dropped) && r.Activity? && ComesFrom(r.activity + dropped, from, FoundIn(ns, ts, addr, symbol))
  {
    var ns := if native.Some? then native.value else [];
    var ts := if tokens.Some? then tokens.value else [];
    hide NativeItem, TokenItem, Newest, Gathered, FoundIn, KeepsNewest, ComesFrom;
    FoundIsGathered(ns, ts, addr, symbol);
    from, dropped := NewestOfRows(FoundIn(ns, ts, addr, symbol));
  }

  lemma FoundAt(ns: seq<Transfer>, ts: seq<Transfer>, addr: string, symbol: string, i: nat)
    requires i < |ns| + |ts|
    ensures FoundIn(ns, ts, addr, symbol)[i] ==
      if i < |ns| then NativeItem((ns + ts)[i], addr, symbol) else TokenItem((ns + ts)[i], addr)
  {
    hide NativeItem, TokenItem;
  }

  /** A token amount is the value at the token's own decimals exactly unless the token has none and moved something. */
  lemma {:induction false} TokenAmountIsExactly(t: Transfer, addr: string)
    requires TokenItem(t, addr).Some? && t.decimals.Some? && t.decimals.value >= 0
    ensures Denoted(TokenItem(t, addr).value.amount) == Some(t.value.value as real / Power10(t.decimals.value) as real)
      <==> t.decimals.value != 0 || t.value.value == 0
  {
    var value, d := t.value.value, t.decimals.value;
    AmountIsExact(value, DecimalsRead(t));
    assert TokenItem(t, addr).value.amount == WeiToDecimalString(value, DecimalsRead(t));
    if d == 0 { NoDecimalsMissed(value); }
    hide WeiToDecimalString, Denoted, Power10, TokenItem;
  }

  /** A token without decimals is listed as if it had the 18 of the native coin. */
  lemma NoDecimalsReadAs18(t: Transfer, addr: string)
    requires Touches(t, addr) && t.value.Some? && t.decimals == Some(0)
    ensures TokenItem(t, addr).Some? && Denoted(TokenItem(t, addr).value.amount) == Some(t.value.value as real / WEI)
  {
    assert TokenItem(t, addr).value.amount == WeiToDecimalString(t.value.value, 18);
    AmountIsExact(t.value.value, 18);
    Power18();
    hide WeiToDecimalString, Denoted, Power10, TokenItem;
  }

  /** One unit of such a token is listed as a quintillionth, and nothing but that. */
  lemma {:induction false} UnitTokenIsMisread() returns (t: Transfer)
    ensures t.value == Some(1) && t.decimals == Some(0) && TokenItem(t, "a").Some?
    ensures Denoted(TokenItem(t, "a").value.amount) == Some(1.0 / WEI) && 1.0 / WEI != 1.0
  {
    t := Transfer(Some(1), "a", "b", Some(0), "TKN", "h", 0);
    hide TokenItem, Denoted;
    NoDecimalsReadAs18(t, "a");
  }

  lemma NoDecimalsMissed(value: int)
    ensures value as real / Power10(18) as real == value as real / Power10(0) as real <==> value == 0
  {
    Power10Adds(1, 17);
    assert Power10(1) == 10 && Power10(18) == 10 * Power10(17);
    hide Power10;
    SmallerFraction(value, Power10(18));
    assert Power10(0) == 1 by { PowerZero(); }
    assert value as real / 1.0 == value as real;
  }

  lemma PowerZero()
    ensures Power10(0) == 1
  {
  }

  lemma SmallerFraction(value: int, p: nat)
    requires p >= 10
    ensures value as real / p as real == value as real <==> value == 0
  {
  }

  /** What the rows moved to the address, less what they moved from it. */
  function Gained(rows: seq<Transfer>, addr: string): int {
    if rows == [] then 0
    else
      var t := rows[|rows| - 1];
      var value := if t.value.Some? then t.value.value else 0;
      Gained(rows[..|rows| - 1], addr) + (if t.to == addr then value else 0) - (if t.from == addr then value else 0)
  }

  /** What the rows moved from the address to itself. */
  function ToItself(rows: seq<Transfer>, addr: string): int {
    if rows == [] then 0
    else
      var t := rows[|rows| - 1];
      ToItself(rows[..|rows| - 1], addr) + if t.to == addr && t.from == addr && t.value.Some? then t.value.value else 0
  }

  const WEI: real := 1_000_000_000_000_000_000.0

  lemma Power18()
    ensures Power10(18) as real == WEI
  {
    Power10Adds(9, 9);
    Power10Adds(8, 1);
    Power8();
    assert Power10(1) == 10;
  }

  /** One native row: a transfer to oneself counts as money out. */
  lemma NativeRowSigned(t: Transfer, addr: string, symbol: string)
    ensures var item := NativeItem(t, addr, symbol);
      var value := if t.value.Some? then t.value.value else 0;
      (if item.Some? then Signed(item.value) else 0.0) ==
        (if t.from == addr then -value else if t.to == addr then value else 0) as real / WEI
  {
    var item := NativeItem(t, addr, symbol);
    if item.Some? {
      assert item.value.amount == WeiToDecimalString(t.value.value, 18);
      hide WeiToDecimalString, Signed, Power10;
      Power18();
      SignedAmount(item.value, t.value.value, 18, WEI);
    }
  }

  /**
   * The native items add up to what the address gained, less what it moved to itself: so they conserve value exactly
   * when the transfers to itself sum to nothing.
   */
  lemma {:induction false} NativeItemsAddUp(rows: seq<Transfer>, addr: string, symbol: string)
    ensures SignedSum(NativeItems(rows, addr, symbol)) == (Gained(rows, addr) - ToItself(rows, addr)) as real / WEI
  {
    if rows != [] {
      var front, t := rows[..|rows| - 1], rows[|rows| - 1];
      NativeItemsAddUp(front, addr, symbol);
      NativeRowSigned(t, addr, symbol);
      var items, item := NativeItems(front, addr, symbol), NativeItem(t, addr, symbol);
      hide NativeItem, Signed;
      if item.Some? { assert (items + [item.value])[..|items|] == items; } else { assert items + [] == items; }
    }
  }
}
