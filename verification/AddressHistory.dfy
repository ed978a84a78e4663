/** summarizeAddressHistory of addressHistory.ts: exact totals of the rows with one address, per asset and chain. */
module AddressHistory {
  import opened Ordering
  import opened Decimals

  datatype HistoryRow = HistoryRow(
    chain: string, asset: string, direction: string, amount: string, usdValue: string,
    failed: bool, date: string, sortKey: string)

  datatype Total = Total(
    asset: string, chain: string, sent: string, received: string, count: nat, sentUsd: string, receivedUsd: string)

  datatype Summary = Summary(totals: seq<Total>, firstDate: string, lastDate: string)

  // ── A running sum ─────────────────────────────────────────────────────────

  /** The total of a list of texts; None, for good, once one of them cannot be read. */
  function TotalOf(values: seq<string>): Option<Scaled> {
    if values == [] then Some(ZERO)
    else
      var before := TotalOf(values[..|values| - 1]);
      var parsed := ParseDecimal(values[|values| - 1]);
      if before.None? || parsed.None? then None else Some(AddScaled(before.value, parsed.value))
  }

  /** What a sum of these texts prints: '' when one is unreadable, `emptyAs` when there is none. */
  function ResultText(values: seq<string>, emptyAs: string): string {
    if values == [] then emptyAs
    else if TotalOf(values).None? then ""
    else FormatScaled(TotalOf(values).value)
  }

  class Sum {
    var total: Option<Scaled>
    var rows: nat

    /** The sum of exactly these values, in this order. */
    ghost predicate Is(values: seq<string>)
      reads this
    {
      rows == |values| && total == TotalOf(values)
    }

    constructor ()
      ensures Is([])
    {
      total, rows := Some(ZERO), 0;
    }

    method Add(value: string, ghost values: seq<string>)
      requires Is(values)
      modifies this
      ensures Is(values + [value])
    {
      rows := rows + 1;
      assert (values + [value])[..|values|] == values;
      if total.None? { return; }
      var parsed := ParseDecimal(value);
      total := if parsed.Some? then Some(AddScaled(total.value, parsed.value)) else None;
    }

    method Result(emptyAs: string, ghost values: seq<string>) returns (text: string)
      requires Is(values)
      ensures text == ResultText(values, emptyAs)
    {
      if rows == 0 { return emptyAs; }
      text := if total.None? then "" else FormatScaled(total.value);
    }
  }

  predicate Readable(values: seq<string>) { forall v | v in values :: ParseDecimal(v).Some? }

  /** The exact rational sum of readable texts. */
  function RealSum(values: seq<string>): real
    requires Readable(values)
  {
    if values == [] then 0.0
    else
      assert values[|values| - 1] in values;
      RealSum(values[..|values| - 1]) + Value(ParseDecimal(values[|values| - 1]).value)
  }

  /** A sum is known exactly when every value can be read, and is then the exact sum. */
  lemma {:induction false} TotalIsExact(values: seq<string>)
    ensures TotalOf(values).Some? <==> Readable(values)
    ensures Readable(values) ==> Value(TotalOf(values).value) == RealSum(values)
  {
    if values != [] {
      var front, last := values[..|values| - 1], values[|values| - 1];
      assert values == front + [last];
      TotalIsExact(front);
      if Readable(values) {
        assert last in values;
        AddIsExact(TotalOf(front).value, ParseDecimal(last).value);
      }
    }
  }

  /** What a column prints: its default when it has no values, '' exactly when one is unreadable, else its exact sum. */
  lemma {:induction false} ResultIsExact(values: seq<string>, emptyAs: string)
    ensures values == [] ==> ResultText(values, emptyAs) == emptyAs
    ensures values != [] ==> (ResultText(values, emptyAs) == "" <==> !Readable(values))
    ensures values != [] && Readable(values) ==>
      && ParseDecimal(ResultText(values, emptyAs)).Some?
      && Value(ParseDecimal(ResultText(values, emptyAs)).value) == RealSum(values)
  {
    TotalIsExact(values);
    if values != [] && Readable(values) {
      ParseOfFormat(TotalOf(values).value);
      NormalizeKeepsValue(TotalOf(values).value);
      assert ParseDecimal("").None?;
    }
  }

  lemma {:induction false} RealSumOfConcat(a: seq<string>, b: seq<string>)
    requires Readable(a) && Readable(b)
    ensures Readable(a + b) && RealSum(a + b) == RealSum(a) + RealSum(b)
  {
    if b == [] {
      assert a + b == a;
    } else {
      RealSumOfConcat(a, b[..|b| - 1]);
      assert (a + b)[..|a + b| - 1] == a + b[..|b| - 1];
    }
  }

  lemma {:induction false} RealSumOfPermutation(a: seq<string>, b: seq<string>)
    requires multiset(a) == multiset(b) && Readable(a) && Readable(b)
    ensures RealSum(a) == RealSum(b)
  {
    hide ParseDecimal, Value;
    if a == [] {
      assert |multiset(b)| == 0;
    } else {
      var i := MatchHead(a, b);
      assert a == [a[0]] + a[1..];
      RealSumOfPermutation(a[1..], Without(b, i));
      RealSumOfConcat([a[0]], a[1..]);
      TakeOut(b, i);
      RealSumOfConcat(b[..i], [b[i]] + b[i + 1..]);
      RealSumOfConcat([b[i]], b[i + 1..]);
      RealSumOfConcat(b[..i], b[i + 1..]);
    }
  }

  /** Printing is canonical, so the text of a sum does not depend on the order of its values. */
  lemma {:induction false} ResultOfPermutation(a: seq<string>, b: seq<string>, emptyAs: string)
    requires multiset(a) == multiset(b)
    ensures ResultText(a, emptyAs) == ResultText(b, emptyAs)
  {
    assert |a| == |multiset(a)| == |multiset(b)| == |b|;
    assert forall v :: v in a <==> v in multiset(a);
    assert forall v :: v in b <==> v in multiset(b);
    TotalIsExact(a);
    TotalIsExact(b);
    if Readable(a) {
      RealSumOfPermutation(a, b);
      FormatIsCanonical(TotalOf(a).value, TotalOf(b).value);
    }
  }

  // ── What a summary is ─────────────────────────────────────────────────────

  datatype Side = SentSide | ReceivedSide | NoSide

  function SideOf(r: HistoryRow): Side {
    if r.direction == "in" then ReceivedSide
    else if r.direction == "out" || r.direction == "lost" then SentSide
    else NoSide
  }

  const NUL: char := '\0'

  function Key(r: HistoryRow): string { r.chain + [NUL] + r.asset }

  /** The four columns of a total. */
  datatype Column = Column(side: Side, usd: bool)

  function CellOf(r: HistoryRow, c: Column): string {
    if r.failed then "0" else if c.usd then r.usdValue else r.amount
  }

  predicate Counts(r: HistoryRow, key: string, c: Column) { Key(r) == key && SideOf(r) == c.side }

  /** The texts a column of the group `key` adds up, in row order. */
  function Cells(rows: seq<HistoryRow>, key: string, c: Column): seq<string> {
    if rows == [] then []
    else
      var r := rows[|rows| - 1];
      Cells(rows[..|rows| - 1], key, c) + if Counts(r, key, c) then [CellOf(r, c)] else []
  }

  function CountOf(rows: seq<HistoryRow>, key: string): nat {
    if rows == [] then 0
    else CountOf(rows[..|rows| - 1], key) + if Key(rows[|rows| - 1]) == key then 1 else 0
  }

  /** The group keys in the order they first come up. */
  function Keys(rows: seq<HistoryRow>): seq<string> {
    if rows == [] then []
    else
      var before := Keys(rows[..|rows| - 1]);
      if Key(rows[|rows| - 1]) in before then before else before + [Key(rows[|rows| - 1])]
  }

  /** The row that opened the group `key`. */
  function Opener(rows: seq<HistoryRow>, key: string): (r: HistoryRow)
    requires key in Keys(rows)
    ensures r in rows && Key(r) == key
  {
    var front := rows[..|rows| - 1];
    if key in Keys(front) then Opener(front, key) else rows[|rows| - 1]
  }

  function TotalFor(rows: seq<HistoryRow>, key: string): Total
    requires key in Keys(rows)
  {
    Total(
      Opener(rows, key).asset, Opener(rows, key).chain,
      ResultText(Cells(rows, key, Column(SentSide, false)), "0"),
      ResultText(Cells(rows, key, Column(ReceivedSide, false)), "0"),
      CountOf(rows, key),
      ResultText(Cells(rows, key, Column(SentSide, true)), ""),
      ResultText(Cells(rows, key, Column(ReceivedSide, true)), ""))
  }

  function TotalsFor(rows: seq<HistoryRow>, keys: seq<string>): (ts: seq<Total>)
    requires forall k | k in keys :: k in Keys(rows)
    ensures |ts| == |keys| && forall i | 0 <= i < |keys| :: ts[i] == TotalFor(rows, keys[i])
  {
    if keys == [] then [] else TotalsFor(rows, keys[..|keys| - 1]) + [TotalFor(rows, keys[|keys| - 1])]
  }

  /** The comparator of the totals: by chain, then by asset. */
  predicate TotalAtMost(a: Total, b: Total) {
    if a.chain != b.chain then Less(a.chain, b.chain) else AtMost(a.asset, b.asset)
  }

  /** The first row with the least sort key, and the first with the greatest; rows without one are passed over. */
  function Earliest(rows: seq<HistoryRow>): Option<HistoryRow> {
    if rows == [] then None
    else
      var best, r := Earliest(rows[..|rows| - 1]), rows[|rows| - 1];
      if r.sortKey != "" && (best.None? || Less(r.sortKey, best.value.sortKey)) then Some(r) else best
  }

  function Latest(rows: seq<HistoryRow>): Option<HistoryRow> {
    if rows == [] then None
    else
      var best, r := Latest(rows[..|rows| - 1]), rows[|rows| - 1];
      if r.sortKey != "" && (best.None? || Less(best.value.sortKey, r.sortKey)) then Some(r) else best
  }

  function DateOf(r: Option<HistoryRow>): string { if r.None? then "" else r.value.date }

  function SummaryOf(rows: seq<HistoryRow>): Summary {
    Summary(StableSort(TotalAtMost, TotalsFor(rows, Keys(rows))), DateOf(Earliest(rows)), DateOf(Latest(rows)))
  }

  // ── The loop ──────────────────────────────────────────────────────────────

  /** What a group has taken in: its row count and the texts of its four columns. */
  datatype Tally = Tally(
    count: nat, sent: seq<string>, received: seq<string>, sentUsd: seq<string>, receivedUsd: seq<string>)

  function TallyOf(rows: seq<HistoryRow>, key: string): Tally {
    Tally(CountOf(rows, key),
      Cells(rows, key, Column(SentSide, false)), Cells(rows, key, Column(ReceivedSide, false)),
      Cells(rows, key, Column(SentSide, true)), Cells(rows, key, Column(ReceivedSide, true)))
  }

  function OneMore(t: Tally, r: HistoryRow): Tally {
    var amount, usd := if r.failed then "0" else r.amount, if r.failed then "0" else r.usdValue;
    var n := t.(count := t.count + 1);
    match SideOf(r)
    case SentSide => n.(sent := t.sent + [amount], sentUsd := t.sentUsd + [usd])
    case ReceivedSide => n.(received := t.received + [amount], receivedUsd := t.receivedUsd + [usd])
    case NoSide => n
  }

  lemma TallyOfOneMore(rows: seq<HistoryRow>, row: HistoryRow, key: string)
    ensures TallyOf(rows + [row], key) ==
      if Key(row) == key then OneMore(TallyOf(rows, key), row) else TallyOf(rows, key)
  {
  }

  lemma KeysOfOneMore(rows: seq<HistoryRow>, row: HistoryRow)
    ensures Keys(rows + [row]) == if Key(row) in Keys(rows) then Keys(rows) else Keys(rows) + [Key(row)]
    ensures forall k | k in Keys(rows) :: k in Keys(rows + [row]) && Opener(rows + [row], k) == Opener(rows, k)
    ensures Key(row) !in Keys(rows) ==> Key(row) in Keys(rows + [row]) && Opener(rows + [row], Key(row)) == row
  {
  }

  lemma {:induction false} NoRowsOfKey(rows: seq<HistoryRow>, key: string)
    requires key !in Keys(rows)
    ensures TallyOf(rows, key) == Tally(0, [], [], [], [])
  {
    if rows != [] { NoRowsOfKey(rows[..|rows| - 1], key); }
  }

  class Group {
    const asset: string
    const chain: string
    var count: nat
    const sent: Sum
    const received: Sum
    const sentUsd: Sum
    const receivedUsd: Sum

    /** This object and its four sums. */
    ghost const repr: set<object>

    ghost predicate Holds(t: Tally)
      reads repr
    {
      && this in repr && sent in repr && received in repr && sentUsd in repr && receivedUsd in repr
      && sent != received && sent != sentUsd && sent != receivedUsd
      && received != sentUsd && received != receivedUsd && sentUsd != receivedUsd
      && count == t.count
      && sent.Is(t.sent) && received.Is(t.received) && sentUsd.Is(t.sentUsd) && receivedUsd.Is(t.receivedUsd)
    }

    constructor (asset: string, chain: string)
      ensures fresh(repr) && Holds(Tally(0, [], [], [], [])) && this.asset == asset && this.chain == chain
    {
      this.asset, this.chain, this.count := asset, chain, 0;
      sent := new Sum();
      received := new Sum();
      sentUsd := new Sum();
      receivedUsd := new Sum();
      repr := {this, sent, received, sentUsd, receivedUsd};
    }

    /** Counts one more row. A failed row moved nothing; an untold way is in neither side. */
    method Take(row: HistoryRow, ghost t: Tally)
      requires Holds(t)
      modifies repr
      ensures Holds(OneMore(t, row))
    {
      count := count + 1;
      var side := SideOf(row);
      if side == SentSide {
        sent.Add(if row.failed then "0" else row.amount, t.sent);
        sentUsd.Add(if row.failed then "0" else row.usdValue, t.sentUsd);
      } else if side == ReceivedSide {
        received.Add(if row.failed then "0" else row.amount, t.received);
        receivedUsd.Add(if row.failed then "0" else row.usdValue, t.receivedUsd);
      }
    }

    method Result(ghost rows: seq<HistoryRow>, ghost key: string) returns (t: Total)
      requires key in Keys(rows) && Holds(TallyOf(rows, key))
      requires asset == Opener(rows, key).asset && chain == Opener(rows, key).chain
      ensures t == TotalFor(rows, key)
    {
      hide Sum.Is, Cells, CountOf, ResultText, Keys, Opener;
      ghost var own := TallyOf(rows, key);
      var s := sent.Result("0", own.sent);
      var r := received.Result("0", own.received);
      var su := sentUsd.Result("", own.sentUsd);
      var ru := receivedUsd.Result("", own.receivedUsd);
      t := Total(asset, chain, s, r, count, su, ru);
    }
  }

  /** Every group stands for its key over `rows`, and no two share an object. */
  ghost predicate GroupsHold(groups: map<string, Group>, rows: seq<HistoryRow>)
    reads set k, o | k in groups && o in groups[k].repr :: o
  {
    && (forall k :: k in groups <==> k in Keys(rows))
    && (forall k | k in groups :: groups[k].Holds(TallyOf(rows, k)))
    && (forall k | k in groups :: groups[k].asset == Opener(rows, k).asset && groups[k].chain == Opener(rows, k).chain)
    && SeparateGroups(groups)
  }

  ghost predicate SeparateGroups(groups: map<string, Group>) {
    forall k, l | k in groups && l in groups && k != l :: groups[k].repr !! groups[l].repr
  }

  /** groups.get(key), made and set when it is missing. */
  method GroupFor(groups: map<string, Group>, row: HistoryRow) returns (after: map<string, Group>)
    requires SeparateGroups(groups)
    ensures SeparateGroups(after) && after.Keys == groups.Keys + {Key(row)}
    ensures forall k | k in groups :: after[k] == groups[k]
    ensures Key(row) !in groups ==>
      var g := after[Key(row)];
      fresh(g.repr) && g.asset == row.asset && g.chain == row.chain && g.Holds(Tally(0, [], [], [], []))
  {
    after := groups;
    if Key(row) !in groups {
      var g := new Group(row.asset, row.chain);
      after := after[Key(row) := g];
    }
  }

  method TakeRow(groups: map<string, Group>, row: HistoryRow, ghost rows: seq<HistoryRow>)
    returns (after: map<string, Group>)
    requires GroupsHold(groups, rows)
    modifies set k, o | k in groups && o in groups[k].repr :: o
    ensures GroupsHold(after, rows + [row])
    ensures forall k | k in after :: if k in groups then after[k] == groups[k] else fresh(after[k].repr)
  {
    hide Group.Holds, TallyOf, Keys, Opener, OneMore;
    var key := Key(row);
    after := GroupFor(groups, row);
    KeysOfOneMore(rows, row);
    if key !in groups { NoRowsOfKey(rows, key); }
    assert forall k | k in groups :: groups[k].Holds(TallyOf(rows, k));
    after[key].Take(row, TallyOf(rows, key));
    forall k | k in after ensures after[k].Holds(TallyOf(rows + [row], k)) {
      TallyOfOneMore(rows, row, k);
      if k != key { assert after[k].repr !! after[key].repr; }
    }
  }

  method SummarizeAddressHistory(rows: seq<HistoryRow>) returns (summary: Summary)
    ensures summary == SummaryOf(rows)
  {
    hide Group.Holds, TallyOf, Opener, StableSort, TotalFor;
    var groups: map<string, Group> := map[];
    var order: seq<string> := [];
    var first: Option<HistoryRow>, last: Option<HistoryRow> := None, None;
    var i := 0;
    while i < |rows|
      invariant 0 <= i <= |rows|
      invariant forall k | k in groups :: fresh(groups[k].repr)
      invariant GroupsHold(groups, rows[..i]) && order == Keys(rows[..i])
      invariant first == Earliest(rows[..i]) && last == Latest(rows[..i])
    {
      var row := rows[i];
      assert rows[..i + 1] == rows[..i] + [row] && rows[..i + 1][..i] == rows[..i];
      if Key(row) !in groups { order := order + [Key(row)]; }
      groups := TakeRow(groups, row, rows[..i]);
      if row.sortKey != "" {
        if first.None? || Less(row.sortKey, first.value.sortKey) { first := Some(row); }
        if last.None? || Less(last.value.sortKey, row.sortKey) { last := Some(row); }
      }
      i := i + 1;
    }
    assert rows[..i] == rows;
    var totals := TotalsInOrder(groups, order, rows);
    summary := Summary(StableSort(TotalAtMost, totals), DateOf(first), DateOf(last));
  }

  method TotalsInOrder(groups: map<string, Group>, order: seq<string>, ghost rows: seq<HistoryRow>)
    returns (totals: seq<Total>)
    requires GroupsHold(groups, rows) && order == Keys(rows)
    ensures totals == TotalsFor(rows, order)
  {
    hide Group.Holds, TallyOf, Keys, Opener, TotalFor, SeparateGroups;
    totals := [];
    var i := 0;
    while i < |order|
      invariant 0 <= i <= |order| && totals == TotalsFor(rows, order[..i]) && GroupsHold(groups, rows)
    {
      assert order[..i + 1][..i] == order[..i] && order[i] in Keys(rows);
      var t := groups[order[i]].Result(rows, order[i]);
      totals := totals + [t];
      i := i + 1;
    }
    assert order[..i] == order;
  }

  // ── The totals are exact ──────────────────────────────────────────────────

  lemma TotalOrder()
    ensures TotalPreorder(TotalAtMost)
  {
    forall a: Total, b: Total ensures TotalAtMost(a, b) || TotalAtMost(b, a) {
      LessIsStrictOrder(a.chain, b.chain, "");
      LessIsStrictOrder(a.asset, b.asset, "");
    }
    forall a: Total, b: Total, c: Total | TotalAtMost(a, b) && TotalAtMost(b, c) ensures TotalAtMost(a, c) {
      LessIsStrictOrder(a.chain, b.chain, c.chain);
      LessIsStrictOrder(a.asset, b.asset, c.asset);
      LessIsStrictOrder(c.asset, a.asset, b.asset);
      LessIsStrictOrder(b.asset, c.asset, a.asset);
    }
  }

  /** The totals come by chain and then by asset, one for each group of rows. */
  lemma {:induction false} SortedTotals(rows: seq<HistoryRow>)
    ensures var totals := SummaryOf(rows).totals;
      forall i, j | 0 <= i < j < |totals| ::
        || Less(totals[i].chain, totals[j].chain)
        || (totals[i].chain == totals[j].chain && !Less(totals[j].asset, totals[i].asset))
    ensures SortedBy(TotalAtMost, SummaryOf(rows).totals)
    ensures multiset(SummaryOf(rows).totals) == multiset(TotalsFor(rows, Keys(rows)))
  {
    TotalOrder();
    StableSortIsSorted(TotalAtMost, TotalsFor(rows, Keys(rows)));
    var totals := SummaryOf(rows).totals;
    hide Less, SummaryOf;
    forall i, j | 0 <= i < j < |totals| ensures TotalAtMost(totals[i], totals[j]) { }
  }

  /** A column of a total: its text is '' exactly when it cannot be known, and otherwise its exact sum. */
  ghost predicate ExactColumn(text: string, cells: seq<string>, emptyIsZero: bool) {
    && (text == "" <==> !Readable(cells) || (cells == [] && !emptyIsZero))
    && (text != "" ==> ParseDecimal(text).Some? && Readable(cells) && Value(ParseDecimal(text).value) == RealSum(cells))
  }

  lemma {:induction false} ColumnIsExact(cells: seq<string>)
    ensures ExactColumn(ResultText(cells, "0"), cells, true)
    ensures ExactColumn(ResultText(cells, ""), cells, false)
  {
    ResultIsExact(cells, "0");
    ResultIsExact(cells, "");
    ParseOfFormat(ZERO);
    assert FormatScaled(ZERO) == "0";
    assert Value(Normalize(ZERO)) == 0.0;
  }

  /** The group a total stands for. */
  lemma KeyOfTotal(rows: seq<HistoryRow>, t: Total) returns (key: string)
    requires t in SummaryOf(rows).totals
    ensures key in Keys(rows) && t == TotalFor(rows, key)
  {
    SortedTotals(rows);
    assert t in multiset(SummaryOf(rows).totals);
    hide TotalFor, Keys, SummaryOf;
    var ts := TotalsFor(rows, Keys(rows));
    assert t in ts;
    var i :| 0 <= i < |ts| && ts[i] == t;
    key := Keys(rows)[i];
  }

  /**
   * Every total of a summary is exact: it stands for one group of rows, counts them all, and each of its four texts
   * prints the exact rational sum of the column, failed rows counting as zero, or '' when that is unknown.
   */
  lemma {:induction false} EveryTotalIsExact(rows: seq<HistoryRow>, t: Total) returns (key: string)
    requires t in SummaryOf(rows).totals
    ensures key == t.chain + [NUL] + t.asset && key in Keys(rows) && t.count == CountOf(rows, key)
    ensures ExactColumn(t.sent, Cells(rows, key, Column(SentSide, false)), true)
    ensures ExactColumn(t.received, Cells(rows, key, Column(ReceivedSide, false)), true)
    ensures ExactColumn(t.sentUsd, Cells(rows, key, Column(SentSide, true)), false)
    ensures ExactColumn(t.receivedUsd, Cells(rows, key, Column(ReceivedSide, true)), false)
  {
    key := KeyOfTotal(rows, t);
    hide StableSort, ResultText, ExactColumn, SummaryOf;
    ColumnIsExact(Cells(rows, key, Column(SentSide, false)));
    ColumnIsExact(Cells(rows, key, Column(ReceivedSide, false)));
    ColumnIsExact(Cells(rows, key, Column(SentSide, true)));
    ColumnIsExact(Cells(rows, key, Column(ReceivedSide, true)));
  }

  // ── What moved ────────────────────────────────────────────────────────────

  /** The row is of this chain and asset, as far as the group key tells them apart. */
  predicate Concerns(r: HistoryRow, chain: string, asset: string) {
    r.chain + ['\0'] + r.asset == chain + ['\0'] + asset
  }

  predicate Moves(r: HistoryRow, chain: string, asset: string, ways: set<string>) {
    Concerns(r, chain, asset) && r.direction in ways
  }

  /** What the row moved, in amount or in USD. */
  function Worth(r: HistoryRow, usd: bool): Option<real> {
    var text := if usd then r.usdValue else r.amount;
    if r.failed then Some(0.0)
    else if ParseDecimal(text).Some? then Some(Value(ParseDecimal(text).value))
    else None
  }

  /** What the rows of this chain and asset moved in the given ways, as far as it can be read. */
  function MovedSum(rows: seq<HistoryRow>, chain: string, asset: string, ways: set<string>, usd: bool): real {
    if rows == [] then 0.0
    else
      var front, r := MovedSum(rows[..|rows| - 1], chain, asset, ways, usd), rows[|rows| - 1];
      if Moves(r, chain, asset, ways) && Worth(r, usd).Some? then front + Worth(r, usd).value
      else front
  }

  /** `printed` is exactly what moved, '' when that cannot be read, and `whenNone` when no row moved in these ways. */
  ghost predicate PrintsMoved(printed: string, rows: seq<HistoryRow>, chain: string, asset: string,
      ways: set<string>, usd: bool, whenNone: string)
  {
    if forall r | r in rows :: !Moves(r, chain, asset, ways) then printed == whenNone
    else if exists r | r in rows :: Moves(r, chain, asset, ways) && Worth(r, usd).None? then printed == ""
    else
      && ParseDecimal(printed).Some?
      && Value(ParseDecimal(printed).value) == MovedSum(rows, chain, asset, ways, usd)
  }

  function WaysOf(side: Side): set<string> {
    match side case SentSide => {"out", "lost"} case ReceivedSide => {"in"} case NoSide => {}
  }

  lemma CellIsWorth(r: HistoryRow, c: Column)
    ensures ParseDecimal(CellOf(r, c)).Some? <==> Worth(r, c.usd).Some?
    ensures Worth(r, c.usd).Some? ==> Value(ParseDecimal(CellOf(r, c)).value) == Worth(r, c.usd).value
  {
    ZeroIsNothing();
    hide ParseDecimal, Value;
  }

  lemma ZeroIsNothing()
    ensures ParseDecimal("0").Some? && Value(ParseDecimal("0").value) == 0.0
  {
    ParseOfFormat(ZERO);
    NormalizeKeepsValue(ZERO);
    assert FormatScaled(ZERO) == "0";
  }

  lemma {:induction false} CellsAreMoved(rows: seq<HistoryRow>, chain: string, asset: string, c: Column)
    requires c.side != NoSide
    ensures var cells, ways := Cells(rows, chain + [NUL] + asset, c), WaysOf(c.side);
      && (cells == [] <==> forall r | r in rows :: !Moves(r, chain, asset, ways))
      && (Readable(cells) <==> forall r | r in rows && Moves(r, chain, asset, ways) :: Worth(r, c.usd).Some?)
      && (Readable(cells) ==> RealSum(cells) == MovedSum(rows, chain, asset, ways, c.usd))
  {
    if rows != [] {
      var front, r := rows[..|rows| - 1], rows[|rows| - 1];
      assert rows == front + [r];
      CellsAreMoved(front, chain, asset, c);
      CellIsWorth(r, c);
      MovesAreCounted(r, chain, asset, c);
      CellsOfOneMore(front, r, chain + [NUL] + asset, c);
      hide ParseDecimal, Value, Counts, CellOf, Moves, WaysOf, Worth, Cells;
      var before, cells := Cells(front, chain + [NUL] + asset, c), Cells(rows, chain + [NUL] + asset, c);
      hide Readable, RealSum;
      if Counts(r, chain + [NUL] + asset, c) { RealSumOfOneMore(before, CellOf(r, c)); }
    }
  }

  lemma CellsOfOneMore(rows: seq<HistoryRow>, r: HistoryRow, key: string, c: Column)
    ensures Cells(rows + [r], key, c) ==
      if Counts(r, key, c) then Cells(rows, key, c) + [CellOf(r, c)] else Cells(rows, key, c)
  {
    hide Counts, CellOf;
    assert (rows + [r])[..|rows|] == rows;
  }

  lemma MovesAreCounted(r: HistoryRow, chain: string, asset: string, c: Column)
    requires c.side != NoSide
    ensures Moves(r, chain, asset, WaysOf(c.side)) <==> Counts(r, chain + [NUL] + asset, c)
  {
  }

  lemma RealSumOfOneMore(values: seq<string>, v: string)
    ensures Readable(values + [v]) <==> Readable(values) && ParseDecimal(v).Some?
    ensures Readable(values + [v]) ==> RealSum(values + [v]) == RealSum(values) + Value(ParseDecimal(v).value)
  {
    hide ParseDecimal, Value;
    var more := values + [v];
    assert more[..|more| - 1] == values && v in more;
    assert forall u :: u in more <==> u in values || u == v;
  }

  lemma ColumnPrintsMoved(rows: seq<HistoryRow>, chain: string, asset: string, c: Column, whenNone: string)
    requires c.side != NoSide
    ensures PrintsMoved(ResultText(Cells(rows, chain + [NUL] + asset, c), whenNone),
      rows, chain, asset, WaysOf(c.side), c.usd, whenNone)
  {
    CellsAreMoved(rows, chain, asset, c);
    ResultIsExact(Cells(rows, chain + [NUL] + asset, c), whenNone);
    hide ParseDecimal, Value, Counts, CellOf, ResultText, RealSum, MovedSum, Worth, Moves, WaysOf, Cells;
  }

  /**
   * What a total says, row by row: it counts the rows of its chain and asset; those that came in make up what was
   * received and those that went out or were lost what was sent, in amount and in USD, a failed row as zero.
   */
  lemma {:induction false} TotalsSayWhatMoved(rows: seq<HistoryRow>, t: Total)
    requires t in SummaryOf(rows).totals
    ensures PrintsMoved(t.sent, rows, t.chain, t.asset, {"out", "lost"}, false, "0")
    ensures PrintsMoved(t.received, rows, t.chain, t.asset, {"in"}, false, "0")
    ensures PrintsMoved(t.sentUsd, rows, t.chain, t.asset, {"out", "lost"}, true, "")
    ensures PrintsMoved(t.receivedUsd, rows, t.chain, t.asset, {"in"}, true, "")
    ensures t.count == SumOf((r: HistoryRow) => OneIf(Concerns(r, t.chain, t.asset)), rows)
    ensures exists r :: r in rows && r.chain == t.chain && r.asset == t.asset
  {
    var key := KeyOfTotal(rows, t);
    hide StableSort, SummaryOf, ResultText, PrintsMoved, Keys, Opener, CountOf, Cells, WaysOf;
    var opener := Opener(rows, key);
    assert WaysOf(SentSide) == {"out", "lost"} && WaysOf(ReceivedSide) == {"in"} by { WaysAre(); }
    assert key == t.chain + [NUL] + t.asset && opener in rows;
    ColumnPrintsMoved(rows, t.chain, t.asset, Column(SentSide, false), "0");
    ColumnPrintsMoved(rows, t.chain, t.asset, Column(ReceivedSide, false), "0");
    ColumnPrintsMoved(rows, t.chain, t.asset, Column(SentSide, true), "");
    ColumnPrintsMoved(rows, t.chain, t.asset, Column(ReceivedSide, true), "");
    GroupIsCounted(rows, t.chain, t.asset);
  }

  lemma WaysAre()
    ensures WaysOf(SentSide) == {"out", "lost"} && WaysOf(ReceivedSide) == {"in"}
  {
  }

  lemma {:induction false} GroupIsCounted(rows: seq<HistoryRow>, chain: string, asset: string)
    ensures CountOf(rows, chain + [NUL] + asset) == SumOf((r: HistoryRow) => OneIf(Concerns(r, chain, asset)), rows)
  {
    var f := (r: HistoryRow) => OneIf(Concerns(r, chain, asset));
    if rows != [] {
      var front, last := rows[..|rows| - 1], rows[|rows| - 1];
      assert rows == front + [last];
      GroupIsCounted(front, chain, asset);
      SumOfConcat(f, front, [last]);
      assert [last][1..] == [];
    }
  }

  /** Without a NUL in a chain's name, a total speaks of exactly its own chain and asset. */
  lemma ConcernsExactly(r: HistoryRow, chain: string, asset: string)
    requires '\0' !in r.chain && '\0' !in chain
    ensures Concerns(r, chain, asset) <==> r.chain == chain && r.asset == asset
  {
    if Concerns(r, chain, asset) { NulSplits(r.chain, chain, r.asset, asset); }
  }

  /** Every row has a total that concerns it, and only one. */
  lemma {:induction false} EveryRowHasItsTotal(rows: seq<HistoryRow>, r: HistoryRow)
    requires r in rows
    ensures exists t :: t in SummaryOf(rows).totals && Concerns(r, t.chain, t.asset)
    ensures forall i, j | 0 <= i < j < |SummaryOf(rows).totals| ::
      var s, t := SummaryOf(rows).totals[i], SummaryOf(rows).totals[j];
      !(Concerns(r, s.chain, s.asset) && Concerns(r, t.chain, t.asset))
  {
    var totals := SummaryOf(rows).totals;
    var named := NamesOfTotals(rows);
    KeysCoverRows(rows);
    hide Keys, SummaryOf;
    assert Key(r) in Keys(rows);
    var k :| 0 <= k < |Keys(rows)| && Keys(rows)[k] == Key(r);
    assert k in named;
    var i :| 0 <= i < |totals| && named[i] == k;
    assert Concerns(r, totals[i].chain, totals[i].asset);
  }

  /** Which key each total of a summary is of. */
  lemma NamesOfTotals(rows: seq<HistoryRow>) returns (at: seq<nat>)
    ensures var totals := SummaryOf(rows).totals;
      && |at| == |totals| == |Keys(rows)|
      && (forall k | 0 <= k < |totals| ::
        at[k] < |Keys(rows)| && totals[k].chain + [NUL] + totals[k].asset == Keys(rows)[at[k]])
      && (forall j, k | 0 <= j < k < |at| :: at[j] != at[k])
      && forall i | 0 <= i < |Keys(rows)| :: i in at
  {
    var ks, ts := Keys(rows), TotalsFor(rows, Keys(rows));
    SortedTotals(rows);
    at := Places(SummaryOf(rows).totals, ts);
    hide Keys, TotalFor, SummaryOf, StableSort;
    forall k | 0 <= k < |ks| ensures ts[k].chain + [NUL] + ts[k].asset == ks[k] {
      assert ks[k] in ks;
      TotalsAreNamed(rows, ks[k]);
    }
  }

  /** How many rows the groups `keys` count together. */
  function CountAll(rows: seq<HistoryRow>, keys: seq<string>): nat {
    if keys == [] then 0 else CountAll(rows, keys[..|keys| - 1]) + CountOf(rows, keys[|keys| - 1])
  }

  lemma {:induction false} CountAllOfOneMore(rows: seq<HistoryRow>, row: HistoryRow, keys: seq<string>)
    requires forall i, j | 0 <= i < j < |keys| :: keys[i] != keys[j]
    ensures CountAll(rows + [row], keys) == CountAll(rows, keys) + if Key(row) in keys then 1 else 0
  {
    if keys != [] {
      assert keys == keys[..|keys| - 1] + [keys[|keys| - 1]];
      CountAllOfOneMore(rows, row, keys[..|keys| - 1]);
      TallyOfOneMore(rows, row, keys[|keys| - 1]);
    }
  }

  lemma {:induction false} NoRowsNoCount(keys: seq<string>)
    ensures CountAll([], keys) == 0
  {
    if keys != [] { NoRowsNoCount(keys[..|keys| - 1]); }
  }

  lemma {:induction false} EveryRowIsCounted(rows: seq<HistoryRow>, keys: seq<string>)
    requires forall i, j | 0 <= i < j < |keys| :: keys[i] != keys[j]
    requires forall r | r in rows :: Key(r) in keys
    ensures CountAll(rows, keys) == |rows|
  {
    if rows == [] {
      NoRowsNoCount(keys);
    } else {
      var front := rows[..|rows| - 1];
      assert rows == front + [rows[|rows| - 1]];
      EveryRowIsCounted(front, keys);
      CountAllOfOneMore(front, rows[|rows| - 1], keys);
    }
  }

  lemma {:induction false} KeysCoverRows(rows: seq<HistoryRow>)
    ensures forall k :: k in Keys(rows) <==> exists r :: r in rows && Key(r) == k
    ensures forall i, j | 0 <= i < j < |Keys(rows)| :: Keys(rows)[i] != Keys(rows)[j]
  {
    if rows != [] {
      var front, last := rows[..|rows| - 1], rows[|rows| - 1];
      assert rows == front + [last];
      KeysCoverRows(front);
      forall k ensures k in Keys(rows) <==> exists r :: r in rows && Key(r) == k {
        if k == Key(last) { assert last in rows; }
      }
    }
  }

  lemma {:induction false} CountsOfTotals(rows: seq<HistoryRow>, keys: seq<string>)
    requires forall k | k in keys :: k in Keys(rows)
    ensures SumOf((t: Total) => t.count as int, TotalsFor(rows, keys)) == CountAll(rows, keys)
  {
    var f := (t: Total) => t.count as int;
    if keys != [] {
      var front, last := keys[..|keys| - 1], keys[|keys| - 1];
      CountsOfTotals(rows, front);
      SumOfConcat(f, TotalsFor(rows, front), [TotalFor(rows, last)]);
      assert SumOf(f, [TotalFor(rows, last)]) == CountOf(rows, last) + SumOf(f, [TotalFor(rows, last)][1..]);
    }
  }

  /** Group counts add up to the number of rows. */
  lemma {:induction false} CountsAddUp(rows: seq<HistoryRow>)
    ensures SumOf((t: Total) => t.count as int, SummaryOf(rows).totals) == |rows|
  {
    SortedTotals(rows);
    KeysCoverRows(rows);
    SumOfPermutation((t: Total) => t.count as int, SummaryOf(rows).totals, TotalsFor(rows, Keys(rows)));
    CountsOfTotals(rows, Keys(rows));
    forall r | r in rows ensures Key(r) in Keys(rows) { }
    EveryRowIsCounted(rows, Keys(rows));
  }

  // ── The order of the rows ─────────────────────────────────────────────────

  /** Rows that fall into one group have one chain and asset. */
  ghost predicate NoKeyClash(rows: seq<HistoryRow>) {
    forall r, s | r in rows && s in rows && Key(r) == Key(s) :: r.chain == s.chain && r.asset == s.asset
  }

  predicate IsLeast(r: HistoryRow, rows: seq<HistoryRow>) {
    r in rows && r.sortKey != "" && forall s | s in rows && s.sortKey != "" :: !Less(s.sortKey, r.sortKey)
  }

  predicate IsGreatest(r: HistoryRow, rows: seq<HistoryRow>) {
    r in rows && r.sortKey != "" && forall s | s in rows && s.sortKey != "" :: !Less(r.sortKey, s.sortKey)
  }

  /** Rows that tie for the least sort key, or for the greatest, have one date. */
  ghost predicate EndsAgree(rows: seq<HistoryRow>) {
    && (forall r, s | IsLeast(r, rows) && IsLeast(s, rows) :: r.date == s.date)
    && (forall r, s | IsGreatest(r, rows) && IsGreatest(s, rows) :: r.date == s.date)
  }

  ghost predicate OrderIndependent(rows: seq<HistoryRow>) {
    forall p: seq<HistoryRow> | multiset(p) == multiset(rows) :: SummaryOf(p) == SummaryOf(rows)
  }

  lemma {:induction false} NulSplits(a: string, b: string, x: string, y: string)
    requires NUL !in a && NUL !in b && a + [NUL] + x == b + [NUL] + y
    ensures a == b && x == y
  {
    var s, t := a + [NUL] + x, b + [NUL] + y;
    assert a != "" ==> s[0] == a[0] && a[0] in a;
    assert b != "" ==> t[0] == b[0] && b[0] in b;
    assert a == "" ==> s[0] == NUL;
    assert b == "" ==> t[0] == NUL;
    if a != "" {
      assert s[1..] == a[1..] + [NUL] + x && t[1..] == b[1..] + [NUL] + y;
      NulSplits(a[1..], b[1..], x, y);
      assert a == [a[0]] + a[1..] && b == [b[0]] + b[1..];
    } else {
      assert s[1..] == x && t[1..] == y;
    }
  }

  /** Chains without a NUL character never clash. */
  lemma {:induction false} ChainsWithoutNulNeverClash(rows: seq<HistoryRow>)
    requires forall r | r in rows :: NUL !in r.chain
    ensures NoKeyClash(rows)
  {
    forall r, s | r in rows && s in rows && Key(r) == Key(s) ensures r.chain == s.chain && r.asset == s.asset {
      NulSplits(r.chain, s.chain, r.asset, s.asset);
    }
  }

  /** With a NUL in a chain two different pairs can share a key. */
  lemma {:induction false} NulInAChainCanClash()
    ensures var r := HistoryRow("a", "b" + [NUL] + "c", "in", "1", "1", false, "", "");
      var s := HistoryRow("a" + [NUL] + "b", "c", "in", "1", "1", false, "", "");
      !NoKeyClash([r, s]) && !OrderIndependent([r, s])
  {
    var r := HistoryRow("a", "b" + [NUL] + "c", "in", "1", "1", false, "", "");
    var s := HistoryRow("a" + [NUL] + "b", "c", "in", "1", "1", false, "", "");
    assert Key(r) == ['a', NUL, 'b', NUL, 'c'] == Key(s);
    assert r in [r, s] && s in [r, s];
    assert |r.chain| != |s.chain|;
    OrderIndependentExactly([r, s]);
  }

  function OneIf(b: bool): int { if b then 1 else 0 }

  lemma {:induction false} CountOfIsSum(rows: seq<HistoryRow>, key: string)
    ensures CountOf(rows, key) == SumOf((r: HistoryRow) => OneIf(Key(r) == key), rows)
  {
    var f := (r: HistoryRow) => OneIf(Key(r) == key);
    if rows != [] {
      var front, last := rows[..|rows| - 1], rows[|rows| - 1];
      assert rows == front + [last];
      CountOfIsSum(front, key);
      SumOfConcat(f, front, [last]);
      assert [last][1..] == [];
    }
  }

  lemma {:induction false} CellsAreCounted(rows: seq<HistoryRow>, key: string, c: Column, v: string)
    ensures multiset(Cells(rows, key, c))[v] ==
      SumOf((r: HistoryRow) => OneIf(Counts(r, key, c) && CellOf(r, c) == v), rows)
  {
    var f := (r: HistoryRow) => OneIf(Counts(r, key, c) && CellOf(r, c) == v);
    if rows != [] {
      var front, last := rows[..|rows| - 1], rows[|rows| - 1];
      assert rows == front + [last];
      CellsAreCounted(front, key, c, v);
      SumOfConcat(f, front, [last]);
      assert [last][1..] == [];
    }
  }

  lemma {:induction false} CellsOfPermutation(a: seq<HistoryRow>, b: seq<HistoryRow>, key: string, c: Column)
    requires multiset(a) == multiset(b)
    ensures multiset(Cells(a, key, c)) == multiset(Cells(b, key, c))
  {
    forall v ensures multiset(Cells(a, key, c))[v] == multiset(Cells(b, key, c))[v] {
      var f := (r: HistoryRow) => OneIf(Counts(r, key, c) && CellOf(r, c) == v);
      CellsAreCounted(a, key, c, v);
      CellsAreCounted(b, key, c, v);
      SumOfPermutation(f, a, b);
    }
  }

  lemma {:induction false} TotalOfPermutation(a: seq<HistoryRow>, b: seq<HistoryRow>, key: string)
    requires multiset(a) == multiset(b) && NoKeyClash(a) && key in Keys(a) && key in Keys(b)
    ensures TotalFor(a, key) == TotalFor(b, key)
  {
    assert forall c :: multiset(Cells(a, key, c)) == multiset(Cells(b, key, c)) by {
      forall c ensures multiset(Cells(a, key, c)) == multiset(Cells(b, key, c)) { CellsOfPermutation(a, b, key, c); }
    }
    hide ResultText, Cells, CountOf, Opener;
    assert Opener(b, key) in multiset(b);
    forall c: Column, e ensures ResultText(Cells(a, key, c), e) == ResultText(Cells(b, key, c), e) {
      ResultOfPermutation(Cells(a, key, c), Cells(b, key, c), e);
    }
    CountOfIsSum(a, key);
    CountOfIsSum(b, key);
    SumOfPermutation((r: HistoryRow) => OneIf(Key(r) == key), a, b);
  }

  lemma {:induction false} TotalsAreNamed(rows: seq<HistoryRow>, key: string)
    requires key in Keys(rows)
    ensures TotalFor(rows, key).chain + [NUL] + TotalFor(rows, key).asset == key
  {
  }

  /** The totals of a summary have distinct names, so their order is determined. */
  lemma {:induction false} TotalsAreDistinct(rows: seq<HistoryRow>, a: Total, b: Total)
    requires a in TotalsFor(rows, Keys(rows)) && b in TotalsFor(rows, Keys(rows))
    requires TotalAtMost(a, b) && TotalAtMost(b, a)
    ensures a == b
  {
    var ks, ts := Keys(rows), TotalsFor(rows, Keys(rows));
    LessIsStrictOrder(a.chain, b.chain, "");
    LessIsStrictOrder(a.asset, b.asset, "");
    var i :| 0 <= i < |ts| && ts[i] == a;
    var j :| 0 <= j < |ts| && ts[j] == b;
    TotalsAreNamed(rows, ks[i]);
    TotalsAreNamed(rows, ks[j]);
    KeysCoverRows(rows);
  }

  lemma {:induction false} SameDistinctElements(a: seq<string>, b: seq<string>)
    requires forall k :: k in a <==> k in b
    requires forall i, j | 0 <= i < j < |a| :: a[i] != a[j]
    requires forall i, j | 0 <= i < j < |b| :: b[i] != b[j]
    ensures multiset(a) == multiset(b)
  {
    forall k ensures multiset(a)[k] == multiset(b)[k] {
      OnceAtMost(a, k);
      OnceAtMost(b, k);
    }
  }

  lemma {:induction false} OnceAtMost(a: seq<string>, k: string)
    requires forall i, j | 0 <= i < j < |a| :: a[i] != a[j]
    ensures multiset(a)[k] == if k in a then 1 else 0
  {
    if a != [] {
      var front := a[..|a| - 1];
      assert a == front + [a[|a| - 1]];
      OnceAtMost(front, k);
    }
  }

  /** The totals of a permutation: the same ones in the same order. */
  lemma {:induction false} TotalsOfPermutation(a: seq<HistoryRow>, b: seq<HistoryRow>)
    requires multiset(a) == multiset(b) && NoKeyClash(a)
    ensures SummaryOf(a).totals == SummaryOf(b).totals
  {
    hide TotalFor;
    KeysCoverRows(a);
    KeysCoverRows(b);
    forall r ensures r in a <==> r in b { assert r in multiset(a) <==> r in multiset(b); }
    SameDistinctElements(Keys(a), Keys(b));
    forall k | k in Keys(a) && k in Keys(b) ensures TotalFor(a, k) == TotalFor(b, k) { TotalOfPermutation(a, b, k); }
    ImagesOfPermutation(Keys(a), Keys(b), TotalsFor(a, Keys(a)), TotalsFor(b, Keys(b)));
    SortedTotals(a);
    SortedTotals(b);
    forall x, y | x in SummaryOf(a).totals && y in SummaryOf(a).totals && TotalAtMost(x, y) && TotalAtMost(y, x)
      ensures x == y
    {
      assert x in multiset(SummaryOf(a).totals) && y in multiset(SummaryOf(a).totals);
      TotalsAreDistinct(a, x, y);
    }
    SortedOrderIsUnique(TotalAtMost, SummaryOf(a).totals, SummaryOf(b).totals);
  }

  /** The loop keeps the first of the rows with the least sort key. */
  lemma {:induction false} EarliestIsLeast(rows: seq<HistoryRow>)
    ensures Earliest(rows).None? ==> forall r | r in rows :: r.sortKey == ""
    ensures Earliest(rows).Some? ==> IsLeast(Earliest(rows).value, rows)
    ensures rows != [] && IsLeast(rows[0], rows) ==> Earliest(rows) == Some(rows[0])
  {
    if rows != [] {
      var front, last := rows[..|rows| - 1], rows[|rows| - 1];
      assert rows == front + [last];
      EarliestIsLeast(front);
      LessIsStrictOrder(last.sortKey, last.sortKey, "");
      if Earliest(rows).Some? {
        var e := if Earliest(front).Some? then Earliest(front).value else last;
        forall s | s in rows && s.sortKey != "" ensures !Less(s.sortKey, Earliest(rows).value.sortKey) {
          LessIsStrictOrder(s.sortKey, last.sortKey, e.sortKey);
          LessIsStrictOrder(last.sortKey, s.sortKey, e.sortKey);
        }
      }
    }
  }

  lemma {:induction false} LatestIsGreatest(rows: seq<HistoryRow>)
    ensures Latest(rows).None? ==> forall r | r in rows :: r.sortKey == ""
    ensures Latest(rows).Some? ==> IsGreatest(Latest(rows).value, rows)
    ensures rows != [] && IsGreatest(rows[0], rows) ==> Latest(rows) == Some(rows[0])
  {
    if rows != [] {
      var front, last := rows[..|rows| - 1], rows[|rows| - 1];
      assert rows == front + [last];
      LatestIsGreatest(front);
      LessIsStrictOrder(last.sortKey, last.sortKey, "");
      if Latest(rows).Some? {
        var e := if Latest(front).Some? then Latest(front).value else last;
        forall s | s in rows && s.sortKey != "" ensures !Less(Latest(rows).value.sortKey, s.sortKey) {
          LessIsStrictOrder(e.sortKey, last.sortKey, s.sortKey);
          LessIsStrictOrder(e.sortKey, s.sortKey, last.sortKey);
        }
      }
    }
  }

  /** The dates of a summary are those of a row with the least and one with the greatest sort key, or '' without one. */
  lemma {:induction false} DatesAreOfTheEnds(rows: seq<HistoryRow>)
    ensures var s := SummaryOf(rows);
      if forall r | r in rows :: r.sortKey == "" then s.firstDate == "" && s.lastDate == ""
      else
        && (exists r | r in rows && r.sortKey != "" ::
          s.firstDate == r.date && forall q | q in rows && q.sortKey != "" :: !Less(q.sortKey, r.sortKey))
        && (exists r | r in rows && r.sortKey != "" ::
          s.lastDate == r.date && forall q | q in rows && q.sortKey != "" :: !Less(r.sortKey, q.sortKey))
  {
    hide StableSort, TotalsFor, Keys, Less;
    EarliestIsLeast(rows);
    LatestIsGreatest(rows);
    hide Earliest, Latest;
  }

  lemma {:induction false} DatesOfPermutation(a: seq<HistoryRow>, b: seq<HistoryRow>)
    requires multiset(a) == multiset(b) && EndsAgree(a)
    ensures SummaryOf(a).firstDate == SummaryOf(b).firstDate && SummaryOf(a).lastDate == SummaryOf(b).lastDate
  {
    EarliestIsLeast(a);
    EarliestIsLeast(b);
    LatestIsGreatest(a);
    LatestIsGreatest(b);
    forall r ensures r in a <==> r in b { assert r in multiset(a) <==> r in multiset(b); }
    forall r ensures IsLeast(r, a) <==> IsLeast(r, b) { }
    forall r ensures IsGreatest(r, a) <==> IsGreatest(r, b) { }
  }

  lemma {:induction false} FirstRowOpens(rows: seq<HistoryRow>)
    requires rows != []
    ensures Key(rows[0]) in Keys(rows) && Opener(rows, Key(rows[0])) == rows[0]
  {
    if |rows| > 1 { FirstRowOpens(rows[..|rows| - 1]); }
  }

  lemma {:induction false} TotalsOfKeys(rows: seq<HistoryRow>, t: Total)
    ensures t in SummaryOf(rows).totals <==> exists k :: k in Keys(rows) && t == TotalFor(rows, k)
  {
    hide TotalFor, Keys, StableSort;
    var ks, ts := Keys(rows), TotalsFor(rows, Keys(rows));
    SortedTotals(rows);
    assert t in SummaryOf(rows).totals <==> t in multiset(SummaryOf(rows).totals);
    assert t in ts <==> t in multiset(ts);
    if t in ts {
      var i :| 0 <= i < |ts| && ts[i] == t;
      assert ks[i] in ks;
    }
    forall k | k in ks && t == TotalFor(rows, k) ensures t in ts {
      var i :| 0 <= i < |ks| && ks[i] == k;
      assert ts[i] == t;
    }
  }

  /** A group is named after its first row. */
  lemma {:induction false} GroupOfFirstRow(rows: seq<HistoryRow>, t: Total)
    requires rows != []
    ensures exists u | u in SummaryOf(rows).totals :: u.chain == rows[0].chain && u.asset == rows[0].asset
    ensures t in SummaryOf(rows).totals && t.chain + [NUL] + t.asset == Key(rows[0]) ==>
      t.chain == rows[0].chain && t.asset == rows[0].asset
  {
    hide SummaryOf, Keys;
    FirstRowOpens(rows);
    TotalsOfKeys(rows, TotalFor(rows, Key(rows[0])));
    TotalsOfKeys(rows, t);
    if t in SummaryOf(rows).totals {
      var k :| k in Keys(rows) && t == TotalFor(rows, k);
      TotalsAreNamed(rows, k);
    }
  }

  lemma {:induction false} ClashDependsOnOrder(rows: seq<HistoryRow>, r: HistoryRow, s: HistoryRow)
    requires OrderIndependent(rows) && r in rows && s in rows && Key(r) == Key(s)
    ensures r.chain == s.chain && r.asset == s.asset
  {
    hide SummaryOf, Key;
    var p := MovedToFront(rows, r);
    var q := MovedToFront(rows, s);
    assert SummaryOf(p) == SummaryOf(q);
    GroupOfFirstRow(p, Total("", "", "", "", 0, "", ""));
    var u :| u in SummaryOf(p).totals && u.chain == r.chain && u.asset == r.asset;
    assert u.chain + [NUL] + u.asset == Key(r) by { KeyText(r); }
    GroupOfFirstRow(q, u);
  }

  lemma KeyText(r: HistoryRow)
    ensures Key(r) == r.chain + [NUL] + r.asset
  {
  }

  lemma {:induction false} EndsDependOnOrder(rows: seq<HistoryRow>)
    requires OrderIndependent(rows)
    ensures EndsAgree(rows)
  {
    forall r, s | IsLeast(r, rows) && IsLeast(s, rows) ensures r.date == s.date {
      var p := MovedToFront(rows, r);
      var q := MovedToFront(rows, s);
      EarliestIsLeast(p);
      EarliestIsLeast(q);
      assert SummaryOf(p) == SummaryOf(q);
    }
    forall r, s | IsGreatest(r, rows) && IsGreatest(s, rows) ensures r.date == s.date {
      var p := MovedToFront(rows, r);
      var q := MovedToFront(rows, s);
      LatestIsGreatest(p);
      LatestIsGreatest(q);
      assert SummaryOf(p) == SummaryOf(q);
    }
  }

  /**
   * A summary does not depend on the order of the rows exactly when no two rows of different chain or asset share a
   * group key and the rows that tie for the first or the last sort key agree on the date.
   */
  lemma {:induction false} OrderIndependentExactly(rows: seq<HistoryRow>)
    ensures OrderIndependent(rows) <==> NoKeyClash(rows) && EndsAgree(rows)
  {
    if NoKeyClash(rows) && EndsAgree(rows) {
      forall p: seq<HistoryRow> | multiset(p) == multiset(rows) ensures SummaryOf(p) == SummaryOf(rows) {
        TotalsOfPermutation(rows, p);
        DatesOfPermutation(rows, p);
      }
    }
    if OrderIndependent(rows) {
      forall r, s | r in rows && s in rows && Key(r) == Key(s) ensures r.chain == s.chain && r.asset == s.asset {
        ClashDependsOnOrder(rows, r, s);
      }
      EndsDependOnOrder(rows);
    }
  }
}
