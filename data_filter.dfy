/**
 * `DataFilter` of main/robot/classes.py: the growth filter and the
 * moving-average crossover filter. Each keeps or drops whole tickers and
 * returns the resulting table as a value; the input table is never changed.
 * When every ticker survives, the source returns the input object itself;
 * the value model does not capture that aliasing.
 */
module DataFilter {
  import opened Wrappers
  import opened Frames

  // ---------------------------------------------------------------------
  // Per-ticker decisions

  /** `rs[last] > rs[0]`; a NaN endpoint makes the comparison false. */
  predicate Grew(rs: Series)
    ensures Grew(rs) ==> 1 < |rs|
  {
    && |rs| > 0
    && rs[0].Some? && rs[|rs| - 1].Some?
    && rs[|rs| - 1].value > rs[0].value
  }

  /** The scan stops: `rs < ma or pd.isna(ma)`. */
  predicate Breaks(rs: Option<real>, ma: Option<real>)
    ensures rs.None? ==> (Breaks(rs, ma) <==> ma.None?)
    ensures Breaks(rs, ma) ==> !Above(rs, ma)
    ensures rs.Some? && ma.Some? ==> (Breaks(rs, ma) || Above(rs, ma) || rs.value == ma.value)
  {
    ma.None? || (rs.Some? && rs.value < ma.value)
  }

  /** The scan counts the row: `rs > ma`. */
  predicate Above(rs: Option<real>, ma: Option<real>)
    ensures Above(rs, ma) ==> rs.Some? && ma.Some? && rs.value != ma.value
  {
    rs.Some? && ma.Some? && rs.value > ma.value
  }

  /**
   * `count_days` after scanning rows k - 1 down to 0: the scan stops at the
   * first breaking row, counts rows strictly above, and passes over rows where
   * rs equals ma or rs is NaN.
   */
  function Streak(rs: Series, ma: Series, k: nat): (n: nat)
    requires k <= |rs| && k <= |ma|
    ensures n <= k
    decreases k
  {
    if k == 0 || Breaks(rs[k - 1], ma[k - 1]) then 0
    else (if Above(rs[k - 1], ma[k - 1]) then 1 else 0) + Streak(rs, ma, k - 1)
  }

  /** Which filter is applied. */
  datatype Criterion = Growth | Crossover(daysRsHoldsAboveMa: int)

  datatype Verdict = Keep | Discard | Fail

  /**
   * What the filter does with one ticker, from that ticker's columns alone.
   * It fails exactly where the source's lookups raise; otherwise the growth
   * filter keeps a ticker iff its rs grew strictly from the first row to the
   * last, and the crossover filter iff `count_days` reaches the threshold.
   */
  function Judge(c: Criterion, g: Group, rows: nat): (v: Verdict)
    requires GroupShaped(g, rows)
    ensures c.Growth? ==> (v == Fail <==> rows == 0 || RsLabel !in g)
    ensures c.Crossover? ==> (v == Fail <==> rows > 0 && (RsLabel !in g || RsMaLabel !in g))
    ensures c.Growth? && v != Fail ==>
      var rs := g[RsLabel];
      (v == Keep <==> rs[0].Some? && rs[rows - 1].Some? && rs[rows - 1].value > rs[0].value)
    ensures c.Crossover? && v != Fail ==> (v == Keep <==> DaysAboveMa(g, rows) >= c.daysRsHoldsAboveMa)
  {
    match c
    case Growth =>
      // loc[0] and loc[len - 1] raise on a zero-row table or a missing "rs"
      if rows == 0 || RsLabel !in g then Fail
      else if Grew(g[RsLabel]) then Keep
      else Discard
    case Crossover(days) =>
      // with no rows the scan loop never reads a cell
      if rows > 0 && (RsLabel !in g || RsMaLabel !in g) then Fail
      else if DaysAboveMa(g, rows) >= days then Keep
      else Discard
  }

  /** `count_days` of one ticker; 0 on a zero-row table, where the scan never starts. */
  function DaysAboveMa(g: Group, rows: nat): (n: nat)
    requires GroupShaped(g, rows)
    requires rows > 0 ==> RsLabel in g && RsMaLabel in g
    ensures n <= rows
  {
    if rows == 0 then 0 else Streak(g[RsLabel], g[RsMaLabel], rows)
  }

  // ---------------------------------------------------------------------
  // Whole-table filtering

  /**
   * The tickers kept after processing the first `k` tickers in order, or the
   * KeyError of the first ticker whose lookup fails.
   */
  function Screen(c: Criterion, t: Table, k: nat): (r: Result<seq<Ticker>, KeyError>)
    requires Valid(t) && k <= |t.tickers|
    ensures r.Ok? ==> forall tk :: tk in r.value ==> tk in t.tickers[..k]
    decreases k
  {
    if k == 0 then Ok([])
    else
      var tk := t.tickers[k - 1];
      assert t.tickers[..k] == t.tickers[..k - 1] + [tk];
      match Screen(c, t, k - 1)
      case Err(e) => Err(e)
      case Ok(kept) =>
        match Judge(c, t.groups[tk], t.rows)
        case Fail => Err(KeyError(tk))
        case Keep => Ok(kept + [tk])
        case Discard => Ok(kept)
  }

  /** The screen fails iff some ticker's lookup fails, and then with the first such ticker. */
  lemma {:induction false} ScreenFails(c: Criterion, t: Table, k: nat)
    requires Valid(t) && k <= |t.tickers|
    ensures Screen(c, t, k).Err? <==> exists j :: 0 <= j < k && Judge(c, t.groups[t.tickers[j]], t.rows) == Fail
    ensures Screen(c, t, k).Err? ==> exists j :: (0 <= j < k && Screen(c, t, k).error == KeyError(t.tickers[j])
      && Judge(c, t.groups[t.tickers[j]], t.rows) == Fail
      && forall i :: 0 <= i < j ==> Judge(c, t.groups[t.tickers[i]], t.rows) != Fail)
    decreases k
  {
    if k > 0 {
      ScreenFails(c, t, k - 1);
    }
  }

  /** A ticker is kept iff it is among the first `k` and its own verdict is Keep. */
  lemma {:induction false} ScreenKeeps(c: Criterion, t: Table, k: nat)
    requires Valid(t) && k <= |t.tickers|
    ensures Screen(c, t, k).Ok? ==> forall tk :: tk in Screen(c, t, k).value <==>
      tk in t.tickers[..k] && Judge(c, t.groups[tk], t.rows) == Keep
    decreases k
  {
    if k > 0 {
      ScreenKeeps(c, t, k - 1);
      var tk := t.tickers[k - 1];
      assert t.tickers[..k] == t.tickers[..k - 1] + [tk];
      assert tk !in t.tickers[..k - 1];
      var prev := Screen(c, t, k - 1);
      if prev.Ok? && Judge(c, t.groups[tk], t.rows) != Fail {
        var kept := Screen(c, t, k).value;
        assert kept == prev.value + [tk] || kept == prev.value;
        forall x ensures x in kept <==> x in t.tickers[..k] && Judge(c, t.groups[x], t.rows) == Keep {
          if x != tk {
            assert x in kept <==> x in prev.value;
            assert x in t.tickers[..k] <==> x in t.tickers[..k - 1];
          }
        }
      }
    }
  }

  /** The kept tickers are distinct and appear in the input's order. */
  lemma {:induction false} ScreenOrder(c: Criterion, t: Table, k: nat)
    requires Valid(t) && k <= |t.tickers|
    ensures Screen(c, t, k).Ok? ==> Distinct(Screen(c, t, k).value) && IsSubsequence(Screen(c, t, k).value, t.tickers[..k])
    decreases k
  {
    if k > 0 {
      ScreenOrder(c, t, k - 1);
      var tk := t.tickers[k - 1];
      var pre := t.tickers[..k];
      assert pre[..k - 1] == t.tickers[..k - 1];
      assert tk !in t.tickers[..k - 1];
      var prev := Screen(c, t, k - 1);
      if prev.Ok? {
        var kept := prev.value;
        assert tk !in kept;
        match Judge(c, t.groups[tk], t.rows)
        case Fail =>
        case Keep =>
          assert Screen(c, t, k) == Ok(kept + [tk]);
          assert (kept + [tk])[..|kept|] == kept;
          assert IsSubsequence(kept + [tk], pre);
          DistinctSnoc(kept, tk);
        case Discard =>
          assert Screen(c, t, k) == Ok(kept);
          assert kept != [] ==> kept[|kept| - 1] in t.tickers[..k - 1];
          assert IsSubsequence(kept, pre);
      }
    }
  }

  /** Appending a ticker not yet present keeps a sequence duplicate-free. */
  lemma DistinctSnoc(ts: seq<Ticker>, x: Ticker)
    requires Distinct(ts) && x !in ts
    ensures Distinct(ts + [x])
  {
  }

  /** The filtered table: a new table of the kept tickers, or the KeyError raised. */
  function Apply(c: Criterion, t: Table): (r: Result<Table, KeyError>)
    requires Valid(t)
    ensures r.Ok? ==> r.value.rows == t.rows
    ensures r.Ok? ==> forall tk :: tk in r.value.tickers ==> tk in t.tickers
    ensures r.Ok? ==> forall tk :: tk in r.value.groups ==> tk in t.groups && r.value.groups[tk] == t.groups[tk]
  {
    assert t.tickers[..|t.tickers|] == t.tickers;
    match Screen(c, t, |t.tickers|)
    case Err(e) => Err(e)
    case Ok(kept) => Ok(Project(t, kept))
  }

  /** Once a lookup has failed, the rest of the tickers are never reached. */
  lemma {:induction false} ScreenErrPersists(c: Criterion, t: Table, k: nat, n: nat)
    requires Valid(t) && k <= n <= |t.tickers| && Screen(c, t, k).Err?
    ensures Screen(c, t, n) == Screen(c, t, k)
    decreases n - k
  {
    if k < n {
      ScreenErrPersists(c, t, k, n - 1);
    }
  }

  /** The ticker about to be processed is neither among those kept so far nor among those still to come. */
  lemma NextTickerFresh(c: Criterion, t: Table, i: nat, kept: seq<Ticker>)
    requires Valid(t) && i < |t.tickers| && Screen(c, t, i) == Ok(kept)
    ensures t.tickers[i] !in kept && t.tickers[i] !in t.tickers[i + 1..]
    ensures kept + t.tickers[i..] == kept + [t.tickers[i]] + t.tickers[i + 1..]
    ensures forall tk :: tk in kept + t.tickers[i..] ==> tk in t.groups
  {
    var tk := t.tickers[i];
    assert tk !in t.tickers[..i];
    assert t.tickers[i..] == [tk] + t.tickers[i + 1..];
  }

  /** One step of the ticker loop: what processing ticker `i` does to the kept list. */
  lemma ScreenStep(c: Criterion, t: Table, i: nat, kept: seq<Ticker>)
    requires Valid(t) && i < |t.tickers| && Screen(c, t, i) == Ok(kept)
    ensures Judge(c, t.groups[t.tickers[i]], t.rows) == Fail ==> Screen(c, t, i + 1) == Err(KeyError(t.tickers[i]))
    ensures Judge(c, t.groups[t.tickers[i]], t.rows) == Keep ==> Screen(c, t, i + 1) == Ok(kept + [t.tickers[i]])
    ensures Judge(c, t.groups[t.tickers[i]], t.rows) == Discard ==> Screen(c, t, i + 1) == Ok(kept)
  {
    assert t.tickers[..i + 1][..i] == t.tickers[..i];
  }

  /**
   * The loop's rebound table: `data` is the sub-table of `t` on the tickers
   * `ks`, all of which are tickers of `t`.
   */
  ghost predicate Rebound(t: Table, ks: seq<Ticker>, data: Table)
  {
    (forall tk :: tk in ks ==> tk in t.groups) && data == Project(t, ks)
  }

  /**
   * One iteration of either filter's ticker loop, on the table `data` that
   * the loop has rebound so far: what the verdict on ticker `i` leads to.
   */
  lemma FilterStep(c: Criterion, t: Table, i: nat, kept: seq<Ticker>, data: Table)
    requires Valid(t) && i < |t.tickers| && Screen(c, t, i) == Ok(kept)
    requires Rebound(t, kept + t.tickers[i..], data)
    ensures var tk := t.tickers[i];
      && tk in data.groups && data.groups[tk] == t.groups[tk] && data.rows == t.rows
      && GroupShaped(data.groups[tk], data.rows)
    ensures var tk := t.tickers[i]; Judge(c, t.groups[tk], t.rows) == Fail ==>
      Apply(c, t) == Err(KeyError(tk))
    ensures var tk := t.tickers[i]; Judge(c, t.groups[tk], t.rows) == Keep ==>
      Screen(c, t, i + 1) == Ok(kept + [tk]) && Rebound(t, (kept + [tk]) + t.tickers[i + 1..], data)
    ensures var tk := t.tickers[i]; Judge(c, t.groups[tk], t.rows) == Discard ==>
      Screen(c, t, i + 1) == Ok(kept) && Rebound(t, kept + t.tickers[i + 1..], Drop(data, tk))
  {
    var tk := t.tickers[i];
    NextTickerFresh(c, t, i, kept);
    ScreenStep(c, t, i, kept);
    match Judge(c, t.groups[tk], t.rows)
    case Fail => ScreenErrPersists(c, t, i + 1, |t.tickers|);
    case Keep => assert kept + t.tickers[i..] == (kept + [tk]) + t.tickers[i + 1..];
    case Discard =>
      assert forall x :: x in kept + t.tickers[i + 1..] ==> x in kept + t.tickers[i..];
      DropProject(t, kept, tk, t.tickers[i + 1..]);
  }

  /** One iteration of `has_rs_grown`, in the terms of the loop's own tests. */
  lemma GrowthStep(t: Table, i: nat, kept: seq<Ticker>, data: Table)
    requires Valid(t) && i < |t.tickers| && Screen(Growth, t, i) == Ok(kept)
    requires Rebound(t, kept + t.tickers[i..], data)
    ensures var tk := t.tickers[i];
      && tk in data.groups && data.groups[tk] == t.groups[tk] && data.rows == t.rows
      && GroupShaped(data.groups[tk], data.rows)
    ensures var tk := t.tickers[i]; var g := t.groups[tk];
      (t.rows == 0 || RsLabel !in g) ==> Apply(Growth, t) == Err(KeyError(tk))
    ensures var tk := t.tickers[i]; var g := t.groups[tk];
      (t.rows > 0 && RsLabel in g) ==>
        if Grew(g[RsLabel]) then
          Screen(Growth, t, i + 1) == Ok(kept + [tk]) && Rebound(t, (kept + [tk]) + t.tickers[i + 1..], data)
        else
          Screen(Growth, t, i + 1) == Ok(kept) && Rebound(t, kept + t.tickers[i + 1..], Drop(data, tk))
  {
    FilterStep(Growth, t, i, kept, data);
  }

  /** One iteration of `has_rs_crossed_ma`, in the terms of the loop's own tests. */
  lemma CrossoverStep(t: Table, days: int, i: nat, kept: seq<Ticker>, data: Table)
    requires Valid(t) && i < |t.tickers| && Screen(Crossover(days), t, i) == Ok(kept)
    requires Rebound(t, kept + t.tickers[i..], data)
    ensures var tk := t.tickers[i];
      && tk in data.groups && data.groups[tk] == t.groups[tk] && data.rows == t.rows
      && GroupShaped(data.groups[tk], data.rows)
    ensures var tk := t.tickers[i]; var g := t.groups[tk];
      (t.rows > 0 && (RsLabel !in g || RsMaLabel !in g)) ==> Apply(Crossover(days), t) == Err(KeyError(tk))
    ensures var tk := t.tickers[i]; var g := t.groups[tk];
      (t.rows > 0 ==> RsLabel in g && RsMaLabel in g) ==>
        if DaysAboveMa(g, t.rows) >= days then
          Screen(Crossover(days), t, i + 1) == Ok(kept + [tk]) && Rebound(t, (kept + [tk]) + t.tickers[i + 1..], data)
        else
          Screen(Crossover(days), t, i + 1) == Ok(kept) && Rebound(t, kept + t.tickers[i + 1..], Drop(data, tk))
  {
    FilterStep(Crossover(days), t, i, kept, data);
  }

  /** The loop's state before the first ticker, and the table it returns after the last. */
  lemma ReboundEnds(c: Criterion, t: Table, kept: seq<Ticker>, data: Table)
    requires Valid(t)
    ensures Rebound(t, [] + t.tickers[0..], t)
    ensures Screen(c, t, |t.tickers|) == Ok(kept) && Rebound(t, kept + t.tickers[|t.tickers|..], data) ==>
      Apply(c, t) == Ok(data)
  {
    assert [] + t.tickers[0..] == t.tickers;
    ProjectAll(t);
    assert kept + t.tickers[|t.tickers|..] == kept;
  }

  // ---------------------------------------------------------------------
  // The two filters, as the source runs them

  /**
   * `count_days` for one ticker: the `while row_nr != -1` scan from the
   * last row backwards.
   */
  method CountDaysAboveMa(rs: Series, ma: Series) returns (countDays: nat)
    requires |rs| == |ma|
    ensures countDays == Streak(rs, ma, |rs|)
  {
    var rowNr: int := |rs| - 1;
    countDays := 0;
    while rowNr != -1
      invariant -1 <= rowNr < |rs|
      invariant countDays + Streak(rs, ma, rowNr + 1) == Streak(rs, ma, |rs|)
      decreases rowNr + 1
    {
      if Breaks(rs[rowNr], ma[rowNr]) {
        break;
      } else if Above(rs[rowNr], ma[rowNr]) {
        countDays := countDays + 1;
      }
      rowNr := rowNr - 1;
    }
  }

  /** `DataFilter.has_rs_grown`: drops every ticker whose rs did not end above where it started. */
  method HasRsGrown(stocksData: Table) returns (r: Result<Table, KeyError>)
    requires Valid(stocksData)
    ensures r == Apply(Growth, stocksData)
  {
    var data := stocksData;
    var tickers := stocksData.tickers;
    ghost var kept: seq<Ticker> := [];
    ReboundEnds(Growth, stocksData, kept, data);
    for i := 0 to |tickers|
      invariant Screen(Growth, stocksData, i) == Ok(kept)
      invariant Rebound(stocksData, kept + tickers[i..], data)
    {
      var ticker := tickers[i];
      GrowthStep(stocksData, i, kept, data);
      var g := data.groups[ticker];
      if data.rows == 0 || RsLabel !in g {
        // loc[0] or the "rs" column does not exist
        return Err(KeyError(ticker));
      }
      var rsPeriodStart: Option<real> := g[RsLabel][0];
      var rsPeriodEnd: Option<real> := g[RsLabel][data.rows - 1];
      // a NaN on either side makes `rs_period_end > rs_period_start` false
      var grown := rsPeriodStart.Some? && rsPeriodEnd.Some? && rsPeriodEnd.value > rsPeriodStart.value;
      assert grown == Grew(g[RsLabel]);
      if !grown {
        data := Drop(data, ticker);
      } else {
        kept := kept + [ticker];
      }
    }
    ReboundEnds(Growth, stocksData, kept, data);
    return Ok(data);
  }

  /**
   * `DataFilter.has_rs_crossed_ma`: keeps a ticker iff its backward scan
   * counted at least `daysRsHoldsAboveMa` rows.
   */
  method HasRsCrossedMa(stocksData: Table, daysRsHoldsAboveMa: int) returns (r: Result<Table, KeyError>)
    requires Valid(stocksData)
    ensures r == Apply(Crossover(daysRsHoldsAboveMa), stocksData)
  {
    var data := stocksData;
    var stocksTickers := stocksData.tickers;
    ghost var kept: seq<Ticker> := [];
    ReboundEnds(Crossover(daysRsHoldsAboveMa), stocksData, kept, data);
    for i := 0 to |stocksTickers|
      invariant Screen(Crossover(daysRsHoldsAboveMa), stocksData, i) == Ok(kept)
      invariant Rebound(stocksData, kept + stocksTickers[i..], data)
    {
      var ticker := stocksTickers[i];
      CrossoverStep(stocksData, daysRsHoldsAboveMa, i, kept, data);
      var g := data.groups[ticker];
      var countDays := 0;
      if data.rows > 0 {
        if RsLabel !in g || RsMaLabel !in g {
          // the scan's first lookup of row len - 1 fails
          return Err(KeyError(ticker));
        }
        countDays := CountDaysAboveMa(g[RsLabel], g[RsMaLabel]);
      }
      assert countDays == DaysAboveMa(g, data.rows);
      var positiveResult := countDays >= daysRsHoldsAboveMa;
      if !positiveResult {
        data := Drop(data, ticker);
      } else {
        kept := kept + [ticker];
      }
    }
    ReboundEnds(Crossover(daysRsHoldsAboveMa), stocksData, kept, data);
    return Ok(data);
  }

  // ---------------------------------------------------------------------
  // Properties of the filters

  /** Every ticker of a subsequence occurs in the sequence. */
  lemma {:induction false} SubsequenceMembers(a: seq<Ticker>, b: seq<Ticker>)
    requires IsSubsequence(a, b)
    ensures forall tk :: tk in a ==> tk in b
    decreases |b|
  {
    if a != [] {
      var a', b' := a[..|a| - 1], b[..|b| - 1];
      assert a == a' + [a[|a| - 1]] && b == b' + [b[|b| - 1]];
      if a[|a| - 1] == b[|b| - 1] {
        SubsequenceMembers(a', b');
      } else {
        SubsequenceMembers(a, b');
      }
    }
  }

  /** When every ticker among the first `k` is kept, the screen keeps them all, in order. */
  lemma {:induction false} ScreenAllKept(c: Criterion, t: Table, k: nat)
    requires Valid(t) && k <= |t.tickers|
    requires forall j :: 0 <= j < k ==> Judge(c, t.groups[t.tickers[j]], t.rows) == Keep
    ensures Screen(c, t, k) == Ok(t.tickers[..k])
    decreases k
  {
    if k > 0 {
      ScreenAllKept(c, t, k - 1);
      assert t.tickers[..k] == t.tickers[..k - 1] + [t.tickers[k - 1]];
    }
  }

  /**
   * Both filters return a valid table with the input's row count, whose
   * tickers are a subsequence of the input's, each with its columns unchanged;
   * a ticker is in it iff its own verdict is Keep.
   */
  lemma FilterShape(c: Criterion, t: Table)
    requires Valid(t)
    ensures Apply(c, t).Ok? ==>
      var r := Apply(c, t).value;
      && Valid(r) && r.rows == t.rows
      && IsSubsequence(r.tickers, t.tickers)
      && (forall tk :: tk in r.groups ==> r.groups[tk] == t.groups[tk])
      && (forall tk :: tk in r.tickers <==> tk in t.tickers && Judge(c, t.groups[tk], t.rows) == Keep)
  {
    var n := |t.tickers|;
    assert t.tickers[..n] == t.tickers;
    ScreenOrder(c, t, n);
    ScreenKeeps(c, t, n);
    if Apply(c, t).Ok? {
      ProjectValid(t, Screen(c, t, n).value);
    }
  }

  /** Re-applying a filter to its own output changes nothing. */
  lemma FilterIdempotent(c: Criterion, t: Table)
    requires Valid(t)
    ensures Apply(c, t).Ok? ==> Valid(Apply(c, t).value) && Apply(c, Apply(c, t).value) == Apply(c, t)
  {
    if Apply(c, t).Ok? {
      var r := Apply(c, t).value;
      FilterShape(c, t);
      forall j | 0 <= j < |r.tickers| ensures Judge(c, r.groups[r.tickers[j]], r.rows) == Keep {
        assert r.tickers[j] in r.tickers;
      }
      ScreenAllKept(c, r, |r.tickers|);
      assert r.tickers[..|r.tickers|] == r.tickers;
      ProjectAll(r);
    }
  }

  /** The growth filter raises iff some ticker lacks "rs" or the table has no rows. */
  lemma GrowthFails(t: Table)
    requires Valid(t)
    ensures Apply(Growth, t).Err? <==>
      exists tk :: tk in t.tickers && (t.rows == 0 || RsLabel !in t.groups[tk])
  {
    ScreenFails(Growth, t, |t.tickers|);
    if exists tk :: tk in t.tickers && (t.rows == 0 || RsLabel !in t.groups[tk]) {
      var tk :| tk in t.tickers && (t.rows == 0 || RsLabel !in t.groups[tk]);
      var j :| 0 <= j < |t.tickers| && t.tickers[j] == tk;
      assert Judge(Growth, t.groups[t.tickers[j]], t.rows) == Fail;
    }
  }

  /** A ticker survives the growth filter iff its last rs is strictly above its first. */
  lemma GrowthKeepsGrown(t: Table)
    requires Valid(t)
    ensures Apply(Growth, t).Ok? ==> forall tk :: tk in Apply(Growth, t).value.tickers <==>
      && tk in t.tickers && RsLabel in t.groups[tk]
      && var rs := t.groups[tk][RsLabel];
         rs[0].Some? && rs[t.rows - 1].Some? && rs[t.rows - 1].value > rs[0].value
  {
    FilterShape(Growth, t);
    GrowthFails(t);
  }

  /** The crossover filter raises iff the table has rows and some ticker lacks "rs" or "rs_ma". */
  lemma CrossoverFails(t: Table, days: int)
    requires Valid(t)
    ensures Apply(Crossover(days), t).Err? <==>
      t.rows > 0 && exists tk :: tk in t.tickers && (RsLabel !in t.groups[tk] || RsMaLabel !in t.groups[tk])
  {
    ScreenFails(Crossover(days), t, |t.tickers|);
    if t.rows > 0 && exists tk :: tk in t.tickers && (RsLabel !in t.groups[tk] || RsMaLabel !in t.groups[tk]) {
      var tk :| tk in t.tickers && (RsLabel !in t.groups[tk] || RsMaLabel !in t.groups[tk]);
      var j :| 0 <= j < |t.tickers| && t.tickers[j] == tk;
      assert Judge(Crossover(days), t.groups[t.tickers[j]], t.rows) == Fail;
    }
  }

  /** A ticker survives the crossover filter iff its count_days reaches the threshold. */
  lemma CrossoverKeepsHolding(t: Table, days: int)
    requires Valid(t)
    ensures Apply(Crossover(days), t).Ok? ==> forall tk :: tk in Apply(Crossover(days), t).value.tickers <==>
      && tk in t.tickers
      && (t.rows > 0 ==> RsLabel in t.groups[tk] && RsMaLabel in t.groups[tk])
      && DaysAboveMa(t.groups[tk], t.rows) >= days
  {
    FilterShape(Crossover(days), t);
    CrossoverFails(t, days);
  }

  /**
   * A threshold of zero or less keeps every ticker, also on a zero-row
   * table, as long as no lookup fails.
   */
  lemma CrossoverNonPositiveKeepsAll(t: Table, days: int)
    requires Valid(t) && days <= 0
    requires t.rows > 0 ==> forall tk :: tk in t.groups ==> RsLabel in t.groups[tk] && RsMaLabel in t.groups[tk]
    ensures Apply(Crossover(days), t) == Ok(t)
  {
    ScreenAllKept(Crossover(days), t, |t.tickers|);
    assert t.tickers[..|t.tickers|] == t.tickers;
    ProjectAll(t);
  }

  /** A larger threshold keeps a subsequence of what a smaller one keeps. */
  lemma {:induction false} ScreenMonotone(t: Table, a: int, b: int, k: nat)
    requires Valid(t) && a <= b && k <= |t.tickers|
    ensures Screen(Crossover(a), t, k).Ok? <==> Screen(Crossover(b), t, k).Ok?
    ensures Screen(Crossover(a), t, k).Ok? ==>
      IsSubsequence(Screen(Crossover(b), t, k).value, Screen(Crossover(a), t, k).value)
    decreases k
  {
    if k > 0 {
      ScreenMonotone(t, a, b, k - 1);
      var tk := t.tickers[k - 1];
      assert tk !in t.tickers[..k - 1];
      var sa, sb := Screen(Crossover(a), t, k - 1), Screen(Crossover(b), t, k - 1);
      if sa.Ok? {
        var ka, kb := sa.value, sb.value;
        assert kb != [] ==> kb[|kb| - 1] in t.tickers[..k - 1];
        assert (ka + [tk])[..|ka|] == ka;
        assert (kb + [tk])[..|kb|] == kb;
      }
    }
  }

  lemma CrossoverMonotone(t: Table, a: int, b: int)
    requires Valid(t) && a <= b
    ensures Apply(Crossover(a), t).Ok? <==> Apply(Crossover(b), t).Ok?
    ensures Apply(Crossover(a), t).Ok? ==>
      && IsSubsequence(Apply(Crossover(b), t).value.tickers, Apply(Crossover(a), t).value.tickers)
      && forall tk :: tk in Apply(Crossover(b), t).value.tickers ==> tk in Apply(Crossover(a), t).value.tickers
  {
    ScreenMonotone(t, a, b, |t.tickers|);
    if Apply(Crossover(a), t).Ok? {
      SubsequenceMembers(Apply(Crossover(b), t).value.tickers, Apply(Crossover(a), t).value.tickers);
    }
  }

  // ---------------------------------------------------------------------
  // What count_days counts

  /** Rows `lo .. hi - 1` in which rs is strictly above ma, regardless of any stopping rule. */
  function CountAbove(rs: Series, ma: Series, lo: nat, hi: nat): nat
    requires lo <= hi <= |rs| && hi <= |ma|
    decreases hi - lo
  {
    if lo == hi then 0 else (if Above(rs[lo], ma[lo]) then 1 else 0) + CountAbove(rs, ma, lo + 1, hi)
  }

  lemma {:induction false} CountAboveLast(rs: Series, ma: Series, lo: nat, hi: nat)
    requires lo < hi <= |rs| && hi <= |ma|
    ensures CountAbove(rs, ma, lo, hi) == CountAbove(rs, ma, lo, hi - 1) + (if Above(rs[hi - 1], ma[hi - 1]) then 1 else 0)
    decreases hi - lo
  {
    if lo < hi - 1 {
      CountAboveLast(rs, ma, lo + 1, hi);
    }
  }

  /**
   * `count_days` is the number of rows strictly above ma within the maximal
   * trailing run of rows where ma is defined and rs is not below it: for the
   * run start `s`, rows s .. k - 1 do not break and row s - 1 (if any) does.
   */
  lemma {:induction false} StreakIsTrailingRun(rs: Series, ma: Series, s: nat, k: nat)
    requires |rs| == |ma| && s <= k <= |rs|
    requires forall i :: s <= i < k ==> !Breaks(rs[i], ma[i])
    requires s == 0 || Breaks(rs[s - 1], ma[s - 1])
    ensures Streak(rs, ma, k) == CountAbove(rs, ma, s, k)
    decreases k
  {
    if s < k {
      StreakIsTrailingRun(rs, ma, s, k - 1);
      CountAboveLast(rs, ma, s, k);
    }
  }

  /**
   * The length of the unbroken run of trailing rows strictly above ma: the
   * count that stops at the first row that is not strictly above.
   */
  function StrictStreak(rs: Series, ma: Series, k: nat): nat
    requires k <= |rs| && k <= |ma|
    decreases k
  {
    if k == 0 || !Above(rs[k - 1], ma[k - 1]) then 0 else 1 + StrictStreak(rs, ma, k - 1)
  }

  /**
   * `count_days` is never below the unbroken strictly-above run: every row
   * strictly above ma is a row that does not stop the scan.
   */
  lemma {:induction false} StreakCoversStrictRun(rs: Series, ma: Series, k: nat)
    requires k <= |rs| && k <= |ma|
    ensures Streak(rs, ma, k) >= StrictStreak(rs, ma, k)
    decreases k
  {
    if k > 0 && Above(rs[k - 1], ma[k - 1]) {
      StreakCoversStrictRun(rs, ma, k - 1);
    }
  }

  /** It can be more: an equal row is passed over and the above row before it still counts. */
  lemma StreakExceedsStrictRun()
    ensures var rs, ma := [Some(2.0), Some(1.0), Some(2.0)], [Some(1.0), Some(1.0), Some(1.0)];
      Streak(rs, ma, 3) == 2 && StrictStreak(rs, ma, 3) == 1
  {
    var rs: Series, ma: Series := [Some(2.0), Some(1.0), Some(2.0)], [Some(1.0), Some(1.0), Some(1.0)];
    assert Streak(rs, ma, 1) == 1;
    assert Streak(rs, ma, 2) == 1;
    assert StrictStreak(rs, ma, 2) == 0;
  }
}
