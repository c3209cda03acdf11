/**
 * `Metrics` of main/robot/classes.py: the relative strength of a ticker
 * against the benchmark, and its trailing moving average.
 */
module Metrics {
  import opened Wrappers
  import opened Frames

  /** The longest moving-average window the analysis allows (one trading month). */
  const MaxWindow: nat := 21

  // ---------------------------------------------------------------------
  // Rounding to two decimals

  /** Nearest integer to `x`, ties to the even neighbour (Python's `round`). */
  function RoundHalfEven(x: real): (n: int)
    ensures x - 0.5 <= n as real <= x + 0.5
    ensures (n as real == x - 0.5 || n as real == x + 0.5) ==> n % 2 == 0
  {
    var f := x.Floor;
    var d := x - f as real;
    if d < 0.5 then f
    else if d > 0.5 then f + 1
    else if f % 2 == 0 then f
    else f + 1
  }

  /** `r` is a whole number of hundredths. */
  predicate IsCents(r: real)
  {
    (r * 100.0).Floor as real == r * 100.0
  }

  /** `round(x, 2)`: the multiple of 1/100 nearest to `x`. */
  function Round2(x: real): (r: real)
    ensures IsCents(r)
    ensures x - 0.005 <= r <= x + 0.005
  {
    var n := RoundHalfEven(x * 100.0);
    var r := n as real / 100.0;
    assert r * 100.0 == n as real;
    assert (n as real).Floor == n;
    assert x * 100.0 - 0.5 <= r * 100.0 <= x * 100.0 + 0.5;
    r
  }

  /** Away from ties, the rounded value is the only cent value within half a cent. */
  lemma Round2Unique(x: real, c: int)
    requires x - 0.005 < c as real / 100.0 < x + 0.005
    ensures Round2(x) == c as real / 100.0
  {
    var y := x * 100.0;
    var n := RoundHalfEven(y);
    assert c as real - 0.5 < y < c as real + 0.5;
    assert n as real - 0.5 <= y <= n as real + 0.5;
    assert (n - c) as real < 1.0 && (c - n) as real < 1.0;
    assert n == c;
  }

  /** Rounding a value that already has two decimals leaves it unchanged. */
  lemma Round2OfCents(c: int)
    ensures Round2(c as real / 100.0) == c as real / 100.0
  {
    Round2Unique(c as real / 100.0, c);
  }

  // ---------------------------------------------------------------------
  // Relative strength

  /** No benchmark price is zero (closing prices are positive). */
  predicate NonZero(market: Series)
  {
    forall i :: 0 <= i < |market| && market[i].Some? ==> market[i].value != 0.0
  }

  /** One cell of `round(stock / market, 2)`; NaN on either side gives NaN. */
  function RsCell(stock: Option<real>, market: Option<real>): (r: Option<real>)
    requires market.Some? ==> market.value != 0.0
    ensures r.Some? <==> stock.Some? && market.Some?
    ensures r.Some? ==>
      && IsCents(r.value)
      && stock.value / market.value - 0.005 <= r.value <= stock.value / market.value + 0.005
  {
    if stock.Some? && market.Some? then Some(Round2(stock.value / market.value)) else None
  }

  /** `Metrics.rs` applied to two aligned price series. */
  function Rs(stock: Series, market: Series): (r: Series)
    requires |stock| == |market| && NonZero(market)
    ensures |r| == |stock|
    ensures forall i :: 0 <= i < |r| ==> (r[i].Some? <==> stock[i].Some? && market[i].Some?)
    ensures forall i :: 0 <= i < |r| && r[i].Some? ==>
      && IsCents(r[i].value)
      && stock[i].value / market[i].value - 0.005 <= r[i].value <= stock[i].value / market[i].value + 0.005
  {
    seq(|stock|, i requires 0 <= i < |stock| => RsCell(stock[i], market[i]))
  }

  /** Each defined relative-strength cell is the cent value nearest the price ratio. */
  lemma RsIsNearestCent(stock: Series, market: Series, i: nat, c: int)
    requires |stock| == |market| && NonZero(market) && i < |stock|
    requires stock[i].Some? && market[i].Some?
    requires stock[i].value / market[i].value - 0.005 < c as real / 100.0 < stock[i].value / market[i].value + 0.005
    ensures Rs(stock, market)[i] == Some(c as real / 100.0)
  {
    Round2Unique(stock[i].value / market[i].value, c);
  }

  // ---------------------------------------------------------------------
  // Rolling mean

  predicate AllDefined(s: Series)
  {
    forall i :: 0 <= i < |s| ==> s[i].Some?
  }

  function Values(s: Series): (v: seq<real>)
    requires AllDefined(s)
    ensures |v| == |s| && forall i :: 0 <= i < |s| ==> v[i] == s[i].value
  {
    seq(|s|, i requires 0 <= i < |s| => s[i].value)
  }

  function Sum(v: seq<real>): real
  {
    if v == [] then 0.0 else Sum(v[..|v| - 1]) + v[|v| - 1]
  }

  lemma SumSingleton(v: seq<real>)
    ensures |v| == 1 ==> Sum(v) == v[0]
  {
    if |v| == 1 {
      assert v[..0] == [];
    }
  }

  /** Entry `i` of `rolling(window=w).mean()` with the default `min_periods = w`. */
  function MeanAt(s: Series, w: nat, i: nat): (r: Option<real>)
    requires 1 <= w && i < |s|
    ensures r.Some? <==> w <= i + 1 && AllDefined(s[i + 1 - w .. i + 1])
    ensures w == 1 ==> r == s[i]
  {
    if i + 1 < w then None
    else
      var win := s[i + 1 - w .. i + 1];
      if AllDefined(win) then
        var v := Values(win);
        assert w == 1 ==> v == [s[i].value];
        SumSingleton(v);
        Some(Sum(v) / w as real)
      else None
  }

  /** `s.rolling(window=w).mean()`. */
  function RollingMean(s: Series, w: nat): (r: Series)
    requires 1 <= w
    ensures |r| == |s|
    ensures forall i :: 0 <= i < |s| ==> r[i] == MeanAt(s, w, i)
  {
    seq(|s|, i requires 0 <= i < |s| => MeanAt(s, w, i))
  }

  /**
   * Window boundary: entry `i` is defined exactly when a full window of
   * defined values ends at row `i`, so entries 0 .. w - 2 are undefined.
   */
  lemma RollingMeanDefined(s: Series, w: nat, i: nat)
    requires 1 <= w && i < |s|
    ensures RollingMean(s, w)[i].Some? <==> w - 1 <= i && forall j :: i + 1 - w <= j <= i ==> s[j].Some?
  {
    if w - 1 <= i {
      var win := s[i + 1 - w .. i + 1];
      if !AllDefined(win) {
        var k :| 0 <= k < |win| && win[k].None?;
        assert s[i + 1 - w + k].None?;
      }
    }
  }

  lemma {:induction false} SumBounds(v: seq<real>, lo: real, hi: real)
    requires forall i :: 0 <= i < |v| ==> lo <= v[i] <= hi
    ensures |v| as real * lo <= Sum(v) <= |v| as real * hi
  {
    if v != [] {
      SumBounds(v[..|v| - 1], lo, hi);
    }
  }

  lemma {:induction false} SumConstant(v: seq<real>, x: real)
    requires forall i :: 0 <= i < |v| ==> v[i] == x
    ensures Sum(v) == |v| as real * x
  {
    if v != [] {
      SumConstant(v[..|v| - 1], x);
    }
  }

  /** Dividing bounds on a total of `w` values by `w` bounds their mean. */
  lemma MeanBounds(total: real, w: nat, lo: real, hi: real)
    requires 1 <= w && w as real * lo <= total <= w as real * hi
    ensures lo <= total / w as real <= hi
  {
    var m := total / w as real;
    assert total == m * w as real;
    assert (m - lo) * w as real >= 0.0;
    assert (hi - m) * w as real >= 0.0;
  }

  /** A defined moving-average entry lies between the least and the greatest value of its window. */
  lemma RollingMeanWithinWindow(s: Series, w: nat, i: nat, lo: real, hi: real)
    requires 1 <= w && w - 1 <= i < |s|
    requires forall j :: i + 1 - w <= j <= i ==> s[j].Some? ==> lo <= s[j].value <= hi
    ensures RollingMean(s, w)[i].Some? ==> lo <= RollingMean(s, w)[i].value <= hi
  {
    var win := s[i + 1 - w .. i + 1];
    if AllDefined(win) {
      var v := Values(win);
      forall k | 0 <= k < |v| ensures lo <= v[k] <= hi {
        assert v[k] == s[i + 1 - w + k].value;
      }
      SumBounds(v, lo, hi);
      MeanBounds(Sum(v), w, lo, hi);
    }
  }

  /** A window over equal values averages to that value. */
  lemma RollingMeanOfConstant(s: Series, w: nat, i: nat, x: real)
    requires 1 <= w && w - 1 <= i < |s|
    requires forall j :: i + 1 - w <= j <= i ==> s[j] == Some(x)
    ensures RollingMean(s, w)[i] == Some(x)
  {
    var win := s[i + 1 - w .. i + 1];
    forall k | 0 <= k < |win| ensures win[k] == Some(x) {
      assert win[k] == s[i + 1 - w + k];
    }
    var v := Values(win);
    SumConstant(v, x);
    MeanBounds(Sum(v), w, x, x);
  }

  /** With window 1 the moving average is the series itself. */
  lemma RollingMeanWindowOne(s: Series)
    ensures RollingMean(s, 1) == s
  {
    forall i | 0 <= i < |s| ensures RollingMean(s, 1)[i] == s[i] {
      var win := s[i .. i + 1];
      if s[i].Some? {
        assert Values(win) == [s[i].value];
        assert Sum(Values(win)) == Sum([]) + s[i].value;
      }
    }
  }

  // ---------------------------------------------------------------------
  // rs_ma over the whole frame

  /** Index of the first ticker lacking column `col`, or the ticker count if none does. */
  function FirstLacking(t: Table, col: Label, from: nat): (k: nat)
    requires Valid(t) && from <= |t.tickers|
    requires forall j :: 0 <= j < from ==> col in t.groups[t.tickers[j]]
    ensures from <= k <= |t.tickers|
    ensures forall j :: 0 <= j < k ==> col in t.groups[t.tickers[j]]
    ensures k < |t.tickers| ==> col !in t.groups[t.tickers[k]]
    decreases |t.tickers| - from
  {
    if from == |t.tickers| || col !in t.groups[t.tickers[from]] then from
    else FirstLacking(t, col, from + 1)
  }

  /** One ticker's columns after `frame[ticker, "rs_ma"] = frame[ticker, "rs"].rolling(w).mean()`. */
  function AttachRsMa(g: Group, w: nat): (g': Group)
    requires 1 <= w && RsLabel in g
    ensures g'.Keys == g.Keys + {RsMaLabel}
    ensures g'[RsMaLabel] == RollingMean(g[RsLabel], w)
    ensures forall col :: col in g && col != RsMaLabel ==> g'[col] == g[col]
  {
    g[RsMaLabel := RollingMean(g[RsLabel], w)]
  }

  /** `t` after "rs_ma" was written for the first `k` tickers. */
  function WithRsMa(t: Table, w: nat, k: nat): (r: Table)
    requires Valid(t) && 1 <= w && k <= |t.tickers|
    requires forall j :: 0 <= j < k ==> RsLabel in t.groups[t.tickers[j]]
    ensures r.tickers == t.tickers && r.rows == t.rows && r.groups.Keys == t.groups.Keys
  {
    Table(t.tickers,
          map tk | tk in t.groups ::
            if tk in t.tickers[..k] then AttachRsMa(t.groups[tk], w) else t.groups[tk],
          t.rows)
  }

  /**
   * Writing "rs_ma" keeps the tickers, the row count and every other column,
   * adds exactly the "rs_ma" column to each of the first `k` tickers, and
   * leaves the remaining tickers untouched.
   */
  lemma WithRsMaShape(t: Table, w: nat, k: nat)
    requires Valid(t) && 1 <= w && k <= |t.tickers|
    requires forall j :: 0 <= j < k ==> RsLabel in t.groups[t.tickers[j]]
    ensures var r := WithRsMa(t, w, k);
      && Valid(r) && r.tickers == t.tickers && r.rows == t.rows
      && (forall j :: 0 <= j < k ==> r.groups[t.tickers[j]] == AttachRsMa(t.groups[t.tickers[j]], w))
      && (forall j :: k <= j < |t.tickers| ==> r.groups[t.tickers[j]] == t.groups[t.tickers[j]])
  {
    var r := WithRsMa(t, w, k);
    forall j | k <= j < |t.tickers| ensures t.tickers[j] !in t.tickers[..k] { }
    forall tk | tk in r.groups ensures GroupShaped(r.groups[tk], r.rows) {
      if tk in t.tickers[..k] {
        assert RsLabel in t.groups[tk];
      }
    }
  }

  /** The step of the rs_ma loop: writing ticker `k` extends the prefix by one. */
  lemma WithRsMaStep(t: Table, w: nat, k: nat)
    requires Valid(t) && 1 <= w && k < |t.tickers|
    requires forall j :: 0 <= j <= k ==> RsLabel in t.groups[t.tickers[j]]
    ensures var tk := t.tickers[k]; var prev := WithRsMa(t, w, k);
      && prev.groups[tk] == t.groups[tk]
      && WithRsMa(t, w, k + 1) == prev.(groups := prev.groups[tk := AttachRsMa(t.groups[tk], w)])
  {
    var tk := t.tickers[k];
    assert tk !in t.tickers[..k];
    assert t.tickers[..k + 1] == t.tickers[..k] + [tk];
    var prev := WithRsMa(t, w, k);
    var next := WithRsMa(t, w, k + 1);
    assert next.groups == prev.groups[tk := AttachRsMa(t.groups[tk], w)];
  }

  /**
   * `Metrics.rs_ma`: writes the "rs_ma" column of every ticker into the
   * caller's frame, ticker by ticker. A ticker without an "rs" column raises
   * a KeyError, leaving the columns already written in place.
   */
  method RsMa(stocksData: PriceFrame, maWindow: nat) returns (error: Option<KeyError>)
    requires Valid(stocksData.Snapshot())
    requires 1 <= maWindow <= MaxWindow
    modifies stocksData
    ensures var before := old(stocksData.Snapshot());
      var k := FirstLacking(before, RsLabel, 0);
      && stocksData.Snapshot() == WithRsMa(before, maWindow, k)
      && error == (if k < |before.tickers| then Some(KeyError(before.tickers[k])) else None)
  {
    ghost var before := stocksData.Snapshot();
    var tickers := stocksData.tickers;
    for i := 0 to |tickers|
      invariant forall j :: 0 <= j < i ==> RsLabel in before.groups[tickers[j]]
      invariant stocksData.Snapshot() == WithRsMa(before, maWindow, i)
    {
      var ticker := tickers[i];
      WithRsMaShape(before, maWindow, i);
      if RsLabel !in stocksData.groups[ticker] {
        return Some(KeyError(ticker));
      }
      WithRsMaStep(before, maWindow, i);
      var ma := RollingMean(stocksData.groups[ticker][RsLabel], maWindow);
      stocksData.SetColumn(ticker, RsMaLabel, ma);
    }
    return None;
  }
}
