/**
 * The mirrored two-ticker table of main/tests/test_classes.py: NVDA's close
 * prices are TSLA's benchmark prices and the other way round, relative
 * strength is taken per ticker and the moving average has window 2.
 */
module Scenario {
  import opened Wrappers
  import opened Frames
  import opened Metrics
  import opened DataFilter

  const NvdaClose: seq<real> := [
    22.7, 18.4, 29.1, 11.6, 26.3, 13.2, 17.8, 25.5, 19.9, 27.4, 10.8, 23.3, 15.6,
    28.9, 21.2, 12.5, 24.0, 16.7, 14.1, 20.6, 29.8, 10.1, 30.0, 11.3, 13.9, 17.2]

  const NvdaMarket: seq<real> := [
    20.3, 17.1, 26.4, 10.9, 23.7, 12.1, 15.4, 22.8, 18.3, 24.6, 10.4, 20.2, 14.3,
    26.0, 19.1, 11.7, 21.3, 15.0, 13.6, 18.8, 27.1, 10.0, 28.2, 10.9, 12.7, 15.9]

  const Nvda: Ticker := "NVDA"
  const Tsla: Ticker := "TSLA"

  /** A column with no NaN. */
  function Prices(v: seq<real>): (s: Series)
    ensures |s| == |v| && AllDefined(s)
    ensures forall i :: 0 <= i < |v| ==> s[i] == Some(v[i])
  {
    seq(|v|, i requires 0 <= i < |v| => Some(v[i]))
  }

  /** The columns of one ticker after `df[ticker, "rs"] = rs(close, market)`. */
  function Columns(close: seq<real>, market: seq<real>): Group
    requires |close| == |market| && NonZero(Prices(market))
  {
    map["close_price" := Prices(close), "market_price" := Prices(market),
        RsLabel := Rs(Prices(close), Prices(market))]
  }

  /** Every price of the fixture is positive. */
  lemma PricesPositive()
    ensures |NvdaClose| == |NvdaMarket| == 26
    ensures forall i :: 0 <= i < 26 ==> NvdaClose[i] > 0.0 && NvdaMarket[i] > 0.0
    ensures NonZero(Prices(NvdaClose)) && NonZero(Prices(NvdaMarket))
  {
  }

  /** The fixture before the moving average. */
  function Base(): Table
  {
    PricesPositive();
    Table([Nvda, Tsla],
          map[Nvda := Columns(NvdaClose, NvdaMarket), Tsla := Columns(NvdaMarket, NvdaClose)],
          26)
  }

  lemma BaseValid()
    ensures Valid(Base())
    ensures forall j :: 0 <= j < 2 ==> RsLabel in Base().groups[Base().tickers[j]]
  {
    assert Nvda != Tsla;
  }

  /** The fixture as the filters see it: "rs_ma" with window 2 written for both tickers. */
  function Fixture(): Table
  {
    BaseValid();
    WithRsMa(Base(), 2, 2)
  }

  /** The relative strength values of NVDA that the filters read. */
  lemma NvdaRs()
    ensures NonZero(Prices(NvdaMarket))
    ensures var nvda := Rs(Prices(NvdaClose), Prices(NvdaMarket));
      nvda[0] == Some(1.12) && nvda[23] == Some(1.04) && nvda[24] == Some(1.09) && nvda[25] == Some(1.08)
  {
    PricesPositive();
    var c, m := Prices(NvdaClose), Prices(NvdaMarket);
    RsIsNearestCent(c, m, 0, 112);
    RsIsNearestCent(c, m, 23, 104);
    RsIsNearestCent(c, m, 24, 109);
    RsIsNearestCent(c, m, 25, 108);
  }

  /** The relative strength values of TSLA that the filters read. */
  lemma TslaRs()
    ensures NonZero(Prices(NvdaClose))
    ensures var tsla := Rs(Prices(NvdaMarket), Prices(NvdaClose));
      tsla[0] == Some(0.89) && tsla[23] == Some(0.96) && tsla[24] == Some(0.91) && tsla[25] == Some(0.92)
  {
    PricesPositive();
    var c, m := Prices(NvdaMarket), Prices(NvdaClose);
    RsIsNearestCent(c, m, 0, 89);
    RsIsNearestCent(c, m, 23, 96);
    RsIsNearestCent(c, m, 24, 91);
    RsIsNearestCent(c, m, 25, 92);
  }

  /** The window-2 mean at row `i`, when rows i - 1 and i hold `a` and `b`. */
  lemma MeanOfTwo(s: Series, i: nat, a: real, b: real)
    requires 1 <= i < |s| && s[i - 1] == Some(a) && s[i] == Some(b)
    ensures RollingMean(s, 2)[i] == Some((a + b) / 2.0)
  {
    var win := s[i + 1 - 2 .. i + 1];
    assert win == [Some(a), Some(b)];
    assert AllDefined(win) && Values(win) == [a, b];
    assert [a][..0] == [];
    assert Sum([a]) == a;
    assert [a, b][..1] == [a];
    assert Sum([a, b]) == a + b;
    assert MeanAt(s, 2, i) == Some((a + b) / 2.0);
  }

  lemma FixtureShape()
    ensures var t := Fixture();
      && Valid(t) && t.tickers == [Nvda, Tsla] && t.rows == 26
      && t.groups[Nvda] == AttachRsMa(Base().groups[Nvda], 2)
      && t.groups[Tsla] == AttachRsMa(Base().groups[Tsla], 2)
  {
    BaseValid();
    WithRsMaShape(Base(), 2, 2);
  }

  /** What the filters read from NVDA's and TSLA's columns. */
  lemma FixtureColumns()
    ensures var t := Fixture();
      && Valid(t) && t.tickers == [Nvda, Tsla] && t.rows == 26
      && RsLabel in t.groups[Nvda] && RsMaLabel in t.groups[Nvda]
      && RsLabel in t.groups[Tsla] && RsMaLabel in t.groups[Tsla]
      && t.groups[Nvda][RsMaLabel] == RollingMean(t.groups[Nvda][RsLabel], 2)
      && t.groups[Tsla][RsMaLabel] == RollingMean(t.groups[Tsla][RsLabel], 2)
      && NonZero(Prices(NvdaMarket)) && NonZero(Prices(NvdaClose))
      && t.groups[Nvda][RsLabel] == Rs(Prices(NvdaClose), Prices(NvdaMarket))
      && t.groups[Tsla][RsLabel] == Rs(Prices(NvdaMarket), Prices(NvdaClose))
  {
    FixtureShape();
    NvdaRs();
    TslaRs();
  }

  /** NVDA's rs fell from 1.12 to 1.08 and ends below its moving average 1.085. */
  lemma NvdaJudged(g: Group)
    requires GroupShaped(g, 26) && RsLabel in g && RsMaLabel in g
    requires g[RsMaLabel] == RollingMean(g[RsLabel], 2)
    requires g[RsLabel][0] == Some(1.12) && g[RsLabel][24] == Some(1.09) && g[RsLabel][25] == Some(1.08)
    ensures Judge(Growth, g, 26) == Discard
    ensures forall days :: days >= 1 ==> Judge(Crossover(days), g, 26) == Discard
  {
    MeanOfTwo(g[RsLabel], 25, 1.09, 1.08);
    assert DaysAboveMa(g, 26) == 0;
  }

  /** TSLA's rs rose from 0.89 to 0.92 and was above its moving average on the last row only. */
  lemma TslaJudged(g: Group)
    requires GroupShaped(g, 26) && RsLabel in g && RsMaLabel in g
    requires g[RsMaLabel] == RollingMean(g[RsLabel], 2)
    requires g[RsLabel][0] == Some(0.89) && g[RsLabel][23] == Some(0.96)
    requires g[RsLabel][24] == Some(0.91) && g[RsLabel][25] == Some(0.92)
    ensures Judge(Growth, g, 26) == Keep
    ensures Judge(Crossover(1), g, 26) == Keep
    ensures Judge(Crossover(2), g, 26) == Discard
  {
    var rs := g[RsLabel];
    MeanOfTwo(rs, 24, 0.96, 0.91);
    MeanOfTwo(rs, 25, 0.91, 0.92);
    assert Streak(rs, g[RsMaLabel], 25) == 0;
    assert DaysAboveMa(g, 26) == 1;
  }

  /** The verdicts of both filters on each fixture ticker. */
  lemma FixtureVerdicts()
    ensures var t := Fixture();
      && Valid(t) && t.tickers == [Nvda, Tsla] && t.rows == 26
      && Judge(Growth, t.groups[Nvda], 26) == Discard
      && Judge(Crossover(1), t.groups[Nvda], 26) == Discard
      && Judge(Crossover(2), t.groups[Nvda], 26) == Discard
      && Judge(Growth, t.groups[Tsla], 26) == Keep
      && Judge(Crossover(1), t.groups[Tsla], 26) == Keep
      && Judge(Crossover(2), t.groups[Tsla], 26) == Discard
  {
    FixtureColumns();
    NvdaRs();
    TslaRs();
    NvdaJudged(Fixture().groups[Nvda]);
    TslaJudged(Fixture().groups[Tsla]);
  }

  /** Screening two tickers of which only the second is kept. */
  lemma ScreenSecondOnly(c: Criterion, t: Table)
    requires Valid(t) && |t.tickers| == 2
    requires Judge(c, t.groups[t.tickers[0]], t.rows) == Discard
    requires Judge(c, t.groups[t.tickers[1]], t.rows) == Keep
    ensures Apply(c, t) == Ok(Project(t, [t.tickers[1]]))
  {
    ScreenStep(c, t, 0, []);
    ScreenStep(c, t, 1, []);
    assert [] + [t.tickers[1]] == [t.tickers[1]];
  }

  /** Screening two tickers of which neither is kept. */
  lemma ScreenNeither(c: Criterion, t: Table)
    requires Valid(t) && |t.tickers| == 2
    requires Judge(c, t.groups[t.tickers[0]], t.rows) == Discard
    requires Judge(c, t.groups[t.tickers[1]], t.rows) == Discard
    ensures Apply(c, t) == Ok(Project(t, []))
  {
    ScreenStep(c, t, 0, []);
    ScreenStep(c, t, 1, []);
  }

  /** The growth filter keeps exactly TSLA. */
  lemma FixtureGrowth()
    ensures Valid(Fixture())
    ensures Apply(Growth, Fixture()) == Ok(Project(Fixture(), [Tsla]))
  {
    FixtureVerdicts();
    ScreenSecondOnly(Growth, Fixture());
  }

  /** The crossover filter keeps exactly TSLA with threshold 1 and nothing with threshold 2. */
  lemma FixtureCrossover()
    ensures Valid(Fixture())
    ensures Apply(Crossover(1), Fixture()) == Ok(Project(Fixture(), [Tsla]))
    ensures Apply(Crossover(2), Fixture()) == Ok(Project(Fixture(), []))
  {
    FixtureVerdicts();
    ScreenSecondOnly(Crossover(1), Fixture());
    ScreenNeither(Crossover(2), Fixture());
  }

  /** With window 2 on the single-ticker table, row 0 of "rs_ma" is NaN and row 1 is a number. */
  lemma FixtureRsMaBoundary()
    ensures NonZero(Prices(NvdaMarket))
    ensures var ma := RollingMean(Rs(Prices(NvdaClose), Prices(NvdaMarket)), 2);
      |ma| == 26 && ma[0].None? && ma[1].Some?
  {
    PricesPositive();
    var rs := Rs(Prices(NvdaClose), Prices(NvdaMarket));
    RollingMeanDefined(rs, 2, 0);
    RollingMeanDefined(rs, 2, 1);
  }
}
