/**
 * The price table: a pandas DataFrame whose top column level is the ticker and
 * whose second level is a column label ("close_price", "rs", "rs_ma", ...).
 * Rows are addressed positionally, 0 .. rows - 1.
 */
module Frames {
  import opened Wrappers

  type Ticker = string
  type Label = string

  /** One column of one ticker; `None` is NaN. */
  type Series = seq<Option<real>>

  /** The second-level columns of one ticker. */
  type Group = map<Label, Series>

  const RsLabel: Label := "rs"
  const RsMaLabel: Label := "rs_ma"

  /** Value of a DataFrame: tickers in column order, their columns, the row count. */
  datatype Table = Table(tickers: seq<Ticker>, groups: map<Ticker, Group>, rows: nat)

  /** A failed lookup; the model names the ticker whose lookup failed. */
  datatype KeyError = KeyError(ticker: Ticker)

  predicate Distinct(ts: seq<Ticker>)
  {
    forall i, j :: 0 <= i < j < |ts| ==> ts[i] != ts[j]
  }

  /** Every column of a ticker has one cell per row. */
  predicate GroupShaped(g: Group, rows: nat)
  {
    forall l :: l in g ==> |g[l]| == rows
  }

  /** The shape every DataFrame has: unique top-level tickers, equal-length columns. */
  ghost predicate Valid(t: Table)
  {
    && Distinct(t.tickers)
    && (forall tk :: tk in t.groups <==> tk in t.tickers)
    && (forall tk :: tk in t.groups ==> GroupShaped(t.groups[tk], t.rows))
  }

  /** The sub-table holding exactly the tickers `ks`, in the order of `ks`. */
  function Project(t: Table, ks: seq<Ticker>): (r: Table)
    requires forall tk :: tk in ks ==> tk in t.groups
    ensures r.tickers == ks && r.rows == t.rows
    ensures forall tk :: tk in r.groups <==> tk in ks
    ensures forall tk :: tk in r.groups ==> r.groups[tk] == t.groups[tk]
  {
    Table(ks, map tk | tk in ks :: t.groups[tk], t.rows)
  }

  /** The greedy test that `a` occurs in `b` in order, not necessarily contiguously. */
  predicate IsSubsequence(a: seq<Ticker>, b: seq<Ticker>)
    decreases |b|
  {
    if a == [] then true
    else if b == [] then false
    else if a[|a| - 1] == b[|b| - 1] then IsSubsequence(a[..|a| - 1], b[..|b| - 1])
    else IsSubsequence(a, b[..|b| - 1])
  }

  /** `ts` with every occurrence of `x` removed, order kept. */
  function Without(ts: seq<Ticker>, x: Ticker): (r: seq<Ticker>)
    ensures forall tk :: tk in r <==> tk in ts && tk != x
  {
    if ts == [] then [] else (if ts[0] == x then [] else [ts[0]]) + Without(ts[1..], x)
  }

  /** `DataFrame.drop(columns=[tk], level=0)`: a copy without `tk`'s columns. */
  function Drop(t: Table, tk: Ticker): (r: Table)
    ensures r.rows == t.rows && r.groups.Keys == t.groups.Keys - {tk}
    ensures forall k :: k in r.groups ==> r.groups[k] == t.groups[k]
    ensures r.tickers == Without(t.tickers, tk)
    ensures forall tk' :: tk' in r.tickers <==> tk' in t.tickers && tk' != tk
    ensures IsSubsequence(r.tickers, t.tickers)
  {
    WithoutSubsequence(t.tickers, tk);
    Table(Without(t.tickers, tk), t.groups - {tk}, t.rows)
  }

  /** Removing `x` from a sequence ending in `y` removes it from the front part. */
  lemma {:induction false} WithoutSnoc(ts: seq<Ticker>, y: Ticker, x: Ticker)
    ensures Without(ts + [y], x) == Without(ts, x) + (if y == x then [] else [y])
    decreases |ts|
  {
    if ts == [] {
      assert Without([y], x) == (if y == x then [] else [y]) + Without([], x);
    } else {
      assert (ts + [y])[1..] == ts[1..] + [y];
      WithoutSnoc(ts[1..], y, x);
    }
  }

  /** `Without` keeps the order of the remaining tickers. */
  lemma {:induction false} WithoutSubsequence(ts: seq<Ticker>, x: Ticker)
    ensures IsSubsequence(Without(ts, x), ts)
    decreases |ts|
  {
    if ts != [] {
      var front, y := ts[..|ts| - 1], ts[|ts| - 1];
      assert ts == front + [y];
      WithoutSnoc(front, y, x);
      WithoutSubsequence(front, x);
      var r := Without(front, x);
      if y != x {
        assert Without(ts, x) == r + [y];
        assert (r + [y])[..|r|] == r;
      } else {
        assert Without(ts, x) == r;
        assert r != [] ==> r[|r| - 1] in r;
      }
    }
  }

  lemma {:induction false} WithoutAbsent(ts: seq<Ticker>, x: Ticker)
    requires x !in ts
    ensures Without(ts, x) == ts
  {
    if ts != [] {
      WithoutAbsent(ts[1..], x);
    }
  }

  lemma {:induction false} WithoutSplit(a: seq<Ticker>, x: Ticker, b: seq<Ticker>)
    requires x !in a && x !in b
    ensures Without(a + [x] + b, x) == a + b
  {
    if a == [] {
      assert (a + [x] + b)[1..] == b;
      WithoutAbsent(b, x);
    } else {
      assert (a + [x] + b)[1..] == a[1..] + [x] + b;
      WithoutSplit(a[1..], x, b);
      assert a == [a[0]] + a[1..];
    }
  }

  /** Dropping the middle ticker of a projection projects onto the rest. */
  lemma DropProject(t: Table, a: seq<Ticker>, x: Ticker, b: seq<Ticker>)
    requires forall tk :: tk in a + [x] + b ==> tk in t.groups
    requires x !in a && x !in b
    ensures Drop(Project(t, a + [x] + b), x) == Project(t, a + b)
  {
    WithoutSplit(a, x, b);
    var p := Project(t, a + [x] + b);
    var d, q := Drop(p, x), Project(t, a + b);
    forall tk ensures tk in d.groups <==> tk in q.groups {
      assert tk in a + [x] + b <==> tk in a || tk == x || tk in b;
      assert tk in a + b <==> tk in a || tk in b;
    }
    assert d.groups == q.groups;
    assert d.tickers == q.tickers;
  }

  /** Projecting a valid table onto all its tickers gives it back. */
  lemma ProjectAll(t: Table)
    requires Valid(t)
    ensures Project(t, t.tickers) == t
  {
    assert Project(t, t.tickers).groups == t.groups;
  }

  /** A projection onto distinct tickers of a valid table is valid. */
  lemma ProjectValid(t: Table, ks: seq<Ticker>)
    requires Valid(t) && Distinct(ks)
    requires forall tk :: tk in ks ==> tk in t.groups
    ensures Valid(Project(t, ks))
  {
  }

  /**
   * The DataFrame object itself, for the operation that writes into the
   * caller's frame in place.
   */
  class PriceFrame {
    var tickers: seq<Ticker>
    var groups: map<Ticker, Group>
    var rows: nat

    /** The frame's current value. */
    function Snapshot(): Table
      reads this
    {
      Table(tickers, groups, rows)
    }

    constructor (t: Table)
      ensures Snapshot() == t
    {
      tickers, groups, rows := t.tickers, t.groups, t.rows;
    }

    /** `frame[tk, col] = s` for a ticker already in the frame. */
    method SetColumn(tk: Ticker, col: Label, s: Series)
      requires tk in groups && |s| == rows
      modifies this
      ensures tickers == old(tickers) && rows == old(rows)
      ensures groups == old(groups)[tk := old(groups)[tk][col := s]]
    {
      groups := groups[tk := groups[tk][col := s]];
    }
  }
}
