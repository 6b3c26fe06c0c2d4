/**
 * The stock screen of the dashboard: a fixed sample table of stocks,
 * filtered by an inclusive P/E range, a minimum EPS, a minimum growth rate
 * (on the table's percentage scale) and an industry, where "All" is a
 * wildcard.
 */
module StockScreener {
  import opened Masking

  /** One row of the sample table. */
  datatype Row = Row(ticker: string, pe: real, industry: string, eps: real, growth: real)

  /** The hard-coded sample table, in its order. */
  const Stocks: seq<Row> := [
    Row("AAPL", 28.0, "Tech", 5.5, 10.0),
    Row("MSFT", 35.0, "Tech", 7.2, 12.0),
    Row("GOOGL", 30.0, "Tech", 6.8, 15.0)
  ]

  /** The industry value that places no constraint. */
  const Wildcard: string := "All"

  /** The five screening inputs, in the order the screen takes them. */
  datatype Criteria = Criteria(peMin: real, peMax: real, industry: string, epsMin: real, growthMin: real)

  /** The numeric conjunction applied to every row first. */
  predicate InBounds(row: Row, c: Criteria) {
    && c.peMin <= row.pe
    && row.pe <= c.peMax
    && row.eps >= c.epsMin
    && row.growth >= c.growthMin
  }

  /**
   * Whether a row passes the whole screen: every numeric bound, and the
   * industry test unless the industry is the wildcard.
   */
  predicate Passes(row: Row, c: Criteria) {
    InBounds(row, c) && (c.industry == Wildcard || row.industry == c.industry)
  }

  /** The mask of the numeric bounds over a table. */
  function BoundsMask(rows: seq<Row>, c: Criteria): (m: seq<bool>)
  {
    seq(|rows|, i requires 0 <= i < |rows| => InBounds(rows[i], c))
  }

  /** The mask of rows whose industry equals `industry` exactly. */
  function IndustryMask(rows: seq<Row>, industry: string): (m: seq<bool>)
  {
    seq(|rows|, i requires 0 <= i < |rows| => rows[i].industry == industry)
  }

  /** The mask of rows that pass the whole screen. */
  function PassMask(rows: seq<Row>, c: Criteria): (m: seq<bool>)
  {
    seq(|rows|, i requires 0 <= i < |rows| => Passes(rows[i], c))
  }

  /**
   * The screen over a given table: first the numeric mask, then, unless the
   * industry is the wildcard, the industry mask over what is left.
   */
  function Screen(table: seq<Row>, c: Criteria): (r: seq<Row>) {
    var filtered := Select(table, BoundsMask(table, c));
    if c.industry != Wildcard then Select(filtered, IndustryMask(filtered, c.industry))
    else filtered
  }

  /** The screen over the sample table, with the inputs in source order. */
  function FilterStocks(peMin: real, peMax: real, industry: string, epsMin: real, growthMin: real): (r: seq<Row>) {
    Screen(Stocks, Criteria(peMin, peMax, industry, epsMin, growthMin))
  }

  // ---------------------------------------------------------------------------
  // The two-step screen is one selection by the combined predicate

  /** Masking the rows that survived a selection is selecting the mask along with them. */
  lemma {:induction false} IndustryMaskOfSelect(rows: seq<Row>, m: seq<bool>, industry: string)
    requires |m| == |rows|
    ensures IndustryMask(Select(rows, m), industry) == Select(IndustryMask(rows, industry), m)
  {
    if rows != [] {
      IndustryMaskOfSelect(rows[1..], m[1..], industry);
      assert IndustryMask(rows, industry)[1..] == IndustryMask(rows[1..], industry);
      var a := Select(rows[1..], m[1..]);
      if m[0] {
        assert Select(rows, m) == [rows[0]] + a;
        assert IndustryMask([rows[0]] + a, industry) == [rows[0].industry == industry] + IndustryMask(a, industry);
      } else {
        assert Select(rows, m) == a;
      }
    }
  }

  /** The same for the combined mask. */
  lemma {:induction false} PassMaskOfSelect(rows: seq<Row>, m: seq<bool>, c: Criteria)
    requires |m| == |rows|
    ensures PassMask(Select(rows, m), c) == Select(PassMask(rows, c), m)
  {
    if rows != [] {
      PassMaskOfSelect(rows[1..], m[1..], c);
      assert PassMask(rows, c)[1..] == PassMask(rows[1..], c);
      var a := Select(rows[1..], m[1..]);
      if m[0] {
        assert Select(rows, m) == [rows[0]] + a;
        assert PassMask([rows[0]] + a, c) == [Passes(rows[0], c)] + PassMask(a, c);
      } else {
        assert Select(rows, m) == a;
      }
    }
  }

  /** The screen selects exactly by the combined predicate, whether or not the industry is the wildcard. */
  lemma ScreenIsOneSelection(table: seq<Row>, c: Criteria)
    ensures Screen(table, c) == Select(table, PassMask(table, c))
  {
    var b := BoundsMask(table, c);
    if c.industry != Wildcard {
      var im := IndustryMask(table, c.industry);
      IndustryMaskOfSelect(table, b, c.industry);
      SelectSelect(table, b, im);
      assert And(b, im) == PassMask(table, c);
    } else {
      assert b == PassMask(table, c);
    }
  }

  // ---------------------------------------------------------------------------
  // What the screen returns

  /**
   * The full description of the result: it is the table's passing rows, at
   * strictly increasing table positions (so in table order and each once),
   * and a position is among them exactly when its row passes.
   */
  lemma ScreenSpec(table: seq<Row>, c: Criteria)
    ensures var r, p := Screen(table, c), Positions(PassMask(table, c));
      && |r| == |p|
      && (forall k :: 0 <= k < |p| ==> r[k] == table[p[k]])
      && (forall j, k :: 0 <= j < k < |p| ==> p[j] < p[k])
      && (forall i :: i in p <==> 0 <= i < |table| && Passes(table[i], c))
  {
    ScreenIsOneSelection(table, c);
    SelectAt(table, PassMask(table, c));
  }

  /** Soundness: every returned row is a table row that meets every criterion. */
  lemma ScreenSound(table: seq<Row>, c: Criteria)
    ensures forall x :: x in Screen(table, c) ==> x in table && Passes(x, c)
  {
    ScreenSpec(table, c);
    var r, p := Screen(table, c), Positions(PassMask(table, c));
    forall x | x in r
      ensures x in table && Passes(x, c)
    {
      var k :| 0 <= k < |r| && r[k] == x;
      assert p[k] in p;
    }
  }

  /** Completeness: every table row that meets every criterion is returned. */
  lemma ScreenComplete(table: seq<Row>, c: Criteria)
    ensures forall i :: 0 <= i < |table| && Passes(table[i], c) ==> table[i] in Screen(table, c)
  {
    ScreenSpec(table, c);
    var r, p := Screen(table, c), Positions(PassMask(table, c));
    forall i | 0 <= i < |table| && Passes(table[i], c)
      ensures table[i] in r
    {
      assert i in p;
      var k :| 0 <= k < |p| && p[k] == i;
      assert r[k] == table[i];
    }
  }

  /** A table whose tickers are distinct gives a result whose tickers are distinct. */
  lemma ScreenDistinct(table: seq<Row>, c: Criteria)
    requires forall i, j :: 0 <= i < j < |table| ==> table[i].ticker != table[j].ticker
    ensures var r := Screen(table, c);
      forall j, k :: 0 <= j < k < |r| ==> r[j].ticker != r[k].ticker
  {
    ScreenSpec(table, c);
  }

  /** With the wildcard the industry column places no constraint. */
  lemma WildcardIgnoresIndustry(table: seq<Row>, c: Criteria)
    requires c.industry == Wildcard
    ensures forall x :: x in Screen(table, c) <==> x in table && InBounds(x, c)
  {
    ScreenSound(table, c);
    ScreenComplete(table, c);
  }

  /** Any other industry is matched exactly: every returned row has that industry. */
  lemma IndustryMatchedExactly(table: seq<Row>, c: Criteria)
    requires c.industry != Wildcard
    ensures forall x :: x in Screen(table, c) <==> x in table && InBounds(x, c) && x.industry == c.industry
  {
    ScreenSound(table, c);
    ScreenComplete(table, c);
  }

  /** An inverted P/E range admits nothing. */
  lemma InvertedRangeIsEmpty(table: seq<Row>, c: Criteria)
    requires c.peMin > c.peMax
    ensures Screen(table, c) == []
  {
  }

  /**
   * `tight` asks at least as much as `loose`: a higher or equal P/E minimum,
   * EPS minimum and growth minimum, a lower or equal P/E maximum, and the same
   * industry unless `loose` uses the wildcard.
   */
  predicate Narrows(tight: Criteria, loose: Criteria) {
    && tight.peMin >= loose.peMin
    && tight.peMax <= loose.peMax
    && tight.epsMin >= loose.epsMin
    && tight.growthMin >= loose.growthMin
    && (loose.industry == Wildcard || tight.industry == loose.industry)
  }

  /**
   * Monotonicity: tightening any bound never adds a row.  The tighter result
   * keeps a subset of the looser one's table positions.
   */
  lemma NarrowingKeepsSubset(table: seq<Row>, tight: Criteria, loose: Criteria)
    requires Narrows(tight, loose)
    ensures forall i :: i in Positions(PassMask(table, tight)) ==> i in Positions(PassMask(table, loose))
  {
  }

  /** The tighter result is the looser result screened again, so it is never longer. */
  lemma NarrowingIsRescreen(table: seq<Row>, tight: Criteria, loose: Criteria)
    requires Narrows(tight, loose)
    ensures Screen(table, tight) == Screen(Screen(table, loose), tight)
    ensures |Screen(table, tight)| <= |Screen(table, loose)|
  {
    var pt, pl := PassMask(table, tight), PassMask(table, loose);
    ScreenIsOneSelection(table, tight);
    ScreenIsOneSelection(table, loose);
    ScreenIsOneSelection(Screen(table, loose), tight);
    PassMaskOfSelect(table, pl, tight);
    SelectSelect(table, pl, pt);
    forall i | 0 <= i < |table|
      ensures And(pl, pt)[i] == pt[i]
    {
      assert Passes(table[i], tight) ==> Passes(table[i], loose);
    }
    assert And(pl, pt) == pt;
  }

  // ---------------------------------------------------------------------------
  // The sample table

  /** With the sidebar's defaults all three rows come back, in table order. */
  lemma DefaultsReturnWholeTable()
    ensures FilterStocks(10.0, 40.0, Wildcard, 0.0, 0.0) == Stocks
  {
  }

  /** Every sample row is "Tech", so "Tech" screens exactly like the wildcard. */
  lemma TechIsWildcardOnSample(peMin: real, peMax: real, epsMin: real, growthMin: real)
    ensures FilterStocks(peMin, peMax, "Tech", epsMin, growthMin) == FilterStocks(peMin, peMax, Wildcard, epsMin, growthMin)
  {
    var tech, any := Criteria(peMin, peMax, "Tech", epsMin, growthMin), Criteria(peMin, peMax, Wildcard, epsMin, growthMin);
    ScreenIsOneSelection(Stocks, tech);
    ScreenIsOneSelection(Stocks, any);
    assert PassMask(Stocks, tech) == PassMask(Stocks, any);
  }

  /** Every sample row is "Tech", so any other industry but the wildcard yields nothing. */
  lemma OtherIndustryEmptyOnSample(peMin: real, peMax: real, industry: string, epsMin: real, growthMin: real)
    requires industry != Wildcard && industry != "Tech"
    ensures FilterStocks(peMin, peMax, industry, epsMin, growthMin) == []
  {
    var c := Criteria(peMin, peMax, industry, epsMin, growthMin);
    ScreenIsOneSelection(Stocks, c);
    assert PassMask(Stocks, c) == [false, false, false];
  }

  /** Both P/E bounds are inclusive: GOOGL, whose P/E is exactly 30, survives a maximum of 30 and a minimum of 30. */
  lemma PeMaximumInclusiveOnSample()
    ensures FilterStocks(10.0, 30.0, Wildcard, 0.0, 0.0) == [Stocks[0], Stocks[2]]
    ensures FilterStocks(30.0, 40.0, Wildcard, 0.0, 0.0) == [Stocks[1], Stocks[2]]
  {
  }

  /**
   * Growth is compared as stored, on the percentage scale: a minimum of 12
   * keeps MSFT (exactly 12) and GOOGL, while a minimum of 0.12, a fraction,
   * keeps every row.
   */
  lemma GrowthOnPercentScaleOnSample()
    ensures FilterStocks(10.0, 40.0, Wildcard, 0.0, 12.0) == [Stocks[1], Stocks[2]]
    ensures FilterStocks(10.0, 40.0, Wildcard, 0.0, 0.12) == Stocks
  {
  }

  /** The sample result never lists a ticker twice. */
  lemma SampleResultDistinct(peMin: real, peMax: real, industry: string, epsMin: real, growthMin: real)
    ensures var r := FilterStocks(peMin, peMax, industry, epsMin, growthMin);
      forall j, k :: 0 <= j < k < |r| ==> r[j].ticker != r[k].ticker
  {
    ScreenDistinct(Stocks, Criteria(peMin, peMax, industry, epsMin, growthMin));
  }
}
