/** The whole batch job once the network, the clock, the database and the
    output file are taken out: select the options day by day, then fetch and
    write the candles of every selected symbol. */
module Pipeline {
  import opened Selection
  import opened Candles
  import opened Strikes

  /** The set as a list: every element of the set exactly once, in an
      order the model leaves open, as Python's set iteration does. */
  method ListOf(s: set<string>) returns (xs: seq<string>)
    ensures |xs| == |s|
    ensures forall x :: x in xs <==> x in s
    ensures forall j, k :: 0 <= j < k < |xs| ==> xs[j] != xs[k]
  {
    xs := [];
    var rest := s;
    while rest != {}
      invariant rest <= s
      invariant forall x :: x in xs <==> x in s && x !in rest
      invariant forall j, k :: 0 <= j < k < |xs| ==> xs[j] != xs[k]
      invariant |xs| + |rest| == |s|
      decreases |rest|
    {
      var x :| x in rest;
      xs := xs + [x];
      rest := rest - {x};
    }
  }

  /** The run: `spot` is the BTCUSDT spot price, `products` the catalog, `endTime`
      the clock reading, `fetch` the exchange's answer to a history request and
      `isoformat` the timestamp formatter. */
  method Run(spot: real, products: seq<Product>, endTime: int,
             fetch: Request -> Response, isoformat: int -> string)
    returns (batches: seq<DayBatch>, allExpiringSymbols: set<string>, symbolList: seq<string>,
             requests: seq<Request>, rows: seq<CandleRow>)
    ensures batches == DayBatches(spot, products)
    ensures allExpiringSymbols == SymbolsOfBatches(batches)
    ensures |symbolList| == |allExpiringSymbols|
    ensures forall x :: x in symbolList <==> x in allExpiringSymbols
    ensures forall j, k :: 0 <= j < k < |symbolList| ==> symbolList[j] != symbolList[k]
    ensures |requests| == |symbolList|
    ensures forall k :: 0 <= k < |symbolList| ==> requests[k] == RequestFor(symbolList[k], endTime)
    ensures rows == CandleRows(symbolList, endTime, fetch, isoformat)
    ensures forall r :: r in rows ==> r.symbol in allExpiringSymbols
  {
    batches, allExpiringSymbols := SelectOptions(spot, products);
    symbolList := ListOf(allExpiringSymbols);
    requests, rows := FetchAndStoreCandles(symbolList, endTime, fetch, isoformat);
    forall r | r in rows ensures r.symbol in allExpiringSymbols {
      CandleRowsTagged(symbolList, endTime, fetch, isoformat, r);
    }
  }

  /** Every candle row belongs to an option that qualified on some day. */
  lemma CandleRowsAreSelectedOptions(spot: real, products: seq<Product>, symbolList: seq<string>,
                                     endTime: int, fetch: Request -> Response,
                                     isoformat: int -> string, r: CandleRow)
    requires forall x :: x in symbolList ==> x in SymbolsOfBatches(DayBatches(spot, products))
    requires r in CandleRows(symbolList, endTime, fetch, isoformat)
    ensures exists i: nat, p :: i < DaysAhead && p in products
                                && Qualifies(p, ExpiryStr(i), StrikeRange(spot)) && p.symbol == r.symbol
  {
    CandleRowsTagged(symbolList, endTime, fetch, isoformat, r);
    RunSymbolsExactly(spot, products, r.symbol);
  }
}
