/** The option-selection step of the batch job: for each of DaysAhead days,
    derive the expiry code and the date key, compute the strike window around
    the spot price, keep the BTC call and put options whose symbol ends with
    the expiry code and whose strike lies in the window, and collect their
    symbols into one run-wide set. */
module Selection {
  import opened Wrappers
  import opened Calendar
  import opened Strikes

  const Underlying: string := "BTC"
  const CallOptions: string := "call_options"
  const PutOptions: string := "put_options"
  const DaysAhead: nat := 7
  const ExpiryOffset: nat := 3
  /** 2025-05-25 (UTC). */
  const BaseDate: Date := Date(2025, 5, 25)

  /** A catalog entry as the exchange lists it. `strike` and `volume` may be absent. */
  datatype Product = Product(
    symbol: string,
    underlyingSymbol: string,
    contractType: string,
    strike: Option<int>,
    volume: Option<real>)

  /** One selected option, as handed to the per-day table. */
  datatype OptionRow = OptionRow(
    symbol: string,
    strike: int,
    expiry: string,
    optionType: string,
    volume: real)

  /** What one day hands to `store_options_in_db`: its date key and its rows. */
  datatype DayBatch = DayBatch(dateKey: string, rows: seq<OptionRow>)

  /** Whether s ends with suffix. */
  predicate EndsWith(s: string, suffix: string) {
    |suffix| <= |s| && s[|s| - |suffix|..] == suffix
  }

  // ---- day codes ----

  lemma BaseDateFacts()
    ensures ValidDate(BaseDate)
    ensures DayNumber(BaseDate) == 739396
  {
  }

  /** Day i of the loop: the date i days after BaseDate. */
  function CurrentDate(i: nat): (d: Date)
    requires i < DaysAhead
    ensures ValidDate(d) && DayNumber(d) == DayNumber(BaseDate) + i
  {
    BaseDateFacts();
    AddDays(BaseDate, i).value
  }

  /** The expiry date of day i: ExpiryOffset days after that day. */
  function ExpiryDate(i: nat): (d: Date)
    requires i < DaysAhead
    ensures ValidDate(d) && DayNumber(d) == DayNumber(BaseDate) + i + ExpiryOffset
    ensures Some(d) == AddDays(BaseDate, i + ExpiryOffset)
  {
    BaseDateFacts();
    AddDaysCompose(BaseDate, i, ExpiryOffset);
    AddDays(CurrentDate(i), ExpiryOffset).value
  }

  /** `expiry_str`: the ddmmyy code of the expiry date. */
  function ExpiryStr(i: nat): (s: string)
    requires i < DaysAhead
    ensures |s| == 6 && AllDigits(s)
  {
    ExpiryCode(ExpiryDate(i))
  }

  /** `date_str`: the YYYYMMDD key of the current date. */
  function DateStr(i: nat): (s: string)
    requires i < DaysAhead
    ensures |s| == 8 && AllDigits(s)
  {
    DateKey(CurrentDate(i))
  }

  /** Day `i` is `cur`, and its expiry date is `exp`. */
  lemma DayIs(i: nat, cur: Date, exp: Date)
    requires i < DaysAhead && ValidDate(cur) && ValidDate(exp)
    requires DayNumber(cur) == DayNumber(BaseDate) + i
    requires DayNumber(exp) == DayNumber(cur) + ExpiryOffset
    ensures DateStr(i) == DateKey(cur) && ExpiryStr(i) == ExpiryCode(exp)
  {
    BaseDateFacts();
    AddDaysIs(BaseDate, i, cur);
    AddDaysIs(BaseDate, i + ExpiryOffset, exp);
  }

  /** The codes of the first day: expiry 28 May 2025. */
  lemma FirstDayCodes()
    ensures ExpiryStr(0) == "280525" && DateStr(0) == "20250525"
  {
    FirstDayDates();
    DayIs(0, Date(2025, 5, 25), Date(2025, 5, 28));
    FirstDayStrings();
  }

  /** 2025-05-28 is three days after the base date. */
  lemma FirstDayDates()
    ensures ValidDate(Date(2025, 5, 28))
    ensures DayNumber(Date(2025, 5, 28)) == DayNumber(BaseDate) + ExpiryOffset
  {
    BaseDateFacts();
  }

  /** The codes of the base date and of its expiry date 2025-05-28. */
  lemma FirstDayStrings()
    ensures ExpiryCode(Date(2025, 5, 28)) == "280525" && DateKey(BaseDate) == "20250525"
  {
  }

  /** The codes of the last day: the month has rolled over to June. */
  lemma LastDayCodes()
    ensures ExpiryStr(6) == "030625" && DateStr(6) == "20250531"
  {
    LastDayDates();
    DayIs(6, Date(2025, 5, 31), Date(2025, 6, 3));
    LastDayStrings();
  }

  /** 2025-05-31 is six days after the base date, and 2025-06-03 three days after that. */
  lemma LastDayDates()
    ensures ValidDate(Date(2025, 5, 31)) && ValidDate(Date(2025, 6, 3))
    ensures DayNumber(Date(2025, 5, 31)) == DayNumber(BaseDate) + 6
    ensures DayNumber(Date(2025, 6, 3)) == DayNumber(Date(2025, 5, 31)) + ExpiryOffset
  {
    BaseDateFacts();
  }

  /** The codes of 2025-05-31 and of its expiry date 2025-06-03. */
  lemma LastDayStrings()
    ensures ExpiryCode(Date(2025, 6, 3)) == "030625" && DateKey(Date(2025, 5, 31)) == "20250531"
  {
  }

  /** The expiry code of day `i` denotes the date ExpiryOffset days after day `i`. */
  lemma ExpiryStrDenotes(i: nat)
    requires i < DaysAhead
    ensures ReadExpiryCode(ExpiryStr(i)) ==
              (ExpiryDate(i).day, ExpiryDate(i).month, ExpiryDate(i).year % 100)
    ensures DayNumber(ExpiryDate(i)) == DayNumber(CurrentDate(i)) + ExpiryOffset
  {
    ExpiryCodeRoundTrip(ExpiryDate(i));
  }

  /** The name of the table `store_options_in_db` writes a day's rows to. */
  function TableName(dateKey: string): string {
    "options_" + dateKey
  }

  predicate IsIdentifierChar(c: char) {
    ('a' <= c <= 'z') || IsDigit(c) || c == '_'
  }

  /** Each day writes to its own table, and its name holds only lower-case
      letters, digits and underscores, so interpolating it into SQL is safe. */
  lemma TableNamesSafeAndDistinct(i: nat, j: nat)
    requires i < DaysAhead && j < DaysAhead
    ensures forall k :: 0 <= k < |TableName(DateStr(i))| ==> IsIdentifierChar(TableName(DateStr(i))[k])
    ensures i != j ==> TableName(DateStr(i)) != TableName(DateStr(j))
  {
    var t := TableName(DateStr(i));
    forall k | 0 <= k < |t| ensures IsIdentifierChar(t[k]) {
      if k >= 8 {
        assert t[k] == DateStr(i)[k - 8];
      }
    }
    if i != j && TableName(DateStr(i)) == TableName(DateStr(j)) {
      assert DateStr(i) == TableName(DateStr(i))[8..];
      assert DateStr(j) == TableName(DateStr(j))[8..];
      DateKeyInjective(CurrentDate(i), CurrentDate(j));
      assert false;
    }
  }

  // ---- product filter ----

  /** A product passes every test of the filter loop for this expiry code and window. */
  predicate Qualifies(p: Product, expiry: string, window: set<int>) {
    && p.underlyingSymbol == Underlying
    && (p.contractType == PutOptions || p.contractType == CallOptions)
    && EndsWith(p.symbol, expiry)
    && p.strike.Some?
    && p.strike.value in window
  }

  function OptionTypeOf(contractType: string): string {
    if contractType == CallOptions then "call" else "put"
  }

  /** The row a qualifying product yields; the volume defaults to 0.0. */
  function RowOf(p: Product, expiry: string): OptionRow
    requires p.strike.Some?
  {
    OptionRow(p.symbol, p.strike.value, expiry, OptionTypeOf(p.contractType), p.volume.GetOr(0.0))
  }

  /** The rows `collected` holds after the loop over the catalog, in catalog order. */
  function Collected(products: seq<Product>, expiry: string, window: set<int>): seq<OptionRow> {
    if products == [] then []
    else
      (if Qualifies(products[0], expiry, window) then [RowOf(products[0], expiry)] else [])
        + Collected(products[1..], expiry, window)
  }

  /** Filtering a concatenated catalog is concatenating the filtered parts: rows keep catalog order. */
  lemma {:induction false} CollectedConcat(a: seq<Product>, b: seq<Product>, expiry: string, window: set<int>)
    ensures Collected(a + b, expiry, window) == Collected(a, expiry, window) + Collected(b, expiry, window)
  {
    if a == [] {
      assert a + b == b;
    } else {
      var ab := a + b;
      assert ab != [] && ab[0] == a[0] && ab[1..] == a[1..] + b;
      var head := if Qualifies(a[0], expiry, window) then [RowOf(a[0], expiry)] else [];
      assert Collected(ab, expiry, window) == head + Collected(ab[1..], expiry, window);
      assert Collected(a, expiry, window) == head + Collected(a[1..], expiry, window);
      CollectedConcat(a[1..], b, expiry, window);
    }
  }

  /** The product at position k contributes exactly one row when it qualifies and none
      otherwise, between the rows of the products before and after it. */
  lemma CollectedAt(products: seq<Product>, k: nat, expiry: string, window: set<int>)
    requires k < |products|
    ensures Collected(products, expiry, window) ==
              Collected(products[..k], expiry, window)
              + (if Qualifies(products[k], expiry, window) then [RowOf(products[k], expiry)] else [])
              + Collected(products[k + 1..], expiry, window)
  {
    assert products == products[..k] + ([products[k]] + products[k + 1..]);
    CollectedConcat(products[..k], [products[k]] + products[k + 1..], expiry, window);
    CollectedConcat([products[k]], products[k + 1..], expiry, window);
    assert Collected([products[k]], expiry, window) ==
             (if Qualifies(products[k], expiry, window) then [RowOf(products[k], expiry)] else []);
  }

  /** The rows after one more product of the loop. */
  lemma CollectedSnoc(products: seq<Product>, k: nat, expiry: string, window: set<int>)
    requires k < |products|
    ensures Collected(products[..k + 1], expiry, window) ==
              Collected(products[..k], expiry, window)
              + (if Qualifies(products[k], expiry, window) then [RowOf(products[k], expiry)] else [])
  {
    assert products[..k + 1] == products[..k] + [products[k]];
    CollectedConcat(products[..k], [products[k]], expiry, window);
    assert Collected([products[k]], expiry, window) ==
             (if Qualifies(products[k], expiry, window) then [RowOf(products[k], expiry)] else []);
  }

  /** Every row comes from a qualifying BTC put or call of the catalog: its symbol ends
      with the expiry code, its strike is present and in the window, its expiry is the
      code, and its option type is "call" exactly for call_options and "put" otherwise. */
  lemma {:induction false} CollectedSound(products: seq<Product>, expiry: string, window: set<int>, r: OptionRow)
    requires r in Collected(products, expiry, window)
    ensures exists p :: p in products && Qualifies(p, expiry, window) && RowOf(p, expiry) == r
    ensures r.expiry == expiry && EndsWith(r.symbol, expiry) && r.strike in window
    ensures r.optionType == "call" || r.optionType == "put"
    ensures exists p :: p in products && p.underlyingSymbol == Underlying && p.symbol == r.symbol
                          && p.strike == Some(r.strike)
                          && (r.optionType == "call" <==> p.contractType == CallOptions)
                          && (r.optionType == "put" <==> p.contractType == PutOptions)
  {
    var p0 := products[0];
    if Qualifies(p0, expiry, window) && r == RowOf(p0, expiry) {
      assert p0 in products;
    } else {
      assert r in Collected(products[1..], expiry, window);
      CollectedSound(products[1..], expiry, window, r);
      var p :| p in products[1..] && Qualifies(p, expiry, window) && RowOf(p, expiry) == r;
      assert p in products;
    }
  }

  /** Every qualifying product of the catalog yields its row; a product without a
      strike is skipped rather than failing. */
  lemma {:induction false} CollectedComplete(products: seq<Product>, expiry: string, window: set<int>, p: Product)
    requires p in products
    ensures Qualifies(p, expiry, window) ==> RowOf(p, expiry) in Collected(products, expiry, window)
    ensures p.strike.None? ==> !Qualifies(p, expiry, window)
  {
    if products[0] != p {
      CollectedComplete(products[1..], expiry, window, p);
    }
  }

  /** Symbols of a list of rows. */
  function SymbolsOf(rows: seq<OptionRow>): set<string> {
    set r | r in rows :: r.symbol
  }

  lemma SymbolsOfSnoc(rows: seq<OptionRow>, r: OptionRow)
    ensures SymbolsOf(rows + [r]) == SymbolsOf(rows) + {r.symbol}
  {
    assert r in rows + [r];
    forall x | x in rows ensures x in rows + [r] { }
  }

  /** The two codes of one day: the key of its table and its expiry code. */
  datatype DayCode = DayCode(dateKey: string, expiry: string)

  /** The codes of every day of the loop, in day order. */
  function DayCodes(): seq<DayCode> {
    seq(DaysAhead, i requires 0 <= i < DaysAhead => DayCode(DateStr(i), ExpiryStr(i)))
  }

  /** The batch of one day: its key and the rows selected with its expiry code. */
  function BatchOf(code: DayCode, window: set<int>, products: seq<Product>): DayBatch {
    DayBatch(code.dateKey, Collected(products, code.expiry, window))
  }

  /** The batches of the given days, in day order. */
  function BatchesFor(codes: seq<DayCode>, window: set<int>, products: seq<Product>): (bs: seq<DayBatch>)
    ensures |bs| == |codes|
    decreases |codes|
  {
    if codes == [] then []
    else BatchesFor(codes[..|codes| - 1], window, products) + [BatchOf(codes[|codes| - 1], window, products)]
  }

  /** One batch per day, position by position. */
  lemma {:induction false} BatchesForAt(codes: seq<DayCode>, window: set<int>, products: seq<Product>)
    ensures |BatchesFor(codes, window, products)| == |codes|
    ensures forall i :: 0 <= i < |codes| ==>
              BatchesFor(codes, window, products)[i] == BatchOf(codes[i], window, products)
    decreases |codes|
  {
    if codes != [] {
      var init := codes[..|codes| - 1];
      BatchesForAt(init, window, products);
      assert forall i :: 0 <= i < |init| ==> init[i] == codes[i];
    }
  }

  lemma DayCodeAt(i: nat)
    requires i < DaysAhead
    ensures |DayCodes()| == DaysAhead
    ensures DayCodes()[i] == DayCode(DateStr(i), ExpiryStr(i))
  {
  }

  /** One more day adds its batch at the end. */
  lemma BatchesForSnoc(codes: seq<DayCode>, i: nat, window: set<int>, products: seq<Product>)
    requires i < |codes|
    ensures BatchesFor(codes[..i + 1], window, products)
              == BatchesFor(codes[..i], window, products) + [BatchOf(codes[i], window, products)]
  {
    assert codes[..i + 1][..i] == codes[..i];
  }

  lemma TakeAll(codes: seq<DayCode>)
    ensures codes[..|codes|] == codes
  {
  }

  /** The batches of all DaysAhead days at this spot price. */
  function DayBatches(spot: real, products: seq<Product>): seq<DayBatch> {
    BatchesFor(DayCodes(), StrikeRange(spot), products)
  }

  /** Day i's batch holds its date key and the rows selected with its expiry code. */
  lemma DayBatchesAt(spot: real, products: seq<Product>, i: nat)
    requires i < DaysAhead
    ensures |DayBatches(spot, products)| == DaysAhead
    ensures DayBatches(spot, products)[i] ==
              DayBatch(DateStr(i), Collected(products, ExpiryStr(i), StrikeRange(spot)))
  {
    BatchesForAt(DayCodes(), StrikeRange(spot), products);
    DayCodeAt(i);
  }

  /** The union of the symbols of every batch. */
  function SymbolsOfBatches(bs: seq<DayBatch>): set<string>
    decreases |bs|
  {
    if bs == [] then {} else SymbolsOfBatches(bs[..|bs| - 1]) + SymbolsOf(bs[|bs| - 1].rows)
  }

  /** A symbol is in the union exactly when some row of some batch carries it. */
  lemma {:induction false} SymbolsOfBatchesMembers(bs: seq<DayBatch>, s: string)
    ensures s in SymbolsOfBatches(bs) <==>
              exists i, r :: 0 <= i < |bs| && r in bs[i].rows && r.symbol == s
    decreases |bs|
  {
    if bs != [] {
      var init := bs[..|bs| - 1];
      SymbolsOfBatchesMembers(init, s);
      if s in SymbolsOfBatches(bs) {
        if s in SymbolsOfBatches(init) {
          var i, r :| 0 <= i < |init| && r in init[i].rows && r.symbol == s;
          assert bs[i] == init[i];
        } else {
          var r :| r in bs[|bs| - 1].rows && r.symbol == s;
        }
      }
      if exists i, r :: 0 <= i < |bs| && r in bs[i].rows && r.symbol == s {
        var i, r :| 0 <= i < |bs| && r in bs[i].rows && r.symbol == s;
        if i < |init| {
          assert init[i] == bs[i];
        }
      }
    }
  }

  /** A symbol of some day's batch is the symbol of a product that qualifies on that day. */
  lemma BatchSymbolQualifies(codes: seq<DayCode>, window: set<int>, products: seq<Product>, s: string)
    requires exists i, r :: 0 <= i < |codes| && r in BatchesFor(codes, window, products)[i].rows && r.symbol == s
    ensures exists i, p :: 0 <= i < |codes| && p in products
                           && Qualifies(p, codes[i].expiry, window) && p.symbol == s
  {
    var bs := BatchesFor(codes, window, products);
    BatchesForAt(codes, window, products);
    var i, r :| 0 <= i < |codes| && r in bs[i].rows && r.symbol == s;
    CollectedSound(products, codes[i].expiry, window, r);
    var p :| p in products && Qualifies(p, codes[i].expiry, window) && RowOf(p, codes[i].expiry) == r;
  }

  /** A product that qualifies on some day has its symbol in that day's batch. */
  lemma QualifyingSymbolInBatch(codes: seq<DayCode>, window: set<int>, products: seq<Product>, i: nat, p: Product)
    requires i < |codes| && p in products
    requires Qualifies(p, codes[i].expiry, window)
    ensures exists r :: r in BatchesFor(codes, window, products)[i].rows && r.symbol == p.symbol
  {
    BatchesForAt(codes, window, products);
    CollectedComplete(products, codes[i].expiry, window, p);
    assert RowOf(p, codes[i].expiry) in BatchesFor(codes, window, products)[i].rows;
  }

  /** The symbols of the batches are exactly those of the products that qualify on some day. */
  lemma {:induction false} BatchSymbolsExactly(codes: seq<DayCode>, window: set<int>, products: seq<Product>, s: string)
    ensures s in SymbolsOfBatches(BatchesFor(codes, window, products)) <==>
              exists i, p :: 0 <= i < |codes| && p in products
                             && Qualifies(p, codes[i].expiry, window) && p.symbol == s
  {
    var bs := BatchesFor(codes, window, products);
    BatchesForAt(codes, window, products);
    SymbolsOfBatchesMembers(bs, s);
    if s in SymbolsOfBatches(bs) {
      BatchSymbolQualifies(codes, window, products, s);
    }
    if exists i, p :: 0 <= i < |codes| && p in products
                      && Qualifies(p, codes[i].expiry, window) && p.symbol == s {
      var i, p :| 0 <= i < |codes| && p in products && Qualifies(p, codes[i].expiry, window) && p.symbol == s;
      QualifyingSymbolInBatch(codes, window, products, i, p);
    }
  }

  /** A product qualifying with the code of position i of DayCodes() qualifies on day i. */
  lemma CodeQualifiesOnDay(spot: real, products: seq<Product>, s: string)
    requires exists i, p :: 0 <= i < |DayCodes()| && p in products
                            && Qualifies(p, DayCodes()[i].expiry, StrikeRange(spot)) && p.symbol == s
    ensures exists i: nat, p :: i < DaysAhead && p in products
                                && Qualifies(p, ExpiryStr(i), StrikeRange(spot)) && p.symbol == s
  {
    var i, p :| 0 <= i < |DayCodes()| && p in products
                && Qualifies(p, DayCodes()[i].expiry, StrikeRange(spot)) && p.symbol == s;
    DayCodeAt(i);
  }

  /** A product qualifying on day i qualifies with the code of position i of DayCodes(). */
  lemma DayQualifiesWithCode(spot: real, products: seq<Product>, s: string)
    requires exists i: nat, p :: i < DaysAhead && p in products
                                 && Qualifies(p, ExpiryStr(i), StrikeRange(spot)) && p.symbol == s
    ensures exists i, p :: 0 <= i < |DayCodes()| && p in products
                           && Qualifies(p, DayCodes()[i].expiry, StrikeRange(spot)) && p.symbol == s
  {
    var i: nat, p :| i < DaysAhead && p in products
                     && Qualifies(p, ExpiryStr(i), StrikeRange(spot)) && p.symbol == s;
    DayCodeAt(i);
  }

  /** Qualifying with some code of DayCodes() is qualifying on some day. */
  lemma QualifiesWithCodeIffOnDay(spot: real, products: seq<Product>, s: string)
    ensures (exists i, p :: 0 <= i < |DayCodes()| && p in products
                            && Qualifies(p, DayCodes()[i].expiry, StrikeRange(spot)) && p.symbol == s)
            <==> (exists i: nat, p :: i < DaysAhead && p in products
                                      && Qualifies(p, ExpiryStr(i), StrikeRange(spot)) && p.symbol == s)
  {
    if exists i, p :: 0 <= i < |DayCodes()| && p in products
                      && Qualifies(p, DayCodes()[i].expiry, StrikeRange(spot)) && p.symbol == s {
      CodeQualifiesOnDay(spot, products, s);
    }
    if exists i: nat, p :: i < DaysAhead && p in products
                           && Qualifies(p, ExpiryStr(i), StrikeRange(spot)) && p.symbol == s {
      DayQualifiesWithCode(spot, products, s);
    }
  }

  /** `all_expiring_symbols` after the day loop holds exactly the symbols of the
      products that qualify on some day: nothing else is ever added. */
  lemma RunSymbolsExactly(spot: real, products: seq<Product>, s: string)
    ensures s in SymbolsOfBatches(DayBatches(spot, products)) <==>
              exists i: nat, p :: i < DaysAhead && p in products
                                  && Qualifies(p, ExpiryStr(i), StrikeRange(spot)) && p.symbol == s
  {
    BatchSymbolsExactly(DayCodes(), StrikeRange(spot), products, s);
    QualifiesWithCodeIffOnDay(spot, products, s);
  }

  /** Every selected strike is a multiple of StrikeStep within StrikeSpread (rounded
      down to the step) of the spot price; a product whose strike is outside is never
      selected. */
  lemma SelectedStrikesInWindow(spot: real, products: seq<Product>, i: nat, r: OptionRow)
    requires i < DaysAhead && |DayBatches(spot, products)| == DaysAhead
    requires r in DayBatches(spot, products)[i].rows
    ensures r.strike % StrikeStep == 0
    ensures Lower(spot) <= r.strike <= Upper(spot)
    ensures r.expiry == ExpiryStr(i)
  {
    DayBatchesAt(spot, products, i);
    CollectedSound(products, ExpiryStr(i), StrikeRange(spot), r);
    InStrikeRange(spot, r.strike);
  }

  // ---- the loops ----

  /** One iteration of the day loop: the codes, the window and the inner loop over
      the catalog, adding the symbol of every row to the run-wide set. */
  method SelectDay(i: nat, spot: real, products: seq<Product>, symbolsIn: set<string>)
    returns (batch: DayBatch, symbols: set<string>)
    requires i < DaysAhead
    ensures batch == DayBatch(DateStr(i), Collected(products, ExpiryStr(i), StrikeRange(spot)))
    ensures symbols == symbolsIn + SymbolsOf(batch.rows)
  {
    var expiryStr := ExpiryStr(i);
    var dateStr := DateStr(i);
    var strikeRange := StrikeRange(spot);
    var collected: seq<OptionRow> := [];
    symbols := symbolsIn;
    for k := 0 to |products|
      invariant collected == Collected(products[..k], expiryStr, strikeRange)
      invariant symbols == symbolsIn + SymbolsOf(collected)
    {
      CollectedSnoc(products, k, expiryStr, strikeRange);
      var product := products[k];
      if product.underlyingSymbol != Underlying {
        continue;
      }
      if product.contractType != PutOptions && product.contractType != CallOptions {
        continue;
      }
      var symbol := product.symbol;
      if !EndsWith(symbol, expiryStr) {
        continue;
      }
      if product.strike.None? || product.strike.value !in strikeRange {
        continue;
      }
      var volume := product.volume.GetOr(0.0);
      var optionType := if product.contractType == CallOptions then "call" else "put";
      var row := OptionRow(symbol, product.strike.value, expiryStr, optionType, volume);
      SymbolsOfSnoc(collected, row);
      collected := collected + [row];
      symbols := symbols + {symbol};
    }
    assert products[..|products|] == products;
    batch := DayBatch(dateStr, collected);
  }

  /** The day loop: every day's batch, and the run-wide symbol set. */
  method SelectOptions(spot: real, products: seq<Product>)
    returns (batches: seq<DayBatch>, allExpiringSymbols: set<string>)
    ensures batches == DayBatches(spot, products)
    ensures allExpiringSymbols == SymbolsOfBatches(batches)
  {
    ghost var codes, window := DayCodes(), StrikeRange(spot);
    batches := [];
    allExpiringSymbols := {};
    for i := 0 to DaysAhead
      invariant batches == BatchesFor(codes[..i], window, products)
      invariant allExpiringSymbols == SymbolsOfBatches(batches)
    {
      var batch;
      batch, allExpiringSymbols := SelectDay(i, spot, products, allExpiringSymbols);
      DayCodeAt(i);
      BatchesForSnoc(codes, i, window, products);
      var next := batches + [batch];
      assert next[..i] == batches;
      batches := next;
    }
    TakeAll(codes);
  }

  // ---- worked example ----

  /** At spot 70000 on the first day, the call "C-BTC-280525" with strike 85000 is
      selected as a "call"; the same option at strike 85050 and one without a strike
      are not. */
  lemma FirstDayExample(v: Option<real>)
    ensures Collected([Product("C-BTC-280525", "BTC", "call_options", Some(85000), v)],
                      ExpiryStr(0), StrikeRange(70000.0))
            == [OptionRow("C-BTC-280525", 85000, "280525", "call", v.GetOr(0.0))]
    ensures Collected([Product("C-BTC-280525", "BTC", "call_options", Some(85050), v),
                       Product("P-BTC-280525", "BTC", "put_options", None, v)],
                      ExpiryStr(0), StrikeRange(70000.0)) == []
  {
    FirstDayCodes();
    Spot70000Window();
    var call := Product("C-BTC-280525", "BTC", "call_options", Some(85000), v);
    assert "C-BTC-280525"[6..] == "280525";
    assert Qualifies(call, "280525", StrikeRange(70000.0));
    var ps := [Product("C-BTC-280525", "BTC", "call_options", Some(85050), v),
               Product("P-BTC-280525", "BTC", "put_options", None, v)];
    assert ps[1..][1..] == [];
  }
}
