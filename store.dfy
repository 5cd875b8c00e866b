/** The candle store and the webhook ingestion that fills it.
    A row arrives already split into its fields: the decoding of the request
    body and the CSV splitting happen outside this model. */
module Store {
  import opened Candles
  import opened Window

  type Symbol = string
  type Row = seq<string>
  type Buffers = map<Symbol, seq<Candle>>

  /** SYMBOL, TIME, OPEN, HIGH, LOW, CLOSE, VOLUME. */
  const FieldCount: nat := 7

  /** What a webhook request reports: success, a row of the wrong shape
      (status 400), or a numeric field that does not convert (status 500). */
  datatype Outcome = Ok | InvalidFormat | ParseError

  /** Every buffer respects the deque's maximum length. */
  predicate Bounded(m: Buffers) {
    forall s :: s in m ==> |m[s]| <= Capacity
  }

  /** A read that does not create the entry: an unknown symbol reads as empty. */
  function Lookup(m: Buffers, s: Symbol): (r: seq<Candle>)
    ensures Bounded(m) ==> |r| <= Capacity
    ensures s !in m ==> r == []
  {
    if s in m then m[s] else []
  }

  /** Indexing the store with a default factory: an absent symbol gains an
      empty buffer, a present one is left as it is. */
  function Touched(m: Buffers, s: Symbol): (r: Buffers)
    ensures r.Keys == m.Keys + {s}
    ensures forall t :: Lookup(r, t) == Lookup(m, t)
  {
    if s in m then m else m[s := []]
  }

  /** A row that is applied: seven fields, and every numeric field converts. */
  predicate Applies(row: Row, parse: string -> Option<Num>) {
    |row| == FieldCount && forall j :: 2 <= j < FieldCount ==> parse(row[j]).Some?
  }

  predicate AllApply(rows: seq<Row>, parse: string -> Option<Num>) {
    forall j :: 0 <= j < |rows| ==> Applies(rows[j], parse)
  }

  /** The candle a row that applies becomes: the time field kept as text, the
      other fields converted in the order OPEN, HIGH, LOW, CLOSE, VOLUME. */
  function CandleOf(row: Row, parse: string -> Option<Num>): (c: Candle)
    requires Applies(row, parse)
    ensures ParseCandle(row, parse) == Some(c)
  {
    Candle(row[1], parse(row[2]).value, parse(row[3]).value, parse(row[4]).value,
           parse(row[5]).value, parse(row[6]).value)
  }

  /** Converting the five numeric fields of a row of the right shape, one
      after the other; the conversion fails as soon as one field fails. */
  function ParseCandle(row: Row, parse: string -> Option<Num>): (r: Option<Candle>)
    requires |row| == FieldCount
    ensures r.Some? <==> Applies(row, parse)
    ensures r.Some? ==>
      r.value.time == row[1] && r.value.open == parse(row[2]).value &&
      r.value.high == parse(row[3]).value && r.value.low == parse(row[4]).value &&
      r.value.close == parse(row[5]).value && r.value.volume == parse(row[6]).value
  {
    match (parse(row[2]), parse(row[3]), parse(row[4]), parse(row[5]), parse(row[6]))
    case (Some(o), Some(h), Some(l), Some(c), Some(v)) => Some(Candle(row[1], o, h, l, c, v))
    case _ => None
  }

  /** The symbols named by the rows (the first field of every non-empty row). */
  function SymbolsOf(rows: seq<Row>): set<Symbol>
    decreases |rows|
  {
    if rows == [] then {}
    else
      var last := rows[|rows| - 1];
      SymbolsOf(rows[..|rows| - 1]) + (if |last| > 0 then {last[0]} else {})
  }

  /** Applying one row: its candle is appended to its symbol's buffer, which
      is created first when the symbol is new; no other buffer changes. */
  function Step(m: Buffers, row: Row, parse: string -> Option<Num>): (r: Buffers)
    requires Bounded(m) && Applies(row, parse)
    ensures Bounded(r)
  {
    m[row[0] := Pushed(Lookup(m, row[0]), CandleOf(row, parse))]
  }

  /** Creating the entry first and then appending to it is one `Step`. */
  lemma TouchThenPush(m: Buffers, row: Row, parse: string -> Option<Num>)
    requires Bounded(m) && Applies(row, parse)
    ensures var t := Touched(m, row[0]);
      row[0] in t && |t[row[0]]| <= Capacity &&
      t[row[0] := Pushed(t[row[0]], CandleOf(row, parse))] == Step(m, row, parse)
  {
  }

  /** One applied row adds only its own symbol, appends its candle to that
      symbol's buffer (evicting the oldest when full), and leaves every other
      buffer as it was. */
  lemma StepEffect(m: Buffers, row: Row, parse: string -> Option<Num>)
    requires Bounded(m) && Applies(row, parse)
    ensures var r := Step(m, row, parse);
      && r.Keys == m.Keys + {row[0]}
      && Lookup(r, row[0]) == Last(Lookup(m, row[0]) + [CandleOf(row, parse)], Capacity)
      && (forall s :: s != row[0] ==> Lookup(r, s) == Lookup(m, s))
  {
  }

  /** Applying rows that all apply, in order. */
  function ApplyAll(m: Buffers, rows: seq<Row>, parse: string -> Option<Num>): (r: Buffers)
    requires Bounded(m) && AllApply(rows, parse)
    ensures Bounded(r)
    decreases |rows|
  {
    if rows == [] then m
    else Step(ApplyAll(m, rows[..|rows| - 1], parse), rows[|rows| - 1], parse)
  }

  /** The candles, in row order, that rows that all apply give one symbol. */
  function CandlesFor(rows: seq<Row>, s: Symbol, parse: string -> Option<Num>): seq<Candle>
    requires AllApply(rows, parse)
    decreases |rows|
  {
    if rows == [] then []
    else
      var last := rows[|rows| - 1];
      CandlesFor(rows[..|rows| - 1], s, parse) + (if last[0] == s then [CandleOf(last, parse)] else [])
  }

  /** The position of the first row that does not apply, or the number of rows
      when they all apply. */
  function FirstFailure(rows: seq<Row>, parse: string -> Option<Num>): (k: nat)
    ensures k <= |rows|
    ensures forall j :: 0 <= j < k ==> Applies(rows[j], parse)
    ensures k < |rows| ==> !Applies(rows[k], parse)
    decreases |rows|
  {
    if rows == [] || !Applies(rows[0], parse) then 0 else 1 + FirstFailure(rows[1..], parse)
  }

  /** The outcome of a webhook request and the store it leaves: the rows before
      the first failing row stay applied; a row of the wrong shape touches
      nothing; a row of the right shape whose numbers do not convert leaves
      its symbol's entry created but gains no candle. */
  function Ingested(m: Buffers, rows: seq<Row>, parse: string -> Option<Num>): (r: (Outcome, Buffers))
    requires Bounded(m)
    ensures Bounded(r.1)
    ensures r.0 == Ok <==> AllApply(rows, parse)
  {
    var k := FirstFailure(rows, parse);
    if k == |rows| then (Ok, ApplyAll(m, rows, parse))
    else
      var before := ApplyAll(m, rows[..k], parse);
      if |rows[k]| != FieldCount then (InvalidFormat, before)
      else (ParseError, Touched(before, rows[k][0]))
  }

  /** The request handler's loop written as the row-by-row recursion it runs:
      a wrong-shaped row returns at once; otherwise the symbol's entry is
      created, the numbers are converted, and the candle is appended. */
  function RunRows(m: Buffers, rows: seq<Row>, parse: string -> Option<Num>): (r: (Outcome, Buffers))
    requires Bounded(m)
    ensures Bounded(r.1)
    ensures r.0 == Ok <==> AllApply(rows, parse)
    decreases |rows|
  {
    if rows == [] then (Ok, m)
    else
      var row := rows[0];
      if |row| != FieldCount then (InvalidFormat, m)
      else
        var t := Touched(m, row[0]);
        match ParseCandle(row, parse)
        case None => (ParseError, t)
        case Some(c) => RunRows(t[row[0] := Pushed(t[row[0]], c)], rows[1..], parse)
  }

  // ---------------------------------------------------------------- lemmas

  /** Applying a first row and then the rest is applying all of them. */
  lemma {:induction false} ApplyAllCons(m: Buffers, row: Row, rest: seq<Row>, parse: string -> Option<Num>)
    requires Bounded(m) && Applies(row, parse) && AllApply(rest, parse)
    ensures AllApply([row] + rest, parse)
    ensures ApplyAll(m, [row] + rest, parse) == ApplyAll(Step(m, row, parse), rest, parse)
    decreases |rest|
  {
    var rows := [row] + rest;
    assert forall j :: 0 <= j < |rows| ==> rows[j] == if j == 0 then row else rest[j - 1];
    if rest == [] {
      assert rows[..0] == [];
    } else {
      var init := rest[..|rest| - 1];
      assert rows[..|rows| - 1] == [row] + init;
      assert rows[|rows| - 1] == rest[|rest| - 1];
      ApplyAllCons(m, row, init, parse);
    }
  }

  /** A request whose first row applies is that row's step followed by the
      request made of the remaining rows. */
  lemma IngestedCons(m: Buffers, rows: seq<Row>, parse: string -> Option<Num>)
    requires Bounded(m) && rows != [] && Applies(rows[0], parse)
    ensures Ingested(m, rows, parse) == Ingested(Step(m, rows[0], parse), rows[1..], parse)
  {
    var row, rest := rows[0], rows[1..];
    var k := FirstFailure(rows, parse);
    assert k == 1 + FirstFailure(rest, parse);
    assert rows == [row] + rest;
    if k == |rows| {
      ApplyAllCons(m, row, rest, parse);
    } else {
      assert rows[..k] == [row] + rest[..k - 1];
      assert rows[k] == rest[k - 1];
      ApplyAllCons(m, row, rest[..k - 1], parse);
    }
  }

  /** The recursion that mirrors the handler's loop computes exactly the
      outcome and store that `Ingested` describes. */
  lemma {:induction false} RunRowsIsIngested(m: Buffers, rows: seq<Row>, parse: string -> Option<Num>)
    requires Bounded(m)
    ensures RunRows(m, rows, parse) == Ingested(m, rows, parse)
    decreases |rows|
  {
    if rows == [] {
    } else if Applies(rows[0], parse) {
      TouchThenPush(m, rows[0], parse);
      RunRowsIsIngested(Step(m, rows[0], parse), rows[1..], parse);
      IngestedCons(m, rows, parse);
    } else {
      assert FirstFailure(rows, parse) == 0;
      assert rows[..0] == [];
    }
  }

  /** After rows that all apply, each symbol's buffer holds the last
      `Capacity` candles of its old contents followed by the candles of the
      rows naming it, in row order. */
  lemma {:induction false} ApplyAllPerSymbol(m: Buffers, rows: seq<Row>, s: Symbol, parse: string -> Option<Num>)
    requires Bounded(m) && AllApply(rows, parse)
    ensures Lookup(ApplyAll(m, rows, parse), s) == Last(Lookup(m, s) + CandlesFor(rows, s, parse), Capacity)
    decreases |rows|
  {
    if rows == [] {
      assert Lookup(m, s) + [] == Lookup(m, s);
    } else {
      var init, last := rows[..|rows| - 1], rows[|rows| - 1];
      assert AllApply(init, parse) && Applies(last, parse);
      var added := if last[0] == s then [CandleOf(last, parse)] else [];
      var prev := Lookup(m, s) + CandlesFor(init, s, parse);
      var before := ApplyAll(m, init, parse);
      calc {
        Lookup(ApplyAll(m, rows, parse), s);
        Lookup(Step(before, last, parse), s);
        { ApplyAllPerSymbol(m, init, s, parse);
          StepPerSymbol(before, last, s, prev, parse); }
        Last(prev + added, Capacity);
        { assert CandlesFor(rows, s, parse) == CandlesFor(init, s, parse) + added; }
        Last(Lookup(m, s) + CandlesFor(rows, s, parse), Capacity);
      }
    }
  }

  /** The effect of one applied row on one symbol's buffer, whatever history
      `prev` that buffer is the last `Capacity` candles of. */
  lemma StepPerSymbol(m: Buffers, row: Row, s: Symbol, prev: seq<Candle>, parse: string -> Option<Num>)
    requires Bounded(m) && Applies(row, parse) && Lookup(m, s) == Last(prev, Capacity)
    ensures Lookup(Step(m, row, parse), s) ==
      Last(prev + (if row[0] == s then [CandleOf(row, parse)] else []), Capacity)
  {
    StepEffect(m, row, parse);
    if row[0] == s {
      LastAppend(prev, [CandleOf(row, parse)], Capacity);
    } else {
      assert prev + [] == prev;
    }
  }

  /** Rows that all apply add exactly the symbols they name to the store. */
  lemma {:induction false} ApplyAllKeys(m: Buffers, rows: seq<Row>, parse: string -> Option<Num>)
    requires Bounded(m) && AllApply(rows, parse)
    ensures ApplyAll(m, rows, parse).Keys == m.Keys + SymbolsOf(rows)
    decreases |rows|
  {
    if rows != [] {
      var init, last := rows[..|rows| - 1], rows[|rows| - 1];
      ApplyAllKeys(m, init, parse);
      assert |last| > 0 by { assert Applies(rows[|rows| - 1], parse); }
    }
  }

  /** A symbol no row names gets no candles. */
  lemma {:induction false} UnnamedGetsNothing(rows: seq<Row>, s: Symbol, parse: string -> Option<Num>)
    requires AllApply(rows, parse) && s !in SymbolsOf(rows)
    ensures CandlesFor(rows, s, parse) == []
    decreases |rows|
  {
    if rows != [] {
      var init := rows[..|rows| - 1];
      assert Applies(rows[|rows| - 1], parse);
      UnnamedGetsNothing(init, s, parse);
    }
  }

  /** A request whose rows all apply succeeds; every symbol's buffer then holds
      the last `Capacity` of its old candles followed by the candles of the rows
      naming it, in row order; exactly the named symbols are added; and a
      symbol no row names keeps its entry (or its absence) and its contents. */
  lemma IngestAllRows(m: Buffers, rows: seq<Row>, parse: string -> Option<Num>)
    requires Bounded(m) && AllApply(rows, parse)
    ensures Ingested(m, rows, parse) == (Ok, ApplyAll(m, rows, parse))
    ensures var m' := ApplyAll(m, rows, parse);
      m'.Keys == m.Keys + SymbolsOf(rows) &&
      (forall s :: Lookup(m', s) == Last(Lookup(m, s) + CandlesFor(rows, s, parse), Capacity)) &&
      (forall s :: s !in SymbolsOf(rows) ==> (s in m' <==> s in m) && Lookup(m', s) == Lookup(m, s))
  {
    var m' := ApplyAll(m, rows, parse);
    assert FirstFailure(rows, parse) == |rows|;
    ApplyAllKeys(m, rows, parse);
    forall s ensures Lookup(m', s) == Last(Lookup(m, s) + CandlesFor(rows, s, parse), Capacity) {
      ApplyAllPerSymbol(m, rows, s, parse);
    }
    forall s | s !in SymbolsOf(rows) ensures Lookup(m', s) == Lookup(m, s) {
      ApplyAllPerSymbol(m, rows, s, parse);
      UnnamedGetsNothing(rows, s, parse);
      assert Lookup(m, s) + [] == Lookup(m, s);
    }
  }

  /** The first row of the wrong shape ends the request with `InvalidFormat`:
      the rows before it stay applied, it and every later row are not, and it
      adds no entry of its own to the store. */
  lemma IngestStopsAtInvalidFormat(m: Buffers, rows: seq<Row>, k: nat, parse: string -> Option<Num>)
    requires Bounded(m) && k < |rows| && AllApply(rows[..k], parse) && |rows[k]| != FieldCount
    ensures Ingested(m, rows, parse) == (InvalidFormat, ApplyAll(m, rows[..k], parse))
    ensures ApplyAll(m, rows[..k], parse).Keys == m.Keys + SymbolsOf(rows[..k])
  {
    IngestedStopsAt(m, rows, k, parse);
    ApplyAllKeys(m, rows[..k], parse);
  }

  /** A request whose first row has the wrong shape fails and leaves the store
      exactly as it was, even for the symbol that row names. */
  lemma WrongShapeFirstRowChangesNothing(m: Buffers, rows: seq<Row>, parse: string -> Option<Num>)
    requires Bounded(m) && rows != [] && |rows[0]| != FieldCount
    ensures Ingested(m, rows, parse) == (InvalidFormat, m)
  {
    assert rows[..0] == [];
    IngestedStopsAt(m, rows, 0, parse);
  }

  /** The first row of the right shape whose numbers do not convert ends the
      request with `ParseError`: the rows before it stay applied, no candle is
      added for it or any later row, and its symbol may gain an empty entry. */
  lemma IngestStopsAtParseError(m: Buffers, rows: seq<Row>, k: nat, parse: string -> Option<Num>)
    requires Bounded(m) && k < |rows| && AllApply(rows[..k], parse)
    requires |rows[k]| == FieldCount && !Applies(rows[k], parse)
    ensures Ingested(m, rows, parse) == (ParseError, Touched(ApplyAll(m, rows[..k], parse), rows[k][0]))
    ensures var before := ApplyAll(m, rows[..k], parse);
      var m' := Touched(before, rows[k][0]);
      && m'.Keys == m.Keys + SymbolsOf(rows[..k]) + {rows[k][0]}
      && (forall s :: Lookup(m', s) == Lookup(before, s))
  {
    IngestedStopsAt(m, rows, k, parse);
    ApplyAllKeys(m, rows[..k], parse);
  }

  /** Whatever the outcome, the rows before the first failing one stay
      applied: there is no rollback. */
  lemma IngestKeepsAppliedPrefix(m: Buffers, rows: seq<Row>, s: Symbol, parse: string -> Option<Num>)
    requires Bounded(m)
    ensures var k := FirstFailure(rows, parse);
      AllApply(rows[..k], parse) &&
      Lookup(Ingested(m, rows, parse).1, s) == Last(Lookup(m, s) + CandlesFor(rows[..k], s, parse), Capacity)
  {
    var k := FirstFailure(rows, parse);
    assert AllApply(rows[..k], parse) by {
      forall j | 0 <= j < k ensures Applies(rows[..k][j], parse) { assert rows[..k][j] == rows[j]; }
    }
    ApplyAllPerSymbol(m, rows[..k], s, parse);
    if k == |rows| { assert rows[..k] == rows; }
  }

  /** A body that is empty after trimming has no rows: it succeeds and changes
      nothing. */
  lemma EmptyBodyChangesNothing(m: Buffers, parse: string -> Option<Num>)
    requires Bounded(m)
    ensures Ingested(m, [], parse) == (Ok, m)
  {
  }

  /** One good row sent to an empty store reads back as exactly that candle. */
  lemma {:induction false} SingleRowReadsBack(row: Row, parse: string -> Option<Num>)
    requires Applies(row, parse)
    ensures Ingested(map[], [row], parse).0 == Ok
    ensures var m := Ingested(map[], [row], parse).1;
      m.Keys == {row[0]} && Lookup(m, row[0]) == [CandleOf(row, parse)]
  {
    IngestAllRows(map[], [row], parse);
    assert SymbolsOf([row]) == {row[0]} by {
      assert [row][0] == row;
    }
    assert CandlesFor([row], row[0], parse) == [CandleOf(row, parse)] by {
      assert [row][..0] == [];
    }
  }

  // ---------------------------------------------------------------- the store

  /** The process-wide store: one bounded buffer per symbol, created on demand. */
  class CandleStore {
    var buffers: Buffers

    ghost predicate Valid()
      reads this
    {
      Bounded(buffers)
    }

    /** The store starts empty. */
    constructor ()
      ensures Valid() && buffers == map[]
    {
      buffers := map[];
    }

    /** Handling a webhook request whose body has been split into `rows`:
        rows are applied one by one until the first that fails. */
    method ReceiveWebhook(rows: seq<Row>, parse: string -> Option<Num>) returns (r: Outcome)
      requires Valid()
      modifies this
      ensures Valid()
      ensures (r, buffers) == Ingested(old(buffers), rows, parse)
    {
      var i := 0;
      while i < |rows|
        invariant 0 <= i <= |rows|
        invariant Valid()
        invariant AllApply(rows[..i], parse)
        invariant buffers == ApplyAll(old(buffers), rows[..i], parse)
      {
        var stop := AppendRow(rows[i], parse);
        if stop.Some? {
          IngestedStopsAt(old(buffers), rows, i, parse);
          return stop.value;
        }
        ApplyAllSnoc(old(buffers), rows, i, parse);
        i := i + 1;
      }
      assert rows[..i] == rows;
      return Ok;
    }

    /** One pass of the handler's loop: a row of the wrong shape stops with
        `InvalidFormat` and touches nothing; otherwise the symbol's entry is
        created, and either a numeric field fails to convert (stop with
        `ParseError`) or the row's candle is appended. */
    method AppendRow(row: Row, parse: string -> Option<Num>) returns (stop: Option<Outcome>)
      requires Valid()
      modifies this
      ensures Valid()
      ensures stop == None <==> Applies(row, parse)
      ensures stop == None ==> buffers == Step(old(buffers), row, parse)
      ensures stop == Some(InvalidFormat) <==> |row| != FieldCount
      ensures stop == Some(InvalidFormat) ==> buffers == old(buffers)
      ensures stop == Some(ParseError) <==> |row| == FieldCount && !Applies(row, parse)
      ensures stop == Some(ParseError) ==> buffers == Touched(old(buffers), row[0])
    {
      if |row| != FieldCount {
        return Some(InvalidFormat);
      }
      var symbol := row[0];
      // The default factory creates the entry before the numbers are converted.
      if symbol !in buffers {
        buffers := buffers[symbol := []];
      }
      var candle := ParseCandle(row, parse);
      if candle.None? {
        return Some(ParseError);
      }
      TouchThenPush(old(buffers), row, parse);
      buffers := buffers[symbol := Pushed(buffers[symbol], candle.value)];
      return None;
    }

    /** Reading one symbol's candles as a copy in storage order; an unknown
        symbol reads as empty and is not added. */
    method GetCandles(symbol: Symbol) returns (data: seq<Candle>)
      requires Valid()
      ensures data == Lookup(buffers, symbol)
      ensures |data| <= Capacity
      ensures symbol !in buffers ==> data == []
    {
      data := if symbol in buffers then buffers[symbol] else [];
    }
  }

  /** Rows up to `i` that all apply, extended by row `i` when it applies. */
  lemma ApplyAllSnoc(m: Buffers, rows: seq<Row>, i: nat, parse: string -> Option<Num>)
    requires Bounded(m) && i < |rows| && AllApply(rows[..i], parse) && Applies(rows[i], parse)
    ensures AllApply(rows[..i + 1], parse)
    ensures ApplyAll(m, rows[..i + 1], parse) == Step(ApplyAll(m, rows[..i], parse), rows[i], parse)
  {
    var p := rows[..i + 1];
    assert p[..i] == rows[..i];
    assert p[i] == rows[i];
    assert AllApply(p, parse) by {
      forall j | 0 <= j < i + 1 ensures Applies(p[j], parse) {
        if j < i { assert p[j] == rows[..i][j]; }
      }
    }
  }

  /** The outcome and store when row `k` is the first that does not apply. */
  lemma IngestedStopsAt(m: Buffers, rows: seq<Row>, k: nat, parse: string -> Option<Num>)
    requires Bounded(m) && k < |rows| && AllApply(rows[..k], parse) && !Applies(rows[k], parse)
    ensures Ingested(m, rows, parse) ==
      if |rows[k]| != FieldCount then (InvalidFormat, ApplyAll(m, rows[..k], parse))
      else (ParseError, Touched(ApplyAll(m, rows[..k], parse), rows[k][0]))
  {
    FirstFailureAt(rows, k, parse);
  }

  /** When every row before `i` applies and row `i` does not, row `i` is the
      first failing one. */
  lemma FirstFailureAt(rows: seq<Row>, i: nat, parse: string -> Option<Num>)
    requires i < |rows| && AllApply(rows[..i], parse) && !Applies(rows[i], parse)
    ensures FirstFailure(rows, parse) == i
  {
    assert forall j :: 0 <= j < i ==> rows[..i][j] == rows[j];
    assert !Applies(rows[i], parse);
  }
}
