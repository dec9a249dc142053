/**
 * `process_s3_objects(bucket, keys)` and the batching in `main`.
 *
 * Reading an object from the bucket and guessing its encoding are outside the
 * model: `fetch` says, for each key, what the read and the decode gave. The
 * ids the award insert returns for a batch are a parameter as well.
 */
module Ingest {
  import opened Wrappers
  import PyStr
  import opened AwardData
  import opened Award
  import opened Rows
  import Load

  /** What reading and decoding one object gives. */
  datatype Fetched =
    | NoEncoding          // the detector found no encoding: the key is skipped
    | DecodeFailed        // decoding raised `UnicodeDecodeError`: the key is skipped
    | Decoded(text: string)

  /** The keys the loop skips before reading anything. */
  predicate IsHtml(key: string) {
    PyStr.EndsWith(key, ".html")
  }

  /** Python's `any(record.values())`. */
  predicate AnyTruthy(rec: Record) {
    exists f :: f in rec && Truthy(rec[f])
  }

  /** What `parse_award_file` gives for a decoded text. */
  type Parser = string -> Result<Record, ParseError>

  /** The key is read, decoded and its parse raises. */
  predicate FailsToParse(key: string, fetch: string -> Fetched, parse: Parser) {
    !IsHtml(key) && fetch(key).Decoded? && parse(fetch(key).text).Err?
  }

  /** The key is read, decoded and parsed into `rec`, which has a truthy value. */
  predicate Yields(key: string, fetch: string -> Fetched, parse: Parser, rec: Record) {
    && !IsHtml(key) && fetch(key).Decoded?
    && parse(fetch(key).text) == Ok(rec) && AnyTruthy(rec)
  }

  /**
   * One pass of the loop body: an error that escapes, no record (the key is
   * skipped), or the record appended.
   */
  function Keep(key: string, fetch: string -> Fetched, parse: Parser): (r: Result<Option<Record>, ParseError>)
    ensures r.Err? <==> FailsToParse(key, fetch, parse)
    ensures r.Ok? && r.value.Some? ==> Yields(key, fetch, parse, r.value.value)
    ensures (exists rec :: Yields(key, fetch, parse, rec)) ==> r.Ok? && r.value.Some?
  {
    if IsHtml(key) then Ok(None)
    else
      match fetch(key)
      case NoEncoding => Ok(None)
      case DecodeFailed => Ok(None)
      case Decoded(text) => Kept(parse(text))
  }

  /** A parsed file: its error escapes; its record is kept when one value is truthy. */
  function Kept(parsed: Result<Record, ParseError>): (r: Result<Option<Record>, ParseError>)
    ensures r.Err? <==> parsed.Err?
    ensures r.Ok? && r.value.Some? ==> r.value.value == parsed.value && AnyTruthy(parsed.value)
    ensures parsed.Ok? && AnyTruthy(parsed.value) ==> r == Ok(Some(parsed.value))
  {
    match parsed
    case Err(e) => Err(e)
    case Ok(rec) => if AnyTruthy(rec) then Ok(Some(rec)) else Ok(None)
  }

  /** The records the loop has gathered after `keys`, or the error that stopped it. */
  function Collect(keys: seq<string>, fetch: string -> Fetched, parse: Parser): (r: Result<seq<Record>, ParseError>)
    ensures r.Ok? ==> |r.value| <= |keys|
    ensures r.Ok? ==> forall i :: 0 <= i < |r.value| ==> AnyTruthy(r.value[i])
    decreases |keys|
  {
    if keys == [] then Ok([])
    else
      match Collect(keys[..|keys| - 1], fetch, parse)
      case Err(e) => Err(e)
      case Ok(records) =>
        match Keep(keys[|keys| - 1], fetch, parse)
        case Err(e) => Err(e)
        case Ok(None) => Ok(records)
        case Ok(Some(rec)) => Ok(records + [rec])
  }

  /** Why a batch raised. */
  datatype BatchError =
    | ParseFailed(parse: ParseError)   // `parse_award_file` raised
    | SplitFailed(split: LoadError)    // a line of a record did not split in `load_data_to_rds`

  /** What one call of `process_s3_objects` does. */
  datatype Outcome =
    | Raised(error: BatchError)
    | NothingLoaded            // no record: `load_data_to_rds` is not called
    | Committed(rows: seq<Row>)

  /** A record `parse_award_file` returns can go to the row builder. */
  lemma {:induction false} CollectLoadable(keys: seq<string>, fetch: string -> Fetched)
    requires Collect(keys, fetch, ParseAward).Ok?
    ensures AllLoadable(Collect(keys, fetch, ParseAward).value)
    decreases |keys|
  {
    if keys != [] {
      var i := |keys| - 1;
      var before := Collect(keys[..i], fetch, ParseAward);
      CollectLoadable(keys[..i], fetch);
      CollectStep(keys, i, fetch, ParseAward, before.value);
      assert keys[..i + 1] == keys;
      var kept := Keep(keys[i], fetch, ParseAward);
      if kept.value.Some? {
        Load.ParsedLoadable(fetch(keys[i]).text);
        LoadableAppend(before.value, kept.value.value);
      }
    }
  }

  lemma LoadableAppend(records: seq<Record>, rec: Record)
    requires AllLoadable(records) && Loadable(rec)
    ensures AllLoadable(records + [rec])
  {
    assert forall i :: 0 <= i < |records| ==> (records + [rec])[i] == records[i];
  }

  /** The outcome of the batch `keys`, given the ids its award insert returns. */
  function Process(keys: seq<string>, fetch: string -> Fetched, ids: seq<int>): (o: Outcome)
    ensures o.Raised? && o.error.ParseFailed? <==> Collect(keys, fetch, ParseAward).Err?
    ensures o.NothingLoaded? <==> Collect(keys, fetch, ParseAward) == Ok([])
    ensures Collect(keys, fetch, ParseAward).Ok? ==> AllLoadable(Collect(keys, fetch, ParseAward).value)
    ensures o.Raised? && o.error.SplitFailed? <==>
              && Collect(keys, fetch, ParseAward).Ok? && Collect(keys, fetch, ParseAward).value != []
              && Load.BatchRows(Collect(keys, fetch, ParseAward).value, ids).Err?
    ensures o.Committed? <==>
              && Collect(keys, fetch, ParseAward).Ok? && Collect(keys, fetch, ParseAward).value != []
              && Load.BatchRows(Collect(keys, fetch, ParseAward).value, ids).Ok?
    ensures o.Committed? ==> Load.BatchRows(Collect(keys, fetch, ParseAward).value, ids) == Ok(o.rows)
  {
    match Collect(keys, fetch, ParseAward)
    case Err(e) => Raised(ParseFailed(e))
    case Ok(records) =>
      CollectLoadable(keys, fetch);
      if records == [] then NothingLoaded
      else
        match Load.BatchRows(records, ids)
        case Err(e) => Raised(SplitFailed(e))
        case Ok(rows) => Committed(rows)
  }

  /** Once the loop has raised, the remaining keys change nothing. */
  lemma {:induction false} CollectErrSticks(keys: seq<string>, n: nat, fetch: string -> Fetched, parse: Parser)
    requires n <= |keys|
    requires Collect(keys[..n], fetch, parse).Err?
    ensures Collect(keys, fetch, parse) == Collect(keys[..n], fetch, parse)
    decreases |keys| - n
  {
    if n < |keys| {
      var init := keys[..|keys| - 1];
      assert init[..n] == keys[..n];
      CollectErrSticks(init, n, fetch, parse);
    } else {
      assert keys[..n] == keys;
    }
  }

  /** One more key extends the gathered records by what `Keep` says about it. */
  lemma CollectStep(keys: seq<string>, i: nat, fetch: string -> Fetched, parse: Parser, records: seq<Record>)
    requires i < |keys| && Collect(keys[..i], fetch, parse) == Ok(records)
    ensures Keep(keys[i], fetch, parse).Err? ==> Collect(keys, fetch, parse) == Err(Keep(keys[i], fetch, parse).error)
    ensures Keep(keys[i], fetch, parse) == Ok(None) ==> Collect(keys[..i + 1], fetch, parse) == Ok(records)
    ensures forall rec :: Keep(keys[i], fetch, parse) == Ok(Some(rec)) ==>
              Collect(keys[..i + 1], fetch, parse) == Ok(records + [rec])
  {
    assert keys[..i + 1][..i] == keys[..i];
    if Keep(keys[i], fetch, parse).Err? {
      CollectErrSticks(keys, i + 1, fetch, parse);
    }
  }

  /**
   * The body of the loop of `process_s3_objects` for one key: skip an HTML
   * key, a key with no encoding or one that does not decode; parse the rest
   * and keep the record when one of its values is truthy.
   */
  method KeepKey(key: string, fetch: string -> Fetched) returns (r: Result<Option<Record>, ParseError>)
    ensures r == Keep(key, fetch, ParseAward)
  {
    if IsHtml(key) {
      return Ok(None);
    }
    var fetched := fetch(key);
    if !fetched.Decoded? {
      return Ok(None);
    }
    var parsed := ParseAwardFile(fetched.text);
    r := Kept(parsed);
  }

  /**
   * `process_s3_objects(bucket, keys)`: gather the records of the batch, then
   * load them if there are any.
   */
  method ProcessObjects(keys: seq<string>, fetch: string -> Fetched, ids: seq<int>) returns (o: Outcome)
    ensures o == Process(keys, fetch, ids)
  {
    var records: seq<Record> := [];
    var i := 0;
    while i < |keys|
      invariant 0 <= i <= |keys|
      invariant Collect(keys[..i], fetch, ParseAward) == Ok(records)
    {
      var kept := KeepKey(keys[i], fetch);
      CollectStep(keys, i, fetch, ParseAward, records);
      if kept.Err? {
        return Raised(ParseFailed(kept.error));
      }
      if kept.value.Some? {
        records := records + [kept.value.value];
      }
      i := i + 1;
    }
    assert keys[..i] == keys;
    if records == [] {
      return NothingLoaded;
    }
    CollectLoadable(keys, fetch);
    var loaded := Load.BatchRows(records, ids);
    if loaded.Err? {
      return Raised(SplitFailed(loaded.error));
    }
    return Committed(loaded.value);
  }

  // ---------------------------------------------------------------------------
  // What the loop gathers

  /** The loop raises exactly when some key is read, decoded and fails to parse. */
  lemma {:induction false} CollectErr(keys: seq<string>, fetch: string -> Fetched, parse: Parser)
    ensures Collect(keys, fetch, parse).Err? <==> exists k :: k in keys && FailsToParse(k, fetch, parse)
    decreases |keys|
  {
    if keys != [] {
      var init := keys[..|keys| - 1];
      var last := keys[|keys| - 1];
      assert keys == init + [last];
      CollectErr(init, fetch, parse);
      if FailsToParse(last, fetch, parse) {
        assert last in keys;
      }
      if k :| k in keys && FailsToParse(k, fetch, parse) {
        if k != last {
          assert k in init;
        }
      }
    }
  }

  /** Every gathered record comes from a key that yields it. */
  lemma {:induction false} CollectProvenance(keys: seq<string>, fetch: string -> Fetched, parse: Parser)
    requires Collect(keys, fetch, parse).Ok?
    ensures forall i :: 0 <= i < |Collect(keys, fetch, parse).value| ==>
              exists k :: k in keys && Yields(k, fetch, parse, Collect(keys, fetch, parse).value[i])
    decreases |keys|
  {
    if keys != [] {
      var init := keys[..|keys| - 1];
      var last := keys[|keys| - 1];
      assert keys == init + [last];
      CollectProvenance(init, fetch, parse);
      var before := Collect(init, fetch, parse).value;
      var records := Collect(keys, fetch, parse).value;
      forall i | 0 <= i < |records| ensures exists k :: k in keys && Yields(k, fetch, parse, records[i]) {
        if i < |before| {
          assert records[i] == before[i];
          var k :| k in init && Yields(k, fetch, parse, before[i]);
          assert k in keys;
        } else {
          assert last in keys;
          assert Yields(last, fetch, parse, records[i]);
        }
      }
    }
  }

  /** Every key that yields a record contributes it, unless the loop raised. */
  lemma {:induction false} CollectComplete(keys: seq<string>, fetch: string -> Fetched, parse: Parser, k: string, rec: Record)
    requires Collect(keys, fetch, parse).Ok?
    requires k in keys && Yields(k, fetch, parse, rec)
    ensures rec in Collect(keys, fetch, parse).value
    decreases |keys|
  {
    var init := keys[..|keys| - 1];
    var last := keys[|keys| - 1];
    assert keys == init + [last];
    if k == last {
      assert Keep(last, fetch, parse) == Ok(Some(rec));
    } else {
      assert k in init;
      CollectComplete(init, fetch, parse, k, rec);
    }
  }

  /** HTML objects are never read: what `fetch` says about them does not matter. */
  lemma {:induction false} CollectIgnoresHtml(keys: seq<string>, fetch: string -> Fetched, other: string -> Fetched, parse: Parser)
    requires forall k :: k in keys && !IsHtml(k) ==> fetch(k) == other(k)
    ensures Collect(keys, fetch, parse) == Collect(keys, other, parse)
    decreases |keys|
  {
    if keys != [] {
      var init := keys[..|keys| - 1];
      var last := keys[|keys| - 1];
      assert forall k :: k in init ==> k in keys;
      CollectIgnoresHtml(init, fetch, other, parse);
      assert last in keys;
      assert Keep(last, fetch, parse) == Keep(last, other, parse);
    }
  }

  /** Gathering over `a + b` is gathering over `a`, then over `b`. */
  lemma {:induction false} CollectAppend(a: seq<string>, b: seq<string>, fetch: string -> Fetched, parse: Parser)
    ensures Collect(a, fetch, parse).Err? ==> Collect(a + b, fetch, parse) == Collect(a, fetch, parse)
    ensures Collect(a, fetch, parse).Ok? && Collect(b, fetch, parse).Ok? ==>
              Collect(a + b, fetch, parse) == Ok(Collect(a, fetch, parse).value + Collect(b, fetch, parse).value)
    decreases |b|
  {
    if b == [] {
      assert a + b == a;
      if Collect(a, fetch, parse).Ok? {
        assert Collect(a, fetch, parse).value + [] == Collect(a, fetch, parse).value;
      }
    } else {
      var init := b[..|b| - 1];
      assert (a + b)[..|a + b| - 1] == a + init;
      assert (a + b)[|a + b| - 1] == b[|b| - 1];
      CollectAppend(a, init, fetch, parse);
      if Collect(a, fetch, parse).Ok? && Collect(b, fetch, parse).Ok? {
        var x := Collect(a, fetch, parse).value;
        var y := Collect(init, fetch, parse).value;
        match Keep(b[|b| - 1], fetch, parse)
        case Ok(None) =>
        case Ok(Some(rec)) =>
          assert x + y + [rec] == x + (y + [rec]);
      }
    }
  }

  // ---------------------------------------------------------------------------
  // Batching in `main`

  /** `batch_size`. */
  const BatchSize: nat := 1000

  /**
   * `[keys[i:i + size] for i in range(0, len(keys), size)]`: slices of `size`
   * keys from the front, the last one shorter when `size` does not divide.
   */
  function Batches(keys: seq<string>, size: nat): (bs: seq<seq<string>>)
    requires size >= 1
    ensures forall j :: 0 <= j < |bs| ==> 1 <= |bs[j]| <= size
    ensures forall j :: 0 <= j < |bs| - 1 ==> |bs[j]| == size
    ensures |bs| * size >= |keys| && (|bs| == 0 || (|bs| - 1) * size < |keys|)
    decreases |keys|
  {
    if keys == [] then []
    else if |keys| <= size then [keys]
    else
      var rest := Batches(keys[size..], size);
      assert |rest| * size + size == (|rest| + 1) * size;
      [keys[..size]] + rest
  }

  /** The keys `keys[lo:lo + size]` in Python's slicing, which stops at the end. */
  function Window(keys: seq<string>, lo: nat, size: nat): (w: seq<string>)
    requires lo <= |keys|
    ensures |w| <= size && w <= keys[lo..]
  {
    keys[lo .. if lo + size <= |keys| then lo + size else |keys|]
  }

  /** A window of the keys after the first batch is a window of all of them. */
  lemma WindowShift(keys: seq<string>, size: nat, lo: nat)
    requires size <= |keys| && lo <= |keys| - size
    ensures Window(keys[size..], lo, size) == Window(keys, size + lo, size)
  {
  }

  /** Every batch after the first is a batch of the keys after the first. */
  lemma BatchesTail(keys: seq<string>, size: nat, j: nat)
    requires size >= 1 && 1 <= j < |Batches(keys, size)|
    ensures size < |keys| && j - 1 < |Batches(keys[size..], size)|
    ensures Batches(keys, size)[j] == Batches(keys[size..], size)[j - 1]
  {
    BatchesLong(keys, size);
    var rest := Batches(keys[size..], size);
    assert Batches(keys, size)[j] == ([keys[..size]] + rest)[j] == rest[j - 1];
  }

  /** More than one batch: the first takes `size` keys and the rest are batched alike. */
  lemma BatchesLong(keys: seq<string>, size: nat)
    requires size >= 1 && |Batches(keys, size)| >= 2
    ensures size < |keys| && Batches(keys, size) == [keys[..size]] + Batches(keys[size..], size)
  {
  }

  /** Batch `j` begins `j` batches in. */
  lemma MulStep(j: nat, size: nat)
    requires j >= 1
    ensures j * size == (j - 1) * size + size
  {
  }

  /** Batch `j` is the slice starting at `j * size`, as the comprehension writes it. */
  lemma {:induction false} BatchesAt(keys: seq<string>, size: nat, j: nat)
    requires size >= 1 && j < |Batches(keys, size)|
    ensures j * size < |keys| && Batches(keys, size)[j] == Window(keys, j * size, size)
    decreases j
  {
    if j > 0 {
      BatchesTail(keys, size, j);
      BatchesAt(keys[size..], size, j - 1);
      var lo := (j - 1) * size;
      MulStep(j, size);
      WindowShift(keys, size, lo);
    }
  }

  /** The batches hold every key once, in order. */
  lemma {:induction false} BatchesFlatten(keys: seq<string>, size: nat)
    requires size >= 1
    ensures Load.Flatten(Batches(keys, size)) == keys
    decreases |keys|
  {
    var bs := Batches(keys, size);
    if |keys| == 0 {
    } else if |keys| <= size {
      assert bs[1..] == [];
      assert Load.Flatten(bs) == keys + [];
    } else {
      assert bs[1..] == Batches(keys[size..], size);
      BatchesFlatten(keys[size..], size);
      assert keys == keys[..size] + keys[size..];
    }
  }

  /** The outcome of every batch; the thread pool catches each batch's error on its own. */
  function MainOutcomes(keys: seq<string>, fetch: string -> Fetched, ids: nat -> seq<int>): (os: seq<Outcome>)
    ensures |os| == |Batches(keys, BatchSize)|
    ensures forall j :: 0 <= j < |os| ==> os[j] == Process(Batches(keys, BatchSize)[j], fetch, ids(j))
  {
    var bs := Batches(keys, BatchSize);
    seq(|bs|, j requires 0 <= j < |bs| => Process(bs[j], fetch, ids(j)))
  }

  /** The records gathered by each batch, `[]` for one that raised. */
  function Gathered(bs: seq<seq<string>>, fetch: string -> Fetched, parse: Parser): (rs: seq<seq<Record>>)
    ensures |rs| == |bs|
    decreases |bs|
  {
    if bs == [] then []
    else [match Collect(bs[0], fetch, parse) case Ok(x) => x case Err(_) => []] + Gathered(bs[1..], fetch, parse)
  }

  /** When no batch raises while parsing, the batches gather what one pass over all keys would. */
  lemma {:induction false} GatheredFlatten(bs: seq<seq<string>>, fetch: string -> Fetched, parse: Parser)
    requires forall j :: 0 <= j < |bs| ==> Collect(bs[j], fetch, parse).Ok?
    ensures Collect(Load.Flatten(bs), fetch, parse) == Ok(Load.Flatten(Gathered(bs, fetch, parse)))
    decreases |bs|
  {
    if bs != [] {
      assert forall j :: 1 <= j < |bs| ==> bs[1..][j - 1] == bs[j];
      GatheredFlatten(bs[1..], fetch, parse);
      CollectAppend(bs[0], Load.Flatten(bs[1..]), fetch, parse);
    }
  }

  /** Batching loses and duplicates no record: the batches' records, in order, are those of all keys. */
  lemma BatchingKeepsRecords(keys: seq<string>, fetch: string -> Fetched)
    requires forall j :: 0 <= j < |Batches(keys, BatchSize)| ==> Collect(Batches(keys, BatchSize)[j], fetch, ParseAward).Ok?
    ensures Collect(keys, fetch, ParseAward) == Ok(Load.Flatten(Gathered(Batches(keys, BatchSize), fetch, ParseAward)))
  {
    BatchesFlatten(keys, BatchSize);
    GatheredFlatten(Batches(keys, BatchSize), fetch, ParseAward);
  }

  /** A batch raises while parsing exactly when one of its own keys fails to parse. */
  lemma BatchRaises(keys: seq<string>, fetch: string -> Fetched, ids: nat -> seq<int>, j: nat)
    requires j < |Batches(keys, BatchSize)|
    ensures var o := MainOutcomes(keys, fetch, ids)[j];
            o.Raised? && o.error.ParseFailed? <==>
              exists k :: k in Batches(keys, BatchSize)[j] && FailsToParse(k, fetch, ParseAward)
  {
    CollectErr(Batches(keys, BatchSize)[j], fetch, ParseAward);
  }
}
