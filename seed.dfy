/**
 * The loop of the seeding script (database/seed.js) that hands rows to the database in batches of
 * 100. The three seed functions differ only in the file and the table, so one loop models them all.
 */
module Seed {
  import opened CsvLine
  import opened FeedRows

  const BatchSize := 100

  /**
   * The loop's batching state: the flushed batches followed by the pending one hold exactly the
   * rows pushed so far, every flushed batch is full, the pending one is not, and `count` counts the
   * flushed rows.
   */
  ghost predicate Pending(batches: seq<seq<SeedRow>>, batch: seq<SeedRow>, count: nat, pushed: seq<SeedRow>)
  {
    && Flatten(batches) + batch == pushed
    && count + |batch| == |pushed| && count == BatchSize * |batches|
    && |batch| < BatchSize
    && forall k :: 0 <= k < |batches| ==> |batches[k]| == BatchSize
  }

  /**
   * One row pushed onto the pending batch; a batch that reaches 100 rows is handed to `bulkCreate`
   * (appended to `batches`), counted, and replaced by an empty one.
   */
  method AddRow(batches: seq<seq<SeedRow>>, batch: seq<SeedRow>, count: nat, ghost pushed: seq<SeedRow>, row: SeedRow)
    returns (batches': seq<seq<SeedRow>>, batch': seq<SeedRow>, count': nat)
    requires Pending(batches, batch, count, pushed)
    ensures Pending(batches', batch', count', pushed + [row])
  {
    batches', batch', count' := batches, batch + [row], count;
    if |batch'| >= BatchSize {
      FlattenSnoc(batches, batch');
      batches' := batches + [batch'];
      count' := count + |batch'|;
      batch' := [];
      assert Flatten(batches') + [] == Flatten(batches');
    }
  }

  /**
   * The loop of `seedSha256` (and `seedUrls`, `seedIpPorts`) over the filtered lines, skipping the
   * header, followed by the flush of the last batch: the batches handed to `bulkCreate`, in order,
   * and the final count.
   */
  method SeedLines(lines: seq<string>) returns (batches: seq<seq<SeedRow>>, count: nat)
    ensures Flatten(batches) == Records(lines)
    ensures count == |Records(lines)|
    ensures forall k :: 0 <= k < |batches| ==> 1 <= |batches[k]| <= BatchSize
    ensures forall k :: 0 <= k < |batches| - 1 ==> |batches[k]| == BatchSize
    ensures count <= BatchSize * |batches| < count + BatchSize
  {
    var batch;
    ghost var pushed;
    batches, batch, count, pushed := LoadLines(lines);
    batches, count := FlushRest(batches, batch, count, pushed);
  }

  /** The loop itself: every line after the header is loaded, in order. */
  method LoadLines(lines: seq<string>)
    returns (batches: seq<seq<SeedRow>>, batch: seq<SeedRow>, count: nat, ghost pushed: seq<SeedRow>)
    ensures pushed == Records(lines) && Pending(batches, batch, count, pushed)
  {
    count := 0;
    batches := [];
    batch := [];
    pushed := [];
    assert Flatten(batches) + batch == pushed;
    var i := 1;
    assert pushed == RowsOf(lines, i);
    while i < |lines|
      invariant 1 <= i && (i == 1 || i <= |lines|)
      invariant pushed == RowsOf(lines, i)
      invariant Pending(batches, batch, count, pushed)
    {
      batches, batch, count, pushed := LoadLine(lines, i, batches, batch, count, pushed);
      i := i + 1;
    }
    RecordsAt(lines, i);
  }

  /** One iteration of the loop: line `i` is parsed and, when it has at least 14 fields, mapped and pushed. */
  method LoadLine(lines: seq<string>, i: nat, batches: seq<seq<SeedRow>>, batch: seq<SeedRow>, count: nat,
                  ghost pushed: seq<SeedRow>)
    returns (batches': seq<seq<SeedRow>>, batch': seq<SeedRow>, count': nat, ghost pushed': seq<SeedRow>)
    requires 1 <= i < |lines|
    requires pushed == RowsOf(lines, i) && Pending(batches, batch, count, pushed)
    ensures pushed' == RowsOf(lines, i + 1) && Pending(batches', batch', count', pushed')
  {
    batches', batch', count', pushed' := batches, batch, count, pushed;
    var values := ParseCsvLine(lines[i]);
    RowsOfNext(lines, i, values);
    if |values| >= 14 {
      var row := MapRow(values);
      batches', batch', count' := AddRow(batches, batch, count, pushed, row);
      pushed' := pushed + [row];
    } else {
      assert pushed + [] == pushed;
    }
  }

  /** A whole seed function: the file's lines are split and filtered, then loaded. */
  method SeedTable(content: string) returns (batches: seq<seq<SeedRow>>, count: nat)
    ensures Flatten(batches) == SeedRows(content)
    ensures count == |SeedRows(content)|
    ensures forall k :: 0 <= k < |batches| ==> 1 <= |batches[k]| <= BatchSize
    ensures forall k :: 0 <= k < |batches| - 1 ==> |batches[k]| == BatchSize
    ensures count <= BatchSize * |batches| < count + BatchSize
  {
    var lines := DataLines(content);
    batches, count := SeedLines(lines);
  }

  /** After the loop: a non-empty last batch is handed to `bulkCreate` and counted. */
  method FlushRest(batches: seq<seq<SeedRow>>, batch: seq<SeedRow>, count: nat, ghost pushed: seq<SeedRow>)
    returns (batches': seq<seq<SeedRow>>, count': nat)
    requires Pending(batches, batch, count, pushed)
    ensures Flatten(batches') == pushed
    ensures count' == |pushed|
    ensures forall k :: 0 <= k < |batches'| ==> 1 <= |batches'[k]| <= BatchSize
    ensures forall k :: 0 <= k < |batches'| - 1 ==> |batches'[k]| == BatchSize
    ensures count' <= BatchSize * |batches'| < count' + BatchSize
  {
    batches', count' := batches, count;
    if |batch| > 0 {
      FlattenSnoc(batches, batch);
      batches' := batches + [batch];
      count' := count + |batch|;
    } else {
      assert Flatten(batches) + [] == Flatten(batches);
    }
  }

}
