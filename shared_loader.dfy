/**
 * `process_service_data` as the LowGas statistical script, the
 * per-function script and the two `_final` plotting scripts share it:
 * every file is read inside a `try`, so a file that cannot be read or
 * lacks a needed column contributes nothing, and the merge is
 * positional (index-based runs) or an inner join on the transaction
 * hash, followed by `dropna`.
 */
module SharedLoader {
  import opened Wrappers
  import opened Frames

  /** The two switches `index_based` and `use_transaction_hash`. */
  datatype Mode = Mode(indexBased: bool, useHash: bool)

  /**
   * One latency file: the frame appended to `latency_data_list`, or None
   * when nothing is. A file is used exactly when it was read, has its
   * latency column, and has Iteration (index mode) or the transaction
   * hash (hash mode); its frame always carries the latency column.
   */
  function LoadLatency(f: DataFile, mode: Mode): (r: Option<LatencyFrame>)
    ensures r.Some? <==>
              f.file.Csv? && f.latencyColumn in f.file.columns
              && (if mode.indexBased then ITERATION in f.file.columns else mode.useHash && TX_HASH in f.file.columns)
    ensures r.Some? ==> LATENCY in r.value.columns
  {
    match f.file
    case Missing => None
    case Unreadable => None
    case Csv(columns, rows) =>
      if f.latencyColumn !in columns then None
      else if mode.indexBased then
        if USER_INDEX in columns && ITERATION in columns then
          Some(LatencyFrame({LATENCY, ITERATION, USER_INDEX}, GroupFirst(rows, true)))
        else if ITERATION in columns then
          Some(LatencyFrame({LATENCY, ITERATION}, GroupFirst(rows, false)))
        else
          None  // selecting 'Iteration' raises inside the try
      else if mode.useHash && TX_HASH in columns then
        Some(LatencyFrame({LATENCY, TX_HASH}, Select(DropMissingHash(rows), {LATENCY, TX_HASH})))
      else
        None  // hash mode without the column raises inside the try; neither mode appends nothing
  }

  function LatencyLoader(mode: Mode): DataFile -> Option<LatencyFrame>
  {
    f => LoadLatency(f, mode)
  }

  /** One block file: its rows with the size in KB, or None when it is missing or lacks a column. */
  function LoadBlock(f: CsvFile<BlockRecord>): Option<seq<GasRow>>
  {
    match f
    case Missing => None
    case Unreadable => None
    case Csv(columns, rows) => if BLOCK_COLUMNS <= columns then Some(ToKB(rows)) else None
  }

  function Merge(latency: LatencyFrame, gas: seq<GasRow>, mode: Mode): MergedFrame
  {
    if |latency.rows| == 0 || |gas| == 0 then EMPTY_FRAME
    else if mode.indexBased then
      MergedFrame(latency.columns, DropIncomplete(latency.columns, PositionalConcat(gas, latency.rows)))
    else if mode.useHash then
      MergedFrame(latency.columns, DropIncomplete(latency.columns, HashJoin(gas, latency.rows)))
    else EMPTY_FRAME
  }

  /** What `process_service_data` returns. */
  function ServiceData(dataFiles: seq<DataFile>, blockFiles: seq<CsvFile<BlockRecord>>, mode: Mode): MergedFrame
  {
    Merge(ConcatFrames(Collect(dataFiles, LatencyLoader(mode))), ConcatRows(Collect(blockFiles, LoadBlock)), mode)
  }

  method ProcessServiceData(dataFiles: seq<DataFile>, blockFiles: seq<CsvFile<BlockRecord>>, mode: Mode)
    returns (merged: MergedFrame)
    ensures merged == ServiceData(dataFiles, blockFiles, mode)
  {
    var latencyDataList: seq<LatencyFrame> := [];
    for i := 0 to |dataFiles|
      invariant latencyDataList == Collect(dataFiles[..i], LatencyLoader(mode))
    {
      assert dataFiles[..i + 1][..i] == dataFiles[..i];
      var part := LoadLatency(dataFiles[i], mode);
      if part.Some? {
        latencyDataList := latencyDataList + [part.value];
      }
    }
    assert dataFiles[..|dataFiles|] == dataFiles;
    var allLatencyData := ConcatFrames(latencyDataList);

    var gasDataList: seq<seq<GasRow>> := [];
    for i := 0 to |blockFiles|
      invariant gasDataList == Collect(blockFiles[..i], LoadBlock)
    {
      assert blockFiles[..i + 1][..i] == blockFiles[..i];
      var part := LoadBlock(blockFiles[i]);
      if part.Some? {
        gasDataList := gasDataList + [part.value];
      }
    }
    assert blockFiles[..|blockFiles|] == blockFiles;
    var allGasData := ConcatRows(gasDataList);

    merged := Merge(allLatencyData, allGasData, mode);
  }

  /**
   * In index mode a file's frame has one row per (Iteration, UserIndex)
   * key, or per Iteration when the file has no UserIndex, in increasing
   * key order, each with the first latency recorded for that key.
   */
  lemma IndexModeGroups(f: DataFile, mode: Mode)
    requires mode.indexBased
    requires LoadLatency(f, mode).Some?
    ensures var part := LoadLatency(f, mode).value;
      var byUser := USER_INDEX in f.file.columns;
      (forall i, j :: 0 <= i < j < |part.rows| ==>
         KeyLess(KeyOf(part.rows[i], byUser).value, KeyOf(part.rows[j], byUser).value))
      && (forall i :: 0 <= i < |part.rows| ==>
            (KeyOf(part.rows[i], byUser).Some?
             && part.rows[i].latency == FirstLatency(f.file.rows, byUser, KeyOf(part.rows[i], byUser).value)))
  {
    GroupFirstOneRowPerKey(f.file.rows, USER_INDEX in f.file.columns);
  }

  /** In hash mode every row of a file's frame has a transaction hash and comes from a row of the file. */
  lemma HashModeRowsHaveHashes(f: DataFile, mode: Mode)
    requires !mode.indexBased
    requires LoadLatency(f, mode).Some?
    ensures forall r :: r in LoadLatency(f, mode).value.rows ==>
              r.hash.Some? && exists s :: s in f.file.rows && r == SelectRow(s, {LATENCY, TX_HASH})
  {
    var kept := DropMissingHash(f.file.rows);
    DropMissingHashKeeps(f.file.rows);
    var part := LoadLatency(f, mode).value;
    assert part.rows == Select(kept, {LATENCY, TX_HASH});
    forall r | r in part.rows
      ensures r.hash.Some? && exists s :: s in f.file.rows && r == SelectRow(s, {LATENCY, TX_HASH})
    {
      var i :| 0 <= i < |part.rows| && part.rows[i] == r;
      assert kept[i] in kept;
    }
  }

  /** With neither switch set no latency file is used, and the result is empty. */
  lemma {:induction false} NeitherModeLoadsNothing(dataFiles: seq<DataFile>, mode: Mode)
    requires !mode.indexBased && !mode.useHash
    ensures Collect(dataFiles, LatencyLoader(mode)) == []
  {
    if |dataFiles| > 0 {
      NeitherModeLoadsNothing(dataFiles[..|dataFiles| - 1], mode);
    }
  }

  /** A latency file that contributes nothing (missing, unreadable, lacking a column) does not change the result. */
  lemma SkippedFileIgnored(a: seq<DataFile>, f: DataFile, b: seq<DataFile>, blockFiles: seq<CsvFile<BlockRecord>>, mode: Mode)
    requires LoadLatency(f, mode).None?
    ensures ServiceData(a + [f] + b, blockFiles, mode) == ServiceData(a + b, blockFiles, mode)
  {
    CollectSkips(a, f, b, LatencyLoader(mode));
  }

  /** Every part the latency loop collects carries the latency column. */
  lemma PartsHaveLatency(dataFiles: seq<DataFile>, mode: Mode)
    ensures var merged := ConcatFrames(Collect(dataFiles, LatencyLoader(mode)));
      |merged.rows| > 0 ==> LATENCY in merged.columns
  {
    var parts := Collect(dataFiles, LatencyLoader(mode));
    if |ConcatFrames(parts).rows| > 0 {
      assert parts[0] in parts;
      CollectMembership(dataFiles, LatencyLoader(mode), parts[0]);
      var i :| 0 <= i < |dataFiles| && LatencyLoader(mode)(dataFiles[i]) == Some(parts[0]);
      ConcatFramesColumns(parts, LATENCY);
    }
  }

  /**
   * Every merged row has its latency, gas price, block size, transaction
   * count and hash. Index mode pairs rows by position and keeps at most
   * as many rows as the shorter side; hash mode pairs a block row with a
   * latency row of the same hash.
   */
  lemma MergedRows(dataFiles: seq<DataFile>, blockFiles: seq<CsvFile<BlockRecord>>, mode: Mode)
    ensures var latency := ConcatFrames(Collect(dataFiles, LatencyLoader(mode)));
      var gas := ConcatRows(Collect(blockFiles, LoadBlock));
      var merged := ServiceData(dataFiles, blockFiles, mode);
      (forall r :: r in merged.rows ==> GasComplete(r.gas) && r.latency.latency.Some?)
      && (mode.indexBased ==> |merged.rows| <= |gas| && |merged.rows| <= |latency.rows|)
      && (!mode.indexBased ==> forall r :: r in merged.rows ==>
            r.gas in gas && r.latency in latency.rows && r.gas.hash.Some? && r.gas.hash == r.latency.hash)
  {
    var latency := ConcatFrames(Collect(dataFiles, LatencyLoader(mode)));
    var gas := ConcatRows(Collect(blockFiles, LoadBlock));
    var merged := ServiceData(dataFiles, blockFiles, mode);
    if |latency.rows| > 0 && |gas| > 0 {
      PartsHaveLatency(dataFiles, mode);
      if mode.indexBased {
        PositionalMergeIsZip(latency.columns, gas, latency.rows);
        DropIncompleteKeeps(latency.columns, PositionalConcat(gas, latency.rows));
      } else if mode.useHash {
        forall r | r in merged.rows
          ensures r.gas in gas && r.latency in latency.rows && r.gas.hash.Some? && r.gas.hash == r.latency.hash
          ensures Complete(latency.columns, r)
        {
          HashMergeRows(latency.columns, gas, latency.rows, r);
        }
      }
    }
  }
}
