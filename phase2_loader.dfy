/**
 * `process_service_data` of the Phase2 (breach/penalty) script. Each
 * file is read inside a `try`; a readable file with its latency column
 * is used, falling back to the latency column alone when the grouping
 * columns are absent (index mode) or neither mode is set; in hash mode a
 * file without the hash column is left out. The merge is positional
 * (index mode, or neither mode) or an inner join on the hash, then
 * `dropna`; the join sits outside the `try` and would raise if the
 * latency frame had no hash column, which the loading rules rule out.
 */
module Phase2Loader {
  import opened Wrappers
  import opened Frames
  import SharedLoader

  type Mode = SharedLoader.Mode

  /**
   * One latency file: used exactly when it was read, has its latency
   * column and, in hash mode, has the hash column; grouped by
   * (Iteration, UserIndex) or Iteration in index mode, filtered to rows
   * with a hash in hash mode, and reduced to the latency column when the
   * grouping columns are absent or neither mode is set.
   */
  function LoadLatency(f: DataFile, mode: Mode): (r: Option<LatencyFrame>)
    ensures r.Some? <==>
              f.file.Csv? && f.latencyColumn in f.file.columns
              && (mode.indexBased || !mode.useHash || TX_HASH in f.file.columns)
    ensures r.Some? ==> LATENCY in r.value.columns
    ensures r.Some? ==> (TX_HASH in r.value.columns <==> !mode.indexBased && mode.useHash)
  {
    match f.file
    case Missing => None
    case Unreadable => None
    case Csv(columns, rows) =>
      if f.latencyColumn !in columns then None
      else if mode.indexBased then
        if USER_INDEX in columns && ITERATION in columns then
          Some(LatencyFrame({LATENCY, ITERATION, USER_INDEX}, GroupFirst(rows, true)))
        else if ITERATION in columns then
          Some(LatencyFrame({LATENCY, ITERATION}, GroupFirst(rows, false)))
        else
          Some(LatencyFrame({LATENCY}, Select(rows, {LATENCY})))
      else if mode.useHash then
        if TX_HASH in columns then
          Some(LatencyFrame({LATENCY, TX_HASH}, Select(DropMissingHash(rows), {LATENCY, TX_HASH})))
        else
          None
      else
        Some(LatencyFrame({LATENCY}, Select(rows, {LATENCY})))
  }

  function LatencyLoader(mode: Mode): DataFile -> Option<LatencyFrame>
  {
    f => LoadLatency(f, mode)
  }

  /** Side by side (index mode, or neither mode) or joined on the hash, then `dropna`. */
  function Merge(latency: LatencyFrame, gas: seq<GasRow>, mode: Mode): Result<MergedFrame, LoadError>
  {
    if |latency.rows| == 0 || |gas| == 0 then Ok(EMPTY_FRAME)
    else if !mode.indexBased && mode.useHash then
      if TX_HASH in latency.columns then
        Ok(MergedFrame(latency.columns, DropIncomplete(latency.columns, HashJoin(gas, latency.rows))))
      else Err(MissingColumn)
    else Ok(MergedFrame(latency.columns, DropIncomplete(latency.columns, PositionalConcat(gas, latency.rows))))
  }

  /** What `process_service_data` returns, or the error the join raises. The block files load as in the shared loader. */
  function ServiceData(dataFiles: seq<DataFile>, blockFiles: seq<CsvFile<BlockRecord>>, mode: Mode): Result<MergedFrame, LoadError>
  {
    Merge(ConcatFrames(Collect(dataFiles, LatencyLoader(mode))), ConcatRows(Collect(blockFiles, SharedLoader.LoadBlock)), mode)
  }

  method ProcessServiceData(dataFiles: seq<DataFile>, blockFiles: seq<CsvFile<BlockRecord>>, mode: Mode)
    returns (result: Result<MergedFrame, LoadError>)
    ensures result == ServiceData(dataFiles, blockFiles, mode)
  {
    var latencyDataList: seq<LatencyFrame> := [];
    for i := 0 to |dataFiles|
      invariant latencyDataList == Collect(dataFiles[..i], LatencyLoader(mode))
    {
      assert dataFiles[..i + 1][..i] == dataFiles[..i];
      var part := LoadLatency(dataFiles[i], mode);
      if part.Some? {
        latencyDataList := latencyDataList + [part.value];
      }
    }
    assert dataFiles[..|dataFiles|] == dataFiles;
    var allLatencyData := ConcatFrames(latencyDataList);

    var gasDataList: seq<seq<GasRow>> := [];
    for i := 0 to |blockFiles|
      invariant gasDataList == Collect(blockFiles[..i], SharedLoader.LoadBlock)
    {
      assert blockFiles[..i + 1][..i] == blockFiles[..i];
      var part := SharedLoader.LoadBlock(blockFiles[i]);
      if part.Some? {
        gasDataList := gasDataList + [part.value];
      }
    }
    assert blockFiles[..|blockFiles|] == blockFiles;
    var allGasData := ConcatRows(gasDataList);

    result := Merge(allLatencyData, allGasData, mode);
  }

  /**
   * The join never raises: in hash mode every latency file used carries
   * the hash column, so a latency frame with rows does too.
   */
  lemma ServiceDataSucceeds(dataFiles: seq<DataFile>, blockFiles: seq<CsvFile<BlockRecord>>, mode: Mode)
    ensures ServiceData(dataFiles, blockFiles, mode).Ok?
  {
    var parts := Collect(dataFiles, LatencyLoader(mode));
    var latency := ConcatFrames(parts);
    if !mode.indexBased && mode.useHash && |latency.rows| > 0 {
      var k :| 0 <= k < |parts| && |parts[k].rows| > 0;
      assert parts[k] in parts;
      CollectMembership(dataFiles, LatencyLoader(mode), parts[k]);
      ConcatFramesColumns(parts, TX_HASH);
    }
  }

  /**
   * Every merged row has its latency and the three factors; side by side
   * the result has at most as many rows as the shorter side, joined the
   * two halves share a hash.
   */
  lemma MergedRows(dataFiles: seq<DataFile>, blockFiles: seq<CsvFile<BlockRecord>>, mode: Mode)
    ensures ServiceData(dataFiles, blockFiles, mode).Ok?
    ensures var latency := ConcatFrames(Collect(dataFiles, LatencyLoader(mode)));
      var gas := ConcatRows(Collect(blockFiles, SharedLoader.LoadBlock));
      var merged := ServiceData(dataFiles, blockFiles, mode).value;
      (forall r :: r in merged.rows ==> GasComplete(r.gas) && r.latency.latency.Some?)
      && (!(!mode.indexBased && mode.useHash) ==> |merged.rows| <= |gas| && |merged.rows| <= |latency.rows|)
      && (!mode.indexBased && mode.useHash ==> forall r :: r in merged.rows ==>
            r.gas in gas && r.latency in latency.rows && r.gas.hash.Some? && r.gas.hash == r.latency.hash)
  {
    var parts := Collect(dataFiles, LatencyLoader(mode));
    var latency := ConcatFrames(parts);
    var gas := ConcatRows(Collect(blockFiles, SharedLoader.LoadBlock));
    ServiceDataSucceeds(dataFiles, blockFiles, mode);
    var merged := ServiceData(dataFiles, blockFiles, mode).value;
    if |latency.rows| > 0 && |gas| > 0 {
      assert parts[0] in parts by {
        ConcatFramesRows(parts, latency.rows[0]);
      }
      CollectMembership(dataFiles, LatencyLoader(mode), parts[0]);
      ConcatFramesColumns(parts, LATENCY);
      if !mode.indexBased && mode.useHash {
        forall r | r in merged.rows
          ensures r.gas in gas && r.latency in latency.rows && r.gas.hash.Some? && r.gas.hash == r.latency.hash
          ensures Complete(latency.columns, r)
        {
          HashMergeRows(latency.columns, gas, latency.rows, r);
        }
      } else {
        PositionalMergeIsZip(latency.columns, gas, latency.rows);
        DropIncompleteKeeps(latency.columns, PositionalConcat(gas, latency.rows));
      }
    }
  }
}
