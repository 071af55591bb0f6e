/**
 * `process_service_data` of the HighGas statistical script. Nothing is
 * guarded by a `try`: a file that cannot be read or lacks a column it
 * selects ends the run with an error. Block sizes stay in bytes, and
 * the merge is an inner join on the transaction hash with no `dropna`.
 */
module HighGasLoader {
  import opened Wrappers
  import opened Frames

  /**
   * One latency file. A missing file is skipped; an unreadable one, or
   * one without its latency column or the transaction hash, is an
   * error (the rename of an absent column is silent, the selection that
   * follows raises). Otherwise the file's rows, with the rows lacking a
   * hash dropped when `use_transaction_hash` is set.
   */
  function LoadLatency(f: DataFile, useHash: bool): (r: Result<Option<LatencyFrame>, LoadError>)
    ensures r == Ok(None) <==> f.file.Missing?
    ensures r.Err? <==> f.file.Unreadable? || (f.file.Csv? && !(f.latencyColumn in f.file.columns && TX_HASH in f.file.columns))
  {
    match f.file
    case Missing => Ok(None)
    case Unreadable => Err(ReadFailed)
    case Csv(columns, rows) =>
      if f.latencyColumn !in columns || TX_HASH !in columns then Err(MissingColumn)
      else
        var kept := if useHash then DropMissingHash(rows) else rows;
        Ok(Some(LatencyFrame({LATENCY, TX_HASH}, Select(kept, {LATENCY, TX_HASH}))))
  }

  function LatencyLoader(useHash: bool): DataFile -> Result<Option<LatencyFrame>, LoadError>
  {
    f => LoadLatency(f, useHash)
  }

  /** One block file: its four columns, sizes in bytes; an error when it cannot be read or lacks one of them. */
  function LoadBlock(f: CsvFile<BlockRecord>): (r: Result<Option<seq<GasRow>>, LoadError>)
    ensures r.Err? <==> f.Unreadable? || (f.Csv? && !(BLOCK_COLUMNS <= f.columns))
    ensures r.Ok? && r.value.Some? ==> f.Csv? && r.value.value == KeepBytes(f.rows)
  {
    match f
    case Missing => Ok(None)
    case Unreadable => Err(ReadFailed)
    case Csv(columns, rows) => if BLOCK_COLUMNS <= columns then Ok(Some(KeepBytes(rows))) else Err(MissingColumn)
  }

  function Merge(latency: LatencyFrame, gas: seq<GasRow>): MergedFrame
  {
    if |latency.rows| == 0 || |gas| == 0 then EMPTY_FRAME
    else MergedFrame(latency.columns, HashJoin(gas, latency.rows))
  }

  /** What `process_service_data` returns, or the error it raises. */
  function ServiceData(dataFiles: seq<DataFile>, blockFiles: seq<CsvFile<BlockRecord>>, useHash: bool): Result<MergedFrame, LoadError>
  {
    match CollectOrFail(dataFiles, LatencyLoader(useHash))
    case Err(e) => Err(e)
    case Ok(parts) =>
      match CollectOrFail(blockFiles, LoadBlock)
      case Err(e) => Err(e)
      case Ok(gasParts) => Ok(Merge(ConcatFrames(parts), ConcatRows(gasParts)))
  }

  method ProcessServiceData(dataFiles: seq<DataFile>, blockFiles: seq<CsvFile<BlockRecord>>, useHash: bool)
    returns (result: Result<MergedFrame, LoadError>)
    ensures result == ServiceData(dataFiles, blockFiles, useHash)
  {
    var latencyDataList: seq<LatencyFrame> := [];
    for i := 0 to |dataFiles|
      invariant CollectOrFail(dataFiles[..i], LatencyLoader(useHash)) == Ok(latencyDataList)
    {
      assert dataFiles[..i + 1][..i] == dataFiles[..i];
      var part := LoadLatency(dataFiles[i], useHash);
      if part.Err? {
        CollectOrFailPrefixError(dataFiles, LatencyLoader(useHash), i + 1);
        return Err(part.error);
      }
      if part.value.Some? {
        latencyDataList := latencyDataList + [part.value.value];
      }
    }
    assert dataFiles[..|dataFiles|] == dataFiles;
    var allLatencyData := ConcatFrames(latencyDataList);

    var blockDataList: seq<seq<GasRow>> := [];
    for i := 0 to |blockFiles|
      invariant CollectOrFail(blockFiles[..i], LoadBlock) == Ok(blockDataList)
    {
      assert blockFiles[..i + 1][..i] == blockFiles[..i];
      var part := LoadBlock(blockFiles[i]);
      if part.Err? {
        CollectOrFailPrefixError(blockFiles, LoadBlock, i + 1);
        return Err(part.error);
      }
      if part.value.Some? {
        blockDataList := blockDataList + [part.value.value];
      }
    }
    assert blockFiles[..|blockFiles|] == blockFiles;
    var allBlockData := ConcatRows(blockDataList);

    return Ok(Merge(allLatencyData, allBlockData));
  }

  /**
   * The run succeeds exactly when every latency file is missing or has
   * its latency column and the transaction hash, and every block file is
   * missing or has the four block columns.
   */
  lemma ServiceDataSucceeds(dataFiles: seq<DataFile>, blockFiles: seq<CsvFile<BlockRecord>>, useHash: bool)
    ensures ServiceData(dataFiles, blockFiles, useHash).Ok? <==>
              (forall i :: 0 <= i < |dataFiles| ==>
                 dataFiles[i].file.Missing?
                 || (dataFiles[i].file.Csv? && dataFiles[i].latencyColumn in dataFiles[i].file.columns
                     && TX_HASH in dataFiles[i].file.columns))
              && (forall i :: 0 <= i < |blockFiles| ==>
                    blockFiles[i].Missing? || (blockFiles[i].Csv? && BLOCK_COLUMNS <= blockFiles[i].columns))
  {
    CollectOrFailOutcome(dataFiles, LatencyLoader(useHash));
    CollectOrFailOutcome(blockFiles, LoadBlock);
  }

  /**
   * Without `dropna` the merged rows are exactly the pairs of a block row
   * and a latency row whose hashes agree, missing values included: when
   * hashes are not filtered, a latency row without a hash joins every
   * block row without one.
   */
  lemma MergedRowsAreHashMatches(latency: LatencyFrame, gas: seq<GasRow>, r: MergedRow)
    requires |latency.rows| > 0 && |gas| > 0
    ensures r in Merge(latency, gas).rows <==> r.gas in gas && r.latency in latency.rows && r.gas.hash == r.latency.hash
  {
    HashJoinMembership(gas, latency.rows, r);
  }

  /** With `use_transaction_hash` every merged row has a hash. */
  lemma {:induction false} HashedRowsHaveHashes(dataFiles: seq<DataFile>, blockFiles: seq<CsvFile<BlockRecord>>)
    requires ServiceData(dataFiles, blockFiles, true).Ok?
    ensures forall r :: r in ServiceData(dataFiles, blockFiles, true).value.rows ==> r.gas.hash.Some? && r.latency.hash.Some?
  {
    var parts := CollectOrFail(dataFiles, LatencyLoader(true)).value;
    var gas := ConcatRows(CollectOrFail(blockFiles, LoadBlock).value);
    var latency := ConcatFrames(parts);
    forall r | r in ServiceData(dataFiles, blockFiles, true).value.rows
      ensures r.gas.hash.Some? && r.latency.hash.Some?
    {
      HashJoinMembership(gas, latency.rows, r);
      ConcatFramesRows(parts, r.latency);
      var k :| 0 <= k < |parts| && r.latency in parts[k].rows;
      CollectOrFailMembership(dataFiles, LatencyLoader(true), parts[k]);
      var i :| 0 <= i < |dataFiles| && LatencyLoader(true)(dataFiles[i]) == Ok(Some(parts[k]));
      var kept := DropMissingHash(dataFiles[i].file.rows);
      DropMissingHashKeeps(dataFiles[i].file.rows);
      var j :| 0 <= j < |parts[k].rows| && parts[k].rows[j] == r.latency;
      assert kept[j] in kept;
    }
  }
}
