/**
 * `process_service_data` of the Phase1 (add/select service) script.
 * Missing files and files without their latency column are skipped; an
 * unreadable file, a block file without the four columns, or a missing
 * hash column ends the run with an error. The merge is always an inner
 * join on the transaction hash, followed by `dropna`.
 */
module Phase1Loader {
  import opened Wrappers
  import opened Frames

  /**
   * One latency file: skipped when missing or without its latency
   * column, an error when unreadable or (with hashes) without the hash
   * column; otherwise its latency, with the hash when asked for.
   */
  function LoadLatency(f: DataFile, useHash: bool): (r: Result<Option<LatencyFrame>, LoadError>)
    ensures r == Ok(None) <==> f.file.Missing? || (f.file.Csv? && f.latencyColumn !in f.file.columns)
    ensures r.Err? <==>
              f.file.Unreadable? || (f.file.Csv? && f.latencyColumn in f.file.columns && useHash && TX_HASH !in f.file.columns)
    ensures r.Ok? && r.value.Some? ==> r.value.value.columns == if useHash then {LATENCY, TX_HASH} else {LATENCY}
  {
    match f.file
    case Missing => Ok(None)
    case Unreadable => Err(ReadFailed)
    case Csv(columns, rows) =>
      if f.latencyColumn !in columns then Ok(None)
      else if useHash then
        if TX_HASH in columns then Ok(Some(LatencyFrame({LATENCY, TX_HASH}, Select(rows, {LATENCY, TX_HASH}))))
        else Err(MissingColumn)
      else Ok(Some(LatencyFrame({LATENCY}, Select(rows, {LATENCY}))))
  }

  function LatencyLoader(useHash: bool): DataFile -> Result<Option<LatencyFrame>, LoadError>
  {
    f => LoadLatency(f, useHash)
  }

  /** One block file: sizes converted to KB; an error when it cannot be read or lacks a `usecols` column. */
  function LoadBlock(f: CsvFile<BlockRecord>): (r: Result<Option<seq<GasRow>>, LoadError>)
    ensures r.Err? <==> f.Unreadable? || (f.Csv? && !(BLOCK_COLUMNS <= f.columns))
    ensures r.Ok? && r.value.Some? ==> f.Csv? && r.value.value == ToKB(f.rows)
  {
    match f
    case Missing => Ok(None)
    case Unreadable => Err(ReadFailed)
    case Csv(columns, rows) => if BLOCK_COLUMNS <= columns then Ok(Some(ToKB(rows))) else Err(MissingColumn)
  }

  /** The join on 'Transaction Hash' raises when the latency frame lacks that column. */
  function Merge(latency: LatencyFrame, gas: seq<GasRow>): Result<MergedFrame, LoadError>
  {
    if |latency.rows| == 0 || |gas| == 0 then Ok(EMPTY_FRAME)
    else if TX_HASH !in latency.columns then Err(MissingColumn)
    else Ok(MergedFrame(latency.columns, DropIncomplete(latency.columns, HashJoin(gas, latency.rows))))
  }

  /** What `process_service_data` returns, or the error it raises. */
  function ServiceData(dataFiles: seq<DataFile>, blockFiles: seq<CsvFile<BlockRecord>>, useHash: bool): Result<MergedFrame, LoadError>
  {
    match CollectOrFail(dataFiles, LatencyLoader(useHash))
    case Err(e) => Err(e)
    case Ok(parts) =>
      match CollectOrFail(blockFiles, LoadBlock)
      case Err(e) => Err(e)
      case Ok(gasParts) => Merge(ConcatFrames(parts), ConcatRows(gasParts))
  }

  method ProcessServiceData(dataFiles: seq<DataFile>, blockFiles: seq<CsvFile<BlockRecord>>, useHash: bool)
    returns (result: Result<MergedFrame, LoadError>)
    ensures result == ServiceData(dataFiles, blockFiles, useHash)
  {
    var latencyDataList: seq<LatencyFrame> := [];
    for i := 0 to |dataFiles|
      invariant CollectOrFail(dataFiles[..i], LatencyLoader(useHash)) == Ok(latencyDataList)
    {
      assert dataFiles[..i + 1][..i] == dataFiles[..i];
      var part := LoadLatency(dataFiles[i], useHash);
      if part.Err? {
        CollectOrFailPrefixError(dataFiles, LatencyLoader(useHash), i + 1);
        return Err(part.error);
      }
      if part.value.Some? {
        latencyDataList := latencyDataList + [part.value.value];
      }
    }
    assert dataFiles[..|dataFiles|] == dataFiles;
    var allLatencyData := ConcatFrames(latencyDataList);

    var gasDataList: seq<seq<GasRow>> := [];
    for i := 0 to |blockFiles|
      invariant CollectOrFail(blockFiles[..i], LoadBlock) == Ok(gasDataList)
    {
      assert blockFiles[..i + 1][..i] == blockFiles[..i];
      var part := LoadBlock(blockFiles[i]);
      if part.Err? {
        CollectOrFailPrefixError(blockFiles, LoadBlock, i + 1);
        return Err(part.error);
      }
      if part.value.Some? {
        gasDataList := gasDataList + [part.value.value];
      }
    }
    assert blockFiles[..|blockFiles|] == blockFiles;
    var allGasData := ConcatRows(gasDataList);

    result := Merge(allLatencyData, allGasData);
  }

  /** The latency frames collected without hashes never carry the hash column. */
  lemma NoHashColumnWithoutHashes(dataFiles: seq<DataFile>)
    requires CollectOrFail(dataFiles, LatencyLoader(false)).Ok?
    ensures TX_HASH !in ConcatFrames(CollectOrFail(dataFiles, LatencyLoader(false)).value).columns
  {
    var parts := CollectOrFail(dataFiles, LatencyLoader(false)).value;
    ConcatFramesColumns(parts, TX_HASH);
    forall k | 0 <= k < |parts|
      ensures TX_HASH !in parts[k].columns
    {
      CollectOrFailMembership(dataFiles, LatencyLoader(false), parts[k]);
    }
  }

  /**
   * Without `use_transaction_hash` the run can only end empty or with an
   * error: as soon as both sides hold rows, the join on the hash column
   * raises.
   */
  lemma WithoutHashesNoMerge(dataFiles: seq<DataFile>, blockFiles: seq<CsvFile<BlockRecord>>)
    ensures ServiceData(dataFiles, blockFiles, false).Ok? ==> ServiceData(dataFiles, blockFiles, false).value == EMPTY_FRAME
  {
    if CollectOrFail(dataFiles, LatencyLoader(false)).Ok? {
      NoHashColumnWithoutHashes(dataFiles);
    }
  }

  /**
   * With hashes, every merged row has a latency, the three factors and a
   * hash that the block row and the latency row share.
   */
  lemma HashedRowsComplete(dataFiles: seq<DataFile>, blockFiles: seq<CsvFile<BlockRecord>>)
    requires ServiceData(dataFiles, blockFiles, true).Ok?
    ensures forall r :: r in ServiceData(dataFiles, blockFiles, true).value.rows ==>
              GasComplete(r.gas) && r.latency.latency.Some? && r.gas.hash == r.latency.hash
  {
    var parts := CollectOrFail(dataFiles, LatencyLoader(true)).value;
    var gas := ConcatRows(CollectOrFail(blockFiles, LoadBlock).value);
    var latency := ConcatFrames(parts);
    if |latency.rows| > 0 && |gas| > 0 {
      assert parts[0] in parts by {
        ConcatFramesRows(parts, latency.rows[0]);
      }
      CollectOrFailMembership(dataFiles, LatencyLoader(true), parts[0]);
      ConcatFramesColumns(parts, LATENCY);
      forall r | r in ServiceData(dataFiles, blockFiles, true).value.rows
        ensures GasComplete(r.gas) && r.latency.latency.Some? && r.gas.hash == r.latency.hash
      {
        HashMergeRows(latency.columns, gas, latency.rows, r);
      }
    }
  }

  /**
   * The run fails exactly when a file fails before the merge (an
   * unreadable file, a hashed run's latency file without the hash, a
   * block file without the four columns) or the merge has rows on both
   * sides but no hash column.
   */
  lemma ServiceDataFails(dataFiles: seq<DataFile>, blockFiles: seq<CsvFile<BlockRecord>>, useHash: bool)
    ensures ServiceData(dataFiles, blockFiles, useHash).Err? <==>
              (exists i :: 0 <= i < |dataFiles| && LoadLatency(dataFiles[i], useHash).Err?)
              || (exists i :: 0 <= i < |blockFiles| && LoadBlock(blockFiles[i]).Err?)
              || (!useHash && CollectOrFail(dataFiles, LatencyLoader(useHash)).Ok?
                  && CollectOrFail(blockFiles, LoadBlock).Ok?
                  && |ConcatFrames(CollectOrFail(dataFiles, LatencyLoader(useHash)).value).rows| > 0
                  && |ConcatRows(CollectOrFail(blockFiles, LoadBlock).value)| > 0)
  {
    CollectOrFailOutcome(dataFiles, LatencyLoader(useHash));
    CollectOrFailOutcome(blockFiles, LoadBlock);
    var latencyLoads := CollectOrFail(dataFiles, LatencyLoader(useHash));
    if latencyLoads.Ok? && CollectOrFail(blockFiles, LoadBlock).Ok? {
      var latency := ConcatFrames(latencyLoads.value);
      if useHash && |latency.rows| > 0 {
        var parts := latencyLoads.value;
        assert parts[0] in parts by {
          ConcatFramesRows(parts, latency.rows[0]);
        }
        CollectOrFailMembership(dataFiles, LatencyLoader(true), parts[0]);
        ConcatFramesColumns(parts, TX_HASH);
      } else if !useHash {
        NoHashColumnWithoutHashes(dataFiles);
      }
    }
  }
}
