/**
 * The data the `process_service_data` loaders work on, with the file
 * reading taken out: a CSV file is an input value (missing, unreadable,
 * or present with a set of column names and rows of optional fields),
 * and the pandas operations the loaders use are written out on rows.
 */
module Frames {
  import opened Wrappers

  const LATENCY: string := "Latency (s)"
  const ITERATION: string := "Iteration"
  const USER_INDEX: string := "UserIndex"
  const TX_HASH: string := "Transaction Hash"
  const GAS_PRICE: string := "Gas Price (Gwei)"
  const BLOCK_BYTES: string := "Block Size (bytes)"
  const BLOCK_KB: string := "Block Size (KB)"
  const TX_COUNT: string := "Transaction Count"

  /** The `usecols` every loader asks of a block file. */
  const BLOCK_COLUMNS: set<string> := {GAS_PRICE, BLOCK_BYTES, TX_COUNT, TX_HASH}

  /**
   * A row of a latency file, or of a latency frame. `latency` is the
   * value under the file's declared latency column (renamed to
   * "Latency (s)" once selected); a field is None where the value is
   * missing or the column is not part of the frame.
   */
  datatype LatencyRow = LatencyRow(latency: Option<real>, iteration: Option<int>, userIndex: Option<int>, hash: Option<string>)

  /** A row of a block file. */
  datatype BlockRecord = BlockRecord(gasPrice: Option<real>, blockBytes: Option<real>, txCount: Option<int>, hash: Option<string>)

  /** A row of the gas frame; `blockSize` is in KB or in bytes, as the loader decides. */
  datatype GasRow = GasRow(gasPrice: Option<real>, blockSize: Option<real>, txCount: Option<int>, hash: Option<string>)

  /** What `os.path.exists` and `pd.read_csv` make of one path. */
  datatype CsvFile<R> = Missing | Unreadable | Csv(columns: set<string>, rows: seq<R>)

  /** One entry of `data_files`: the file and the name of its latency column. */
  datatype DataFile = DataFile(latencyColumn: string, file: CsvFile<LatencyRow>)

  /** A latency frame: its columns (a subset of Latency, Iteration, UserIndex, Transaction Hash) and rows. */
  datatype LatencyFrame = LatencyFrame(columns: set<string>, rows: seq<LatencyRow>)

  /** A merged row: the gas half and the latency half side by side. */
  datatype MergedRow = MergedRow(gas: GasRow, latency: LatencyRow)

  /** A merged frame; its latency columns decide which latency fields `dropna` looks at. */
  datatype MergedFrame = MergedFrame(latencyColumns: set<string>, rows: seq<MergedRow>)

  /** `pd.DataFrame()` */
  const EMPTY_FRAME: MergedFrame := MergedFrame({}, [])

  /** Why a loader without a `try` stops: a file it could not read, or a column it asked for that is absent (a KeyError). */
  datatype LoadError = ReadFailed | MissingColumn

  // ---------------------------------------------------------------------
  // Column selection and filtering
  // ---------------------------------------------------------------------

  /** `df[columns]` on one row: the fields of absent columns become None. */
  function SelectRow(r: LatencyRow, columns: set<string>): LatencyRow
  {
    LatencyRow(
      if LATENCY in columns then r.latency else None,
      if ITERATION in columns then r.iteration else None,
      if USER_INDEX in columns then r.userIndex else None,
      if TX_HASH in columns then r.hash else None)
  }

  function Select(rows: seq<LatencyRow>, columns: set<string>): (r: seq<LatencyRow>)
    ensures |r| == |rows|
    ensures forall i :: 0 <= i < |r| ==> r[i] == SelectRow(rows[i], columns)
  {
    if |rows| == 0 then [] else Select(rows[..|rows| - 1], columns) + [SelectRow(rows[|rows| - 1], columns)]
  }

  /** `df.dropna(subset=['Transaction Hash'])` */
  function DropMissingHash(rows: seq<LatencyRow>): (r: seq<LatencyRow>)
    ensures |r| <= |rows|
  {
    if |rows| == 0 then []
    else DropMissingHash(rows[..|rows| - 1]) + (if rows[|rows| - 1].hash.Some? then [rows[|rows| - 1]] else [])
  }

  /** The hash filter keeps exactly the rows with a hash, in their order. */
  lemma {:induction false} DropMissingHashKeeps(rows: seq<LatencyRow>)
    ensures forall r :: r in DropMissingHash(rows) <==> r in rows && r.hash.Some?
  {
    if |rows| > 0 {
      DropMissingHashKeeps(rows[..|rows| - 1]);
      assert forall r :: r in rows <==> r in rows[..|rows| - 1] || r == rows[|rows| - 1];
    }
  }

  /** `data['Block Size (KB)'] = data['Block Size (bytes)'] / 1024`, then the four selected columns. */
  function ToKB(rows: seq<BlockRecord>): (r: seq<GasRow>)
    ensures |r| == |rows|
    ensures forall i :: 0 <= i < |r| ==>
              r[i].gasPrice == rows[i].gasPrice && r[i].txCount == rows[i].txCount && r[i].hash == rows[i].hash
              && (r[i].blockSize.Some? <==> rows[i].blockBytes.Some?)
              && (r[i].blockSize.Some? ==> r[i].blockSize.value * 1024.0 == rows[i].blockBytes.value)
  {
    if |rows| == 0 then []
    else
      var b := rows[|rows| - 1];
      ToKB(rows[..|rows| - 1])
      + [GasRow(b.gasPrice, if b.blockBytes.Some? then Some(b.blockBytes.value / 1024.0) else None, b.txCount, b.hash)]
  }

  /** The four selected block columns, with the size left in bytes. */
  function KeepBytes(rows: seq<BlockRecord>): (r: seq<GasRow>)
    ensures |r| == |rows|
    ensures forall i :: 0 <= i < |r| ==>
              r[i] == GasRow(rows[i].gasPrice, rows[i].blockBytes, rows[i].txCount, rows[i].hash)
  {
    if |rows| == 0 then []
    else
      var b := rows[|rows| - 1];
      KeepBytes(rows[..|rows| - 1]) + [GasRow(b.gasPrice, b.blockBytes, b.txCount, b.hash)]
  }

  // ---------------------------------------------------------------------
  // Concatenation
  // ---------------------------------------------------------------------

  /** `pd.concat(frames, ignore_index=True)`: the union of the columns and the rows one after another. */
  function ConcatFrames(frames: seq<LatencyFrame>): (f: LatencyFrame)
    ensures |f.rows| == 0 <==> forall i :: 0 <= i < |frames| ==> |frames[i].rows| == 0
  {
    if |frames| == 0 then LatencyFrame({}, [])
    else
      var init := ConcatFrames(frames[..|frames| - 1]);
      var last := frames[|frames| - 1];
      LatencyFrame(init.columns + last.columns, init.rows + last.rows)
  }

  /** The concatenated frame carries a column exactly when one of the frames does. */
  lemma {:induction false} ConcatFramesColumns(frames: seq<LatencyFrame>, c: string)
    ensures c in ConcatFrames(frames).columns <==> exists i :: 0 <= i < |frames| && c in frames[i].columns
  {
    if |frames| > 0 {
      var init := frames[..|frames| - 1];
      ConcatFramesColumns(init, c);
      if exists i :: 0 <= i < |init| && c in init[i].columns {
        var i :| 0 <= i < |init| && c in init[i].columns;
        assert frames[i] == init[i];
      }
      if exists i :: 0 <= i < |frames| && c in frames[i].columns {
        var i :| 0 <= i < |frames| && c in frames[i].columns;
        if i < |init| {
          assert init[i] == frames[i];
        }
      }
    }
  }

  /** The concatenated frame holds a row exactly when one of the frames does. */
  lemma {:induction false} ConcatFramesRows(frames: seq<LatencyFrame>, r: LatencyRow)
    ensures r in ConcatFrames(frames).rows <==> exists i :: 0 <= i < |frames| && r in frames[i].rows
  {
    if |frames| > 0 {
      var init := frames[..|frames| - 1];
      ConcatFramesRows(init, r);
      if exists i :: 0 <= i < |init| && r in init[i].rows {
        var i :| 0 <= i < |init| && r in init[i].rows;
        assert frames[i] == init[i];
      }
      if exists i :: 0 <= i < |frames| && r in frames[i].rows {
        var i :| 0 <= i < |frames| && r in frames[i].rows;
        if i < |init| {
          assert init[i] == frames[i];
        }
      }
    }
  }

  /** `pd.concat` of the gas frames. */
  function ConcatRows(parts: seq<seq<GasRow>>): (rows: seq<GasRow>)
    ensures |rows| == 0 <==> forall i :: 0 <= i < |parts| ==> |parts[i]| == 0
  {
    if |parts| == 0 then [] else ConcatRows(parts[..|parts| - 1]) + parts[|parts| - 1]
  }

  // ---------------------------------------------------------------------
  // dropna on the merged frame
  // ---------------------------------------------------------------------

  predicate GasComplete(g: GasRow)
  {
    g.gasPrice.Some? && g.blockSize.Some? && g.txCount.Some? && g.hash.Some?
  }

  /** No latency field of a column the frame carries is missing. */
  predicate LatencyComplete(columns: set<string>, l: LatencyRow)
  {
    (LATENCY in columns ==> l.latency.Some?)
    && (ITERATION in columns ==> l.iteration.Some?)
    && (USER_INDEX in columns ==> l.userIndex.Some?)
    && (TX_HASH in columns ==> l.hash.Some?)
  }

  predicate Complete(columns: set<string>, r: MergedRow)
  {
    GasComplete(r.gas) && LatencyComplete(columns, r.latency)
  }

  /** `.dropna()`: keeps the rows with no missing field, in order. */
  function DropIncomplete(columns: set<string>, rows: seq<MergedRow>): (r: seq<MergedRow>)
    ensures |r| <= |rows|
  {
    if |rows| == 0 then []
    else DropIncomplete(columns, rows[..|rows| - 1]) + (if Complete(columns, rows[|rows| - 1]) then [rows[|rows| - 1]] else [])
  }

  /** dropna keeps exactly the complete rows. */
  lemma {:induction false} DropIncompleteKeeps(columns: set<string>, rows: seq<MergedRow>)
    ensures forall r :: r in DropIncomplete(columns, rows) <==> r in rows && Complete(columns, r)
  {
    if |rows| > 0 {
      DropIncompleteKeeps(columns, rows[..|rows| - 1]);
      assert forall r :: r in rows <==> r in rows[..|rows| - 1] || r == rows[|rows| - 1];
    }
  }

  lemma {:induction false} DropIncompleteAppend(columns: set<string>, a: seq<MergedRow>, b: seq<MergedRow>)
    ensures DropIncomplete(columns, a + b) == DropIncomplete(columns, a) + DropIncomplete(columns, b)
  {
    if |b| == 0 {
      assert a + b == a;
    } else {
      DropIncompleteAppend(columns, a, b[..|b| - 1]);
      assert (a + b)[..|a + b| - 1] == a + b[..|b| - 1];
    }
  }

  /** Rows that are all incomplete leave nothing behind. */
  lemma {:induction false} DropIncompleteNone(columns: set<string>, rows: seq<MergedRow>)
    requires forall i :: 0 <= i < |rows| ==> !Complete(columns, rows[i])
    ensures DropIncomplete(columns, rows) == []
  {
    if |rows| > 0 {
      DropIncompleteNone(columns, rows[..|rows| - 1]);
    }
  }

  // ---------------------------------------------------------------------
  // The positional merge
  // ---------------------------------------------------------------------

  /** The NaN padding `pd.concat(axis=1)` puts beside the rows of the longer frame. */
  const NO_GAS: GasRow := GasRow(None, None, None, None)
  const NO_LATENCY: LatencyRow := LatencyRow(None, None, None, None)

  /** `pd.concat([gas, latency], axis=1)` on two frames indexed 0..n-1: row i beside row i, padded to the longer one. */
  function PositionalConcat(gas: seq<GasRow>, latency: seq<LatencyRow>): (r: seq<MergedRow>)
    ensures |r| == if |gas| >= |latency| then |gas| else |latency|
    ensures forall i :: 0 <= i < |r| ==>
              r[i] == MergedRow(if i < |gas| then gas[i] else NO_GAS, if i < |latency| then latency[i] else NO_LATENCY)
  {
    var n := if |gas| >= |latency| then |gas| else |latency|;
    seq(n, i requires 0 <= i < n =>
      MergedRow(if i < |gas| then gas[i] else NO_GAS, if i < |latency| then latency[i] else NO_LATENCY))
  }

  /** Row i beside row i, for the rows both frames have. */
  function Zip(gas: seq<GasRow>, latency: seq<LatencyRow>): (r: seq<MergedRow>)
    ensures |r| == if |gas| <= |latency| then |gas| else |latency|
    ensures forall i :: 0 <= i < |r| ==> r[i] == MergedRow(gas[i], latency[i])
  {
    var n := if |gas| <= |latency| then |gas| else |latency|;
    seq(n, i requires 0 <= i < n => MergedRow(gas[i], latency[i]))
  }

  /**
   * After dropna the padding is gone: the positional merge keeps the
   * complete pairs among the first min(#gas, #latency) rows, in order,
   * and so has at most min(#gas, #latency) rows.
   */
  lemma PositionalMergeIsZip(columns: set<string>, gas: seq<GasRow>, latency: seq<LatencyRow>)
    requires LATENCY in columns
    ensures DropIncomplete(columns, PositionalConcat(gas, latency)) == DropIncomplete(columns, Zip(gas, latency))
    ensures |DropIncomplete(columns, PositionalConcat(gas, latency))| <= |gas|
    ensures |DropIncomplete(columns, PositionalConcat(gas, latency))| <= |latency|
  {
    var padded := PositionalConcat(gas, latency);
    var zipped := Zip(gas, latency);
    assert padded == zipped + padded[|zipped|..];
    forall i | 0 <= i < |padded[|zipped|..]|
      ensures !Complete(columns, padded[|zipped|..][i])
    {
      assert padded[|zipped|..][i] == padded[|zipped| + i];
    }
    DropIncompleteAppend(columns, zipped, padded[|zipped|..]);
    DropIncompleteNone(columns, padded[|zipped|..]);
    assert zipped + [] == zipped;
  }

  // ---------------------------------------------------------------------
  // The hash merge
  // ---------------------------------------------------------------------

  /**
   * The latency rows one gas row joins with, in their order. pandas
   * matches a missing key with a missing key, so the keys are compared
   * as options.
   */
  function Matches(g: GasRow, latency: seq<LatencyRow>): (r: seq<MergedRow>)
    ensures |r| <= |latency|
    ensures forall m :: m in r ==> m.gas == g && m.latency in latency && m.latency.hash == g.hash
  {
    if |latency| == 0 then []
    else
      var l := latency[|latency| - 1];
      Matches(g, latency[..|latency| - 1]) + (if l.hash == g.hash then [MergedRow(g, l)] else [])
  }

  /** `pd.merge(gas, latency, on='Transaction Hash', how='inner')`: each gas row with each matching latency row. */
  function HashJoin(gas: seq<GasRow>, latency: seq<LatencyRow>): seq<MergedRow>
  {
    if |gas| == 0 then [] else HashJoin(gas[..|gas| - 1], latency) + Matches(gas[|gas| - 1], latency)
  }

  lemma {:induction false} MatchesComplete(g: GasRow, latency: seq<LatencyRow>, l: LatencyRow)
    ensures MergedRow(g, l) in Matches(g, latency) <==> l in latency && l.hash == g.hash
  {
    if |latency| > 0 {
      MatchesComplete(g, latency[..|latency| - 1], l);
      assert forall x :: x in latency <==> x in latency[..|latency| - 1] || x == latency[|latency| - 1];
    }
  }

  /** The join holds exactly the pairs of a gas row and a latency row with the same key. */
  lemma {:induction false} HashJoinMembership(gas: seq<GasRow>, latency: seq<LatencyRow>, r: MergedRow)
    ensures r in HashJoin(gas, latency) <==> r.gas in gas && r.latency in latency && r.gas.hash == r.latency.hash
  {
    if |gas| > 0 {
      HashJoinMembership(gas[..|gas| - 1], latency, r);
      MatchesComplete(gas[|gas| - 1], latency, r.latency);
      assert forall x :: x in gas <==> x in gas[..|gas| - 1] || x == gas[|gas| - 1];
    }
  }

  /** The number of latency rows carrying a given key. */
  function CountHash(latency: seq<LatencyRow>, h: Option<string>): nat
  {
    if |latency| == 0 then 0
    else CountHash(latency[..|latency| - 1], h) + (if latency[|latency| - 1].hash == h then 1 else 0)
  }

  lemma {:induction false} MatchesCount(g: GasRow, latency: seq<LatencyRow>)
    ensures |Matches(g, latency)| == CountHash(latency, g.hash)
  {
    if |latency| > 0 {
      MatchesCount(g, latency[..|latency| - 1]);
    }
  }

  /** The number of joined rows: for each gas row, the number of latency rows with its key. */
  function JoinSize(gas: seq<GasRow>, latency: seq<LatencyRow>): nat
  {
    if |gas| == 0 then 0 else JoinSize(gas[..|gas| - 1], latency) + CountHash(latency, gas[|gas| - 1].hash)
  }

  lemma {:induction false} HashJoinSize(gas: seq<GasRow>, latency: seq<LatencyRow>)
    ensures |HashJoin(gas, latency)| == JoinSize(gas, latency)
  {
    if |gas| > 0 {
      HashJoinSize(gas[..|gas| - 1], latency);
      MatchesCount(gas[|gas| - 1], latency);
    }
  }

  /** After dropna every joined row has a hash, the same on both sides, and comes from both frames. */
  lemma HashMergeRows(columns: set<string>, gas: seq<GasRow>, latency: seq<LatencyRow>, r: MergedRow)
    requires r in DropIncomplete(columns, HashJoin(gas, latency))
    ensures r.gas in gas && r.latency in latency
    ensures r.gas.hash.Some? && r.gas.hash == r.latency.hash
    ensures Complete(columns, r)
  {
    DropIncompleteKeeps(columns, HashJoin(gas, latency));
    HashJoinMembership(gas, latency, r);
  }

  // ---------------------------------------------------------------------
  // groupby(keys).first()
  // ---------------------------------------------------------------------

  /** A group key: (Iteration, UserIndex), or (Iteration, 0) when grouping by Iteration alone. */
  datatype Key = Key(iteration: int, userIndex: int)

  predicate KeyLess(a: Key, b: Key)
  {
    a.iteration < b.iteration || (a.iteration == b.iteration && a.userIndex < b.userIndex)
  }

  predicate StrictlySorted(keys: seq<Key>)
  {
    forall i, j :: 0 <= i < j < |keys| ==> KeyLess(keys[i], keys[j])
  }

  /** The key of a row; a row with a missing key column has none (groupby drops it). */
  function KeyOf(r: LatencyRow, byUser: bool): Option<Key>
  {
    if r.iteration.None? then None
    else if !byUser then Some(Key(r.iteration.value, 0))
    else if r.userIndex.None? then None
    else Some(Key(r.iteration.value, r.userIndex.value))
  }

  /** Inserts a key into a sorted key list unless it is already there. */
  function InsertKey(keys: seq<Key>, k: Key): (r: seq<Key>)
    requires StrictlySorted(keys)
    ensures StrictlySorted(r)
    ensures forall x :: x in r <==> x in keys || x == k
  {
    if |keys| == 0 then [k]
    else if k == keys[0] then keys
    else if KeyLess(k, keys[0]) then [k] + keys
    else
      var rest := InsertKey(keys[1..], k);
      assert forall x :: x in keys <==> x == keys[0] || x in keys[1..];
      assert KeyLess(keys[0], k);
      assert forall x :: x in rest ==> KeyLess(keys[0], x) by {
        forall x | x in rest ensures KeyLess(keys[0], x) {
          if x in keys[1..] {
            var j :| 0 <= j < |keys[1..]| && keys[1..][j] == x;
            assert keys[j + 1] == x;
          }
        }
      }
      [keys[0]] + rest
  }

  /** The sorted distinct keys of the rows: the index of `groupby(...).first()`. */
  function SortedKeys(rows: seq<LatencyRow>, byUser: bool): (keys: seq<Key>)
    ensures StrictlySorted(keys)
  {
    if |rows| == 0 then []
    else
      var keys := SortedKeys(rows[..|rows| - 1], byUser);
      match KeyOf(rows[|rows| - 1], byUser)
      case None => keys
      case Some(k) => InsertKey(keys, k)
  }

  /** A key is in the group index exactly when some row has it. */
  lemma {:induction false} SortedKeysMembership(rows: seq<LatencyRow>, byUser: bool, k: Key)
    ensures k in SortedKeys(rows, byUser) <==> exists i :: 0 <= i < |rows| && KeyOf(rows[i], byUser) == Some(k)
  {
    if |rows| > 0 {
      var init := rows[..|rows| - 1];
      SortedKeysMembership(init, byUser, k);
      if exists i :: 0 <= i < |init| && KeyOf(init[i], byUser) == Some(k) {
        var i :| 0 <= i < |init| && KeyOf(init[i], byUser) == Some(k);
        assert rows[i] == init[i];
      }
      if exists i :: 0 <= i < |rows| && KeyOf(rows[i], byUser) == Some(k) {
        var i :| 0 <= i < |rows| && KeyOf(rows[i], byUser) == Some(k);
        if i < |init| {
          assert init[i] == rows[i];
        }
      }
    }
  }

  /** `.first()` on the latency column: the first non-missing latency among the rows of key k. */
  function FirstLatency(rows: seq<LatencyRow>, byUser: bool, k: Key): Option<real>
  {
    if |rows| == 0 then None
    else if KeyOf(rows[0], byUser) == Some(k) && rows[0].latency.Some? then rows[0].latency
    else FirstLatency(rows[1..], byUser, k)
  }

  /**
   * The first latency is the latency of the earliest row of key k that
   * has one, and it is missing only when no row of key k has one.
   */
  lemma {:induction false} FirstLatencyIsFirst(rows: seq<LatencyRow>, byUser: bool, k: Key)
    ensures FirstLatency(rows, byUser, k).None? <==>
              forall i :: 0 <= i < |rows| && KeyOf(rows[i], byUser) == Some(k) ==> rows[i].latency.None?
    ensures FirstLatency(rows, byUser, k).Some? ==>
              exists i :: 0 <= i < |rows| && KeyOf(rows[i], byUser) == Some(k)
                && rows[i].latency == FirstLatency(rows, byUser, k)
                && forall h :: 0 <= h < i && KeyOf(rows[h], byUser) == Some(k) ==> rows[h].latency.None?
  {
    if |rows| > 0 && !(KeyOf(rows[0], byUser) == Some(k) && rows[0].latency.Some?) {
      var tail := rows[1..];
      FirstLatencyIsFirst(tail, byUser, k);
      assert forall i :: 1 <= i < |rows| ==> rows[i] == tail[i - 1];
      if FirstLatency(tail, byUser, k).Some? {
        var i :| 0 <= i < |tail| && KeyOf(tail[i], byUser) == Some(k)
                 && tail[i].latency == FirstLatency(tail, byUser, k)
                 && forall h :: 0 <= h < i && KeyOf(tail[h], byUser) == Some(k) ==> tail[h].latency.None?;
        assert rows[i + 1] == tail[i];
      }
    }
  }

  /** The row `groupby(...).first().reset_index()` produces for one key. */
  function GroupRow(rows: seq<LatencyRow>, byUser: bool, k: Key): LatencyRow
  {
    LatencyRow(FirstLatency(rows, byUser, k), Some(k.iteration), if byUser then Some(k.userIndex) else None, None)
  }

  /**
   * `groupby(['Iteration', 'UserIndex']).first().reset_index()` (byUser)
   * or `groupby(['Iteration']).first().reset_index()`: one row per key,
   * in key order, carrying the key and its first latency. Only the
   * latency column of the other columns is modelled.
   */
  function GroupFirst(rows: seq<LatencyRow>, byUser: bool): (r: seq<LatencyRow>)
    ensures |r| == |SortedKeys(rows, byUser)|
    ensures forall i :: 0 <= i < |r| ==> r[i] == GroupRow(rows, byUser, SortedKeys(rows, byUser)[i])
  {
    var keys := SortedKeys(rows, byUser);
    seq(|keys|, i requires 0 <= i < |keys| => GroupRow(rows, byUser, keys[i]))
  }

  /**
   * Grouping leaves exactly one row per key present in the file, in
   * increasing key order, each carrying the key's first latency; a row
   * without UserIndex (or Iteration) belongs to no group.
   */
  lemma GroupFirstOneRowPerKey(rows: seq<LatencyRow>, byUser: bool)
    ensures var grouped := GroupFirst(rows, byUser);
      (forall i, j :: 0 <= i < j < |grouped| ==> KeyLess(KeyOf(grouped[i], byUser).value, KeyOf(grouped[j], byUser).value))
      && (forall i :: 0 <= i < |grouped| ==>
            (KeyOf(grouped[i], byUser).Some?
             && grouped[i].latency == FirstLatency(rows, byUser, KeyOf(grouped[i], byUser).value)))
      && (forall k :: (exists i :: 0 <= i < |rows| && KeyOf(rows[i], byUser) == Some(k)) <==>
            (exists i :: 0 <= i < |grouped| && KeyOf(grouped[i], byUser) == Some(k)))
  {
    var keys := SortedKeys(rows, byUser);
    var grouped := GroupFirst(rows, byUser);
    assert forall i :: 0 <= i < |grouped| ==> KeyOf(grouped[i], byUser) == Some(keys[i]) by {
      forall i | 0 <= i < |grouped|
        ensures KeyOf(grouped[i], byUser) == Some(keys[i])
      {
        if !byUser {
          assert keys[i].userIndex == 0 by {
            NoUserIndexKeys(rows, keys[i]);
          }
        }
      }
    }
    forall k
      ensures (exists i :: 0 <= i < |rows| && KeyOf(rows[i], byUser) == Some(k)) <==>
              (exists i :: 0 <= i < |grouped| && KeyOf(grouped[i], byUser) == Some(k))
    {
      SortedKeysMembership(rows, byUser, k);
      if k in keys {
        var i :| 0 <= i < |keys| && keys[i] == k;
        assert KeyOf(grouped[i], byUser) == Some(k);
      }
    }
  }

  /** Grouping by Iteration alone gives every key UserIndex 0. */
  lemma NoUserIndexKeys(rows: seq<LatencyRow>, k: Key)
    requires k in SortedKeys(rows, false)
    ensures k.userIndex == 0
  {
    SortedKeysMembership(rows, false, k);
  }

  // ---------------------------------------------------------------------
  // The per-file loops
  // ---------------------------------------------------------------------

  /** The frames a loop over files appends, when a file that fails is skipped (the loop body sits in a `try`). */
  function Collect<F, T>(files: seq<F>, load: F -> Option<T>): (parts: seq<T>)
    ensures |parts| <= |files|
  {
    if |files| == 0 then []
    else Collect(files[..|files| - 1], load) + (match load(files[|files| - 1]) case None => [] case Some(t) => [t])
  }

  lemma {:induction false} CollectAppend<F, T>(a: seq<F>, b: seq<F>, load: F -> Option<T>)
    ensures Collect(a + b, load) == Collect(a, load) + Collect(b, load)
  {
    if |b| == 0 {
      assert a + b == a;
    } else {
      CollectAppend(a, b[..|b| - 1], load);
      assert (a + b)[..|a + b| - 1] == a + b[..|b| - 1];
    }
  }

  /** A file that contributes nothing (missing, unreadable, lacking a column) can be left out of the list. */
  lemma CollectSkips<F, T>(a: seq<F>, f: F, b: seq<F>, load: F -> Option<T>)
    requires load(f).None?
    ensures Collect(a + [f] + b, load) == Collect(a + b, load)
  {
    CollectAppend(a + [f], b, load);
    CollectAppend(a, [f], load);
    CollectAppend(a, b, load);
    assert [f][..0] == [];
  }

  /** A frame is collected exactly when some file loads to it. */
  lemma {:induction false} CollectMembership<F, T>(files: seq<F>, load: F -> Option<T>, t: T)
    ensures t in Collect(files, load) <==> exists i :: 0 <= i < |files| && load(files[i]) == Some(t)
  {
    if |files| > 0 {
      var init := files[..|files| - 1];
      CollectMembership(init, load, t);
      if exists i :: 0 <= i < |init| && load(init[i]) == Some(t) {
        var i :| 0 <= i < |init| && load(init[i]) == Some(t);
        assert files[i] == init[i];
      }
      if exists i :: 0 <= i < |files| && load(files[i]) == Some(t) {
        var i :| 0 <= i < |files| && load(files[i]) == Some(t);
        if i < |init| {
          assert init[i] == files[i];
        }
      }
    }
  }

  /** The frames a loop over files appends when an error escapes the loop: the first failing file ends it. */
  function CollectOrFail<F, T>(files: seq<F>, load: F -> Result<Option<T>, LoadError>): Result<seq<T>, LoadError>
  {
    if |files| == 0 then Ok([])
    else
      match CollectOrFail(files[..|files| - 1], load)
      case Err(e) => Err(e)
      case Ok(parts) =>
        match load(files[|files| - 1])
        case Err(e) => Err(e)
        case Ok(None) => Ok(parts)
        case Ok(Some(t)) => Ok(parts + [t])
  }

  /**
   * The loop succeeds exactly when every file loads; when it fails, the
   * error is that of a file all of whose predecessors loaded.
   */
  lemma {:induction false} CollectOrFailOutcome<F, T>(files: seq<F>, load: F -> Result<Option<T>, LoadError>)
    ensures CollectOrFail(files, load).Ok? <==> forall i :: 0 <= i < |files| ==> load(files[i]).Ok?
    ensures CollectOrFail(files, load).Err? ==>
              exists i :: 0 <= i < |files| && load(files[i]) == Err(CollectOrFail(files, load).error)
                && forall h :: 0 <= h < i ==> load(files[h]).Ok?
  {
    if |files| > 0 {
      var init := files[..|files| - 1];
      CollectOrFailOutcome(init, load);
      assert forall i :: 0 <= i < |init| ==> init[i] == files[i];
      if CollectOrFail(init, load).Err? {
        var i :| 0 <= i < |init| && load(init[i]) == Err(CollectOrFail(init, load).error)
                 && forall h :: 0 <= h < i ==> load(init[h]).Ok?;
        assert load(files[i]) == Err(CollectOrFail(files, load).error);
      }
    }
  }

  /** An error in a prefix is the error of the whole loop. */
  lemma {:induction false} CollectOrFailPrefixError<F, T>(files: seq<F>, load: F -> Result<Option<T>, LoadError>, n: nat)
    requires n <= |files|
    requires CollectOrFail(files[..n], load).Err?
    ensures CollectOrFail(files, load) == CollectOrFail(files[..n], load)
  {
    if n < |files| {
      assert files[..|files| - 1][..n] == files[..n];
      CollectOrFailPrefixError(files[..|files| - 1], load, n);
    } else {
      assert files[..n] == files;
    }
  }

  /** When the loop succeeds, a frame is collected exactly when some file loads to it. */
  lemma {:induction false} CollectOrFailMembership<F, T>(files: seq<F>, load: F -> Result<Option<T>, LoadError>, t: T)
    requires CollectOrFail(files, load).Ok?
    ensures t in CollectOrFail(files, load).value <==> exists i :: 0 <= i < |files| && load(files[i]) == Ok(Some(t))
  {
    if |files| > 0 {
      var init := files[..|files| - 1];
      CollectOrFailMembership(init, load, t);
      if exists i :: 0 <= i < |init| && load(init[i]) == Ok(Some(t)) {
        var i :| 0 <= i < |init| && load(init[i]) == Ok(Some(t));
        assert files[i] == init[i];
      }
      if exists i :: 0 <= i < |files| && load(files[i]) == Ok(Some(t)) {
        var i :| 0 <= i < |files| && load(files[i]) == Ok(Some(t));
        if i < |init| {
          assert init[i] == files[i];
        }
      }
    }
  }
}
