/**
  The device table of dbmgmt/dbmgmt.go: `countRowsOfDevice`, `UpsertDevice`
  and `insertDevice`, over the `device_test` table seen as a sequence of rows
  (so that duplicate keys can be talked about). The connection is reduced to
  what its calls report: whether the ping and the count query fail.

  `UpsertDevice` is modelled twice: as written, where both branches are still
  empty and the table never changes, and as its doc comment describes it,
  update the last ping of an existing key or else insert a row.
*/
module DeviceStore {
  import opened Wrappers

  /** The identity of a row: client, device and message code. */
  datatype Key = Key(clientCode: string, deviceCode: string, msgCode: string)

  datatype Row = Row(key: Key, lastPing: string)

  type Table = seq<Row>

  /** The errors the driver reports for `PingContext` and for scanning the count (None: success). */
  datatype Connection = Connection(pingError: Option<string>, queryError: Option<string>)

  /** The anonymous struct `UpsertDevice` receives. */
  datatype DeviceMsg = DeviceMsg(
    clientCode: string,
    deviceCode: string,
    reportFileProcessed: string,
    currentTime: string,
    msgRaw: bool,
    msgCode: string)

  /** `(int, error)` as `countRowsOfDevice` returns it. */
  datatype Count = Count(total: int, err: Option<string>)

  /** What an upsert returns, with the table after it. */
  datatype Write = Write(err: Option<string>, table: Table)

  function KeyOf(msg: DeviceMsg): Key {
    Key(msg.clientCode, msg.deviceCode, msg.msgCode)
  }

  predicate Healthy(conn: Connection) {
    conn.pingError.None? && conn.queryError.None?
  }

  // ---------------------------------------------------------------- counting

  /** `SELECT COUNT(1) ... WHERE client_code = .. AND device_code = .. AND msg_code = ..`, row by row. */
  function CountMatching(t: Table, k: Key): nat {
    if |t| == 0 then 0
    else CountMatching(t[..|t| - 1], k) + (if t[|t| - 1].key == k then 1 else 0)
  }

  /** The positions of the rows carrying key `k`. */
  function MatchingIndices(t: Table, k: Key): set<nat> {
    set i: nat | i < |t| && t[i].key == k
  }

  predicate HasKey(t: Table, k: Key) {
    exists i :: 0 <= i < |t| && t[i].key == k
  }

  /** At most one row per key. */
  predicate UniqueKeys(t: Table) {
    forall i, j :: 0 <= i < j < |t| ==> t[i].key != t[j].key
  }

  /** The count the query returns is the number of rows whose three columns all match. */
  lemma {:induction false} CountIsMatchingRows(t: Table, k: Key)
    ensures CountMatching(t, k) == |MatchingIndices(t, k)|
  {
    if |t| > 0 {
      var init := t[..|t| - 1];
      CountIsMatchingRows(init, k);
      var last := |t| - 1;
      if t[last].key == k {
        assert MatchingIndices(t, k) == MatchingIndices(init, k) + {last};
        assert last !in MatchingIndices(init, k);
      } else {
        assert MatchingIndices(t, k) == MatchingIndices(init, k);
      }
    }
  }

  /** No matching row counts zero, some matching row counts at least one. */
  lemma {:induction false} CountZeroIffAbsent(t: Table, k: Key)
    ensures CountMatching(t, k) == 0 <==> !HasKey(t, k)
  {
    if |t| > 0 {
      var init := t[..|t| - 1];
      CountZeroIffAbsent(init, k);
      if HasKey(init, k) {
        var i :| 0 <= i < |init| && init[i].key == k;
        assert t[i].key == k;
      }
      if HasKey(t, k) && t[|t| - 1].key != k {
        var i :| 0 <= i < |t| && t[i].key == k;
        assert init[i].key == k;
      }
    }
  }

  /** Under the uniqueness invariant a key is counted at most once. */
  lemma {:induction false} CountAtMostOne(t: Table, k: Key)
    requires UniqueKeys(t)
    ensures CountMatching(t, k) <= 1
  {
    if |t| > 0 {
      var init := t[..|t| - 1];
      CountAtMostOne(init, k);
      if t[|t| - 1].key == k {
        CountZeroIffAbsent(init, k);
        assert !HasKey(init, k) by {
          forall i | 0 <= i < |init|
            ensures init[i].key != k
          {
            assert t[i].key != t[|t| - 1].key;
          }
        }
      }
    }
  }

  /**
    `countRowsOfDevice`: -1 and the error when the ping or the query fails,
    otherwise the number of rows with that client, device and message code.
  */
  function CountRowsOfDevice(conn: Connection, t: Table, clientCode: string, deviceCode: string, msgCode: string): (r: Count)
    ensures r.err.Some? <==> !Healthy(conn)
    ensures r.err.Some? ==> r.total == -1
    ensures conn.pingError.Some? ==> r.err == conn.pingError
    ensures conn.pingError.None? && conn.queryError.Some? ==> r.err == conn.queryError
    ensures r.err.None? ==> r.total == |MatchingIndices(t, Key(clientCode, deviceCode, msgCode))|
    ensures r.err.None? ==> (r.total > 0 <==> HasKey(t, Key(clientCode, deviceCode, msgCode)))
  {
    if conn.pingError.Some? then Count(-1, conn.pingError)
    else if conn.queryError.Some? then Count(-1, conn.queryError)
    else
      var k := Key(clientCode, deviceCode, msgCode);
      CountIsMatchingRows(t, k);
      CountZeroIffAbsent(t, k);
      Count(CountMatching(t, k), None)
  }

  // ---------------------------------------------------------------- writing

  /** The update branch as documented: every row with key `k` gets last ping `ping`. */
  function UpdateLastPing(t: Table, k: Key, ping: string): (r: Table)
    ensures |r| == |t|
  {
    seq(|t|, i requires 0 <= i < |t| => if t[i].key == k then t[i].(lastPing := ping) else t[i])
  }

  /** The insert branch as documented: one new row with key `k`. */
  function InsertDevice(t: Table, k: Key, ping: string): (r: Table)
    ensures |r| == |t| + 1
  {
    t + [Row(k, ping)]
  }

  /**
    `insertDevice` as written: its body is a placeholder that reports success
    and writes nothing. Nothing in these files calls it; it is kept to record
    the stub next to the documented insert (`InsertDevice`).
  */
  function InsertDeviceAsWritten(t: Table, k: Key): (w: Write)
    ensures w.err.None? && w.table == t
  {
    Write(None, t)
  }

  /**
    `UpsertDevice` as its doc comment describes it: the count's error is
    returned with the table untouched; otherwise an existing key has its last
    ping set to the message's report date, and an absent key is inserted.
  */
  function UpsertDevice(conn: Connection, t: Table, msg: DeviceMsg): (w: Write)
    ensures w.err.Some? <==> !Healthy(conn)
    ensures w.err.Some? ==> w.table == t
    ensures w.err.None? ==> |w.table| == |t| + (if HasKey(t, KeyOf(msg)) then 0 else 1)
  {
    var count := CountRowsOfDevice(conn, t, msg.clientCode, msg.deviceCode, msg.msgCode);
    if count.err.Some? then Write(count.err, t)
    else if count.total > 0 then Write(None, UpdateLastPing(t, KeyOf(msg), msg.reportFileProcessed))
    else Write(None, InsertDevice(t, KeyOf(msg), msg.reportFileProcessed))
  }

  /**
    `UpsertDevice` as written: the count runs and its error is returned, but
    both branches are still empty, so the table never changes.
  */
  function UpsertDeviceAsWritten(conn: Connection, t: Table, msg: DeviceMsg): (w: Write)
    ensures w.err.Some? <==> !Healthy(conn)
    ensures w.err == CountRowsOfDevice(conn, t, msg.clientCode, msg.deviceCode, msg.msgCode).err
    ensures w.table == t
  {
    var count := CountRowsOfDevice(conn, t, msg.clientCode, msg.deviceCode, msg.msgCode);
    if count.err.Some? then Write(count.err, t)
    else Write(None, t)
  }

  // ---------------------------------------------------------------- properties of the documented upsert

  /** The rows whose key is not `k`, in order. */
  function RowsOtherThan(t: Table, k: Key): Table {
    if |t| == 0 then []
    else RowsOtherThan(t[..|t| - 1], k) + (if t[|t| - 1].key == k then [] else [t[|t| - 1]])
  }

  /** A failed count is returned as the upsert's error and nothing is written. */
  lemma UpsertCountFailure(conn: Connection, t: Table, msg: DeviceMsg)
    requires !Healthy(conn)
    ensures UpsertDevice(conn, t, msg).err == CountRowsOfDevice(conn, t, msg.clientCode, msg.deviceCode, msg.msgCode).err
    ensures UpsertDevice(conn, t, msg).err.Some?
    ensures UpsertDevice(conn, t, msg).table == t
  {
  }

  /** Existing key: exactly that row changes, and only in its last ping. */
  lemma UpsertExisting(conn: Connection, t: Table, msg: DeviceMsg)
    requires Healthy(conn) && UniqueKeys(t) && HasKey(t, KeyOf(msg))
    ensures var w := UpsertDevice(conn, t, msg);
      && w.err.None?
      && |w.table| == |t|
      && exists j :: 0 <= j < |t| && t[j].key == KeyOf(msg)
           && w.table[j] == Row(KeyOf(msg), msg.reportFileProcessed)
           && (forall i :: 0 <= i < |t| && i != j ==> w.table[i] == t[i])
  {
    var k := KeyOf(msg);
    var w := UpsertDevice(conn, t, msg);
    var j :| 0 <= j < |t| && t[j].key == k;
    assert w.table == UpdateLastPing(t, k, msg.reportFileProcessed);
    forall i | 0 <= i < |t| && i != j
      ensures w.table[i] == t[i]
    {
      if i < j { assert t[i].key != t[j].key; } else { assert t[j].key != t[i].key; }
    }
  }

  /** Absent key: exactly one row with that key is appended. */
  lemma UpsertAbsent(conn: Connection, t: Table, msg: DeviceMsg)
    requires Healthy(conn) && !HasKey(t, KeyOf(msg))
    ensures UpsertDevice(conn, t, msg) == Write(None, t + [Row(KeyOf(msg), msg.reportFileProcessed)])
    ensures CountMatching(UpsertDevice(conn, t, msg).table, KeyOf(msg)) == 1
  {
    var t' := t + [Row(KeyOf(msg), msg.reportFileProcessed)];
    assert t'[..|t'| - 1] == t;
    CountZeroIffAbsent(t, KeyOf(msg));
  }

  lemma {:induction false} UpdateKeepsOthers(t: Table, k: Key, ping: string)
    ensures RowsOtherThan(UpdateLastPing(t, k, ping), k) == RowsOtherThan(t, k)
  {
    if |t| > 0 {
      var init := t[..|t| - 1];
      var u := UpdateLastPing(t, k, ping);
      assert u[..|u| - 1] == UpdateLastPing(init, k, ping);
      UpdateKeepsOthers(init, k, ping);
    }
  }

  /** Whatever the upsert does, the rows with any other key are exactly as before. */
  lemma UpsertLeavesOtherKeys(conn: Connection, t: Table, msg: DeviceMsg)
    ensures RowsOtherThan(UpsertDevice(conn, t, msg).table, KeyOf(msg)) == RowsOtherThan(t, KeyOf(msg))
  {
    var k := KeyOf(msg);
    var w := UpsertDevice(conn, t, msg);
    if w.table == UpdateLastPing(t, k, msg.reportFileProcessed) {
      UpdateKeepsOthers(t, k, msg.reportFileProcessed);
    } else if w.table != t {
      var t' := t + [Row(k, msg.reportFileProcessed)];
      assert w.table == t';
      assert t'[..|t'| - 1] == t;
    }
  }

  /** The upsert keeps at most one row per key. */
  lemma UpsertPreservesUniqueKeys(conn: Connection, t: Table, msg: DeviceMsg)
    requires UniqueKeys(t)
    ensures UniqueKeys(UpsertDevice(conn, t, msg).table)
  {
    var k := KeyOf(msg);
    var w := UpsertDevice(conn, t, msg);
    if Healthy(conn) && !HasKey(t, k) {
      var t' := t + [Row(k, msg.reportFileProcessed)];
      assert w.table == t';
      forall i, j | 0 <= i < j < |t'|
        ensures t'[i].key != t'[j].key
      {
        if j == |t| {
          assert t[i].key != k;
        }
      }
    }
  }

  lemma UpdateIdempotent(t: Table, k: Key, ping: string)
    ensures UpdateLastPing(UpdateLastPing(t, k, ping), k, ping) == UpdateLastPing(t, k, ping)
  {
  }

  lemma UpdateWithoutKey(t: Table, k: Key, ping: string)
    requires !HasKey(t, k)
    ensures UpdateLastPing(t, k, ping) == t
  {
  }

  /** Applying the same message twice leaves the table as applying it once. */
  lemma UpsertIdempotent(conn: Connection, t: Table, msg: DeviceMsg)
    ensures UpsertDevice(conn, UpsertDevice(conn, t, msg).table, msg) == UpsertDevice(conn, t, msg)
  {
    var k := KeyOf(msg);
    var p := msg.reportFileProcessed;
    var once := UpsertDevice(conn, t, msg).table;
    if !Healthy(conn) {
      assert once == t;
    } else if HasKey(t, k) {
      assert once == UpdateLastPing(t, k, p);
      var j :| 0 <= j < |t| && t[j].key == k;
      assert once[j].key == k;
      UpdateIdempotent(t, k, p);
    } else {
      assert once == t + [Row(k, p)];
      assert once[|t|].key == k;
      var u := UpdateLastPing(once, k, p);
      UpdateWithoutKey(t, k, p);
      assert u == once by {
        forall i | 0 <= i < |once|
          ensures u[i] == once[i]
        {
          if i < |t| { assert once[i] == t[i]; }
        }
      }
    }
  }

  /** After a successful upsert the table has a row for the key carrying the message's report date. */
  lemma UpsertRecordsPing(conn: Connection, t: Table, msg: DeviceMsg)
    requires Healthy(conn)
    ensures var w := UpsertDevice(conn, t, msg);
      exists i :: 0 <= i < |w.table| && w.table[i] == Row(KeyOf(msg), msg.reportFileProcessed)
  {
    var k := KeyOf(msg);
    var w := UpsertDevice(conn, t, msg);
    if HasKey(t, k) {
      var j :| 0 <= j < |t| && t[j].key == k;
      assert w.table[j] == Row(k, msg.reportFileProcessed);
    } else {
      assert w.table[|t|] == Row(k, msg.reportFileProcessed);
    }
  }

  // ---------------------------------------------------------------- the code as written

  /**
    As written, a successful upsert for a device the table has never seen
    reports success and still leaves no row for it, where the documented
    behaviour inserts one.
  */
  lemma AsWrittenDropsNewDevice(conn: Connection, msg: DeviceMsg)
    requires Healthy(conn)
    ensures UpsertDeviceAsWritten(conn, [], msg) == Write(None, [])
    ensures !HasKey(UpsertDeviceAsWritten(conn, [], msg).table, KeyOf(msg))
    ensures HasKey(UpsertDevice(conn, [], msg).table, KeyOf(msg))
  {
    UpsertRecordsPing(conn, [], msg);
  }
}
