/** Model of `DataLoaderPintos` (cache/DataLoader.py): it reads one or more trace
    tables, optionally keeps only the rows whose `boot/exec` column is 1, and
    concatenates their `blocksector` and `read/write` columns into two parallel
    sequences, `requests` and `operations`. */
module DataLoader {
  import opened TraceFormat

  /** The `progs` argument: a single path (a `str`) or a list of paths. Each path
      stands for the table that reading it produces. */
  datatype Progs = OnePath(table: Table) | PathList(tables: seq<Table>)

  /** The list of sources the constructor iterates over: a single path is
      turned into a one-element list. */
  function Sources(progs: Progs): (ts: seq<Table>)
    ensures progs.OnePath? ==> |ts| == 1 && ts[0] == progs.table
    ensures progs.PathList? ==> ts == progs.tables
  {
    match progs
    case OnePath(t) => [t]
    case PathList(ts) => ts
  }

  /** `df.loc[df['boot/exec'] == 1, :]`: the rows whose boot/exec column is 1,
      in their original order. */
  function BootRows(t: Table): (r: Table)
    ensures |r| <= |t|
  {
    if t == [] then [] else (if t[0].bootExec == BOOT then [t[0]] else []) + BootRows(t[1..])
  }

  /** The filter applied to one source: nothing when `boot` is set, the boot
      rows otherwise. */
  function Select(t: Table, boot: bool): (r: Table)
    ensures boot ==> r == t
    ensures |r| <= |t|
  {
    if boot then t else BootRows(t)
  }

  /** All rows the constructor appends, source after source. */
  function Load(ts: seq<Table>, boot: bool): (r: Table)
    ensures |r| <= |Concat(ts)|
  {
    if ts == [] then [] else Select(ts[0], boot) + Load(ts[1..], boot)
  }

  /** All rows of all sources, concatenated in order. */
  function Concat(ts: seq<Table>): Table
  {
    if ts == [] then [] else ts[0] + Concat(ts[1..])
  }

  /** `list(df['blocksector'])`. */
  function Blocksectors(rows: Table): (r: seq<int>)
    ensures |r| == |rows|
    ensures forall i :: 0 <= i < |rows| ==> r[i] == rows[i].blocksector
  {
    if rows == [] then [] else [rows[0].blocksector] + Blocksectors(rows[1..])
  }

  /** `list(df['read/write'])`. */
  function ReadWriteFlags(rows: Table): (r: seq<int>)
    ensures |r| == |rows|
    ensures forall i :: 0 <= i < |rows| ==> r[i] == rows[i].readWrite
  {
    if rows == [] then [] else [rows[0].readWrite] + ReadWriteFlags(rows[1..])
  }

  /** Taking the boot rows commutes with concatenation: the filter keeps the
      relative order of the rows it keeps. */
  lemma {:induction false} BootRowsAppend(a: Table, b: Table)
    ensures BootRows(a + b) == BootRows(a) + BootRows(b)
  {
    if a == [] {
      assert a + b == b;
    } else {
      var head := if a[0].bootExec == BOOT then [a[0]] else [];
      calc {
        BootRows(a + b);
        { assert (a + b)[0] == a[0]; assert (a + b)[1..] == a[1..] + b; }
        head + BootRows(a[1..] + b);
        { BootRowsAppend(a[1..], b); }
        head + (BootRows(a[1..]) + BootRows(b));
        (head + BootRows(a[1..])) + BootRows(b);
        BootRows(a) + BootRows(b);
      }
    }
  }

  /** A single row is kept exactly when its boot/exec column is 1. Together with
      BootRowsAppend this pins BootRows down completely. */
  lemma BootRowsSingle(x: Row)
    ensures BootRows([x]) == if x.bootExec == BOOT then [x] else []
  {
    assert [x][1..] == [];
  }

  /** A table made only of boot rows is kept whole. */
  lemma {:induction false} BootRowsOfBootOnly(t: Table)
    requires forall i :: 0 <= i < |t| ==> t[i].bootExec == BOOT
    ensures BootRows(t) == t
  {
    if t != [] {
      BootRowsOfBootOnly(t[1..]);
    }
  }

  /** A table without boot rows is dropped entirely. */
  lemma {:induction false} BootRowsOfNoBoot(t: Table)
    requires forall i :: 0 <= i < |t| ==> t[i].bootExec != BOOT
    ensures BootRows(t) == []
  {
    if t != [] {
      BootRowsOfNoBoot(t[1..]);
    }
  }

  /** Every kept row has boot/exec 1, and every row of the source with boot/exec 1
      is kept. */
  lemma {:induction false} BootRowsExactly(t: Table, x: Row)
    ensures x in BootRows(t) <==> x in t && x.bootExec == BOOT
  {
    if t != [] {
      BootRowsExactly(t[1..], x);
      assert t == [t[0]] + t[1..];
    }
  }

  /** Loading a list of sources split in two is loading each part and
      concatenating the results, in the order supplied. */
  lemma {:induction false} LoadAppend(a: seq<Table>, b: seq<Table>, boot: bool)
    ensures Load(a + b, boot) == Load(a, boot) + Load(b, boot)
  {
    if a == [] {
      assert a + b == b;
    } else {
      var head := Select(a[0], boot);
      calc {
        Load(a + b, boot);
        { assert (a + b)[0] == a[0]; assert (a + b)[1..] == a[1..] + b; }
        head + Load(a[1..] + b, boot);
        { LoadAppend(a[1..], b, boot); }
        head + (Load(a[1..], boot) + Load(b, boot));
        (head + Load(a[1..], boot)) + Load(b, boot);
      }
    }
  }

  lemma {:induction false} BlocksectorsAppend(a: Table, b: Table)
    ensures Blocksectors(a + b) == Blocksectors(a) + Blocksectors(b)
  {
    if a == [] {
      assert a + b == b;
    } else {
      calc {
        Blocksectors(a + b);
        { assert (a + b)[0] == a[0]; assert (a + b)[1..] == a[1..] + b; }
        [a[0].blocksector] + Blocksectors(a[1..] + b);
        { BlocksectorsAppend(a[1..], b); }
        [a[0].blocksector] + (Blocksectors(a[1..]) + Blocksectors(b));
        ([a[0].blocksector] + Blocksectors(a[1..])) + Blocksectors(b);
      }
    }
  }

  lemma {:induction false} ReadWriteFlagsAppend(a: Table, b: Table)
    ensures ReadWriteFlags(a + b) == ReadWriteFlags(a) + ReadWriteFlags(b)
  {
    if a == [] {
      assert a + b == b;
    } else {
      calc {
        ReadWriteFlags(a + b);
        { assert (a + b)[0] == a[0]; assert (a + b)[1..] == a[1..] + b; }
        [a[0].readWrite] + ReadWriteFlags(a[1..] + b);
        { ReadWriteFlagsAppend(a[1..], b); }
        [a[0].readWrite] + (ReadWriteFlags(a[1..]) + ReadWriteFlags(b));
        ([a[0].readWrite] + ReadWriteFlags(a[1..])) + ReadWriteFlags(b);
      }
    }
  }

  /** With `boot` set every row of every source is kept, in order; in particular
      the number of requests is the total number of rows. */
  lemma {:induction false} LoadWithBoot(ts: seq<Table>)
    ensures Load(ts, true) == Concat(ts)
    ensures |Load(ts, true)| == |Concat(ts)|
  {
    if ts != [] {
      LoadWithBoot(ts[1..]);
    }
  }

  /** Without `boot` the loader keeps exactly the boot/exec 1 rows of the
      concatenated sources, in order. */
  lemma {:induction false} LoadWithoutBoot(ts: seq<Table>)
    ensures Load(ts, false) == BootRows(Concat(ts))
  {
    if ts != [] {
      LoadWithoutBoot(ts[1..]);
      BootRowsAppend(ts[0], Concat(ts[1..]));
    }
  }

  /** Loading one source is selecting its rows. */
  lemma LoadSingle(t: Table, boot: bool)
    ensures Load([t], boot) == Select(t, boot)
  {
    assert [t][1..] == [];
    assert Load([t][1..], boot) == [];
  }

  /** A single path behaves as the one-element list holding it. */
  lemma LoadOnePath(t: Table, boot: bool)
    ensures Load(Sources(OnePath(t)), boot) == Load(Sources(PathList([t])), boot)
    ensures Load(Sources(OnePath(t)), boot) == Select(t, boot)
  {
    LoadSingle(t, boot);
  }

  /** A source whose filtered rows are empty contributes nothing, wherever it
      stands in the list, and causes no error. */
  lemma EmptySourceContributesNothing(a: seq<Table>, t: Table, b: seq<Table>, boot: bool)
    requires Select(t, boot) == []
    ensures Load(a + [t] + b, boot) == Load(a + b, boot)
  {
    LoadAppend(a + [t], b, boot);
    LoadAppend(a, [t], boot);
    LoadAppend(a, b, boot);
    LoadSingle(t, boot);
    assert Load(a + [t], boot) == Load(a, boot);
  }

  /** The loader's state: the two column sequences it builds. */
  class DataLoaderPintos {
    var requests: seq<int>
    var operations: seq<int>

    /** Starts from two empty sequences and, for each source in turn, appends
        the `blocksector` and `read/write` columns of its selected rows. */
    constructor (progs: Progs, boot: bool)
      ensures requests == Blocksectors(Load(Sources(progs), boot))
      ensures operations == ReadWriteFlags(Load(Sources(progs), boot))
      ensures |requests| == |operations|
    {
      requests := [];
      operations := [];
      new;
      var ts := Sources(progs);
      for k := 0 to |ts|
        invariant requests == Blocksectors(Load(ts[..k], boot))
        invariant operations == ReadWriteFlags(Load(ts[..k], boot))
      {
        var df := Select(ts[k], boot);
        assert ts[..k + 1] == ts[..k] + [ts[k]];
        LoadAppend(ts[..k], [ts[k]], boot);
        LoadSingle(ts[k], boot);
        BlocksectorsAppend(Load(ts[..k], boot), df);
        ReadWriteFlagsAppend(Load(ts[..k], boot), df);
        requests := requests + Blocksectors(df);
        operations := operations + ReadWriteFlags(df);
      }
      assert ts[..|ts|] == ts;
    }

    /** `get_requests`: the stored sequence, unchanged. */
    function GetRequests(): (r: seq<int>)
      reads this
      ensures r == requests
    {
      requests
    }

    /** `get_operations`: the stored sequence, unchanged. */
    function GetOperations(): (r: seq<int>)
      reads this
      ensures r == operations
    {
      operations
    }
  }
}
