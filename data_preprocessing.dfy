/** Model of the trace converters in dataPreprocessing.py. Each one turns a list
    of monitoring samples (bytes read and written per sample) into block-sector
    records: two per sample, the read first and then the write, with boot/exec
    set to 1 only for the first sample. They differ in how a byte count becomes
    a sector number: ceiling or truncating division by a block size, or the
    running total of bytes divided by 256. */
module DataPreprocessing {
  import opened TraceFormat

  /** The block size of `convert_monitoring_data` (the Pintos sector size). */
  const BLOCK_SIZE := 512
  /** The block size of `convert_with_cumulative_sectors`. */
  const CUMULATIVE_BLOCK_SIZE := 256

  /** One row of the monitoring table: its `disk_read` and `disk_write` columns. */
  datatype Sample = Sample(diskRead: int, diskWrite: int)

  /** Bounds of Euclidean division of a non-negative number. */
  lemma DivBounds(y: int, b: int)
    requires y >= 0 && b > 0
    ensures 0 <= y / b
    ensures (y / b) * b <= y < (y / b) * b + b
  {
    var q, r := y / b, y % b;
    assert y == q * b + r && 0 <= r < b;
  }

  /** `int(x / b)`: true division followed by `int`, which truncates toward zero. */
  function TruncDiv(x: int, b: int): (k: int)
    requires b > 0
    ensures x >= 0 ==> 0 <= k && k * b <= x < k * b + b
    ensures x < 0 ==> k <= 0 && (-k) * b <= -x < (-k) * b + b
  {
    if x >= 0 then
      DivBounds(x, b);
      x / b
    else
      DivBounds(-x, b);
      -((-x) / b)
  }

  /** `int(np.ceil(x / b)) if x > 0 else 0`: zero for a non-positive count,
      otherwise the least k with k * b >= x. */
  function CeilSectors(x: int, b: int): (k: int)
    requires b > 0
    ensures x <= 0 ==> k == 0
    ensures x > 0 ==> k >= 1 && k * b - b < x <= k * b
  {
    if x > 0 then
      DivBounds(x + b - 1, b);
      (x + b - 1) / b
    else 0
  }

  /** The two `conversion_func` lambdas of `convert_monitoring_data`. */
  datatype Conversion = Ceiling(blockSize: int) | Floor(blockSize: int)

  function Convert(c: Conversion, x: int): (k: int)
    requires c.blockSize > 0
    ensures x >= 0 ==> k >= 0
    ensures c.Ceiling? && x <= 0 ==> k == 0
    ensures c.Ceiling? && x > 0 ==> k >= 1 && k * c.blockSize >= x
    ensures c.Floor? && x >= 0 ==> k * c.blockSize <= x < k * c.blockSize + c.blockSize
  {
    match c
    case Ceiling(b) => CeilSectors(x, b)
    case Floor(b) => TruncDiv(x, b)
  }

  /** The choice between the lambdas: ceiling whenever either average byte count
      (over the positive values among the first 100 samples, 0 when there are
      none) is below two blocks. The averages are inputs here. */
  function ChooseConversion(avgRead: real, avgWrite: real): (c: Conversion)
    ensures c.blockSize == BLOCK_SIZE
    ensures c.Ceiling? <==> avgRead < (2 * BLOCK_SIZE) as real || avgWrite < (2 * BLOCK_SIZE) as real
  {
    var useCeiling := avgRead < (BLOCK_SIZE * 2) as real || avgWrite < (BLOCK_SIZE * 2) as real;
    if useCeiling then Ceiling(BLOCK_SIZE) else Floor(BLOCK_SIZE)
  }

  /** The `disk_read` column. */
  function Reads(samples: seq<Sample>): (r: seq<int>)
    ensures |r| == |samples|
    ensures forall i :: 0 <= i < |samples| ==> r[i] == samples[i].diskRead
  {
    if samples == [] then [] else [samples[0].diskRead] + Reads(samples[1..])
  }

  /** The `disk_write` column. */
  function Writes(samples: seq<Sample>): (r: seq<int>)
    ensures |r| == |samples|
    ensures forall i :: 0 <= i < |samples| ==> r[i] == samples[i].diskWrite
  {
    if samples == [] then [] else [samples[0].diskWrite] + Writes(samples[1..])
  }

  /** A column of byte counts converted value by value. */
  function ConvertColumn(c: Conversion, xs: seq<int>): (r: seq<int>)
    requires c.blockSize > 0
    ensures |r| == |xs|
    ensures forall i :: 0 <= i < |xs| ==> r[i] == Convert(c, xs[i])
  {
    if xs == [] then [] else [Convert(c, xs[0])] + ConvertColumn(c, xs[1..])
  }

  /** The sum of a sequence. */
  function Sum(xs: seq<int>): (total: int)
    ensures (forall i :: 0 <= i < |xs| ==> xs[i] >= 0) ==> total >= 0
  {
    if xs == [] then 0 else Sum(xs[..|xs| - 1]) + xs[|xs| - 1]
  }

  /** `(column.cumsum() / 256).astype(int)`: entry i is the total of the first
      i + 1 values, divided by 256 and truncated toward zero. */
  function CumulativeSectors(xs: seq<int>): (r: seq<int>)
    ensures |r| == |xs|
    ensures forall i :: 0 <= i < |xs| && Sum(xs[..i + 1]) >= 0 ==>
      r[i] * CUMULATIVE_BLOCK_SIZE <= Sum(xs[..i + 1]) < r[i] * CUMULATIVE_BLOCK_SIZE + CUMULATIVE_BLOCK_SIZE
  {
    seq(|xs|, i requires 0 <= i < |xs| => TruncDiv(Sum(xs[..i + 1]), CUMULATIVE_BLOCK_SIZE))
  }

  /** The boot/exec value of the records made from sample `i`. */
  function BootFlag(i: int): (flag: int)
    ensures flag == BOOT <==> i == 0
    ensures flag == BOOT || flag == EXEC
  {
    if i == 0 then BOOT else EXEC
  }

  /** Record `j` of a converted trace, given the read and write sector of every
      sample: even positions hold reads, odd positions writes, both for sample
      j / 2. */
  function RecordAt(readSectors: seq<int>, writeSectors: seq<int>, j: int): (row: Row)
    requires |readSectors| == |writeSectors|
    requires 0 <= j < 2 * |readSectors|
    ensures row.readWrite == READ <==> j % 2 == 0
    ensures row.bootExec == BOOT <==> j < 2
    ensures row.blocksector == if j % 2 == 0 then readSectors[j / 2] else writeSectors[j / 2]
  {
    var i := j / 2;
    if j % 2 == 0 then Row(readSectors[i], READ, BootFlag(i))
    else Row(writeSectors[i], WRITE, BootFlag(i))
  }

  /** `out` is the record list the converter loops build from the given sector
      columns. */
  ghost predicate Expansion(out: seq<Row>, readSectors: seq<int>, writeSectors: seq<int>)
    ensures Expansion(out, readSectors, writeSectors) ==> |out| == 2 * |readSectors| == 2 * |writeSectors|
  {
    && |readSectors| == |writeSectors|
    && |out| == 2 * |readSectors|
    && forall j :: 0 <= j < |out| ==> out[j] == RecordAt(readSectors, writeSectors, j)
  }

  /** What every converted trace looks like: 2·n records for n samples; a read
      record then a write record for each sample, carrying that sample's two
      sectors; boot/exec 1 on exactly the first two records. */
  lemma ExpansionShape(out: seq<Row>, readSectors: seq<int>, writeSectors: seq<int>)
    requires Expansion(out, readSectors, writeSectors)
    ensures |out| == 2 * |readSectors|
    ensures forall i :: 0 <= i < |readSectors| ==>
      out[2 * i] == Row(readSectors[i], READ, BootFlag(i)) &&
      out[2 * i + 1] == Row(writeSectors[i], WRITE, BootFlag(i))
    ensures forall j :: 0 <= j < |out| ==> out[j].readWrite == if j % 2 == 0 then READ else WRITE
    ensures forall j :: 0 <= j < |out| ==> (out[j].bootExec == BOOT <==> j < 2)
  {
    forall i | 0 <= i < |readSectors|
      ensures out[2 * i] == Row(readSectors[i], READ, BootFlag(i))
      ensures out[2 * i + 1] == Row(writeSectors[i], WRITE, BootFlag(i))
    {
      assert RecordAt(readSectors, writeSectors, 2 * i) == Row(readSectors[i], READ, BootFlag(i));
      assert RecordAt(readSectors, writeSectors, 2 * i + 1) == Row(writeSectors[i], WRITE, BootFlag(i));
    }
  }

  /** Appending the two records of sample `idx` to an expansion of the first
      `idx` samples gives an expansion of the first `idx + 1`. */
  lemma ExpansionStep(out: seq<Row>, rs: seq<int>, ws: seq<int>, idx: nat)
    requires |rs| == |ws| && idx < |rs|
    requires Expansion(out, rs[..idx], ws[..idx])
    ensures Expansion(out + [Row(rs[idx], READ, BootFlag(idx))] + [Row(ws[idx], WRITE, BootFlag(idx))],
                      rs[..idx + 1], ws[..idx + 1])
  {
    var out' := out + [Row(rs[idx], READ, BootFlag(idx))] + [Row(ws[idx], WRITE, BootFlag(idx))];
    forall j | 0 <= j < |out'|
      ensures out'[j] == RecordAt(rs[..idx + 1], ws[..idx + 1], j)
    {
      if j < |out| {
        assert out'[j] == out[j];
        assert RecordAt(rs[..idx], ws[..idx], j) == RecordAt(rs[..idx + 1], ws[..idx + 1], j);
      }
    }
  }

  /** What a converter produces. With no samples every converter fails, each at
      its own point: `convert_monitoring_data` after its loop, where the empty
      output table has no `blocksector` column for the statistics;
      `convert_with_smaller_blocksize` for the same reason, once it has written
      the empty output file; and `convert_with_cumulative_sectors` before its
      loop, where it reports the last entry of an empty cumulative column. */
  datatype Converted = Records(rows: seq<Row>) | NoColumns

  /** `convert_monitoring_data`: the conversion is chosen once from the two
      averages, then every sample yields its read record and its write record. */
  method ConvertMonitoringData(samples: seq<Sample>, avgRead: real, avgWrite: real) returns (r: Converted)
    ensures r.NoColumns? <==> samples == []
    ensures r.Records? ==> Expansion(r.rows,
                      ConvertColumn(ChooseConversion(avgRead, avgWrite), Reads(samples)),
                      ConvertColumn(ChooseConversion(avgRead, avgWrite), Writes(samples)))
  {
    var conversion := ChooseConversion(avgRead, avgWrite);
    ghost var rs := ConvertColumn(conversion, Reads(samples));
    ghost var ws := ConvertColumn(conversion, Writes(samples));
    var out := [];
    for idx := 0 to |samples|
      invariant Expansion(out, rs[..idx], ws[..idx])
    {
      var blocksectorRead := Convert(conversion, samples[idx].diskRead);
      var blocksectorWrite := Convert(conversion, samples[idx].diskWrite);
      var bootExec := if idx == 0 then BOOT else EXEC;
      ExpansionStep(out, rs, ws, idx);
      out := out + [Row(blocksectorRead, READ, bootExec)];
      out := out + [Row(blocksectorWrite, WRITE, bootExec)];
    }
    assert rs[..|samples|] == rs && ws[..|samples|] == ws;
    r := if samples == [] then NoColumns else Records(out);
  }

  /** `convert_with_smaller_blocksize`: ceiling division by `blockSize` (128
      by default) for every positive count. */
  method ConvertWithSmallerBlocksize(samples: seq<Sample>, blockSize: int) returns (r: Converted)
    requires blockSize > 0
    ensures r.NoColumns? <==> samples == []
    ensures r.Records? ==> Expansion(r.rows,
                      ConvertColumn(Ceiling(blockSize), Reads(samples)),
                      ConvertColumn(Ceiling(blockSize), Writes(samples)))
  {
    ghost var rs := ConvertColumn(Ceiling(blockSize), Reads(samples));
    ghost var ws := ConvertColumn(Ceiling(blockSize), Writes(samples));
    var out := [];
    for idx := 0 to |samples|
      invariant Expansion(out, rs[..idx], ws[..idx])
    {
      var diskRead := samples[idx].diskRead;
      var diskWrite := samples[idx].diskWrite;
      var blocksectorRead := CeilSectors(diskRead, blockSize);
      var blocksectorWrite := CeilSectors(diskWrite, blockSize);
      var bootExec := if idx == 0 then BOOT else EXEC;
      assert blocksectorRead == rs[idx] by {
        assert Reads(samples)[idx] == diskRead;
      }
      assert blocksectorWrite == ws[idx] by {
        assert Writes(samples)[idx] == diskWrite;
      }
      ExpansionStep(out, rs, ws, idx);
      out := out + [Row(blocksectorRead, READ, bootExec)];
      out := out + [Row(blocksectorWrite, WRITE, bootExec)];
    }
    assert rs[..|samples|] == rs && ws[..|samples|] == ws;
    r := if samples == [] then NoColumns else Records(out);
  }

  /** `convert_with_cumulative_sectors`: the two cumulative columns are computed
      first, then every sample yields its read record and its write record. */
  method ConvertWithCumulativeSectors(samples: seq<Sample>) returns (r: Converted)
    ensures r.NoColumns? <==> samples == []
    ensures r.Records? ==> Expansion(r.rows, CumulativeSectors(Reads(samples)), CumulativeSectors(Writes(samples)))
  {
    var cumulativeRead := CumulativeSectors(Reads(samples));
    var cumulativeWrite := CumulativeSectors(Writes(samples));
    var out := [];
    for idx := 0 to |samples|
      invariant Expansion(out, cumulativeRead[..idx], cumulativeWrite[..idx])
    {
      var bootExec := if idx == 0 then BOOT else EXEC;
      ExpansionStep(out, cumulativeRead, cumulativeWrite, idx);
      out := out + [Row(cumulativeRead[idx], READ, bootExec)];
      out := out + [Row(cumulativeWrite[idx], WRITE, bootExec)];
    }
    assert cumulativeRead[..|samples|] == cumulativeRead;
    assert cumulativeWrite[..|samples|] == cumulativeWrite;
    r := if samples == [] then NoColumns else Records(out);
  }

  /** With a ceiling conversion every positive request occupies at least one
      sector and the sectors cover its bytes; a zero request maps to sector 0. */
  lemma CeilingCoversRequest(x: int, b: int)
    requires b > 0
    ensures x == 0 ==> CeilSectors(x, b) == 0
    ensures x > 0 ==> CeilSectors(x, b) >= 1 && CeilSectors(x, b) * b >= x
    ensures x > 0 ==> forall k :: 0 <= k < CeilSectors(x, b) ==> k * b < x
  {
    if x > 0 {
      var c := CeilSectors(x, b);
      forall k | 0 <= k < c ensures k * b < x {
        MulMonotone(k, c - 1, b);
        assert (c - 1) * b == c * b - b;
      }
    }
  }

  /** The sum of a prefix never exceeds the sum of a longer prefix when the
      values are non-negative. */
  lemma {:induction false} PrefixSumMonotone(xs: seq<int>, i: nat, k: nat)
    requires i <= k <= |xs|
    requires forall m :: 0 <= m < |xs| ==> xs[m] >= 0
    ensures 0 <= Sum(xs[..i]) <= Sum(xs[..k])
    decreases k
  {
    if k == 0 {
      assert xs[..0] == [];
    } else {
      assert xs[..k][..k - 1] == xs[..k - 1];
      if i < k {
        PrefixSumMonotone(xs, i, k - 1);
      } else {
        PrefixSumMonotone(xs, i - 1, k - 1);
      }
    }
  }

  /** Multiplying by a positive number keeps the order. */
  lemma MulMonotone(a: int, c: int, b: int)
    requires a <= c && b > 0
    ensures a * b <= c * b
  {
    assert c * b - a * b == (c - a) * b;
  }

  /** Dividing by a positive block size keeps the order of non-negative values. */
  lemma DivMonotone(x: int, y: int, b: int)
    requires b > 0 && 0 <= x <= y
    ensures TruncDiv(x, b) <= TruncDiv(y, b)
  {
    DivBounds(x, b);
    DivBounds(y, b);
    var p, q := x / b, y / b;
    if p > q {
      assert (q + 1) * b == q * b + b;
      MulMonotone(q + 1, p, b);
      assert false;
    }
  }

  /** For non-negative byte counts the cumulative sector numbers never decrease
      from one sample to a later one. */
  lemma CumulativeMonotone(xs: seq<int>, i: nat, k: nat)
    requires i <= k < |xs|
    requires forall m :: 0 <= m < |xs| ==> xs[m] >= 0
    ensures 0 <= CumulativeSectors(xs)[i] <= CumulativeSectors(xs)[k]
  {
    PrefixSumMonotone(xs, i + 1, k + 1);
    DivMonotone(Sum(xs[..i + 1]), Sum(xs[..k + 1]), CUMULATIVE_BLOCK_SIZE);
  }
}
