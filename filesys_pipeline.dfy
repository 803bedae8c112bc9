/** How the two halves of the file-system experiment fit together: a converter
    writes `blocksector_format.csv`, and the evaluation script loads it with
    `DataLoaderPintos(path)`, that is with the default `boot=False`. */
module FilesysPipeline {
  import opened TraceFormat
  import opened DataLoader
  import opened DataPreprocessing

  /** The converters mark only the first sample's records with boot/exec 1, and
      the loader with its default `boot=False` keeps only such rows: loading a
      converted trace of n >= 1 samples yields exactly its first two records. */
  lemma {:induction false} DefaultLoadKeepsFirstSample(out: seq<Row>, readSectors: seq<int>, writeSectors: seq<int>)
    requires Expansion(out, readSectors, writeSectors)
    requires |readSectors| > 0
    ensures Load(Sources(OnePath(out)), false) == out[..2]
    ensures Blocksectors(Load(Sources(OnePath(out)), false)) == [readSectors[0], writeSectors[0]]
  {
    var first, rest := out[..2], out[2..];
    assert out == first + rest;
    assert first == [Row(readSectors[0], READ, BOOT), Row(writeSectors[0], WRITE, BOOT)] by {
      assert out[0] == RecordAt(readSectors, writeSectors, 0);
      assert out[1] == RecordAt(readSectors, writeSectors, 1);
    }
    forall i | 0 <= i < |rest| ensures rest[i].bootExec != BOOT {
      assert rest[i] == out[i + 2] == RecordAt(readSectors, writeSectors, i + 2);
    }
    BootRowsOfBootOnly(first);
    BootRowsOfNoBoot(rest);
    BootRowsAppend(first, rest);
    LoadOnePath(out, false);
  }
}
