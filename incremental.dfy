/** The incremental-update contract: change detection
    (`step7_find_new_or_updated_files`) and metadata recording
    (`step12_update_metadata`). */
module Incremental {
  import opened Wrappers
  import opened Catalog
  import Seqs

  /** `metadata["files"]`: dataset identifier to the `modified` stamp it had
      when it was last processed. */
  type Files = map<string, Option<string>>

  /** The pipeline's persisted metadata.  Only the `files` entry is modelled;
      `last_run` is a clock reading. */
  class Metadata {
    var files: Files

    /** The metadata of a first run: `{"files": {}}`. */
    constructor ()
      ensures files == map[]
    {
      files := map[];
    }
  }

  /** A dataset is new when its identifier was never recorded, and updated
      when the recorded stamp differs from its current one. */
  predicate NeedsDownload(d: Dataset, files: Files)
    ensures NeedsDownload(d, files) <==> files[d.identifier := d.modified] != files
  {
    d.identifier !in files || files[d.identifier] != d.modified
  }

  /** The datasets change detection reports, in input order. */
  function NewOrUpdated(datasets: seq<Dataset>, files: Files): seq<Dataset> {
    Seqs.Filter(d => NeedsDownload(d, files), datasets)
  }

  /** The metadata after recording `processed` in order: each identifier is
      set to its dataset's stamp, later entries overwriting earlier ones. */
  function Recorded(files: Files, processed: seq<Dataset>): (r: Files)
    ensures files.Keys <= r.Keys
  {
    if processed == [] then files
    else
      var last := processed[|processed| - 1];
      Recorded(files, processed[..|processed| - 1])[last.identifier := last.modified]
  }

  /** The identifiers a batch carries. */
  function Identifiers(ds: seq<Dataset>): set<string> {
    set d | d in ds :: d.identifier
  }

  /** Datasets of the batch that share an identifier share their stamp. */
  predicate ConsistentStamps(ds: seq<Dataset>) {
    forall d1, d2 :: d1 in ds && d2 in ds && d1.identifier == d2.identifier ==> d1.modified == d2.modified
  }

  // ---------------------------------------------------------------------
  // The operations
  // ---------------------------------------------------------------------

  /** `step7_find_new_or_updated_files`.  It only reads the metadata. */
  method FindNewOrUpdatedFiles(datasets: seq<Dataset>, metadata: Metadata) returns (filesToDownload: seq<Dataset>)
    ensures filesToDownload == NewOrUpdated(datasets, metadata.files)
    ensures forall d :: d in filesToDownload <==> d in datasets && NeedsDownload(d, metadata.files)
    ensures Seqs.IsSubsequence(filesToDownload, datasets)
  {
    var files := metadata.files;
    ghost var needs := d => NeedsDownload(d, files);
    filesToDownload := [];
    for i := 0 to |datasets|
      invariant filesToDownload == Seqs.Filter(needs, datasets[..i])
    {
      assert datasets[..i + 1][..i] == datasets[..i];
      var dataset := datasets[i];
      var fileId := dataset.identifier;
      var lastModified := dataset.modified;
      if fileId !in files || files[fileId] != lastModified {
        filesToDownload := filesToDownload + [dataset];
      }
    }
    assert datasets[..|datasets|] == datasets;
    Seqs.FilterMembers(needs, datasets);
    Seqs.FilterIsSubsequence(needs, datasets);
  }

  /** `step12_update_metadata`: records every processed dataset, in order,
      in the metadata it is given. */
  method UpdateMetadata(metadata: Metadata, processedDatasets: seq<Dataset>)
    modifies metadata
    ensures metadata.files == Recorded(old(metadata.files), processedDatasets)
  {
    for i := 0 to |processedDatasets|
      invariant metadata.files == Recorded(old(metadata.files), processedDatasets[..i])
    {
      assert processedDatasets[..i + 1][..i] == processedDatasets[..i];
      var dataset := processedDatasets[i];
      var fileId := dataset.identifier;
      var lastModified := dataset.modified;
      metadata.files := metadata.files[fileId := lastModified];
    }
    assert processedDatasets[..|processedDatasets|] == processedDatasets;
  }

  // ---------------------------------------------------------------------
  // Properties of recording
  // ---------------------------------------------------------------------

  /** Recording adds exactly the batch's identifiers as keys and leaves every
      other key's value as it was. */
  lemma {:induction false} RecordedKeys(files: Files, processed: seq<Dataset>)
    ensures Recorded(files, processed).Keys == files.Keys + Identifiers(processed)
    ensures forall k :: k in files && k !in Identifiers(processed) ==> Recorded(files, processed)[k] == files[k]
  {
    if processed != [] {
      var init := processed[..|processed| - 1];
      RecordedKeys(files, init);
      assert processed == init + [processed[|processed| - 1]];
      assert Identifiers(processed) == Identifiers(init) + {processed[|processed| - 1].identifier};
    }
  }

  /** An identifier ends up with the stamp of the last dataset that carries it. */
  lemma {:induction false} RecordedLastWins(files: Files, processed: seq<Dataset>, i: nat)
    requires i < |processed|
    requires forall j :: i < j < |processed| ==> processed[j].identifier != processed[i].identifier
    ensures processed[i].identifier in Recorded(files, processed)
    ensures Recorded(files, processed)[processed[i].identifier] == processed[i].modified
  {
    if i < |processed| - 1 {
      RecordedLastWins(files, processed[..|processed| - 1], i);
    }
  }

  /** Each identifier of the batch is set to the stamp of some dataset of the
      batch that carries it. */
  lemma {:induction false} RecordedFromBatch(files: Files, processed: seq<Dataset>, k: string)
    requires k in Identifiers(processed)
    ensures k in Recorded(files, processed)
    ensures exists d :: d in processed && d.identifier == k && Recorded(files, processed)[k] == d.modified
  {
    var last := processed[|processed| - 1];
    var init := processed[..|processed| - 1];
    if last.identifier != k {
      var d :| d in processed && d.identifier == k;
      assert d in init by {
        assert processed == init + [last];
      }
      RecordedFromBatch(files, init, k);
      var e :| e in init && e.identifier == k && Recorded(files, init)[k] == e.modified;
      assert e in processed;
    }
  }

  /** Recording a batch overlays the batch's own record on the old metadata. */
  lemma {:induction false} RecordedIsOverlay(files: Files, processed: seq<Dataset>)
    ensures Recorded(files, processed) == files + Recorded(map[], processed)
  {
    if processed != [] {
      var last := processed[|processed| - 1];
      var init := processed[..|processed| - 1];
      RecordedIsOverlay(files, init);
      assert (files + Recorded(map[], init))[last.identifier := last.modified]
          == files + Recorded(map[], init)[last.identifier := last.modified];
    }
  }

  /** Recording the same batch twice is recording it once. */
  lemma RecordedIdempotent(files: Files, processed: seq<Dataset>)
    ensures Recorded(Recorded(files, processed), processed) == Recorded(files, processed)
  {
    var batch := Recorded(map[], processed);
    RecordedIsOverlay(files, processed);
    RecordedIsOverlay(Recorded(files, processed), processed);
    assert (files + batch) + batch == files + batch;
  }

  // ---------------------------------------------------------------------
  // Properties of change detection, and the round trip
  // ---------------------------------------------------------------------

  /** With no metadata, as on the first run, every dataset is reported. */
  lemma EmptyMetadataReportsAll(datasets: seq<Dataset>)
    ensures NewOrUpdated(datasets, map[]) == datasets
  {
    Seqs.FilterAllKept(d => NeedsDownload(d, map[]), datasets);
  }

  /** Once a batch is recorded, none of it is reported again, exactly when
      datasets of the batch that share an identifier share their stamp (in
      particular when the identifiers are distinct). */
  lemma RecordedBatchNotNew(files: Files, batch: seq<Dataset>)
    ensures NewOrUpdated(batch, Recorded(files, batch)) == [] <==> ConsistentStamps(batch)
  {
    var after := Recorded(files, batch);
    var needs := d => NeedsDownload(d, after);
    if ConsistentStamps(batch) {
      forall d | d in batch
        ensures !NeedsDownload(d, after)
      {
        RecordedFromBatch(files, batch, d.identifier);
      }
      Seqs.FilterNoneKept(needs, batch);
    } else {
      var d1, d2 :| d1 in batch && d2 in batch && d1.identifier == d2.identifier && d1.modified != d2.modified;
      RecordedFromBatch(files, batch, d1.identifier);
      Seqs.FilterMembers(needs, batch);
      assert d1 in NewOrUpdated(batch, after) || d2 in NewOrUpdated(batch, after);
    }
  }

  /** Two datasets with one identifier and different stamps: recording both
      leaves the first one reported as updated. */
  lemma DuplicateIdentifierStaysNew()
    ensures
      var d1 := Dataset("id", None, None, None, None, Some("2024-01-01"));
      var d2 := Dataset("id", None, None, None, None, Some("2024-02-01"));
      NewOrUpdated([d1, d2], Recorded(map[], [d1, d2])) == [d1]
  {
    var d1 := Dataset("id", None, None, None, None, Some("2024-01-01"));
    var d2 := Dataset("id", None, None, None, None, Some("2024-02-01"));
    var batch := [d1, d2];
    assert batch[..1] == [d1] && [d1][..0] == [];
    var after := Recorded(map[], batch);
    assert Recorded(map[], [d1]) == map["id" := d1.modified];
    assert after == Recorded(map[], [d1])["id" := d2.modified];
    assert after == map["id" := d2.modified];
    var needs := d => NeedsDownload(d, after);
    assert Seqs.Filter(needs, [d1]) == [d1];
    assert Seqs.Filter(needs, batch) == Seqs.Filter(needs, [d1]);
  }

  /** The incremental contract of a run: detect changes, record exactly the
      reported datasets, and a second detection over the same datasets
      reports nothing, exactly when datasets sharing an identifier share
      their stamp. */
  lemma RerunReportsNothing(files: Files, datasets: seq<Dataset>)
    ensures (NewOrUpdated(datasets, Recorded(files, NewOrUpdated(datasets, files))) == [])
        <==> ConsistentStamps(datasets)
  {
    var reported := NewOrUpdated(datasets, files);
    var after := Recorded(files, reported);
    Seqs.FilterMembers(d => NeedsDownload(d, files), datasets);
    RecordedKeys(files, reported);
    if ConsistentStamps(datasets) {
      forall d | d in datasets
        ensures !NeedsDownload(d, after)
      {
        if d.identifier in Identifiers(reported) {
          RecordedFromBatch(files, reported, d.identifier);
        }
      }
      Seqs.FilterNoneKept(d => NeedsDownload(d, after), datasets);
    } else {
      var d1, d2 :| d1 in datasets && d2 in datasets && d1.identifier == d2.identifier && d1.modified != d2.modified;
      Seqs.FilterMembers(d => NeedsDownload(d, after), datasets);
      // the recorded stamps cannot match both, and so one of them was reported
      assert d1.identifier in Identifiers(reported);
      RecordedFromBatch(files, reported, d1.identifier);
      assert NeedsDownload(d1, after) || NeedsDownload(d2, after);
      assert d1 in NewOrUpdated(datasets, after) || d2 in NewOrUpdated(datasets, after);
    }
  }

  /** The same contract for the pipeline as it runs: the catalogue is filtered,
      the changed hospital datasets are recorded, and the next run over an
      unchanged catalogue finds nothing to download, exactly when the hospital
      datasets sharing an identifier share their stamp. */
  lemma PipelineRerunFindsNothing(files: Files, catalogue: seq<Dataset>)
    ensures
      var hospital := HospitalDatasets(catalogue);
      (NewOrUpdated(hospital, Recorded(files, NewOrUpdated(hospital, files))) == [])
        <==> ConsistentStamps(hospital)
  {
    RerunReportsNothing(files, HospitalDatasets(catalogue));
  }
}
