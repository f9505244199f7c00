/**
  The page's state and its event handlers (script.js lines 25-28, 115-140,
  144-213, 265-280): the global selection and output, the counters of a
  multi-file run, and what the handlers show. Completions of the
  asynchronous transcoder arrive as separate method calls in any order,
  one at a time, as the browser runs callbacks one at a time.
 */
module AppState {
  import opened Wrappers
  import opened Intake
  import Naming
  import Savings
  import ByteSize

  /** An encoded image or archive. The script only ever reads its size. */
  datatype Blob = Blob(bytes: seq<bv8>) {
    function Size(): nat { |bytes| }
  }

  /** Sum of the sizes of some files: zero for none, and at least the size
      of each file. */
  function SumSizes(files: seq<FileInfo>): (total: nat)
    ensures files == [] ==> total == 0
    ensures forall k :: 0 <= k < |files| ==> files[k].size <= total
  {
    if files == [] then 0
    else
      var init := files[..|files| - 1];
      assert forall k :: 0 <= k < |init| ==> init[k] == files[k];
      SumSizes(init) + files[|files| - 1].size
  }

  /** The sum over a concatenation is the sum of the sums. */
  lemma {:induction false} SumSizesAppend(a: seq<FileInfo>, b: seq<FileInfo>)
    ensures SumSizes(a + b) == SumSizes(a) + SumSizes(b)
    decreases |b|
  {
    if b != [] {
      assert (a + b)[..|a + b| - 1] == a + b[..|b| - 1];
      SumSizesAppend(a, b[..|b| - 1]);
    } else {
      assert a + b == a;
    }
  }

  /** `totalOriginalSize += file.size` for every file, in order (line 186). */
  method AccumulateSizes(files: seq<FileInfo>) returns (total: nat)
    ensures total == SumSizes(files)
  {
    total := 0;
    var i := 0;
    while i < |files|
      invariant 0 <= i <= |files|
      invariant total == SumSizes(files[..i])
    {
      assert files[..i + 1] == files[..i] + [files[i]];
      SumSizesAppend(files[..i], [files[i]]);
      total := total + files[i].size;
      i := i + 1;
    }
    assert files[..i] == files;
  }

  /** A style width: a percentage, or the non-finite value that a division
      by an empty selection gives. */
  datatype Width = Width(percent: real) | NonFinite

  /** `(processed / total) * 100` as the progress bar's width (line 193). */
  function ProgressWidth(processed: nat, total: nat): (w: Width)
    ensures w.Width? <==> total > 0
    ensures w.Width? ==> w.percent * total as real == processed as real * 100.0
  {
    if total == 0 then NonFinite
    else Width(processed as real / total as real * 100.0)
  }

  /** With `processed` out of `total` files done, the bar is full exactly
      when the last one is done, and never beyond. */
  lemma ProgressFullAtLast(processed: nat, total: nat)
    requires 0 < total && processed <= total
    ensures 0.0 <= ProgressWidth(processed, total).percent <= 100.0
    ensures ProgressWidth(processed, total) == Width(100.0) <==> processed == total
  {
    var p := ProgressWidth(processed, total).percent;
    assert p * total as real == processed as real * 100.0;
    if p == 100.0 {
      assert 100.0 * total as real == processed as real * 100.0;
    }
  }

  /** The indices of a batch of `n` files. */
  function AllIndices(n: nat): (s: set<nat>)
    ensures |s| == n
    ensures forall k: nat :: k in s <==> k < n
  {
    if n == 0 then {}
    else
      var s := AllIndices(n - 1);
      assert n - 1 !in s;
      s + {n - 1}
  }

  /** A set of indices of a batch has as many elements as the batch exactly
      when it holds every index. */
  lemma AllDoneByCount(done: set<nat>, n: nat)
    requires done <= AllIndices(n)
    ensures |done| == n <==> done == AllIndices(n)
  {
    if done != AllIndices(n) {
      assert !(AllIndices(n) <= done);
      var x :| x in AllIndices(n) && x !in done;
      SubsetNoLarger(done, AllIndices(n) - {x});
    }
  }

  /** A subset has no more elements than its superset. */
  lemma {:induction false} SubsetNoLarger(a: set<nat>, b: set<nat>)
    requires a <= b
    ensures |a| <= |b|
    decreases |a|
  {
    if a != {} {
      var x :| x in a;
      SubsetNoLarger(a - {x}, b - {x});
    }
  }

  /** The progress of a batch is full exactly when every file is done. */
  lemma ProgressFullWhenAllDone(done: set<nat>, n: nat)
    requires 0 < n && done <= AllIndices(n)
    ensures ProgressWidth(|done|, n) == Width(100.0) <==> done == AllIndices(n)
  {
    AllDoneByCount(done, n);
    SubsetNoLarger(done, AllIndices(n));
    ProgressFullAtLast(|done|, n);
  }

  /** The archive keys written by the completed files of a batch. */
  function ZipKeys(jobs: seq<FileInfo>, done: set<nat>, format: string): set<string> {
    set k | k in done && k < |jobs| :: Naming.OutputName(jobs[k].name, format)
  }

  /** One more completion adds exactly its derived name to the keys. */
  lemma ZipKeysAdd(jobs: seq<FileInfo>, done: set<nat>, format: string, k: nat)
    requires k < |jobs|
    ensures ZipKeys(jobs, done + {k}, format) ==
      ZipKeys(jobs, done, format) + {Naming.OutputName(jobs[k].name, format)}
  {
  }

  /** Where the processing handler stands. `Idle` means the process button
      is enabled; in the other phases it is disabled. */
  datatype Phase =
    | Idle
    | EncodingOne   // single-file path: one transcode in flight
    | EncodingMany  // archive path: transcodes completing one by one
    | Packing       // archive path: every file done, archive being built

  /** The label of the results panel, set by `handleFiles`. */
  datatype ResultLabel = NoLabel | PesoImagen | PesoTotalZip

  /** What the page shows: which panels are visible, the results label, the
      progress bar, whether the download button is enabled, and the final
      size (as `formatBytes` renders it) and savings tag of the last result. */
  datatype View = View(
    controlsShown: bool,
    resultsShown: bool,
    resultLabel: ResultLabel,
    progressShown: bool,
    progress: Width,
    downloadEnabled: bool,
    finalSize: Option<ByteSize.SizeText>,
    savingsTag: Option<Savings.Tag>)

  /** The state of one run of the processing handler: where it stands, the
      files its callbacks captured, the selector value it read, and, on the
      archive path, its local `zip`, `totalOriginalSize` and
      `processedCount`. */
  datatype Run = Run(
    phase: Phase,
    jobs: seq<FileInfo>,
    format: string,
    zip: map<string, Blob>,
    totalOriginalSize: nat,
    processedCount: nat)

  /** What the archive path keeps true between completions, given the set
      of files done: the total is the sum of all input sizes, the count is
      the number of files done, and the archive holds one key per derived
      name of a file done. */
  ghost predicate BatchConsistent(run: Run, done: set<nat>) {
    && |run.jobs| >= 2
    && run.totalOriginalSize == SumSizes(run.jobs)
    && done <= AllIndices(|run.jobs|)
    && run.processedCount == |done|
    && run.zip.Keys == ZipKeys(run.jobs, done, run.format)
  }

  /** A batch starts consistent: nothing done, an empty archive, the total
      of all input sizes. */
  lemma BatchStarts(jobs: seq<FileInfo>, format: string)
    requires |jobs| >= 2
    ensures BatchConsistent(Run(EncodingMany, jobs, format, map[], SumSizes(jobs), 0), {})
  {
    assert ZipKeys(jobs, {}, format) == {};
  }

  /** A completion of a file not yet done keeps a batch consistent. */
  lemma BatchStep(run: Run, done: set<nat>, k: nat, blob: Blob)
    requires BatchConsistent(run, done)
    requires k < |run.jobs| && k !in done
    ensures BatchConsistent(
      run.(zip := run.zip[Naming.OutputName(run.jobs[k].name, run.format) := blob],
           processedCount := run.processedCount + 1),
      done + {k})
  {
    ZipKeysAdd(run.jobs, done, run.format, k);
  }

  /** What a click on the download button hands to the save mechanism. */
  datatype Saved = Saved(blob: Blob, filename: string)

  class Session {
    /** The globals `selectedFiles`, `outputBlob` and `outputFilename`. */
    var selectedFiles: seq<FileInfo>
    var outputBlob: Option<Blob>
    var outputFilename: string
    var view: View
    /** The current or last run of the processing handler. */
    var run: Run
    /** The indices of the files of the run whose transcode has completed. */
    ghost var completed: set<nat>

    ghost predicate Valid()
      reads this
    {
      && (run.phase == EncodingOne ==> |run.jobs| == 1)
      && (run.phase == EncodingMany || run.phase == Packing ==> BatchConsistent(run, completed))
      && (run.phase == Packing ==> completed == AllIndices(|run.jobs|))
      && (view.downloadEnabled ==> run.phase == Idle && outputBlob.Some?)
    }

    /** The page as loaded: nothing selected, no output, everything hidden. */
    constructor ()
      ensures Valid()
      ensures selectedFiles == [] && outputBlob == None && outputFilename == ""
      ensures run.phase == Idle && !view.downloadEnabled
    {
      selectedFiles, outputBlob, outputFilename := [], None, "";
      view := View(false, false, NoLabel, false, Width(0.0), false, None, None);
      run := Run(Idle, [], "", map[], 0, 0);
      completed := {};
    }

    /** `handleFiles`: the selection becomes the image files of `files`, even
        when there are none; then the handler alerts and stops. Otherwise it
        shows the controls, sets the results label by count and hides old
        results. A run in flight is not affected. */
    method HandleFiles(files: seq<FileInfo>) returns (alerted: bool)
      requires Valid()
      modifies this
      ensures Valid()
      ensures selectedFiles == FilterImages(files)
      ensures alerted <==> selectedFiles == []
      ensures view == if alerted then old(view) else old(view).(
        controlsShown := true,
        resultsShown := false,
        resultLabel := if |selectedFiles| == 1 then PesoImagen else PesoTotalZip)
      ensures outputBlob == old(outputBlob) && outputFilename == old(outputFilename)
      ensures run == old(run) && completed == old(completed)
    {
      selectedFiles := FilterImages(files);
      if |selectedFiles| == 0 {
        alerted := true;
        return;
      }
      alerted := false;
      view := view.(
        controlsShown := true,
        resultsShown := false,
        resultLabel := if |selectedFiles| == 1 then PesoImagen else PesoTotalZip);
    }

    /** A click on the process button, with the format selector's value. It
        does nothing while a run is in flight (the button is disabled) or
        when nothing is selected. Otherwise it shows the results panel,
        disables download and starts the single-file path for one file or
        the archive path for more. */
    method ProcessClick(formatValue: string)
      requires Valid()
      modifies this
      ensures Valid()
      ensures selectedFiles == old(selectedFiles)
      ensures outputBlob == old(outputBlob) && outputFilename == old(outputFilename)
      ensures old(run.phase) != Idle || old(selectedFiles) == [] ==>
        view == old(view) && run == old(run) && completed == old(completed)
      ensures old(run.phase) == Idle && |old(selectedFiles)| == 1 ==>
        && run == old(run).(phase := EncodingOne, jobs := old(selectedFiles), format := formatValue)
        && view == old(view).(resultsShown := true, downloadEnabled := false, progressShown := false)
        && completed == old(completed)
      ensures old(run.phase) == Idle && |old(selectedFiles)| >= 2 ==>
        && run == Run(EncodingMany, old(selectedFiles), formatValue, map[], SumSizes(old(selectedFiles)), 0)
        && view == old(view).(resultsShown := true, downloadEnabled := false, progressShown := true)
        && completed == {}
    {
      if run.phase != Idle || |selectedFiles| == 0 {
        return;
      }
      view := view.(resultsShown := true, downloadEnabled := false);
      if |selectedFiles| == 1 {
        view := view.(progressShown := false);
        run := run.(phase := EncodingOne, jobs := selectedFiles, format := formatValue);
      } else {
        view := view.(progressShown := true);
        var totalOriginalSize := AccumulateSizes(selectedFiles);
        BatchStarts(selectedFiles, formatValue);
        run := Run(EncodingMany, selectedFiles, formatValue, map[], totalOriginalSize, 0);
        completed := {};
      }
    }

    /** The single file's transcode completed with `blob`: it becomes the
        output, named after the file, and the results and download button
        are armed. */
    method SingleEncoded(blob: Blob)
      requires Valid() && run.phase == EncodingOne
      modifies this
      ensures Valid()
      ensures outputBlob == Some(blob)
      ensures outputFilename == Naming.OutputName(old(run.jobs[0].name), old(run.format))
      ensures view == old(view).(
        finalSize := Some(ByteSize.FormatBytes(blob.Size())),
        savingsTag := Some(Savings.SavingsTag(old(run.jobs[0].size), blob.Size())),
        downloadEnabled := true)
      ensures run == old(run).(phase := Idle)
      ensures selectedFiles == old(selectedFiles) && completed == old(completed)
    {
      var file := run.jobs[0];
      outputBlob := Some(blob);
      outputFilename := Naming.OutputName(file.name, run.format);
      view := view.(
        finalSize := Some(ByteSize.FormatBytes(blob.Size())),
        savingsTag := Some(Savings.SavingsTag(file.size, blob.Size())),
        downloadEnabled := true);
      run := run.(phase := Idle);
    }

    /** The transcode of file `k` of the batch completed with `blob`: the
        archive gets an entry under the file's derived name (replacing an
        entry of the same name), one more file counts as processed, and the
        progress bar is set from the count and the current selection. */
    method FileEncoded(k: nat, blob: Blob)
      requires Valid() && run.phase == EncodingMany
      requires k < |run.jobs| && k !in completed
      modifies this
      ensures Valid()
      ensures run == old(run).(
        zip := old(run.zip)[Naming.OutputName(old(run.jobs[k].name), old(run.format)) := blob],
        processedCount := old(run.processedCount) + 1)
      ensures completed == old(completed) + {k}
      ensures run.processedCount == |completed|
      ensures view == old(view).(progress := ProgressWidth(run.processedCount, |selectedFiles|))
      ensures selectedFiles == run.jobs ==>
        (view.progress == Width(100.0) <==> completed == AllIndices(|run.jobs|))
      ensures selectedFiles == old(selectedFiles)
      ensures outputBlob == old(outputBlob) && outputFilename == old(outputFilename)
    {
      var newName := Naming.OutputName(run.jobs[k].name, run.format);
      BatchStep(run, completed, k, blob);
      run := run.(zip := run.zip[newName := blob], processedCount := run.processedCount + 1);
      completed := completed + {k};
      view := view.(progress := ProgressWidth(run.processedCount, |selectedFiles|));
      if selectedFiles == run.jobs {
        ProgressFullWhenAllDone(completed, |run.jobs|);
      }
    }

    /** Every transcode of the batch has completed, so `Promise.all`
        resolves and the archive starts being built. */
    method AllEncoded()
      requires Valid() && run.phase == EncodingMany && completed == AllIndices(|run.jobs|)
      modifies this
      ensures Valid()
      ensures run == old(run).(phase := Packing)
      ensures run.processedCount == |run.jobs|
      ensures run.zip.Keys ==
        set k | 0 <= k < |run.jobs| :: Naming.OutputName(run.jobs[k].name, run.format)
      ensures view == old(view) && selectedFiles == old(selectedFiles) && completed == old(completed)
      ensures outputBlob == old(outputBlob) && outputFilename == old(outputFilename)
    {
      run := run.(phase := Packing);
    }

    /** The archive was generated as `content`: it becomes the output under
        the fixed archive name, compared against the total input size. */
    method ArchiveGenerated(content: Blob)
      requires Valid() && run.phase == Packing
      modifies this
      ensures Valid()
      ensures outputBlob == Some(content) && outputFilename == Naming.ArchiveName
      ensures view == old(view).(
        finalSize := Some(ByteSize.FormatBytes(content.Size())),
        savingsTag := Some(Savings.SavingsTag(SumSizes(old(run.jobs)), content.Size())),
        downloadEnabled := true)
      ensures run == old(run).(phase := Idle)
      ensures selectedFiles == old(selectedFiles) && completed == old(completed)
    {
      outputBlob := Some(content);
      outputFilename := Naming.ArchiveName;
      view := view.(
        finalSize := Some(ByteSize.FormatBytes(content.Size())),
        savingsTag := Some(Savings.SavingsTag(run.totalOriginalSize, content.Size())),
        downloadEnabled := true);
      run := run.(phase := Idle);
    }

    /** A click on the download button: nothing while the button is
        disabled or there is no output, otherwise the output blob under the
        output name. */
    method Download() returns (saved: Option<Saved>)
      requires Valid()
      ensures saved.Some? <==> view.downloadEnabled
      ensures outputBlob.None? ==> saved.None?
      ensures saved.Some? ==> saved.value == Saved(outputBlob.value, outputFilename)
    {
      if view.downloadEnabled && outputBlob.Some? {
        saved := Some(Saved(outputBlob.value, outputFilename));
      } else {
        saved := None;
      }
    }
  }

  /** A drop of one or more files, none of them an image (the listeners
      never pass an empty list), empties the selection without touching
      the page, and a process click after it does nothing. */
  method RejectedSelectionThenClick(s: Session, files: seq<FileInfo>, formatValue: string)
    requires s.Valid()
    requires |files| > 0
    requires forall k :: 0 <= k < |files| ==> !IsImage(files[k])
    modifies s
    ensures s.Valid()
    ensures s.selectedFiles == []
    ensures s.view == old(s.view) && s.run == old(s.run)
    ensures s.outputBlob == old(s.outputBlob) && s.outputFilename == old(s.outputFilename)
  {
    FilterEmpty(files);
    var alerted := s.HandleFiles(files);
    assert alerted;
    s.ProcessClick(formatValue);
  }
}
