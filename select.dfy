/**
 * Step 3 of `main`: choosing the records whose rounded size reaches the
 * threshold given on the command line (whole megabytes, an `int`).
 */
module Select {
  import opened Export
  import Seqs

  /** `file['size'] >= file_size`, with the size in tenths of a megabyte. */
  predicate Meets(f: Record, threshold: int)
  {
    f.sizeTenths >= 10 * threshold
  }

  /** With the size kept exactly as tenths, `size >= threshold` for the
      integer threshold is the comparison of integers that `Meets` makes. */
  lemma MeetsIsSizeComparison(f: Record, threshold: int)
    ensures Meets(f, threshold) <==> (f.sizeTenths as real) / 10.0 >= threshold as real
  {
  }

  /** The records that reach the threshold, in their original order. */
  function Selection(files: seq<Record>, threshold: int): seq<Record>
    decreases |files|
  {
    if files == [] then []
    else
      var init := Selection(files[..|files| - 1], threshold);
      if Meets(files[|files| - 1], threshold) then init + [files[|files| - 1]] else init
  }

  /** The sum of the rounded sizes, in tenths of a megabyte. */
  function TotalTenths(files: seq<Record>): int
    decreases |files|
  {
    if files == [] then 0 else TotalTenths(files[..|files| - 1]) + files[|files| - 1].sizeTenths
  }

  /** Every selected record reaches the threshold and comes from the
      input, none is duplicated, and every input record that reaches the
      threshold is selected. */
  lemma {:induction false} SelectionSpec(files: seq<Record>, threshold: int)
    ensures multiset(Selection(files, threshold)) <= multiset(files)
    ensures forall k :: 0 <= k < |Selection(files, threshold)| ==> Meets(Selection(files, threshold)[k], threshold)
    ensures forall k :: 0 <= k < |files| && Meets(files[k], threshold) ==> files[k] in Selection(files, threshold)
    decreases |files|
  {
    if files != [] {
      var n := |files|;
      var init, last := files[..n - 1], files[n - 1];
      SelectionSpec(init, threshold);
      assert files == init + [last];
      forall k | 0 <= k < n && Meets(files[k], threshold) ensures files[k] in Selection(files, threshold) {
        if k < n - 1 {
          assert files[k] == init[k];
        }
      }
    }
  }

  /** Each record occurs in the selection as often as in the input when it
      reaches the threshold, and not at all otherwise. */
  lemma {:induction false} SelectionCount(files: seq<Record>, threshold: int, r: Record)
    ensures multiset(Selection(files, threshold))[r] ==
      if Meets(r, threshold) then multiset(files)[r] else 0
    decreases |files|
  {
    if files != [] {
      var n := |files|;
      SelectionCount(files[..n - 1], threshold, r);
      assert files == files[..n - 1] + [files[n - 1]];
    }
  }

  /** Nothing is selected exactly when no record reaches the threshold:
      the case in which `main` returns before the prompt. */
  lemma SelectionEmpty(files: seq<Record>, threshold: int)
    ensures Selection(files, threshold) == [] <==>
      forall k :: 0 <= k < |files| ==> !Meets(files[k], threshold)
  {
    SelectionSpec(files, threshold);
  }

  /** Raising the threshold selects a sub-selection of what the lower
      threshold selected, so never more records. */
  lemma {:induction false} ThresholdMonotone(files: seq<Record>, low: int, high: int)
    requires low <= high
    ensures Selection(files, high) == Selection(Selection(files, low), high)
    ensures |Selection(files, high)| <= |Selection(files, low)|
    decreases |files|
  {
    if files != [] {
      var n := |files|;
      var init, last := files[..n - 1], files[n - 1];
      ThresholdMonotone(init, low, high);
      var lowInit := Selection(init, low);
      if Meets(last, low) {
        Seqs.SnocInit(lowInit, last);
      }
    }
    SelectionSpec(Selection(files, low), high);
    assert |multiset(Selection(Selection(files, low), high))| <= |multiset(Selection(files, low))|;
  }

  /** The record that the typical export parses to (`Parse.TypicalExport`)
      is selected under a threshold of 1 MB. */
  lemma TypicalSelection()
    ensures Selection([Record("https://fleep.io/f", "c", 1, "a", 20)], 1) ==
      [Record("https://fleep.io/f", "c", 1, "a", 20)]
  {
  }

  /** The loop of lines 99-106: `i` counts the selected records, `size`
      sums their sizes and `files_selected` collects them in order. */
  method FindFilesToDelete(files: seq<Record>, threshold: int)
    returns (i: nat, size: int, selected: seq<Record>)
    ensures selected == Selection(files, threshold)
    ensures i == |selected| && size == TotalTenths(selected)
    ensures i == 0 <==> forall k :: 0 <= k < |files| ==> !Meets(files[k], threshold)
  {
    i, size, selected := 0, 0, [];
    var n := 0;
    while n < |files|
      invariant 0 <= n <= |files|
      invariant selected == Selection(files[..n], threshold)
      invariant i == |selected| && size == TotalTenths(selected)
    {
      var file := files[n];
      Seqs.TakeSnoc(files, n);
      if Meets(file, threshold) {
        Seqs.SnocInit(selected, file);
        i := i + 1;
        size := size + file.sizeTenths;
        selected := selected + [file];
      }
      n := n + 1;
    }
    Seqs.TakeAll(files);
    SelectionEmpty(files, threshold);
  }
}
