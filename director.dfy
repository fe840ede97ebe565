/** `director` of `director.rs`: the choice of the sort a bucket is handed to next. The
    three sorts it can call are not part of this model, so the choice is returned as a
    value naming the callee together with the arguments it receives. */
module Director {
  import opened Tuner

  /** The two thresholds of the crate's tuning parameters that `director` reads. */
  datatype TuningParameters = TuningParameters(scanningSortThreshold: usize, skaSortThreshold: usize)

  /** One call of a sort on `bucket`. */
  datatype Dispatch<T> =
    | ScanningRadixSort(bucket: seq<T>, level: usize, parallel: bool)
    | MsbSkaSort(bucket: seq<T>, level: usize, parallel: bool)
    | LsbRadixSortAdapter(bucket: seq<T>, startLevel: usize, endLevel: usize, parallel: bool)

  /** The scanning sort runs only in parallel mode and from its threshold on; otherwise
      the ska sort from its own threshold on; otherwise the LSB adapter over the levels
      0 to `level`. Each callee is handed the same bucket and flag. */
  function Director<T>(tuning: TuningParameters, bucket: seq<T>, level: usize, parallel: bool): (d: Dispatch<T>)
    ensures d.bucket == bucket && d.parallel == parallel
    ensures d.ScanningRadixSort? <==> parallel && |bucket| >= tuning.scanningSortThreshold
    ensures d.MsbSkaSort? <==> !d.ScanningRadixSort? && |bucket| >= tuning.skaSortThreshold
    ensures d.LsbRadixSortAdapter? <==> !d.ScanningRadixSort? && !d.MsbSkaSort?
    ensures d.ScanningRadixSort? || d.MsbSkaSort? ==> d.level == level
    ensures d.LsbRadixSortAdapter? ==> d.startLevel == 0 && d.endLevel == level
  {
    if parallel && |bucket| >= tuning.scanningSortThreshold then ScanningRadixSort(bucket, level, parallel)
    else if |bucket| >= tuning.skaSortThreshold then MsbSkaSort(bucket, level, parallel)
    else LsbRadixSortAdapter(bucket, 0, level, parallel)
  }

  /** Sequentially, the scanning sort is never chosen, whatever the length, and the
      choice between the other two depends on the ska threshold alone. */
  lemma SequentialNeverScans<T>(tuning: TuningParameters, tuning': TuningParameters, bucket: seq<T>, level: usize)
    requires tuning.skaSortThreshold == tuning'.skaSortThreshold
    ensures !Director(tuning, bucket, level, false).ScanningRadixSort?
    ensures Director(tuning, bucket, level, false) == Director(tuning', bucket, level, false)
  {
  }

  /** Both thresholds are lower bounds: a bucket that is not left to the LSB adapter is
      not left to it at any greater length either. */
  lemma LongerNotLsb<T>(tuning: TuningParameters, bucket: seq<T>, bucket': seq<T>, level: usize, parallel: bool)
    requires |bucket| <= |bucket'|
    requires !Director(tuning, bucket, level, parallel).LsbRadixSortAdapter?
    ensures !Director(tuning, bucket', level, parallel).LsbRadixSortAdapter?
  {
  }
}
