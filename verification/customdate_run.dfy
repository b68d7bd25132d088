/**
 * The date-range driver of customdate_get_order_detail_component_parallel.py:
 * the list of dates `main` works through, the status string
 * `process_single_order_date` reports for one date, and the summary that
 * buckets those strings.
 *
 * Dates are day numbers; reading them from `YYYY-MM-DD` text and writing them
 * back is not part of this model, so a date's text is a parameter.
 */
module CustomdateRun {

  import opened Strings
  import opened Xml

  // ---------------------------------------------------------------------------
  // Dates

  /** The dates from `start` to `end` inclusive, one day apart, or None when
      `start` is after `end` and the script stops with an error. */
  method DatesToProcess(start: int, end: int) returns (dates: Option<seq<int>>)
    ensures dates.None? <==> start > end
    ensures dates.Some? ==> |dates.value| == end - start + 1
    ensures dates.Some? ==> forall i :: 0 <= i < |dates.value| ==> dates.value[i] == start + i
  {
    if start > end {
      return None;
    }
    var days: seq<int> := [];
    var current := start;
    while current <= end
      invariant start <= current <= end + 1
      invariant |days| == current - start
      invariant forall i :: 0 <= i < |days| ==> days[i] == start + i
      decreases end - current
    {
      days := days + [current];
      current := current + 1;
    }
    dates := Some(days);
  }

  // ---------------------------------------------------------------------------
  // One date

  /** How one date ended. */
  datatype DateResult =
    | Success | NoOrders | NoData
    | ErrorNullTree | ErrorSerialize | ErrorWriteLocal | ErrorUpload | ErrorWriteTemp | ErrorUploadTemp
    | ErrorUnhandled

  /** The status word of a result, before the `:` and the date. */
  function Word(r: DateResult): (w: string)
    ensures w != [] && ':' !in w
  {
    match r
    case Success => "SUCCESS"
    case NoOrders => "SUCCESS_NO_ORDERS"
    case NoData => "SUCCESS_NO_DATA"
    case ErrorNullTree => "ERROR_NULL_TREE"
    case ErrorSerialize => "ERROR_SERIALIZE"
    case ErrorWriteLocal => "ERROR_WRITE_LOCAL"
    case ErrorUpload => "ERROR_UPLOAD"
    case ErrorWriteTemp => "ERROR_WRITE_TEMP"
    case ErrorUploadTemp => "ERROR_UPLOAD_TEMP"
    case ErrorUnhandled => "ERROR_UNHANDLED"
  }

  /** The string `process_single_order_date` returns: `f"{word}:{date}"`. */
  function StatusText(r: DateResult, date: string): string
  {
    Word(r) + ":" + date
  }

  /** What writing the XML out and uploading it did. */
  datatype Storage = Stored | WriteFailed | UploadFailed

  /** `process_single_order_date` after the fetches: no stored orders, no order
      processed, or the file written and uploaded, either as `orders_YYYYMMDD.xml`
      (`WRITE_XML` true) or as a temporary file. An exception escaping the fetches
      ends as `ERROR_UNHANDLED`. */
  function DateOutcome(raised: bool, ordersFound: nat, processed: nat, writeLocal: bool, storage: Storage)
    : DateResult
  {
    if raised then ErrorUnhandled
    else if ordersFound == 0 then NoOrders
    else if processed == 0 then NoData
    else match storage
      case Stored => Success
      case WriteFailed => if writeLocal then ErrorWriteLocal else ErrorWriteTemp
      case UploadFailed => if writeLocal then ErrorUpload else ErrorUploadTemp
  }

  /** A date is a success exactly when it had orders, processed at least one and
      stored the file; no outcome is the null-tree or serialisation error. */
  lemma DateOutcomeMeaning(raised: bool, ordersFound: nat, processed: nat, writeLocal: bool, storage: Storage)
    ensures var r := DateOutcome(raised, ordersFound, processed, writeLocal, storage);
      && (r == Success <==> !raised && ordersFound > 0 && processed > 0 && storage == Stored)
      && (r == NoOrders <==> !raised && ordersFound == 0)
      && (r == NoData <==> !raised && ordersFound > 0 && processed == 0)
      && r != ErrorNullTree && r != ErrorSerialize
  {
  }

  /** The storage step as written: the uploader the script imports
      (dropbox_uploader.py) takes three parameters, so the call with two raises
      `TypeError` before anything is sent. `written` is whether the XML file was
      written; only a write error can come before the call. */
  function StorageAsWritten(written: bool): (s: Storage)
    ensures s != Stored
  {
    if written then UploadFailed else WriteFailed
  }

  /** As written, no date succeeds: a date whose orders were processed and
      written ends as `ERROR_UPLOAD` or `ERROR_UPLOAD_TEMP`. */
  lemma AsWrittenNeverSucceeds(raised: bool, ordersFound: nat, processed: nat, writeLocal: bool, written: bool)
    ensures var r := DateOutcome(raised, ordersFound, processed, writeLocal, StorageAsWritten(written));
      && r != Success
      && (!raised && ordersFound > 0 && processed > 0 && written ==>
            r == if writeLocal then ErrorUpload else ErrorUploadTemp)
  {
  }

  /** The storage step as intended: an uploader called with the file and the
      destination, whose call returns (`uploaded`) or raises. */
  function StorageIntended(written: bool, uploaded: bool): (s: Storage)
    ensures s == Stored <==> written && uploaded
  {
    if !written then WriteFailed else if uploaded then Stored else UploadFailed
  }

  /** With the intended call, a date succeeds exactly when it had orders,
      processed one, wrote the file and the upload returned; a failed upload
      after a good write is reported as an upload error for the right file. */
  lemma IntendedOutcome(raised: bool, ordersFound: nat, processed: nat, writeLocal: bool, written: bool, uploaded: bool)
    ensures var r := DateOutcome(raised, ordersFound, processed, writeLocal, StorageIntended(written, uploaded));
      && (r == Success <==> !raised && ordersFound > 0 && processed > 0 && written && uploaded)
      && (!raised && ordersFound > 0 && processed > 0 && written && !uploaded ==>
            r == if writeLocal then ErrorUpload else ErrorUploadTemp)
      && (!raised && ordersFound > 0 && processed > 0 && !written ==>
            r == if writeLocal then ErrorWriteLocal else ErrorWriteTemp)
  {
    DateOutcomeMeaning(raised, ordersFound, processed, writeLocal, StorageIntended(written, uploaded));
  }

  // ---------------------------------------------------------------------------
  // The summary

  /** What the gather over the dates yields for one date: an exception its coroutine
      did not catch, or the string it returned. */
  datatype DateReply = Escaped | Reported(text: string)

  /** The bucket the summary counts a reply in. */
  datatype Bucket = Succeeded | NoOrdersFound | NoDataGenerated | Failed | Unexpected | Unknown

  /** The summary's `if`/`elif` chain over one reply. */
  function Classify(reply: DateReply): Bucket
  {
    match reply
    case Escaped => Unexpected
    case Reported(s) =>
      if StartsWith(s, "SUCCESS:") then Succeeded
      else if StartsWith(s, "SUCCESS_NO_ORDERS:") then NoOrdersFound
      else if StartsWith(s, "SUCCESS_NO_DATA:") then NoDataGenerated
      else if StartsWith(s, "ERROR_") then Failed
      else Unknown
  }

  /** The bucket each result belongs in. */
  function BucketOf(r: DateResult): Bucket
  {
    match r
    case Success => Succeeded
    case NoOrders => NoOrdersFound
    case NoData => NoDataGenerated
    case _ => Failed
  }

  /** The status strings round-trip through the summary: whatever the date's
      text, a result's string lands in that result's bucket. "SUCCESS:" is not a
      prefix of "SUCCESS_NO_ORDERS:..." because the eighth characters differ. */
  lemma ClassifyStatus(r: DateResult, date: string)
    ensures Classify(Reported(StatusText(r, date))) == BucketOf(r)
  {
    var head := Word(r) + ":";
    var s := StatusText(r, date);
    assert s == head + date;
    match r {
      case Success =>
        PrefixOf(head, date, "SUCCESS:");
      case NoOrders =>
        NotPrefix(head, date, "SUCCESS:", 7);
        PrefixOf(head, date, "SUCCESS_NO_ORDERS:");
      case NoData =>
        NotPrefix(head, date, "SUCCESS:", 7);
        NotPrefix(head, date, "SUCCESS_NO_ORDERS:", 11);
        PrefixOf(head, date, "SUCCESS_NO_DATA:");
      case _ =>
        assert StartsWith(head, "ERROR_");
        ErrorClassified(head, date);
    }
  }

  /** A status whose word starts with `ERROR_` is counted as an error. */
  lemma ErrorClassified(head: string, date: string)
    requires StartsWith(head, "ERROR_")
    ensures Classify(Reported(head + date)) == Failed
  {
    NotPrefix(head, date, "SUCCESS:", 0);
    NotPrefix(head, date, "SUCCESS_NO_ORDERS:", 0);
    NotPrefix(head, date, "SUCCESS_NO_DATA:", 0);
    PrefixOf(head, date, "ERROR_");
  }

  lemma PrefixOf(head: string, rest: string, p: string)
    requires StartsWith(head, p)
    ensures StartsWith(head + rest, p)
  {
    assert (head + rest)[..|p|] == head[..|p|];
  }

  lemma NotPrefix(head: string, rest: string, p: string, i: nat)
    requires i < |p| && i < |head| && head[i] != p[i]
    ensures !StartsWith(head + rest, p)
  {
  }

  /** The five counters of the summary. */
  datatype Tally = Tally(success: nat, noOrders: nat, noData: nat, errors: nat, unhandled: nat)

  /** The counters after a run of replies: `Unexpected` counts as an error and as
      an unhandled exception, `Unknown` as an error. */
  function TallyOf(replies: seq<DateReply>): Tally
  {
    if replies == [] then Tally(0, 0, 0, 0, 0)
    else Count(TallyOf(replies[..|replies| - 1]), Classify(replies[|replies| - 1]))
  }

  function Count(t: Tally, b: Bucket): Tally
  {
    match b
    case Succeeded => t.(success := t.success + 1)
    case NoOrdersFound => t.(noOrders := t.noOrders + 1)
    case NoDataGenerated => t.(noData := t.noData + 1)
    case Failed => t.(errors := t.errors + 1)
    case Unexpected => t.(errors := t.errors + 1, unhandled := t.unhandled + 1)
    case Unknown => t.(errors := t.errors + 1)
  }

  /** Every reply is counted exactly once among success, no orders, no data and
      errors, and the unhandled exceptions are among the errors. */
  lemma {:induction false} TallyAccounts(replies: seq<DateReply>)
    ensures var t := TallyOf(replies);
      t.success + t.noOrders + t.noData + t.errors == |replies| && t.unhandled <= t.errors
  {
    if replies != [] {
      TallyAccounts(replies[..|replies| - 1]);
    }
  }

  /** The summary loop over the gathered replies. */
  method Summarize(replies: seq<DateReply>) returns (t: Tally)
    ensures t == TallyOf(replies)
  {
    t := Tally(0, 0, 0, 0, 0);
    var i := 0;
    while i < |replies|
      invariant 0 <= i <= |replies|
      invariant t == TallyOf(replies[..i])
    {
      assert replies[..i + 1][..i] == replies[..i];
      match replies[i] {
        case Escaped =>
          t := t.(errors := t.errors + 1, unhandled := t.unhandled + 1);
        case Reported(s) =>
          if StartsWith(s, "SUCCESS:") {
            t := t.(success := t.success + 1);
          } else if StartsWith(s, "SUCCESS_NO_ORDERS:") {
            t := t.(noOrders := t.noOrders + 1);
          } else if StartsWith(s, "SUCCESS_NO_DATA:") {
            t := t.(noData := t.noData + 1);
          } else if StartsWith(s, "ERROR_") {
            t := t.(errors := t.errors + 1);
          } else {
            t := t.(errors := t.errors + 1);
          }
      }
      i := i + 1;
    }
    assert replies[..i] == replies;
  }
}
