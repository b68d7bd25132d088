/**
 * The timestamping uploader (dropbox_uploader.py): the destination gets the
 * upload time inserted before its extension, so every upload creates a new
 * file. The Dropbox client, the file read and the clock are parameters.
 */
module SimpleUploader {

  import opened Strings
  import opened Paths
  import opened Timestamps

  /** How `upload_file_to_dropbox` ends: the local file cannot be read, the
      upload raises (re-raised after logging), or the file is stored. */
  datatype Outcome = LocalFileError | UploadError | Uploaded(path: string)

  /** `f"{base}_{timestamp}{ext}"` with `base, ext = os.path.splitext(destination)`. */
  function TimestampedDestination(destination: string, timestamp: string): string
  {
    var (base, ext) := SplitExt(destination);
    base + "_" + timestamp + ext
  }

  /** `upload_file_to_dropbox(local_file, dropbox_destination, access_token)`:
      `readable` says whether the local file opens, `now` is the clock reading
      and `accepted` whether `files_upload` in `add` mode succeeds at a path. */
  function UploadFile(readable: bool, destination: string, now: DateTime, accepted: string -> bool): (r: Outcome)
    requires ValidClock(now)
  {
    if !readable then LocalFileError
    else
      var path := TimestampedDestination(destination, Timestamp(now));
      if accepted(path) then Uploaded(path) else UploadError
  }

  /** The upload goes to the timestamped destination exactly when the file is
      read and the upload is accepted; an upload failure is raised again. */
  lemma UploadFileMeaning(readable: bool, destination: string, now: DateTime, accepted: string -> bool)
    requires ValidClock(now)
    ensures var path := TimestampedDestination(destination, Timestamp(now));
      && (UploadFile(readable, destination, now, accepted) == Uploaded(path) <==> readable && accepted(path))
      && (UploadFile(readable, destination, now, accepted) == UploadError <==> readable && !accepted(path))
      && (UploadFile(readable, destination, now, accepted).Uploaded? ==> UploadFile(readable, destination, now, accepted).path == path)
  {
  }

  lemma TwoDigits(n: nat)
    requires n < 100
    ensures Digits(n, 2) == [DigitChar(n / 10), DigitChar(n % 10)]
  {
    var q, r := n / 10, n % 10;
    assert q < 10 && q / 10 == 0 && q % 10 == q;
    assert Digits(q, 1) == Digits(0, 0) + [DigitChar(q)];
    assert Digits(n, 2) == Digits(q, 1) + [DigitChar(r)];
  }

  lemma Year2023()
    ensures Digits(2023, 4) == "2023"
  {
    TwoDigits(20);
    assert Digits(202, 3) == Digits(20, 2) + [DigitChar(2)];
  }

  /** The stamp of 2023-04-20 15:30:45. */
  lemma DocumentedStamp()
    ensures Timestamp(DateTime(2023, 4, 20, 15, 30, 45)) == "20230420_153045"
  {
    Year2023();
    TwoDigits(4);
    TwoDigits(20);
    TwoDigits(15);
    TwoDigits(30);
    TwoDigits(45);
  }

  /** Under a folder, a file name with a stem and an extension gets the stamp
      between the two. */
  lemma StampUnderFolder(dir: string, stem: string, ext: string, timestamp: string)
    requires |dir| >= 1 && dir[|dir| - 1] == '/'
    requires '/' !in stem && !AllDots(stem) && IsExt(ext)
    ensures TimestampedDestination(dir + stem + ext, timestamp) == dir + stem + "_" + timestamp + ext
  {
    BaseNameUnderFolder(dir, stem);
    SplitExtOf(dir + stem, ext);
  }

  /** The example of the function's documentation: `/Reports/output.xml` at
      2023-04-20 15:30:45 goes to `/Reports/output_20230420_153045.xml`. */
  lemma DocumentedExample()
    ensures TimestampedDestination("/Reports/" + "output" + ".xml", Timestamp(DateTime(2023, 4, 20, 15, 30, 45)))
      == "/Reports/" + "output" + "_" + "20230420_153045" + ".xml"
  {
    DocumentedStamp();
    assert "output"[0] == 'o';
    StampUnderFolder("/Reports/", "output", ".xml", "20230420_153045");
  }

  /** The stamp goes between the stem and the extension: splitting the new name
      gives the old stem plus `_` and the stamp, and the old extension. Clock
      stamps have no `.` and no `/` (`TimestampShape`). */
  lemma ExtensionKept(destination: string, timestamp: string)
    requires '.' !in timestamp && '/' !in timestamp
    ensures var (base, ext) := SplitExt(destination);
      SplitExt(TimestampedDestination(destination, timestamp)) == (base + "_" + timestamp, ext)
  {
    var base, ext := SplitExt(destination).0, SplitExt(destination).1;
    assert '.' !in "_" + timestamp && '/' !in "_" + timestamp;
    SplitExtInsert(destination, "_" + timestamp);
    assert SplitExt(base + ("_" + timestamp) + ext) == (base + ("_" + timestamp), ext);
    assert base + "_" + timestamp + ext == base + ("_" + timestamp) + ext;
    assert base + "_" + timestamp == base + ("_" + timestamp);
  }

  /** A destination without an extension gets the stamp at its end. */
  lemma NoExtensionAppends(destination: string, timestamp: string)
    requires SplitExt(destination).1 == ""
    ensures TimestampedDestination(destination, timestamp) == destination + "_" + timestamp
  {
  }

  /** With the 15-character stamp the name grows by exactly 16 characters, and
      nothing is added in front: no slash normalisation happens here. */
  lemma DestinationLength(destination: string, now: DateTime)
    requires ValidClock(now)
    ensures |TimestampedDestination(destination, Timestamp(now))| == |destination| + 16
    ensures StartsWith(TimestampedDestination(destination, Timestamp(now)), SplitExt(destination).0)
  {
  }
}
