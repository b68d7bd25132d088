/**
 * The user-root uploader (db_user_root_uploader.py): the credential check,
 * the timestamped upload destination, the listing path, and the verification
 * that finds the latest upload of a file in a folder and compares its bytes
 * with the local copy. The Dropbox client, the file system and the clock are
 * parameters.
 */
module RootUploader {

  import opened Strings
  import opened Xml
  import opened Paths
  import opened Timestamps
  import SimpleUploader

  type Bytes = seq<bv8>

  // ---------------------------------------------------------------------------
  // get_dropbox_client

  /** The three environment variables, None when unset. */
  datatype Credentials = Credentials(appKey: Option<string>, appSecret: Option<string>, refreshToken: Option<string>)

  /** How `get_dropbox_client` ends: `ValueError`, the account check raises, or a client. */
  datatype ClientOutcome = MissingCredentials | AuthFailed | Authenticated

  /** `authenticates` is whether `users_get_current_account` succeeds. */
  function GetClient(c: Credentials, authenticates: bool): ClientOutcome
  {
    if !(Truthy(c.appKey) && Truthy(c.appSecret) && Truthy(c.refreshToken)) then MissingCredentials
    else if authenticates then Authenticated
    else AuthFailed
  }

  /** The client is refused before any call when a credential is unset or
      empty, and only an authenticated client is handed out. */
  lemma GetClientMeaning(c: Credentials, authenticates: bool)
    ensures GetClient(c, authenticates) == MissingCredentials <==>
      c.appKey.None? || c.appKey == Some("") || c.appSecret.None? || c.appSecret == Some("")
      || c.refreshToken.None? || c.refreshToken == Some("")
    ensures GetClient(c, authenticates) == Authenticated ==> authenticates
  {
  }

  // ---------------------------------------------------------------------------
  // upload_file_to_dropbox

  /** How `upload_file_to_dropbox` ends: `FileNotFoundError`, an error raised
      again by the read or the upload, or the path of the new file. */
  datatype UploadOutcome = FileNotFound | UploadError | Uploaded(path: string)

  /** `f"{base}_{timestamp}{ext}"`, with `/` put in front of the base when missing. */
  function UploadDestination(destination: string, timestamp: string): string
  {
    var (base, ext) := SplitExt(destination);
    Rooted(base) + "_" + timestamp + ext
  }

  /** `present` is `os.path.exists(local_file)`; `accepted` whether reading the
      file and `files_upload` in `add` mode succeed for a path. */
  function UploadFile(present: bool, destination: string, now: DateTime, accepted: string -> bool): UploadOutcome
    requires ValidClock(now)
  {
    if !present then FileNotFound
    else
      var path := UploadDestination(destination, Timestamp(now));
      if accepted(path) then Uploaded(path) else UploadError
  }

  /** A missing file is reported whatever the upload would do; otherwise the
      upload goes to the timestamped destination and its path is returned. */
  lemma UploadFileMeaning(present: bool, destination: string, now: DateTime, accepted: string -> bool)
    requires ValidClock(now)
    ensures UploadFile(present, destination, now, accepted) == FileNotFound <==> !present
    ensures var path := UploadDestination(destination, Timestamp(now));
      UploadFile(present, destination, now, accepted) == Uploaded(path) <==> present && accepted(path)
    ensures UploadFile(present, destination, now, accepted).Uploaded? ==>
      UploadFile(present, destination, now, accepted).path == UploadDestination(destination, Timestamp(now))
  {
  }

  /** The destination is the one the plain uploader builds, with a `/` in front
      when the base lacks one; so it always starts with `/`. */
  lemma UploadDestinationRooted(destination: string, timestamp: string)
    ensures var plain := SimpleUploader.TimestampedDestination(destination, timestamp);
      UploadDestination(destination, timestamp)
        == if StartsWith(SplitExt(destination).0, "/") then plain else "/" + plain
    ensures StartsWith(UploadDestination(destination, timestamp), "/")
  {
    var (base, ext) := SplitExt(destination);
    if !StartsWith(base, "/") {
      Regroup("/", base, timestamp, ext);
    }
  }

  // ---------------------------------------------------------------------------
  // list_dropbox_path and the folder path of verify_dropbox_upload

  /** The path the listing API expects: `""` for the root, otherwise a path
      with a leading `/`. */
  function ApiPath(p: string): string
  {
    var q := if p != "/" then p else "";
    if q != "" && !StartsWith(q, "/") then "/" + q else q
  }

  /** `"/"` and `""` list the root as `""`; every other path keeps its text
      behind one leading `/`; normalising twice changes nothing. */
  lemma ApiPathMeaning(p: string)
    ensures ApiPath(p) == "" <==> p == "" || p == "/"
    ensures ApiPath(p) != "" ==> StartsWith(ApiPath(p), "/") && ApiPath(p) != "/"
    ensures ApiPath(p) != "" ==> ApiPath(p) == if StartsWith(p, "/") then p else "/" + p
    ensures ApiPath(ApiPath(p)) == ApiPath(p)
  {
  }

  // ---------------------------------------------------------------------------
  // verify_dropbox_upload: the name filter

  datatype EntryKind = FileEntry | FolderEntry | OtherEntry

  /** A listed entry: its metadata class, `name` and `path_display`. */
  datatype Entry = Entry(kind: EntryKind, name: string, path: string)

  /** Where a Python slice bound lands in a string of length `n`. */
  function SliceBound(i: int, n: nat): (b: nat)
    ensures b <= n
  {
    if i < 0 then (if i + n < 0 then 0 else i + n) else if i > n then n else i
  }

  /** Python's `s[start:stop]`, negative bounds counting from the end. */
  function PySlice(s: string, start: int, stop: int): string
  {
    var i, j := SliceBound(start, |s|), SliceBound(stop, |s|);
    if i < j then s[i..j] else ""
  }

  /** The filter as written: the stamp is cut out with
      `name[len(prefix):-len(suffix)]`. */
  predicate MatchesAsWritten(e: Entry, prefix: string, suffix: string)
  {
    && e.kind == FileEntry
    && StartsWith(e.name, prefix) && EndsWith(e.name, suffix)
    && |e.name| == |prefix| + 15 + |suffix|
    && var stamp := PySlice(e.name, |prefix|, -|suffix|);
       |stamp| == 15 && IsDigits(stamp[..8]) && IsDigits(stamp[9..])
  }

  /** The filter as intended: the stamp is what lies between the prefix and
      the suffix. The character between date and time is not checked. */
  predicate Matches(e: Entry, prefix: string, suffix: string)
  {
    && e.kind == FileEntry
    && StartsWith(e.name, prefix) && EndsWith(e.name, suffix)
    && |e.name| == |prefix| + 15 + |suffix|
    && var stamp := e.name[|prefix|..|e.name| - |suffix|];
       IsDigits(stamp[..8]) && IsDigits(stamp[9..])
  }

  /** With an empty suffix the slice as written is `name[len(prefix):0]`,
      which is empty, so no name ever passes. */
  lemma AsWrittenRejectsNoExtension(e: Entry, prefix: string)
    ensures !MatchesAsWritten(e, prefix, "")
  {
    if |e.name| == |prefix| + 15 {
      assert SliceBound(-0, |e.name|) == 0;
    }
  }

  /** The concrete case: the upload of `report` made at 2023-04-20 15:30:45,
      named `report_20230420_153045`, is missed by the filter as written. */
  lemma MissedUploadExample()
    ensures var name := "report" + "_" + "20230420_153045";
      && Matches(Entry(FileEntry, name, "/" + name), "report" + "_", "")
      && !MatchesAsWritten(Entry(FileEntry, name, "/" + name), "report" + "_", "")
  {
    var t := DateTime(2023, 4, 20, 15, 30, 45);
    SimpleUploader.DocumentedStamp();
    TimestampShape(t);
    var name := "report" + "_" + "20230420_153045";
    assert name + "" == name;
    StampedNameMatches("report", "20230420_153045", "", "/" + name);
    AsWrittenRejectsNoExtension(Entry(FileEntry, name, "/" + name), "report" + "_");
  }

  /** With a non-empty suffix both filters agree: the fault is only the empty one. */
  lemma AsWrittenAgreesWithSuffix(e: Entry, prefix: string, suffix: string)
    requires suffix != ""
    ensures MatchesAsWritten(e, prefix, suffix) <==> Matches(e, prefix, suffix)
  {
    if |e.name| == |prefix| + 15 + |suffix| {
      assert PySlice(e.name, |prefix|, -|suffix|) == e.name[|prefix|..|e.name| - |suffix|];
    }
  }

  /** Which stamp slice the filter uses: the one the program runs or the one
      it evidently intends. */
  datatype Slicing = AsWritten | Intended

  predicate Passes(slicing: Slicing, e: Entry, prefix: string, suffix: string)
  {
    match slicing
    case AsWritten => MatchesAsWritten(e, prefix, suffix)
    case Intended => Matches(e, prefix, suffix)
  }

  /** The entries that pass the filter, in listing order. */
  function Matching(entries: seq<Entry>, prefix: string, suffix: string, slicing: Slicing): (m: seq<Entry>)
    ensures |m| <= |entries|
  {
    if entries == [] then []
    else
      var last := entries[|entries| - 1];
      Matching(entries[..|entries| - 1], prefix, suffix, slicing)
        + (if Passes(slicing, last, prefix, suffix) then [last] else [])
  }

  lemma {:induction false} MatchingMeaning(entries: seq<Entry>, prefix: string, suffix: string, slicing: Slicing)
    ensures forall e :: e in Matching(entries, prefix, suffix, slicing) <==> e in entries && Passes(slicing, e, prefix, suffix)
  {
    if entries != [] {
      var init := entries[..|entries| - 1];
      MatchingMeaning(init, prefix, suffix, slicing);
      assert entries == init + [entries[|entries| - 1]];
    }
  }

  /** With a non-empty suffix the two filters keep the same entries. */
  lemma {:induction false} MatchingAgrees(entries: seq<Entry>, prefix: string, suffix: string)
    requires suffix != ""
    ensures Matching(entries, prefix, suffix, AsWritten) == Matching(entries, prefix, suffix, Intended)
  {
    if entries != [] {
      MatchingAgrees(entries[..|entries| - 1], prefix, suffix);
      AsWrittenAgreesWithSuffix(entries[|entries| - 1], prefix, suffix);
    }
  }

  /** The loop that builds `matching_files`, with the program's slice
      `name[len(prefix):-len(suffix)]`. */
  method CollectMatches(entries: seq<Entry>, prefix: string, suffix: string) returns (matching: seq<Entry>)
    ensures matching == Matching(entries, prefix, suffix, AsWritten)
  {
    matching := [];
    var i := 0;
    while i < |entries|
      invariant 0 <= i <= |entries|
      invariant matching == Matching(entries[..i], prefix, suffix, AsWritten)
    {
      assert entries[..i + 1][..i] == entries[..i];
      var entry := entries[i];
      if entry.kind == FileEntry && StartsWith(entry.name, prefix) && EndsWith(entry.name, suffix)
         && |entry.name| == |prefix| + 15 + |suffix|
      {
        var stamp := PySlice(entry.name, |prefix|, -|suffix|);
        if |stamp| == 15 && IsDigits(stamp[..8]) && IsDigits(stamp[9..]) {
          matching := matching + [entry];
        }
      }
      i := i + 1;
    }
    assert entries[..i] == entries;
  }

  // ---------------------------------------------------------------------------
  // verify_dropbox_upload: the latest match

  /** `matching_files.sort(key=name, reverse=True)[0]`: the index of the
      greatest name, the first one among equal names (the sort is stable). */
  function Latest(files: seq<Entry>): (i: nat)
    requires |files| > 0
    ensures i < |files|
  {
    if |files| == 1 then 0
    else
      var j := Latest(files[..|files| - 1]);
      if LexLess(files[j].name, files[|files| - 1].name) then |files| - 1 else j
  }

  /** No name is greater than the chosen one, and every entry before it has a
      smaller name. */
  lemma {:induction false} LatestMeaning(files: seq<Entry>)
    requires |files| > 0
    ensures forall k :: 0 <= k < |files| ==> !LexLess(files[Latest(files)].name, files[k].name)
    ensures forall k :: 0 <= k < Latest(files) ==> LexLess(files[k].name, files[Latest(files)].name)
  {
    if |files| > 1 {
      var n := |files| - 1;
      var init := files[..n];
      LatestMeaning(init);
      var j := Latest(init);
      assert forall k :: 0 <= k < n ==> init[k] == files[k];
      if LexLess(files[j].name, files[n].name) {
        assert Latest(files) == n;
        forall k | 0 <= k < n
          ensures LexLess(files[k].name, files[n].name)
        {
          LexLessTotal(files[k].name, files[j].name);
          if files[k].name != files[j].name {
            LexLessTrans(files[k].name, files[j].name, files[n].name);
          }
        }
        forall k | 0 <= k < |files|
          ensures !LexLess(files[n].name, files[k].name)
        {
          LexLessIrreflexive(files[n].name);
          LexLessTotal(files[k].name, files[n].name);
        }
      } else {
        assert Latest(files) == j;
        forall k | 0 <= k < |files|
          ensures !LexLess(files[j].name, files[k].name)
        {
          if k < n {
            assert !LexLess(init[j].name, init[k].name);
          }
        }
      }
    } else {
      LexLessIrreflexive(files[0].name);
    }
  }

  /** The names of two uploads of the same file compare as their upload times:
      the greatest name is the latest upload. */
  lemma NamesOrderedByTime(prefix: string, suffix: string, t1: DateTime, t2: DateTime)
    requires ValidClock(t1) && ValidClock(t2)
    ensures LexLess(prefix + Timestamp(t1) + suffix, prefix + Timestamp(t2) + suffix) <==> Before(t1, t2)
  {
    var s1, s2 := Timestamp(t1), Timestamp(t2);
    LexLessAppend(prefix, s1 + suffix, prefix, s2 + suffix);
    LexLessIrreflexive(prefix);
    LexLessAppend(s1, suffix, s2, suffix);
    LexLessIrreflexive(suffix);
    TimestampOrder(t1, t2);
    assert prefix + s1 + suffix == prefix + (s1 + suffix);
    assert prefix + s2 + suffix == prefix + (s2 + suffix);
  }

  /** The file picked for the check, None when nothing matches. */
  function Chosen(entries: seq<Entry>, prefix: string, suffix: string, slicing: Slicing): Option<Entry>
  {
    var matching := Matching(entries, prefix, suffix, slicing);
    if matching == [] then None else Some(matching[Latest(matching)])
  }

  /** Nothing is picked exactly when no entry passes the filter; otherwise the
      pick passes it and no other entry that passes has a greater name. */
  lemma ChosenMeaning(entries: seq<Entry>, prefix: string, suffix: string, slicing: Slicing)
    ensures Chosen(entries, prefix, suffix, slicing).None? <==>
      forall e :: e in entries ==> !Passes(slicing, e, prefix, suffix)
    ensures Chosen(entries, prefix, suffix, slicing).Some? ==>
      var f := Chosen(entries, prefix, suffix, slicing).value;
      && f in entries && Passes(slicing, f, prefix, suffix)
      && forall g :: g in entries && Passes(slicing, g, prefix, suffix) ==> !LexLess(f.name, g.name)
  {
    var matching := Matching(entries, prefix, suffix, slicing);
    MatchingMeaning(entries, prefix, suffix, slicing);
    if matching != [] {
      LatestMeaning(matching);
      var f := matching[Latest(matching)];
      assert f in matching;
      forall g | g in entries && Passes(slicing, g, prefix, suffix)
        ensures !LexLess(f.name, g.name)
      {
        var k :| 0 <= k < |matching| && matching[k] == g;
      }
    } else {
      forall e | e in entries
        ensures !Passes(slicing, e, prefix, suffix)
      {
        assert e !in matching;
      }
    }
  }

  // ---------------------------------------------------------------------------
  // verify_dropbox_upload

  /** How `files_delete_v2` ends: the file is deleted, an `ApiError` (caught,
      only a warning), or any other exception, which reaches the outer
      `except Exception`. */
  datatype DeleteOutcome = Deleted | DeleteApiError | DeleteRaised

  /** The result, and the path whose deletion was requested. */
  datatype Verdict = Verdict(ok: bool, deleteRequest: Option<string>)

  /** `verify_dropbox_upload`: `local` is the local file's content (None when it
      does not exist), `list` the folder listing for an API path (None when the
      call raises), `download` the content of a Dropbox path (None when the
      call raises), `delete` how deleting a path ends. */
  function Verification(local: Option<Bytes>, folder: string, baseFilename: string, cleanup: bool,
                        list: string -> Option<seq<Entry>>, download: string -> Option<Bytes>,
                        delete: string -> DeleteOutcome, slicing: Slicing): Verdict
  {
    if local.None? then Verdict(false, None)
    else
      var (stem, ext) := SplitExt(baseFilename);
      var listing := list(ApiPath(folder));
      if listing.None? then Verdict(false, None)
      else
        match Chosen(listing.value, stem + "_", ext, slicing)
        case None => Verdict(false, None)
        case Some(found) =>
          if download(found.path) != Some(local.value) then Verdict(false, None)
          else if !cleanup then Verdict(true, None)
          else Verdict(delete(found.path) != DeleteRaised, Some(found.path))
  }

  /** The content check passes: the local file exists, the folder is listed, a
      file is picked and it downloads as the local bytes. */
  predicate Confirmed(local: Option<Bytes>, folder: string, baseFilename: string,
                      list: string -> Option<seq<Entry>>, download: string -> Option<Bytes>, slicing: Slicing)
  {
    var (stem, ext) := SplitExt(baseFilename);
    var listing := list(ApiPath(folder));
    && local.Some? && listing.Some? && Chosen(listing.value, stem + "_", ext, slicing).Some?
    && download(Chosen(listing.value, stem + "_", ext, slicing).value.path) == Some(local.value)
  }

  /** Verification succeeds exactly when the content check passes and, with
      `cleanup`, the deletion does not raise anything but an `ApiError`; the
      deletion of the picked file is requested exactly when the content check
      passes with `cleanup`. */
  lemma VerificationMeaning(local: Option<Bytes>, folder: string, baseFilename: string, cleanup: bool,
                            list: string -> Option<seq<Entry>>, download: string -> Option<Bytes>,
                            delete: string -> DeleteOutcome, slicing: Slicing)
    ensures var v := Verification(local, folder, baseFilename, cleanup, list, download, delete, slicing);
      var (stem, ext) := SplitExt(baseFilename);
      var listing := list(ApiPath(folder));
      && (v.deleteRequest.Some? <==> Confirmed(local, folder, baseFilename, list, download, slicing) && cleanup)
      && (v.ok <==> Confirmed(local, folder, baseFilename, list, download, slicing)
                    && !(cleanup && delete(Chosen(listing.value, stem + "_", ext, slicing).value.path) == DeleteRaised))
      && (v.deleteRequest.Some? ==> v.deleteRequest.value == Chosen(listing.value, stem + "_", ext, slicing).value.path)
  {
  }

  /** When the file name has an extension, the program and the corrected
      filter give the same verdict. */
  lemma VerificationAgreesWithExtension(local: Option<Bytes>, folder: string, baseFilename: string, cleanup: bool,
                                        list: string -> Option<seq<Entry>>, download: string -> Option<Bytes>,
                                        delete: string -> DeleteOutcome)
    requires SplitExt(baseFilename).1 != ""
    ensures Verification(local, folder, baseFilename, cleanup, list, download, delete, AsWritten)
         == Verification(local, folder, baseFilename, cleanup, list, download, delete, Intended)
  {
    var (stem, ext) := SplitExt(baseFilename);
    var listing := list(ApiPath(folder));
    if listing.Some? {
      MatchingAgrees(listing.value, stem + "_", ext);
    }
  }

  /** As written, a file name without an extension never verifies: nothing
      passes the filter, whatever the folder holds. */
  lemma AsWrittenNeverVerifiesWithoutExtension(local: Option<Bytes>, folder: string, baseFilename: string, cleanup: bool,
                                               list: string -> Option<seq<Entry>>, download: string -> Option<Bytes>,
                                               delete: string -> DeleteOutcome)
    requires SplitExt(baseFilename).1 == ""
    ensures Verification(local, folder, baseFilename, cleanup, list, download, delete, AsWritten) == Verdict(false, None)
  {
    var (stem, ext) := SplitExt(baseFilename);
    var listing := list(ApiPath(folder));
    if local.Some? && listing.Some? {
      forall e | e in listing.value
        ensures !Passes(AsWritten, e, stem + "_", ext)
      {
        AsWrittenRejectsNoExtension(e, stem + "_");
      }
      ChosenMeaning(listing.value, stem + "_", "", AsWritten);
    }
  }

  /** `verify_dropbox_upload`, as the program runs it. */
  method VerifyUpload(local: Option<Bytes>, folder: string, baseFilename: string, cleanup: bool,
                      list: string -> Option<seq<Entry>>, download: string -> Option<Bytes>,
                      delete: string -> DeleteOutcome)
    returns (ok: bool, deleteRequest: Option<string>)
    ensures Verdict(ok, deleteRequest) == Verification(local, folder, baseFilename, cleanup, list, download, delete, AsWritten)
  {
    if local.None? {
      return false, None;
    }
    var listFolderPath := ApiPath(folder);
    var (base, ext) := SplitExt(baseFilename);
    var expectedPrefix, expectedSuffix := base + "_", ext;
    var result := list(listFolderPath);
    if result.None? {
      return false, None;
    }
    var matchingFiles := CollectMatches(result.value, expectedPrefix, expectedSuffix);
    if matchingFiles == [] {
      return false, None;
    }
    var found := matchingFiles[Latest(matchingFiles)];
    var downloaded := download(found.path);
    if downloaded != Some(local.value) {
      return false, None;
    }
    if !cleanup {
      return true, None;
    }
    deleteRequest := Some(found.path);
    var deleted := delete(found.path);
    ok := deleted != DeleteRaised;
  }

  // ---------------------------------------------------------------------------
  // The upload-then-verify round trip

  /** A name made of the stem, `_`, a stamp and the extension passes the filter. */
  lemma StampedNameMatches(stem: string, ts: string, ext: string, path: string)
    requires IsTimestamp(ts)
    ensures Matches(Entry(FileEntry, stem + "_" + ts + ext, path), stem + "_", ext)
  {
    var name := stem + "_" + ts + ext;
    assert name[..|stem| + 1] == stem + "_";
    assert name[|name| - |ext|..] == ext;
    assert name[|stem| + 1..|name| - |ext|] == ts;
  }

  lemma RootedAppend(dir: string, name: string)
    requires |dir| >= 1
    ensures Rooted(dir + name) == Rooted(dir) + name
  {
    assert StartsWith(dir + name, "/") == StartsWith(dir, "/");
  }

  /** Under a folder, the stem that gets the stamp is the folder plus the
      file name's stem. */
  lemma StemUnderFolder(dir: string, fileName: string, ts: string)
    requires |dir| >= 1 && dir[|dir| - 1] == '/'
    requires '/' !in fileName
    ensures UploadDestination(dir + fileName, ts) == Rooted(dir + SplitExt(fileName).0) + "_" + ts + SplitExt(fileName).1
  {
    SplitExtUnderFolder(dir, fileName);
  }

  lemma Regroup(top: string, stem: string, ts: string, ext: string)
    ensures top + stem + "_" + ts + ext == top + (stem + "_" + ts + ext)
  {
  }

  /** Uploading into a folder keeps the folder (made absolute) and puts the
      stamp into the file name alone. */
  lemma UploadDestinationUnderFolder(dir: string, fileName: string, ts: string)
    requires |dir| >= 1 && dir[|dir| - 1] == '/'
    requires '/' !in fileName
    ensures UploadDestination(dir + fileName, ts) == Rooted(dir) + (SplitExt(fileName).0 + "_" + ts + SplitExt(fileName).1)
  {
    StemUnderFolder(dir, fileName, ts);
    RootedAppend(dir, SplitExt(fileName).0);
    Regroup(Rooted(dir), SplitExt(fileName).0, ts, SplitExt(fileName).1);
  }

  /** A file uploaded into a folder lands under the stem of its name plus `_`,
      the stamp and the extension, a name the (corrected) filter accepts for
      that file name. */
  lemma UploadedNameMatches(folder: string, fileName: string, now: DateTime)
    requires '/' !in fileName && ValidClock(now)
    ensures var path := UploadDestination(folder + "/" + fileName, Timestamp(now));
      var (stem, ext) := SplitExt(fileName);
      && BaseName(path) == stem + "_" + Timestamp(now) + ext
      && Matches(Entry(FileEntry, BaseName(path), path), stem + "_", ext)
  {
    var ts := Timestamp(now);
    TimestampShape(now);
    var stem, ext := SplitExt(fileName).0, SplitExt(fileName).1;
    SplitExtNoSlash(fileName);
    var dir := folder + "/";
    assert folder + "/" + fileName == dir + fileName;
    UploadDestinationUnderFolder(dir, fileName, ts);
    BaseNameUnderFolder(Rooted(dir), stem + "_" + ts + ext);
    StampedNameMatches(stem, ts, ext, UploadDestination(dir + fileName, ts));
  }

  /** The same for the filter as written, which needs the name to have an extension. */
  lemma UploadedNameMatchesAsWritten(folder: string, fileName: string, now: DateTime)
    requires '/' !in fileName && ValidClock(now)
    requires SplitExt(fileName).1 != ""
    ensures var path := UploadDestination(folder + "/" + fileName, Timestamp(now));
      MatchesAsWritten(Entry(FileEntry, BaseName(path), path), SplitExt(fileName).0 + "_", SplitExt(fileName).1)
  {
    UploadedNameMatches(folder, fileName, now);
    var path := UploadDestination(folder + "/" + fileName, Timestamp(now));
    AsWrittenAgreesWithSuffix(Entry(FileEntry, BaseName(path), path), SplitExt(fileName).0 + "_", SplitExt(fileName).1);
  }

  /** The upload of `report` at 2023-04-20 15:30:45, alone in the root folder
      and downloading as the local bytes, fails verification as written and
      passes it with the corrected filter. */
  lemma MissedVerificationExample(content: Bytes)
    ensures var name := "report" + "_" + "20230420_153045";
      var list := (p: string) => Some([Entry(FileEntry, name, "/" + name)]);
      var download := (p: string) => Some(content);
      var delete := (p: string) => Deleted;
      && Verification(Some(content), "/", "report", false, list, download, delete, AsWritten) == Verdict(false, None)
      && Verification(Some(content), "/", "report", false, list, download, delete, Intended) == Verdict(true, None)
  {
    var name := "report" + "_" + "20230420_153045";
    var e := Entry(FileEntry, name, "/" + name);
    var list := (p: string) => Some([e]);
    var download := (p: string) => Some(content);
    var delete := (p: string) => Deleted;
    NameWithoutExtension();
    AsWrittenNeverVerifiesWithoutExtension(Some(content), "/", "report", false, list, download, delete);
    MissedUploadExample();
    SoleEntryChosen(e, "report" + "_", "", Intended);
  }

  lemma NameWithoutExtension()
    ensures SplitExt("report") == ("report", "")
  {
    RFindMeaning("report", '.');
  }

  /** A listing of one entry that passes the filter picks that entry. */
  lemma SoleEntryChosen(e: Entry, prefix: string, suffix: string, slicing: Slicing)
    requires Passes(slicing, e, prefix, suffix)
    ensures Chosen([e], prefix, suffix, slicing) == Some(e)
  {
    assert [e][..0] == [];
  }

  /** With the corrected filter, a file uploaded into a folder is always found
      when the listing holds it: something is picked, and its name is at least
      the uploaded one. */
  lemma UploadedIsFound(folder: string, fileName: string, now: DateTime, listing: seq<Entry>)
    requires '/' !in fileName && ValidClock(now)
    requires var path := UploadDestination(folder + "/" + fileName, Timestamp(now));
      Entry(FileEntry, BaseName(path), path) in listing
    ensures var (stem, ext) := SplitExt(fileName);
      var path := UploadDestination(folder + "/" + fileName, Timestamp(now));
      && Chosen(listing, stem + "_", ext, Intended).Some?
      && !LexLess(Chosen(listing, stem + "_", ext, Intended).value.name, BaseName(path))
  {
    UploadedNameMatches(folder, fileName, now);
    var (stem, ext) := SplitExt(fileName);
    ChosenMeaning(listing, stem + "_", ext, Intended);
  }
}
