/**
 * The team-space uploader (dropbox_uploader_teamspace.py): the configuration
 * check, the two headers that point the client at a team namespace as a given
 * member, and the destination path normalisation. The environment, the
 * Dropbox client and the file system are parameters.
 */
module TeamspaceUploader {

  import opened Strings
  import opened Xml
  import opened Paths
  import opened Json

  /** The five environment variables, None when unset. */
  datatype Config = Config(
    appKey: Option<string>, appSecret: Option<string>, refreshToken: Option<string>,
    namespaceId: Option<string>, memberId: Option<string>)

  /** How `upload_file_to_dropbox` ends: `sys.exit(code)` on a bad
      configuration, `FileNotFoundError` for a missing local file, an error of
      the client, the read or the upload raised again, or the path used. */
  datatype Outcome = ConfigExit(code: int) | FileNotFound | UploadError | Uploaded(path: string)

  /** One HTTP header sent with every request. */
  datatype Header = Header(name: string, value: string)

  /** The three checks run before anything else: the credentials are set and
      non-empty, the namespace is set and non-empty, the member id is set and
      starts with `dbmid:`. */
  predicate ConfigValid(c: Config)
  {
    && Truthy(c.appKey) && Truthy(c.appSecret) && Truthy(c.refreshToken)
    && Truthy(c.namespaceId)
    && Truthy(c.memberId) && StartsWith(c.memberId.value, "dbmid:")
  }

  /** `json.dumps({".tag": "namespace_id", "namespace_id": namespaceId})`. */
  function PathRootHeader(namespaceId: string): string
  {
    JsonObject([(".tag", "namespace_id"), ("namespace_id", namespaceId)])
  }

  /** The headers the client is built with. */
  function Headers(namespaceId: string, memberId: string): seq<Header>
  {
    [Header("Dropbox-API-Path-Root", PathRootHeader(namespaceId)), Header("Dropbox-API-Select-User", memberId)]
  }

  /** `s.rstrip(c)`: `s` without its trailing `c`s. */
  function RStrip(s: string, c: char): (r: string)
    ensures |r| <= |s| && r == s[..|r|]
  {
    if s != [] && s[|s| - 1] == c then RStrip(s[..|s| - 1], c) else s
  }

  /** What is removed is a run of `c` and what is left does not end in `c`. */
  lemma {:induction false} RStripMeaning(s: string, c: char)
    ensures RStrip(s, c) == [] || RStrip(s, c)[|RStrip(s, c)| - 1] != c
    ensures forall k :: |RStrip(s, c)| <= k < |s| ==> s[k] == c
  {
    if s != [] && s[|s| - 1] == c {
      RStripMeaning(s[..|s| - 1], c);
    }
  }

  /** `rstrip` leaves nothing exactly when the text is all `c`. */
  lemma RStripEmpty(s: string, c: char)
    ensures RStrip(s, c) == [] <==> forall k :: 0 <= k < |s| ==> s[k] == c
  {
    RStripMeaning(s, c);
    if RStrip(s, c) != [] {
      var r := RStrip(s, c);
      assert s[|r| - 1] == r[|r| - 1];
    }
  }

  /** The destination with `/` put in front when missing and, unless it is the
      root, its trailing slashes removed. */
  function NormalizePath(p: string): string
  {
    var q := Rooted(p);
    if q != "/" && EndsWith(q, "/") then RStrip(q, '/') else q
  }

  predicate AllSlashes(p: string)
  {
    forall k :: 0 <= k < |p| ==> p[k] == '/'
  }

  /** The root is kept as `/`; a path of two or more slashes and nothing else
      comes out empty; every other path starts with `/` and does not end with
      one; in all cases the result is the rooted path without trailing slashes. */
  lemma NormalizePathMeaning(p: string)
    ensures NormalizePath(p) == "/" <==> p == "" || p == "/"
    ensures NormalizePath(p) == "" <==> |p| >= 2 && AllSlashes(p)
    ensures var r := NormalizePath(p);
      r != "" && r != "/" ==> StartsWith(r, "/") && r[|r| - 1] != '/'
    ensures var r, q := NormalizePath(p), Rooted(p);
      StartsWith(q, r) && forall k :: |r| <= k < |q| ==> q[k] == '/'
  {
    var q := Rooted(p);
    var r := NormalizePath(p);
    if |p| >= 2 && AllSlashes(p) {
      assert StartsWith(p, "/") && q == p;
      assert q[|q| - 1..] == "/";
    }
    if q != "/" && EndsWith(q, "/") {
      RStripMeaning(q, '/');
      RStripEmpty(q, '/');
      if StartsWith(p, "/") {
        assert q == p;
      } else {
        assert q == "/" + p && |p| >= 1 && q[1] == p[0];
      }
      if r == "" {
        assert forall k :: 0 <= k < |p| ==> p[k] == q[k];
      }
      if r != "" {
        assert r[0] == q[0];
      }
    }
  }

  /** Normalising a normalised path changes nothing, unless it came out empty. */
  lemma NormalizePathStable(p: string)
    requires NormalizePath(p) != ""
    ensures NormalizePath(NormalizePath(p)) == NormalizePath(p)
  {
    NormalizePathMeaning(p);
    var r := NormalizePath(p);
    if r != "/" {
      assert Rooted(r) == r;
      assert !EndsWith(r, "/");
    }
  }

  /** `//` is stripped to the empty path, which itself normalises to the root:
      normalisation is not idempotent. */
  lemma NormalizeSlashesOnly()
    ensures NormalizePath("//") == ""
    ensures NormalizePath(NormalizePath("//")) == "/"
  {
    NormalizePathMeaning("//");
    NormalizePathMeaning("");
  }

  /** `upload_file_to_dropbox(local_file_path, dropbox_destination_path)`:
      `present` is `os.path.exists`, `connects` whether a client built with
      the headers passes `users_get_current_account`, `accepted` whether
      reading the file and `files_upload` in `overwrite` mode succeed at a path. */
  function UploadFile(c: Config, present: bool, destination: string,
                      connects: seq<Header> -> bool, accepted: string -> bool): Outcome
  {
    if !ConfigValid(c) then ConfigExit(1)
    else if !present then FileNotFound
    else if !connects(Headers(c.namespaceId.value, c.memberId.value)) then UploadError
    else
      var path := NormalizePath(destination);
      if accepted(path) then Uploaded(path) else UploadError
  }

  /** A bad configuration exits with status 1 before the file is looked at;
      a missing file is reported before any client exists; the file is
      uploaded to the normalised destination, and that path is returned,
      exactly when the configured client connects and the upload succeeds. */
  lemma UploadFileMeaning(c: Config, present: bool, destination: string,
                          connects: seq<Header> -> bool, accepted: string -> bool)
    ensures UploadFile(c, present, destination, connects, accepted) == ConfigExit(1) <==> !ConfigValid(c)
    ensures UploadFile(c, present, destination, connects, accepted) == FileNotFound <==> ConfigValid(c) && !present
    ensures UploadFile(c, present, destination, connects, accepted).Uploaded? <==>
      && ConfigValid(c) && present
      && connects(Headers(c.namespaceId.value, c.memberId.value))
      && accepted(NormalizePath(destination))
    ensures UploadFile(c, present, destination, connects, accepted).Uploaded? ==>
      UploadFile(c, present, destination, connects, accepted).path == NormalizePath(destination)
  {
  }

  /** Where the namespace id starts in the header: after `{` (1), the `.tag`
      member (22), `, ` (2), the quoted key (14) and `: ` (2). */
  const NamespaceAt: nat := 41

  lemma FixedLengths()
    ensures |JsonString("namespace_id")| == 14
    ensures |Member((".tag", "namespace_id"))| == 22
  {
    JsonStringPlain(".tag");
    JsonStringPlain("namespace_id");
  }

  lemma SliceOfSlice(s: string, i: nat, j: nat, k: nat)
    requires i + k <= j <= |s|
    ensures s[i..j][k..] == s[i + k..j]
  {
  }

  /** In `{<m0>, <k>: <v>}` the value sits between the offset and the brace. */
  lemma ValueSlice(m0: string, k: string, v: string)
    ensures var h := "{" + (m0 + ", " + (k + ": " + v)) + "}";
      h[3 + |m0| + |k| + 2..|h| - 1] == v
  {
    var ms := m0 + ", " + (k + ": " + v);
    var h := "{" + ms + "}";
    assert h[1..|h| - 1] == ms;
    assert ms[|m0| + 2..] == k + ": " + v;
    SliceOfSlice(h, 1, |h| - 1, |m0| + 2);
    assert (k + ": " + v)[|k| + 2..] == v;
    SliceOfSlice(h, 3 + |m0|, |h| - 1, |k| + 2);
  }

  lemma PathRootHeaderShape(namespaceId: string)
    ensures PathRootHeader(namespaceId) == "{" + (Member((".tag", "namespace_id")) + ", "
      + (JsonString("namespace_id") + ": " + JsonString(namespaceId))) + "}"
  {
    MembersTwo((".tag", "namespace_id"), ("namespace_id", namespaceId));
  }

  /** The Path-Root header is printable ASCII whatever the namespace id. */
  lemma PathRootHeaderPrintable(namespaceId: string)
    ensures AllPrintable(PathRootHeader(namespaceId))
  {
    JsonObjectPrintable([(".tag", "namespace_id"), ("namespace_id", namespaceId)]);
  }

  /** The namespace id is read back from the Path-Root header unchanged. */
  lemma PathRootHeaderMeaning(namespaceId: string)
    ensures var h := PathRootHeader(namespaceId);
      NamespaceAt <= |h| - 1 && Unquote(h[NamespaceAt..|h| - 1]) == Some(namespaceId)
  {
    var m0, k, v := Member((".tag", "namespace_id")), JsonString("namespace_id"), JsonString(namespaceId);
    PathRootHeaderShape(namespaceId);
    ValueSlice(m0, k, v);
    FixedLengths();
    JsonStringRoundTrip(namespaceId);
  }

  /** Different namespaces get different Path-Root headers. */
  lemma PathRootHeaderInjective(a: string, b: string)
    requires PathRootHeader(a) == PathRootHeader(b)
    ensures a == b
  {
    PathRootHeaderMeaning(a);
    PathRootHeaderMeaning(b);
  }

  /** With a namespace id of plain characters (Dropbox issues digits) the
      header is `{".tag": "namespace_id", "namespace_id": "<id>"}`. */
  lemma PathRootHeaderPlain(namespaceId: string)
    requires forall k :: 0 <= k < |namespaceId| ==>
      Printable(namespaceId[k]) && namespaceId[k] != '"' && namespaceId[k] != '\\'
    ensures PathRootHeader(namespaceId) == "{" + ((Quoted(".tag") + ": " + Quoted("namespace_id")) + ", "
      + (Quoted("namespace_id") + ": " + Quoted(namespaceId))) + "}"
  {
    JsonObjectTwoPlain(".tag", "namespace_id", "namespace_id", namespaceId);
  }
}
