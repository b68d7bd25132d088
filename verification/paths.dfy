/**
 * POSIX path helpers used by the uploaders: `str.rfind`, `os.path.splitext`
 * and `os.path.basename`, with the facts the destination names rely on.
 */
module Paths {

  import opened Strings

  /** A path with `/` put in front when missing. */
  function Rooted(p: string): (r: string)
    ensures StartsWith(r, "/")
  {
    if StartsWith(p, "/") then p else "/" + p
  }

  /** `s.rfind(c)`: the index of the last `c`, -1 when there is none. */
  function RFind(s: string, c: char): (i: int)
    ensures -1 <= i < |s|
  {
    if s == [] then -1
    else if s[|s| - 1] == c then |s| - 1
    else RFind(s[..|s| - 1], c)
  }

  /** The result is an occurrence of `c` with none after it, or -1 when `c` is absent. */
  lemma {:induction false} RFindMeaning(s: string, c: char)
    ensures RFind(s, c) >= 0 ==> s[RFind(s, c)] == c
    ensures forall k :: RFind(s, c) < k < |s| ==> s[k] != c
    ensures RFind(s, c) == -1 <==> c !in s
  {
    if s != [] && s[|s| - 1] != c {
      var init := s[..|s| - 1];
      RFindMeaning(init, c);
      assert s == init + [s[|s| - 1]];
    }
  }

  /** Appending text without `c` leaves the last `c` where it was; appending
      text with one moves it into the appended part. */
  lemma {:induction false} RFindAppend(x: string, y: string, c: char)
    ensures RFind(x + y, c) == if c in y then |x| + RFind(y, c) else RFind(x, c)
    decreases |y|
  {
    if y == [] {
      assert x + y == x;
    } else {
      var init := y[..|y| - 1];
      assert (x + y)[..|x + y| - 1] == x + init;
      RFindAppend(x, init, c);
      assert y == init + [y[|y| - 1]];
    }
  }

  predicate AllDots(s: string)
  {
    forall k :: 0 <= k < |s| ==> s[k] == '.'
  }

  /** `os.path.splitext` on POSIX: split at the last `.` after the last `/`,
      unless everything between that `/` and the dot is dots (a leading-dot
      name such as `.bashrc` has no extension). */
  function SplitExt(p: string): (r: (string, string))
    ensures r.0 + r.1 == p
  {
    var sep := RFind(p, '/');
    var dot := RFind(p, '.');
    if dot > sep && !AllDots(p[sep + 1..dot]) then (p[..dot], p[dot..]) else (p, "")
  }

  /** An extension as `splitext` returns it: a dot, then neither dots nor slashes. */
  predicate IsExt(e: string)
  {
    |e| >= 1 && e[0] == '.' && forall k :: 1 <= k < |e| ==> e[k] != '.' && e[k] != '/'
  }

  /** `os.path.basename`: everything after the last `/`. */
  function BaseName(p: string): (name: string)
    ensures '/' !in name
  {
    RFindMeaning(p, '/');
    p[RFind(p, '/') + 1..]
  }

  /** The final component of the path is not only dots (so an extension can follow it). */
  predicate HasStem(b: string)
  {
    !AllDots(BaseName(b))
  }

  /** The extension `splitext` finds is empty or a real extension that follows
      a stem. */
  lemma SplitExtMeaning(p: string)
    ensures SplitExt(p).1 == "" || (IsExt(SplitExt(p).1) && HasStem(SplitExt(p).0))
  {
    var sep, dot := RFind(p, '/'), RFind(p, '.');
    RFindMeaning(p, '/');
    RFindMeaning(p, '.');
    if dot > sep && !AllDots(p[sep + 1..dot]) {
      var b := p[..dot];
      RFindAppend(b, p[dot..], '/');
      assert p == b + p[dot..];
      assert BaseName(b) == p[sep + 1..dot];
    }
  }

  /** A stem followed by an extension splits back into the two. */
  lemma SplitExtOf(b: string, e: string)
    requires IsExt(e) && HasStem(b)
    ensures SplitExt(b + e) == (b, e)
  {
    var p := b + e;
    RFindAppend(b, e, '/');
    RFindAppend(b, e, '.');
    RFindMeaning(e, '.');
    RFindMeaning(b, '/');
    assert e[0] == '.';
    assert RFind(e, '.') == 0;
    assert RFind(p, '.') == |b|;
    assert p[RFind(p, '/') + 1..RFind(p, '.')] == BaseName(b);
  }

  /** A path without an extension keeps having none when text without dots
      and slashes is appended. */
  lemma SplitExtNone(p: string, t: string)
    requires SplitExt(p).1 == ""
    requires '.' !in t && '/' !in t
    ensures SplitExt(p + t) == (p + t, "")
  {
    RFindAppend(p, t, '/');
    RFindAppend(p, t, '.');
    var sep, dot := RFind(p, '/'), RFind(p, '.');
    if dot > sep {
      assert (p + t)[sep + 1..dot] == p[sep + 1..dot];
    }
  }

  /** Inserting text without dots and slashes between the stem and the
      extension keeps the extension: the new stem is the old one plus the text. */
  lemma SplitExtInsert(p: string, t: string)
    requires '.' !in t && '/' !in t
    ensures var (b, e) := SplitExt(p); SplitExt(b + t + e) == (b + t, e)
  {
    var (b, e) := SplitExt(p);
    SplitExtMeaning(p);
    if e == "" {
      assert b + t + e == p + t;
      SplitExtNone(p, t);
    } else {
      RFindAppend(b, t, '/');
      RFindMeaning(b, '/');
      assert BaseName(b + t) == BaseName(b) + t;
      assert !AllDots(BaseName(b) + t) by {
        var k :| 0 <= k < |BaseName(b)| && BaseName(b)[k] != '.';
        assert (BaseName(b) + t)[k] == BaseName(b)[k];
      }
      SplitExtOf(b + t, e);
    }
  }

  /** Under a folder the last `/` is the folder's own. */
  lemma LastSlashUnderFolder(dir: string, name: string)
    requires |dir| >= 1 && dir[|dir| - 1] == '/'
    requires '/' !in name
    ensures RFind(dir + name, '/') == |dir| - 1
  {
    RFindAppend(dir, name, '/');
    RFindMeaning(dir, '/');
  }

  lemma SplitExtUnderFolderDot(dir: string, name: string)
    requires |dir| >= 1 && dir[|dir| - 1] == '/'
    requires '/' !in name && '.' in name
    ensures SplitExt(dir + name) == (dir + SplitExt(name).0, SplitExt(name).1)
  {
    var p := dir + name;
    LastSlashUnderFolder(dir, name);
    RFindAppend(dir, name, '.');
    RFindMeaning(name, '/');
    RFindMeaning(name, '.');
    var dn := RFind(name, '.');
    assert RFind(p, '.') == |dir| + dn;
    assert p[|dir|..|dir| + dn] == name[..dn];
    assert p[..|dir| + dn] == dir + name[..dn];
    assert p[|dir| + dn..] == name[dn..];
  }

  lemma SplitExtUnderFolderNoDot(dir: string, name: string)
    requires |dir| >= 1 && dir[|dir| - 1] == '/'
    requires '/' !in name && '.' !in name
    ensures SplitExt(dir + name) == (dir + SplitExt(name).0, SplitExt(name).1)
  {
    LastSlashUnderFolder(dir, name);
    RFindAppend(dir, name, '.');
    RFindMeaning(dir, '.');
    RFindMeaning(name, '.');
    assert RFind(dir, '.') != |dir| - 1;
    assert RFind(dir + name, '.') < |dir| - 1;
  }

  /** Under a folder (a prefix ending in `/`), the last component is the file
      name, so `splitext` splits the file name alone. */
  lemma SplitExtUnderFolder(dir: string, name: string)
    requires |dir| >= 1 && dir[|dir| - 1] == '/'
    requires '/' !in name
    ensures SplitExt(dir + name) == (dir + SplitExt(name).0, SplitExt(name).1)
  {
    if '.' in name {
      SplitExtUnderFolderDot(dir, name);
    } else {
      SplitExtUnderFolderNoDot(dir, name);
    }
  }

  /** Under a folder, the base name of the path is the file name. */
  lemma BaseNameUnderFolder(dir: string, name: string)
    requires |dir| >= 1 && dir[|dir| - 1] == '/'
    requires '/' !in name
    ensures BaseName(dir + name) == name
  {
    RFindAppend(dir, name, '/');
    RFindMeaning(dir, '/');
    assert RFind(dir, '/') == |dir| - 1;
  }

  /** Both parts of a name without `/` are without `/`. */
  lemma SplitExtNoSlash(name: string)
    requires '/' !in name
    ensures '/' !in SplitExt(name).0 && '/' !in SplitExt(name).1
  {
    var stem, ext := SplitExt(name).0, SplitExt(name).1;
    assert forall k :: 0 <= k < |stem| ==> stem[k] == name[k];
    assert forall k :: 0 <= k < |ext| ==> ext[k] == name[|stem| + k];
  }
}
