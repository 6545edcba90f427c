/** Derivation of the blob-storage path of a submission (`_file_storage_path`),
    including POSIX `os.path.splitext`, whose extension half it uses. */
module StoragePath {
  import opened Wrappers

  /** The scheme every location URL handed to the path derivation must carry. */
  const LocationScheme: string := "i4x://"

  /** Raised by the `assert` on the location URL. */
  datatype PathError = NotAnI4xUrl

  predicate HasPrefix(s: string, prefix: string) {
    |prefix| <= |s| && s[..|prefix|] == prefix
  }

  /** `str.rfind`: the index of the last `c` in `s`, or -1 when there is none. */
  function RFind(s: string, c: char): (i: int)
    ensures -1 <= i < |s|
    ensures 0 <= i ==> s[i] == c
    ensures forall j :: i < j < |s| ==> s[j] != c
  {
    if |s| == 0 then -1
    else if s[|s| - 1] == c then |s| - 1
    else RFind(s[..|s| - 1], c)
  }

  predicate AllDots(s: string, lo: int, hi: int)
    requires 0 <= lo && hi <= |s|
  {
    forall k :: lo <= k < hi ==> s[k] == '.'
  }

  /** POSIX `os.path.splitext`: the extension starts at the last `.` that comes
      after the last `/`, unless everything between that `/` and the dot is dots
      (a leading-dot name such as `.bashrc` has no extension). */
  function SplitExt(p: string): (r: (string, string))
    ensures r.0 + r.1 == p
  {
    var sep := RFind(p, '/');
    var dot := RFind(p, '.');
    if dot > sep && !AllDots(p, sep + 1, dot) then (p[..dot], p[dot..]) else (p, "")
  }

  /** The extension of a filename, dot included, or "" if it has none. */
  function Ext(filename: string): (e: string)
    ensures |e| <= |filename| && filename[|filename| - |e|..] == e
    ensures e == [] || e[0] == '.'
    ensures forall k :: 0 <= k < |e| ==> e[k] != '/'
    ensures forall k :: 1 <= k < |e| ==> e[k] != '.'
  {
    SplitExt(filename).1
  }

  /** An independent description of "e is the extension of p": e is a suffix of
      p that starts with its only dot, holds no `/`, and is preceded, within the
      last path component, by some character that is not a dot. */
  ghost predicate IsExtensionOf(p: string, e: string) {
    && 1 <= |e| <= |p|
    && p[|p| - |e|..] == e
    && e[0] == '.'
    && (forall k :: 1 <= k < |e| ==> e[k] != '.' && e[k] != '/')
    && exists k :: 0 <= k < |p| - |e| && p[k] != '.' && p[k] != '/'
                   && forall j :: k < j < |p| - |e| ==> p[j] != '/'
  }

  /** A non-empty extension is an extension in the sense of IsExtensionOf. */
  lemma ExtSound(p: string)
    requires Ext(p) != []
    ensures IsExtensionOf(p, Ext(p))
  {
    var sep := RFind(p, '/');
    var dot := RFind(p, '.');
    assert dot > sep && !AllDots(p, sep + 1, dot);
    var k :| sep + 1 <= k < dot && p[k] != '.';
    assert p[k] != '/';
    assert forall j :: k < j < |p| - |Ext(p)| ==> p[j] != '/';
  }

  /** Whatever satisfies IsExtensionOf is what Ext computes. */
  lemma ExtComplete(p: string, e: string)
    requires IsExtensionOf(p, e)
    ensures Ext(p) == e
  {
    var d := |p| - |e|;
    assert p[d] == e[0] == '.';
    assert forall j :: d < j < |p| ==> p[j] == e[j - d];
    var dot := RFind(p, '.');
    assert dot == d;
    var sep := RFind(p, '/');
    var k :| 0 <= k < d && p[k] != '.' && p[k] != '/'
             && forall j :: k < j < d ==> p[j] != '/';
    assert sep < k;
    assert !AllDots(p, sep + 1, dot);
  }

  /** Ext is empty exactly when p has no extension in the sense of IsExtensionOf. */
  lemma ExtEmptyIff(p: string)
    ensures Ext(p) == [] <==> forall e :: !IsExtensionOf(p, e)
  {
    if Ext(p) != [] {
      ExtSound(p);
    } else {
      forall e | IsExtensionOf(p, e)
        ensures false
      {
        ExtComplete(p, e);
      }
    }
  }

  /** `_file_storage_path`: the location URL without its scheme, a `/`, the
      SHA-1 and the filename's extension. */
  function FileStoragePath(url: string, sha1: string, filename: string): (r: Result<string, PathError>)
    ensures r.Success? <==> HasPrefix(url, LocationScheme)
    ensures r.Success? ==> HasPrefix(r.value, url[|LocationScheme|..] + "/" + sha1)
    ensures r.Success? ==> |r.value| == |url| - |LocationScheme| + 1 + |sha1| + |Ext(filename)|
    ensures r.Success? ==> r.value[|url| - |LocationScheme| + 1 + |sha1|..] == Ext(filename)
  {
    if !HasPrefix(url, LocationScheme) then Failure(NotAnI4xUrl)
    else Success(url[|LocationScheme|..] + "/" + sha1 + Ext(filename))
  }

  /** Deduplication: for one location, digests of one length give one path
      exactly when the digests and the extensions agree; the rest of the
      filename does not matter. */
  lemma SamePathIff(url: string, sha1a: string, filenameA: string, sha1b: string, filenameB: string)
    requires HasPrefix(url, LocationScheme)
    requires |sha1a| == |sha1b|
    ensures FileStoragePath(url, sha1a, filenameA) == FileStoragePath(url, sha1b, filenameB)
            <==> sha1a == sha1b && Ext(filenameA) == Ext(filenameB)
  {
    var dir := url[|LocationScheme|..] + "/";
    var pa := FileStoragePath(url, sha1a, filenameA).value;
    var pb := FileStoragePath(url, sha1b, filenameB).value;
    assert pa == dir + sha1a + Ext(filenameA);
    assert pb == dir + sha1b + Ext(filenameB);
    if pa == pb {
      assert sha1a == pa[|dir|..|dir| + |sha1a|] == pb[|dir|..|dir| + |sha1b|] == sha1b;
      assert Ext(filenameA) == pa[|dir| + |sha1a|..] == pb[|dir| + |sha1b|..] == Ext(filenameB);
    }
  }

  /** When the digest holds no `/`, every blob of one location lives directly
      in the directory named by that location. */
  lemma PathDirectoryIsLocation(url: string, sha1: string, filename: string)
    requires HasPrefix(url, LocationScheme)
    requires '/' !in sha1
    ensures var p := FileStoragePath(url, sha1, filename).value;
            RFind(p, '/') == |url| - |LocationScheme| && p[..RFind(p, '/')] == url[|LocationScheme|..]
  {
    var dir := url[|LocationScheme|..];
    var p := FileStoragePath(url, sha1, filename).value;
    var e := Ext(filename);
    assert p == dir + "/" + sha1 + e;
    assert p[|dir|] == '/';
    forall j | |dir| < j < |p|
      ensures p[j] != '/'
    {
      if j <= |dir| + |sha1| {
        assert p[j] == sha1[j - |dir| - 1];
      } else {
        assert p[j] == e[j - |dir| - 1 - |sha1|];
      }
    }
    assert p[..|dir|] == dir;
  }

  /** The last occurrence is determined by its two defining facts. */
  lemma RFindIs(s: string, c: char, i: int)
    requires -1 <= i < |s|
    requires 0 <= i ==> s[i] == c
    requires forall j :: i < j < |s| ==> s[j] != c
    ensures RFind(s, c) == i
  {
  }

  /** `os.path.splitext` on the filenames the block typically sees. */
  lemma ExtExamples()
    ensures Ext("report.pdf") == ".pdf"
    ensures Ext("archive.tar.gz") == ".gz"
    ensures Ext(".bashrc") == ""
    ensures Ext("..hidden") == ""
    ensures Ext("notes") == ""
    ensures Ext("dir.d/notes") == ""
  {
    RFindIs("report.pdf", '.', 6);
    RFindIs("report.pdf", '/', -1);
    assert "report.pdf"[0] != '.' && "report.pdf"[6..] == ".pdf";
    RFindIs("archive.tar.gz", '.', 11);
    RFindIs("archive.tar.gz", '/', -1);
    assert "archive.tar.gz"[0] != '.' && "archive.tar.gz"[11..] == ".gz";
    RFindIs(".bashrc", '.', 0);
    RFindIs(".bashrc", '/', -1);
    RFindIs("..hidden", '.', 1);
    RFindIs("..hidden", '/', -1);
    RFindIs("notes", '.', -1);
    RFindIs("notes", '/', -1);
    RFindIs("dir.d/notes", '.', 3);
    RFindIs("dir.d/notes", '/', 5);
  }
}
