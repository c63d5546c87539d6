/**
  The POSIX path helpers the persistence layer relies on (Python's posixpath):
  splitext, dirname and the two-argument join. Paths are plain strings.
 */
module Paths {

  predicate StartsWith(s: string, prefix: string) {
    |prefix| <= |s| && s[..|prefix|] == prefix
  }

  predicate EndsWith(s: string, suffix: string) {
    |suffix| <= |s| && s[|s| - |suffix|..] == suffix
  }

  /** str.rfind for one character: the last index holding c, or -1. */
  function LastIndexOf(s: string, c: char): (r: int)
    ensures -1 <= r < |s|
    ensures r >= 0 ==> s[r] == c
    ensures forall j :: r < j < |s| ==> s[j] != c
  {
    if |s| == 0 then -1
    else if s[|s| - 1] == c then |s| - 1
    else LastIndexOf(s[..|s| - 1], c)
  }

  /** The last occurrence of c in a + b lies in b when b holds one, otherwise in a. */
  lemma {:induction false} LastIndexOfConcat(a: string, b: string, c: char)
    ensures c in b ==> LastIndexOf(a + b, c) == |a| + LastIndexOf(b, c)
    ensures c !in b ==> LastIndexOf(a + b, c) == LastIndexOf(a, c)
  {
    var r := LastIndexOf(a + b, c);
    if c in b {
      var j :| 0 <= j < |b| && b[j] == c;
      assert (a + b)[|a| + j] == c;
      var rb := LastIndexOf(b, c);
      assert rb >= j;
      assert (a + b)[|a| + rb] == c;
    } else {
      var ra := LastIndexOf(a, c);
      if ra >= 0 {
        assert (a + b)[ra] == c;
      }
      if 0 <= r < |a| {
        assert a[r] == (a + b)[r];
      }
    }
  }

  /**
    posixpath.splitext: the extension starts at the last '.' that lies after the
    last '/', provided the file-name part before that dot is not made of dots only.
   */
  function SplitExt(p: string): (r: (string, string))
    ensures r.0 + r.1 == p
    ensures r.1 == "" || (r.1[0] == '.' && '/' !in r.1 && '.' !in r.1[1..])
  {
    var sep := LastIndexOf(p, '/');
    var dot := LastIndexOf(p, '.');
    if dot > sep && exists k :: sep + 1 <= k < dot && p[k] != '.' then
      assert p[..dot] + p[dot..] == p;
      (p[..dot], p[dot..])
    else
      (p, "")
  }

  /**
    The converse of SplitExt's contract: a final extension (one dot, no slash) after a
    file name that is not made of dots only is exactly what SplitExt splits off.
   */
  lemma {:induction false} SplitExtFindsExtension(b: string, e: string)
    requires |e| >= 1 && e[0] == '.' && '.' !in e[1..] && '/' !in e
    requires exists k :: LastIndexOf(b, '/') < k < |b| && b[k] != '.'
    ensures SplitExt(b + e) == (b, e)
  {
    LastIndexOfConcat(b, e, '.');
    LastIndexOfConcat(b, e, '/');
    var k :| LastIndexOf(b, '/') < k < |b| && b[k] != '.';
    assert (b + e)[k] == b[k];
  }

  predicate AllSlashes(s: string) {
    forall i :: 0 <= i < |s| ==> s[i] == '/'
  }

  /** str.rstrip('/') */
  function RStripSlashes(s: string): (r: string)
    ensures StartsWith(s, r)
    ensures r == "" || r[|r| - 1] != '/'
    ensures AllSlashes(s[|r|..])
  {
    if |s| == 0 || s[|s| - 1] != '/' then s else RStripSlashes(s[..|s| - 1])
  }

  /** posixpath.dirname: everything up to the last '/', without trailing slashes unless it is all slashes. */
  function Dirname(p: string): (r: string)
  {
    var head := p[..LastIndexOf(p, '/') + 1];
    if head != "" && !AllSlashes(head) then RStripSlashes(head) else head
  }

  /** posixpath.join with two components. */
  function Join(a: string, b: string): (r: string)
    ensures EndsWith(r, b)
  {
    if StartsWith(b, "/") then b
    else if a == "" || a[|a| - 1] == '/' then a + b
    else a + "/" + b
  }

  /** A path lies under directory d (shutil.rmtree(d) removes it). */
  predicate Within(p: string, d: string) {
    |d| > 0 && |p| > |d| && p[..|d|] == d && (d[|d| - 1] == '/' || p[|d|] == '/')
  }

  /** A relative name joined under a non-empty directory lies under that directory. */
  lemma JoinWithin(d: string, n: string)
    requires d != "" && n != "" && n[0] != '/'
    ensures Within(Join(d, n), d)
  {
    assert !StartsWith(n, "/");
    var r := Join(d, n);
    assert r[..|d|] == d;
  }

  /** Joining a plain file name under a directory and taking the dirname gives the directory back. */
  lemma DirnameOfJoin(d: string, n: string)
    requires d != "" && d[|d| - 1] != '/'
    requires n != "" && '/' !in n
    ensures Dirname(Join(d, n)) == d
  {
    var p := Join(d, n);
    LastSlashOfJoin(d, n);
    var head := p[..|d| + 1];
    assert head == d + "/";
    assert !AllSlashes(head) by { assert head[|d| - 1] != '/'; }
    StripOneSlash(d);
  }

  lemma {:induction false} LastSlashOfJoin(d: string, n: string)
    requires d != "" && d[|d| - 1] != '/'
    requires n != "" && '/' !in n
    ensures Join(d, n) == (d + "/") + n
    ensures LastIndexOf(Join(d, n), '/') == |d|
  {
    assert !StartsWith(n, "/") by { assert n[0] != '/'; }
    LastIndexOfConcat(d + "/", n, '/');
    LastIndexOfConcat(d, "/", '/');
  }

  lemma StripOneSlash(d: string)
    requires d != "" && d[|d| - 1] != '/'
    ensures RStripSlashes(d + "/") == d
  {
    assert (d + "/")[..|d|] == d;
  }

}
