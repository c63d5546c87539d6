/**
  The pure path and lock-scope derivation of the target factory (gokart/target.py):
  the run identifier inserted before the file extension, the lock parameters
  derived from the path as given, and the scratch directory of a model target.
 */
module TargetPaths {
  import opened Wrappers
  import opened Paths

  /**
    The parameters of the lock that guards one target. The lock protocol derives them
    from a file path and an optional run identifier; the derivation itself belongs to
    the lock protocol, so the model keeps the pair it is computed from.
   */
  datatype TaskLockParams = TaskLockParams(filePath: string, uniqueId: Option<string>)

  /** _make_file_path: insert '_' + unique_id before the extension, or keep the path. */
  function MakeFilePath(originalPath: string, uniqueId: Option<string>): (r: string)
  {
    match uniqueId
    case None => originalPath
    case Some(u) =>
      var (base, extension) := SplitExt(originalPath);
      base + "_" + u + extension
  }

  /** Without a run identifier the path is used as given. */
  lemma NoRunIdKeepsPath(p: string)
    ensures MakeFilePath(p, None) == p
  {
  }

  /**
    With a run identifier u the path grows by exactly '_' + u, placed between the
    base and the extension, so it always differs from the original path.
   */
  lemma {:induction false} RunIdSuffixShape(p: string, u: string)
    ensures var r := MakeFilePath(p, Some(u));
      && |r| == |p| + |u| + 1
      && r != p
      && StartsWith(r, SplitExt(p).0 + "_" + u)
      && EndsWith(r, SplitExt(p).1)
  {
    var (base, extension) := SplitExt(p);
    var r := MakeFilePath(p, Some(u));
    assert r == (base + "_" + u) + extension;
    assert r[..|base + "_" + u|] == base + "_" + u;
    assert r[|r| - |extension|..] == extension;
  }

  /** Distinct run identifiers give distinct final paths for the same original path. */
  lemma {:induction false} RunIdInjective(p: string, u1: string, u2: string)
    requires MakeFilePath(p, Some(u1)) == MakeFilePath(p, Some(u2))
    ensures u1 == u2
  {
    var (base, extension) := SplitExt(p);
    var r := MakeFilePath(p, Some(u1));
    assert r == base + "_" + u1 + extension;
    assert r == base + "_" + u2 + extension;
    assert |u1| == |u2|;
    assert u1 == r[|base| + 1..|base| + 1 + |u1|];
    assert u2 == r[|base| + 1..|base| + 1 + |u2|];
  }

  /**
    A run identifier free of '.' and '/' leaves the extension of the final path equal
    to that of the original path, so a processor chosen by extension on the final
    path is the one the original path names.
   */
  lemma {:induction false} RunIdKeepsExtension(p: string, u: string)
    requires '.' !in u && '/' !in u
    ensures SplitExt(MakeFilePath(p, Some(u))) == (SplitExt(p).0 + "_" + u, SplitExt(p).1)
  {
    var (base, extension) := SplitExt(p);
    var mid := "_" + u;
    assert '.' !in mid && '/' !in mid by {
      forall i | 0 <= i < |mid| ensures mid[i] != '.' && mid[i] != '/' {
        if i > 0 { assert mid[i] == u[i - 1]; }
      }
    }
    assert MakeFilePath(p, Some(u)) == (base + mid) + extension;
    assert base + "_" + u == base + mid;
    if extension == "" {
      assert base == p && (base + mid) + extension == p + mid;
      NoExtensionKept(p, mid);
    } else {
      ExtensionKept(base, mid, extension);
    }
  }

  /** A path without extension keeps none when a tail free of '.' and '/' is appended. */
  lemma {:induction false} NoExtensionKept(p: string, mid: string)
    requires SplitExt(p).1 == ""
    requires '.' !in mid && '/' !in mid
    ensures SplitExt(p + mid) == (p + mid, "")
  {
    LastIndexOfConcat(p, mid, '/');
    LastIndexOfConcat(p, mid, '.');
    var r := p + mid;
    var sep := LastIndexOf(p, '/');
    var dot := LastIndexOf(p, '.');
    assert !(dot > sep && exists k :: sep + 1 <= k < dot && p[k] != '.');
    assert forall k :: 0 <= k < |p| ==> r[k] == p[k];
  }

  /** An extension stays the extension when a non-empty tail free of '.' and '/' is inserted before it. */
  lemma {:induction false} ExtensionKept(base: string, mid: string, extension: string)
    requires mid != "" && mid[0] != '.'
    requires '.' !in mid && '/' !in mid
    requires extension != "" && extension[0] == '.' && '/' !in extension && '.' !in extension[1..]
    ensures SplitExt(base + mid + extension) == (base + mid, extension)
  {
    var r := (base + mid) + extension;
    LastIndexOfConcat(base, mid, '/');
    LastIndexOfConcat(base + mid, extension, '/');
    LastIndexOfConcat(base + mid, extension, '.');
    assert extension == ['.'] + extension[1..];
    LastIndexOfConcat(['.'], extension[1..], '.');
    var sep := LastIndexOf(r, '/');
    var dot := LastIndexOf(r, '.');
    assert sep == LastIndexOf(base, '/');
    assert dot == |base| + |mid|;
    assert r[|base|] == mid[0];
    assert sep + 1 <= |base| < dot;
    assert r[..dot] == base + mid;
    assert r[dot..] == extension;
  }

  /** make_target / make_model_target: an explicit lock parameter wins, otherwise it is derived from the path as given. */
  function ResolveLockParams(filePath: string, uniqueId: Option<string>, given: Option<TaskLockParams>): TaskLockParams
  {
    if given.Some? then given.value else TaskLockParams(filePath, uniqueId)
  }

  /**
    The derived lock scope is keyed by the original path and the run identifier, not
    by the suffixed final path: two calls with equal inputs share it, and runs with
    different identifiers get different scopes.
   */
  lemma {:induction false} DerivedLockScope(p: string, u1: Option<string>, u2: Option<string>)
    ensures ResolveLockParams(p, u1, None).filePath == p
    ensures u1.Some? ==> ResolveLockParams(p, u1, None).filePath != MakeFilePath(p, u1)
    ensures ResolveLockParams(p, u1, None) == ResolveLockParams(p, u2, None) <==> u1 == u2
  {
    if u1.Some? {
      RunIdSuffixShape(p, u1.value);
    }
  }

  /**
    make_model_target: the scratch directory is the hex digest of the final path
    joined under the temporary root. The digest (md5) is a parameter.
   */
  function ScratchDirectory(temporaryRoot: string, finalPath: string, digest: string -> string): string
  {
    Join(temporaryRoot, digest(finalPath))
  }

  /** Final paths with different digests never share a scratch directory under one root. */
  lemma {:induction false} ScratchIsolation(root: string, p1: string, p2: string, digest: string -> string)
    requires digest(p1) != digest(p2)
    requires digest(p1) != "" && digest(p1)[0] != '/'
    requires digest(p2) != "" && digest(p2)[0] != '/'
    ensures ScratchDirectory(root, p1, digest) != ScratchDirectory(root, p2, digest)
  {
  }
}
