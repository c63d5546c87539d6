/**
  The chunked table serializer (LargeDataFrameProcessor in gokart/target.py).

  A table is its sequence of rows. save() splits the rows into contiguous
  sections the way numpy.array_split does and pickles section i to
  'data_<i>.pkl' in the directory of the target path; load() concatenates every
  'data_*.pkl' of that directory in the order glob lists them. The file system is
  a map from directory path to the files it holds (name to rows).
 */
module Chunking {
  import opened Wrappers
  import Paths

  type Directory<Row> = map<string, seq<Row>>
  type FileSystem<Row> = map<string, Directory<Row>>

  datatype SaveError =
    | DirectoryNotCreatable    // os.makedirs('') raises: the target path has no directory part
    | ZeroDivision             // nbytes // max_byte with max_byte == 0
    | NoSections               // numpy.array_split refuses a section count below 1
    | EmptySection(index: nat) // idx[0] on an empty section raises IndexError

  datatype LoadError = NoObjectsToConcatenate  // pandas.concat([]) raises

  /** Python's // : the quotient rounded toward negative infinity. */
  function FloorDiv(a: int, b: int): (q: int)
    requires b != 0
    ensures b > 0 ==> b * q <= a < b * q + b
    ensures b < 0 ==> b * q >= a > b * q + b
  {
    if b > 0 then a / b else (-a) / (-b)
  }

  /** split_size = df.values.nbytes // max_byte + 1 */
  function SectionCount(nbytes: nat, maxByte: int): int
    requires maxByte != 0
  {
    FloorDiv(nbytes, maxByte) + 1
  }

  /**
    With a positive max_byte there is always at least one section, and the average
    footprint per section stays strictly below max_byte: the count is biased one up.
   */
  lemma SectionCountBound(nbytes: nat, maxByte: int)
    requires maxByte > 0
    ensures var k := SectionCount(nbytes, maxByte);
      k >= 1 && (k - 1) * maxByte <= nbytes < k * maxByte
  {
    var q := FloorDiv(nbytes, maxByte);
    assert (q + 1) * maxByte == maxByte * q + maxByte;
    assert q * maxByte == maxByte * q;
  }

  // ---------------------------------------------------------------------------
  // numpy.array_split of range(n) into k sections: the first n % k sections have
  // n / k + 1 elements, the others n / k.

  function SectionSize(n: nat, k: nat, i: nat): nat
    requires k > 0
  {
    n / k + (if i < n % k then 1 else 0)
  }

  /** Index of the first element of section i: the sizes of the sections before it, summed. */
  function SectionStart(n: nat, k: nat, i: nat): nat
    requires k > 0
  {
    if i == 0 then 0 else SectionStart(n, k, i - 1) + SectionSize(n, k, i - 1)
  }

  lemma SectionStartStep(n: nat, k: nat, i: nat)
    requires k > 0
    ensures SectionStart(n, k, i + 1) == SectionStart(n, k, i) + SectionSize(n, k, i)
  {
  }

  /** Closed form of the start index, as numpy computes it from the cumulative sizes. */
  lemma {:induction false} SectionStartClosed(n: nat, k: nat, i: nat)
    requires k > 0
    ensures SectionStart(n, k, i) == i * (n / k) + (if i < n % k then i else n % k)
  {
    if i > 0 {
      SectionStartClosed(n, k, i - 1);
      assert i * (n / k) == (i - 1) * (n / k) + n / k;
    }
  }

  /** The k sections together cover all n elements. */
  lemma SectionStartEnd(n: nat, k: nat)
    requires k > 0
    ensures SectionStart(n, k, k) == n
  {
    SectionStartClosed(n, k, k);
    assert k * (n / k) + n % k == n;
  }

  lemma {:induction false} SectionStartMonotone(n: nat, k: nat, i: nat, j: nat)
    requires k > 0 && i <= j
    ensures SectionStart(n, k, i) <= SectionStart(n, k, j)
    decreases j - i
  {
    if i < j {
      SectionStartStep(n, k, i);
      SectionStartMonotone(n, k, i + 1, j);
    }
  }

  /** The rows of section i of k. */
  function Section<Row>(rows: seq<Row>, k: nat, i: nat): (s: seq<Row>)
    requires 0 <= i < k
    ensures |s| == SectionSize(|rows|, k, i)
  {
    var n := |rows|;
    SectionStartStep(n, k, i);
    SectionStartMonotone(n, k, i + 1, k);
    SectionStartEnd(n, k);
    rows[SectionStart(n, k, i)..SectionStart(n, k, i + 1)]
  }

  function Sections<Row>(rows: seq<Row>, k: nat): (parts: seq<seq<Row>>)
    requires k > 0
  {
    seq(k, i requires 0 <= i < k => Section(rows, k, i))
  }

  /** Concatenation of a list of row sequences. */
  function Flatten<Row>(parts: seq<seq<Row>>): seq<Row>
  {
    if parts == [] then [] else Flatten(parts[..|parts| - 1]) + parts[|parts| - 1]
  }

  lemma {:induction false} FlattenSections<Row>(rows: seq<Row>, k: nat, j: nat)
    requires 0 < k && j <= k
    ensures SectionStart(|rows|, k, j) <= |rows|
    ensures Flatten(Sections(rows, k)[..j]) == rows[..SectionStart(|rows|, k, j)]
  {
    SectionStartMonotone(|rows|, k, j, k);
    SectionStartEnd(|rows|, k);
    if j > 0 {
      FlattenSections(rows, k, j - 1);
      FlattenSectionsStep(rows, k, j);
    }
  }

  lemma FlattenSectionsStep<Row>(rows: seq<Row>, k: nat, j: nat)
    requires 0 < j <= k
    requires SectionStart(|rows|, k, j - 1) <= |rows|
    requires Flatten(Sections(rows, k)[..j - 1]) == rows[..SectionStart(|rows|, k, j - 1)]
    ensures SectionStart(|rows|, k, j) <= |rows|
    ensures Flatten(Sections(rows, k)[..j]) == rows[..SectionStart(|rows|, k, j)]
  {
    var n := |rows|;
    var parts := Sections(rows, k)[..j];
    assert parts[..j - 1] == Sections(rows, k)[..j - 1];
    assert parts[j - 1] == Section(rows, k, j - 1);
    SectionStartStep(n, k, j - 1);
    SectionStartMonotone(n, k, j, k);
    SectionStartEnd(n, k);
    var a, b := SectionStart(n, k, j - 1), SectionStart(n, k, j);
    assert rows[..b] == rows[..a] + rows[a..b];
  }

  /**
    array_split is a partition by position: k sections, concatenating them in index
    order gives the rows back, sizes never grow with the index and differ by at most one.
   */
  lemma SectionsPartition<Row>(rows: seq<Row>, k: nat)
    requires k > 0
    ensures |Sections(rows, k)| == k
    ensures Flatten(Sections(rows, k)) == rows
    ensures forall i, j :: 0 <= i < j < k ==>
      |Sections(rows, k)[j]| <= |Sections(rows, k)[i]| <= |Sections(rows, k)[j]| + 1
  {
    FlattenSections(rows, k, k);
    SectionStartEnd(|rows|, k);
    assert Sections(rows, k)[..k] == Sections(rows, k);
  }

  /** A section is empty exactly when there are more sections than rows, from index n on. */
  lemma EmptySectionIff(n: nat, k: nat, i: nat)
    requires 0 <= i < k
    ensures SectionSize(n, k, i) == 0 <==> k > n && i >= n
  {
    if k > n {
      assert n / k == 0 && n % k == n;
    } else {
      assert n / k >= 1;
    }
  }

  /** With more sections than rows, section i < n starts at row i. */
  lemma {:induction false} OversplitStart(n: nat, k: nat, i: nat)
    requires n < k && i <= n
    ensures SectionStart(n, k, i) == i
  {
    if i > 0 {
      OversplitStart(n, k, i - 1);
      OversplitSize(n, k, i - 1);
    }
  }

  lemma OversplitSize(n: nat, k: nat, i: nat)
    requires n < k && i < n
    ensures SectionSize(n, k, i) == 1
  {
    assert n / k == 0 && n % k == n;
  }

  /** With more sections than rows, the first n sections hold one row each. */
  lemma OversplitSections<Row>(rows: seq<Row>, k: nat, i: nat)
    requires |rows| < k && i < |rows|
    ensures Section(rows, k, i) == [rows[i]]
  {
    OversplitStart(|rows|, k, i);
    OversplitStart(|rows|, k, i + 1);
  }

  // ---------------------------------------------------------------------------
  // Fragment file names: 'data_' + str(i) + '.pkl', and the glob pattern 'data_*.pkl'.

  function DigitChar(d: nat): char
    requires d < 10
  {
    ('0' as int + d) as char
  }

  /** str(n) for a natural number. */
  function NatToString(n: nat): (s: string)
    ensures |s| >= 1
  {
    if n < 10 then [DigitChar(n)] else NatToString(n / 10) + [DigitChar(n % 10)]
  }

  lemma {:induction false} NatToStringInjective(a: nat, b: nat)
    requires NatToString(a) == NatToString(b)
    ensures a == b
  {
    if a >= 10 && b >= 10 {
      var sa, sb := NatToString(a), NatToString(b);
      assert sa[|sa| - 1] == DigitChar(a % 10);
      assert sb[|sb| - 1] == DigitChar(b % 10);
      assert sa[..|sa| - 1] == NatToString(a / 10);
      assert sb[..|sb| - 1] == NatToString(b / 10);
      NatToStringInjective(a / 10, b / 10);
    }
  }

  function FragmentName(i: nat): string
  {
    "data_" + NatToString(i) + ".pkl"
  }

  /** fnmatch(name, 'data_*.pkl') */
  predicate MatchesFragmentPattern(name: string)
  {
    |name| >= 9 && name[..5] == "data_" && name[|name| - 4..] == ".pkl"
  }

  /** Every fragment name matches the glob pattern, and distinct indices give distinct names. */
  lemma FragmentNames(i: nat, j: nat)
    ensures MatchesFragmentPattern(FragmentName(i))
    ensures FragmentName(i) == FragmentName(j) ==> i == j
  {
    var s := FragmentName(i);
    assert s[..5] == "data_";
    assert s[|s| - 4..] == ".pkl";
    if FragmentName(i) == FragmentName(j) {
      var t := FragmentName(j);
      assert |NatToString(i)| == |NatToString(j)|;
      assert NatToString(i) == s[5..|s| - 4];
      assert NatToString(j) == t[5..|t| - 4];
      NatToStringInjective(i, j);
    }
  }

  function FragmentNameSet(m: nat): set<string>
  {
    set j | 0 <= j < m :: FragmentName(j)
  }

  // ---------------------------------------------------------------------------
  // save()

  /** The directory after the loop has written sections 0 .. m-1 of k into it. */
  function Written<Row>(d: Directory<Row>, rows: seq<Row>, k: nat, m: nat): Directory<Row>
    requires m <= k
  {
    if m == 0 then d else Written(d, rows, k, m - 1)[FragmentName(m - 1) := Section(rows, k, m - 1)]
  }

  /**
    After writing m sections, fragment j < m holds section j; every other file of the
    directory, stale fragments of an earlier save included, is left as it was.
   */
  lemma {:induction false} WrittenContents<Row>(d: Directory<Row>, rows: seq<Row>, k: nat, m: nat)
    requires m <= k
    ensures Written(d, rows, k, m).Keys == d.Keys + FragmentNameSet(m)
    ensures forall j :: 0 <= j < m ==> Written(d, rows, k, m)[FragmentName(j)] == Section(rows, k, j)
    ensures forall name :: name in d && name !in FragmentNameSet(m) ==> Written(d, rows, k, m)[name] == d[name]
  {
    if m > 0 {
      WrittenContents(d, rows, k, m - 1);
      FragmentNameSetStep(m - 1);
      WrittenStep(d, rows, k, m, Written(d, rows, k, m - 1));
    }
  }

  lemma FragmentNameSetStep(m: nat)
    ensures FragmentNameSet(m + 1) == FragmentNameSet(m) + {FragmentName(m)}
    ensures FragmentName(m) !in FragmentNameSet(m)
  {
    forall j | 0 <= j < m
      ensures FragmentName(j) != FragmentName(m)
    {
      FragmentNames(j, m);
    }
  }

  lemma WrittenStep<Row>(d: Directory<Row>, rows: seq<Row>, k: nat, m: nat, prev: Directory<Row>)
    requires 0 < m <= k
    requires prev == Written(d, rows, k, m - 1)
    requires prev.Keys == d.Keys + FragmentNameSet(m - 1)
    requires forall j :: 0 <= j < m - 1 ==> prev[FragmentName(j)] == Section(rows, k, j)
    requires forall name :: name in d && name !in FragmentNameSet(m - 1) ==> prev[name] == d[name]
    requires FragmentNameSet(m) == FragmentNameSet(m - 1) + {FragmentName(m - 1)}
    requires FragmentName(m - 1) !in FragmentNameSet(m - 1)
    ensures Written(d, rows, k, m).Keys == d.Keys + FragmentNameSet(m)
    ensures forall j :: 0 <= j < m ==> Written(d, rows, k, m)[FragmentName(j)] == Section(rows, k, j)
    ensures forall name :: name in d && name !in FragmentNameSet(m) ==> Written(d, rows, k, m)[name] == d[name]
  {
    var w := prev[FragmentName(m - 1) := Section(rows, k, m - 1)];
    assert Written(d, rows, k, m) == w;
    assert w.Keys == prev.Keys + {FragmentName(m - 1)};
    WrittenFragmentsStep(rows, k, m, prev, w);
  }

  lemma WrittenFragmentsStep<Row>(rows: seq<Row>, k: nat, m: nat, prev: Directory<Row>, w: Directory<Row>)
    requires 0 < m <= k
    requires FragmentName(m - 1) !in FragmentNameSet(m - 1)
    requires forall j :: 0 <= j < m - 1 ==> FragmentName(j) in prev && prev[FragmentName(j)] == Section(rows, k, j)
    requires w == prev[FragmentName(m - 1) := Section(rows, k, m - 1)]
    ensures forall j :: 0 <= j < m ==> w[FragmentName(j)] == Section(rows, k, j)
  {
    forall j | 0 <= j < m
      ensures w[FragmentName(j)] == Section(rows, k, j)
    {
      if j < m - 1 {
        assert FragmentName(j) in FragmentNameSet(m - 1);
      }
    }
  }

  /**
    LargeDataFrameProcessor(max_byte).save(df, file_path), where rows are df's rows and
    nbytes is df.values.nbytes. Returns the file system afterwards and the error raised,
    if any. The directory is created before anything can fail; with more sections than
    rows, the first |rows| fragments are written before the empty section fails.
   */
  method Save<Row>(fs: FileSystem<Row>, rows: seq<Row>, nbytes: nat, maxByte: int, filePath: string)
    returns (fs': FileSystem<Row>, err: Option<SaveError>)
    ensures var dir := Paths.Dirname(filePath);
      var d := if dir in fs then fs[dir] else map[];
      if dir == "" then
        fs' == fs && err == Some(DirectoryNotCreatable)
      else if rows == [] then
        err == None && fs' == fs[dir := d[FragmentName(0) := rows]]
      else if maxByte == 0 then
        err == Some(ZeroDivision) && fs' == fs[dir := d]
      else if SectionCount(nbytes, maxByte) <= 0 then
        err == Some(NoSections) && fs' == fs[dir := d]
      else if SectionCount(nbytes, maxByte) <= |rows| then
        err == None && fs' == fs[dir := Written(d, rows, SectionCount(nbytes, maxByte), SectionCount(nbytes, maxByte))]
      else
        err == Some(EmptySection(|rows|)) && fs' == fs[dir := Written(d, rows, SectionCount(nbytes, maxByte), |rows|)]
  {
    var dir := Paths.Dirname(filePath);
    if dir == "" {
      return fs, Some(DirectoryNotCreatable);
    }
    var d := if dir in fs then fs[dir] else map[];
    if rows == [] {
      return fs[dir := d[FragmentName(0) := rows]], None;
    }
    if maxByte == 0 {
      return fs[dir := d], Some(ZeroDivision);
    }
    var k := FloorDiv(nbytes, maxByte) + 1;
    if k <= 0 {
      return fs[dir := d], Some(NoSections);
    }
    var current;
    current, err := WriteSections(d, rows, k);
    fs' := fs[dir := current];
  }

  /**
    The loop of save(): section i goes to data_<i>.pkl, in index order, until an
    empty section raises.
   */
  method WriteSections<Row>(d: Directory<Row>, rows: seq<Row>, k: nat) returns (current: Directory<Row>, err: Option<SaveError>)
    requires k > 0
    ensures k <= |rows| ==> err == None && current == Written(d, rows, k, k)
    ensures k > |rows| ==> err == Some(EmptySection(|rows|)) && current == Written(d, rows, k, |rows|)
  {
    var n := |rows|;
    current := d;
    err := None;
    var i := 0;
    while i < k
      invariant 0 <= i <= k
      invariant k > n ==> i <= n
      invariant current == Written(d, rows, k, i)
    {
      EmptySectionIff(n, k, i);
      var size := SectionSize(n, k, i);
      if size == 0 {
        err := Some(EmptySection(i));
        return;
      }
      SectionStartStep(n, k, i);
      current := current[FragmentName(i) := Section(rows, k, i)];
      i := i + 1;
    }
  }

  // ---------------------------------------------------------------------------
  // load()

  function DirectoryAt<Row>(fs: FileSystem<Row>, dir: string): Directory<Row>
  {
    if dir in fs then fs[dir] else map[]
  }

  /**
    What glob returns for 'dir/data_*.pkl', given the directory's files: every
    matching file, each once, in an order the file system chooses.
   */
  ghost predicate IsGlobListing<Row>(d: Directory<Row>, listing: seq<string>)
  {
    && (forall i, j :: 0 <= i < j < |listing| ==> listing[i] != listing[j])
    && (forall name :: name in listing <==> name in d && MatchesFragmentPattern(name))
  }

  /** The rows of the listed files, concatenated in listing order. */
  function ConcatFiles<Row>(d: Directory<Row>, names: seq<string>): seq<Row>
    requires forall name :: name in names ==> name in d
  {
    if names == [] then [] else ConcatFiles(d, names[..|names| - 1]) + d[names[|names| - 1]]
  }

  /**
    LargeDataFrameProcessor.load(file_path), given the order in which glob lists the
    fragments of dirname(file_path). It fails exactly when that directory holds no
    fragment at all.
   */
  function Load<Row>(fs: FileSystem<Row>, filePath: string, listing: seq<string>): (r: Result<seq<Row>, LoadError>)
    requires IsGlobListing(DirectoryAt(fs, Paths.Dirname(filePath)), listing)
    ensures r.Failure? <==> !exists name :: name in DirectoryAt(fs, Paths.Dirname(filePath)) && MatchesFragmentPattern(name)
  {
    var d := DirectoryAt(fs, Paths.Dirname(filePath));
    if listing == [] then Failure(NoObjectsToConcatenate)
    else
      assert listing[0] in listing;
      Success(ConcatFiles(d, listing))
  }

  lemma {:induction false} ConcatFilesAppend<Row>(d: Directory<Row>, a: seq<string>, b: seq<string>)
    requires forall name :: name in a + b ==> name in d
    ensures ConcatFiles(d, a + b) == ConcatFiles(d, a) + ConcatFiles(d, b)
    decreases |b|
  {
    if b != [] {
      var b' := b[..|b| - 1];
      assert (a + b)[..|a + b| - 1] == a + b';
      ConcatFilesAppend(d, a, b');
    } else {
      assert a + b == a;
    }
  }

  /** Removing the element at index j of a duplicate-free list removes exactly that name. */
  lemma RemoveAt(l: seq<string>, j: nat)
    requires j < |l|
    requires forall a, b :: 0 <= a < b < |l| ==> l[a] != l[b]
    ensures var rest := l[..j] + l[j + 1..];
      && (forall a, b :: 0 <= a < b < |rest| ==> rest[a] != rest[b])
      && (forall name :: name in rest <==> name in l && name != l[j])
  {
    var rest := l[..j] + l[j + 1..];
    forall a, b | 0 <= a < b < |rest| ensures rest[a] != rest[b] {
      var ia := if a < j then a else a + 1;
      var ib := if b < j then b else b + 1;
      assert rest[a] == l[ia] && rest[b] == l[ib];
    }
    forall name ensures name in rest <==> name in l && name != l[j] {
      if name in rest {
        var i :| 0 <= i < |rest| && rest[i] == name;
        var il := if i < j then i else i + 1;
        assert l[il] == name;
      }
      if name in l && name != l[j] {
        var i :| 0 <= i < |l| && l[i] == name;
        assert i != j;
        if i < j { assert rest[i] == name; } else { assert rest[i - 1] == name; }
      }
    }
  }

  /** Taking one listed file out of the concatenation removes exactly its rows from the multiset. */
  lemma ConcatFilesRemove<Row>(d: Directory<Row>, l: seq<string>, j: nat)
    requires j < |l|
    requires forall name :: name in l ==> name in d
    ensures forall name :: name in l[..j] + l[j + 1..] ==> name in d
    ensures multiset(ConcatFiles(d, l)) == multiset(ConcatFiles(d, l[..j] + l[j + 1..])) + multiset(d[l[j]])
  {
    var x, left, right := l[j], l[..j], l[j + 1..];
    assert l == left + ([x] + right);
    assert forall name :: name in left ==> name in l;
    assert forall name :: name in right ==> name in l;
    ConcatFilesSplit(d, left, x, right);
  }

  lemma ConcatFilesSplit<Row>(d: Directory<Row>, left: seq<string>, x: string, right: seq<string>)
    requires x in d
    requires forall name :: name in left ==> name in d
    requires forall name :: name in right ==> name in d
    ensures forall name :: name in left + right ==> name in d
    ensures ConcatFiles(d, left + ([x] + right)) == ConcatFiles(d, left) + (d[x] + ConcatFiles(d, right))
    ensures ConcatFiles(d, left + right) == ConcatFiles(d, left) + ConcatFiles(d, right)
  {
    ConcatFilesAppend(d, left, [x] + right);
    ConcatFilesAppend(d, [x], right);
    ConcatFilesAppend(d, left, right);
    assert ConcatFiles(d, [x]) == d[x] by {
      assert [x][..0] == [];
    }
  }

  /** Two orders of the same set of distinct fragment names yield the same multiset of rows. */
  lemma {:induction false} ConcatFilesAnyOrder<Row>(d: Directory<Row>, l1: seq<string>, l2: seq<string>)
    requires forall name :: name in l1 ==> name in d
    requires forall i, j :: 0 <= i < j < |l1| ==> l1[i] != l1[j]
    requires forall i, j :: 0 <= i < j < |l2| ==> l2[i] != l2[j]
    requires forall name :: name in l1 <==> name in l2
    ensures multiset(ConcatFiles(d, l1)) == multiset(ConcatFiles(d, l2))
    decreases |l1|
  {
    if l1 != [] {
      var i := |l1| - 1;
      var x := l1[i];
      assert x in l2;
      var j :| 0 <= j < |l2| && l2[j] == x;
      var rest1, rest2 := l1[..i] + l1[i + 1..], l2[..j] + l2[j + 1..];
      RemoveAt(l1, i);
      RemoveAt(l2, j);
      assert forall name :: name in rest1 <==> name in rest2;
      ConcatFilesRemove(d, l1, i);
      ConcatFilesRemove(d, l2, j);
      ConcatFilesAnyOrder(d, rest1, rest2);
    }
  }

  /** [data_0.pkl, ..., data_<m-1>.pkl]: the listing in ascending fragment order. */
  function AscendingListing(m: nat): (names: seq<string>)
    ensures |names| == m
  {
    if m == 0 then [] else AscendingListing(m - 1) + [FragmentName(m - 1)]
  }

  lemma {:induction false} AscendingListingIndex(m: nat)
    ensures forall i :: 0 <= i < m ==> AscendingListing(m)[i] == FragmentName(i)
  {
    if m > 0 {
      AscendingListingIndex(m - 1);
      assert AscendingListing(m) == AscendingListing(m - 1) + [FragmentName(m - 1)];
    }
  }

  lemma AscendingListingFacts(m: nat)
    ensures forall i :: 0 <= i < m ==> AscendingListing(m)[i] == FragmentName(i)
    ensures forall name :: name in AscendingListing(m) <==> name in FragmentNameSet(m)
    ensures forall i, j :: 0 <= i < j < m ==> AscendingListing(m)[i] != AscendingListing(m)[j]
  {
    AscendingListingIndex(m);
    var l := AscendingListing(m);
    forall name ensures name in l <==> name in FragmentNameSet(m) {
      if name in l {
        var i :| 0 <= i < m && l[i] == name;
      }
      if name in FragmentNameSet(m) {
        var i :| 0 <= i < m && name == FragmentName(i);
        assert l[i] == name;
      }
    }
    forall i, j | 0 <= i < j < m ensures l[i] != l[j] {
      FragmentNames(i, j);
    }
  }


  /** A directory whose fragments 0 .. j-1 hold sections 0 .. j-1 reads back, in ascending order, as the rows before section j. */
  lemma {:induction false} ConcatAscending<Row>(d: Directory<Row>, rows: seq<Row>, k: nat, j: nat)
    requires 0 < k && j <= k
    requires forall i :: 0 <= i < j ==> FragmentName(i) in d && d[FragmentName(i)] == Section(rows, k, i)
    ensures forall name :: name in AscendingListing(j) ==> name in d
    ensures SectionStart(|rows|, k, j) <= |rows|
    ensures ConcatFiles(d, AscendingListing(j)) == rows[..SectionStart(|rows|, k, j)]
  {
    SectionStartMonotone(|rows|, k, j, k);
    SectionStartEnd(|rows|, k);
    if j > 0 {
      ConcatAscending(d, rows, k, j - 1);
      ConcatAscendingStep(d, rows, k, j);
    }
  }

  lemma ConcatAscendingStep<Row>(d: Directory<Row>, rows: seq<Row>, k: nat, j: nat)
    requires 0 < j <= k
    requires FragmentName(j - 1) in d && d[FragmentName(j - 1)] == Section(rows, k, j - 1)
    requires forall name :: name in AscendingListing(j - 1) ==> name in d
    requires SectionStart(|rows|, k, j - 1) <= |rows|
    requires ConcatFiles(d, AscendingListing(j - 1)) == rows[..SectionStart(|rows|, k, j - 1)]
    ensures forall name :: name in AscendingListing(j) ==> name in d
    ensures SectionStart(|rows|, k, j) <= |rows|
    ensures ConcatFiles(d, AscendingListing(j)) == rows[..SectionStart(|rows|, k, j)]
  {
    var n := |rows|;
    var listing := AscendingListing(j);
    assert listing == AscendingListing(j - 1) + [FragmentName(j - 1)];
    assert listing[..j - 1] == AscendingListing(j - 1);
    SectionStartStep(n, k, j - 1);
    SectionStartMonotone(n, k, j, k);
    SectionStartEnd(n, k);
    var a, b := SectionStart(n, k, j - 1), SectionStart(n, k, j);
    assert d[FragmentName(j - 1)] == rows[a..b];
    assert rows[..b] == rows[..a] + rows[a..b];
  }

  /** No file of the directory matches 'data_*.pkl'. */
  predicate NoFragments<Row>(d: Directory<Row>)
  {
    forall name :: name in d ==> !MatchesFragmentPattern(name)
  }

  /** Into a directory without fragments, writing all k sections leaves exactly data_0 .. data_<k-1> to be listed. */
  lemma WrittenListing<Row>(d: Directory<Row>, rows: seq<Row>, k: nat)
    requires 0 < k && NoFragments(d)
    ensures IsGlobListing(Written(d, rows, k, k), AscendingListing(k))
    ensures ConcatFiles(Written(d, rows, k, k), AscendingListing(k)) == rows
  {
    var w := Written(d, rows, k, k);
    WrittenContents(d, rows, k, k);
    WrittenIsListed(d, w, k);
    ConcatAscending(w, rows, k, k);
    SectionStartEnd(|rows|, k);
  }

  lemma WrittenIsListed<Row>(d: Directory<Row>, w: Directory<Row>, k: nat)
    requires NoFragments(d)
    requires w.Keys == d.Keys + FragmentNameSet(k)
    ensures IsGlobListing(w, AscendingListing(k))
  {
    AscendingListingFacts(k);
    forall name ensures name in AscendingListing(k) <==> name in w && MatchesFragmentPattern(name) {
      if name in FragmentNameSet(k) {
        var j :| 0 <= j < k && name == FragmentName(j);
        FragmentNames(j, j);
      }
    }
  }

  /**
    Round trip: saving a non-empty table into a directory without fragments, then
    loading with the fragments listed in ascending order, gives the table back.
   */
  lemma SaveLoadAscending<Row>(fs: FileSystem<Row>, rows: seq<Row>, nbytes: nat, maxByte: int, filePath: string)
    requires Paths.Dirname(filePath) != "" && rows != [] && maxByte > 0
    requires SectionCount(nbytes, maxByte) <= |rows|
    requires NoFragments(DirectoryAt(fs, Paths.Dirname(filePath)))
    ensures var dir := Paths.Dirname(filePath);
      var k := SectionCount(nbytes, maxByte);
      var fs' := fs[dir := Written(DirectoryAt(fs, dir), rows, k, k)];
      IsGlobListing(DirectoryAt(fs', dir), AscendingListing(k)) && Load(fs', filePath, AscendingListing(k)) == Success(rows)
  {
    SectionCountBound(nbytes, maxByte);
    WrittenListing(DirectoryAt(fs, Paths.Dirname(filePath)), rows, SectionCount(nbytes, maxByte));
  }

  /**
    Whatever order glob lists the fragments in, loading after such a save returns
    the table's rows as a multiset; only the ascending order is sure to keep row order.
   */
  lemma SaveLoadAnyOrder<Row>(fs: FileSystem<Row>, rows: seq<Row>, nbytes: nat, maxByte: int, filePath: string, listing: seq<string>)
    requires Paths.Dirname(filePath) != "" && rows != [] && maxByte > 0
    requires SectionCount(nbytes, maxByte) <= |rows|
    requires NoFragments(DirectoryAt(fs, Paths.Dirname(filePath)))
    requires var dir := Paths.Dirname(filePath);
      var k := SectionCount(nbytes, maxByte);
      IsGlobListing(Written(DirectoryAt(fs, dir), rows, k, k), listing)
    ensures var dir := Paths.Dirname(filePath);
      var k := SectionCount(nbytes, maxByte);
      var r := Load(fs[dir := Written(DirectoryAt(fs, dir), rows, k, k)], filePath, listing);
      r.Success? && multiset(r.value) == multiset(rows)
  {
    var dir := Paths.Dirname(filePath);
    var k := SectionCount(nbytes, maxByte);
    SectionCountBound(nbytes, maxByte);
    var w := Written(DirectoryAt(fs, dir), rows, k, k);
    WrittenListing(DirectoryAt(fs, dir), rows, k);
    var asc := AscendingListing(k);
    assert asc[0] in asc;
    assert listing != [] by { assert asc[0] in listing; }
    ConcatFilesAnyOrder(w, listing, asc);
  }

  /**
    An empty table is written as the single fragment data_0.pkl: into a directory that
    held no fragment, it leaves exactly that one to be listed, and loading it back
    gives an empty table.
   */
  lemma EmptyTableRoundTrip<Row>(fs: FileSystem<Row>, filePath: string)
    requires Paths.Dirname(filePath) != ""
    requires NoFragments(DirectoryAt(fs, Paths.Dirname(filePath)))
    ensures var dir := Paths.Dirname(filePath);
      var fs' := fs[dir := DirectoryAt(fs, dir)[FragmentName(0) := []]];
      && (forall name :: name in DirectoryAt(fs', dir) && MatchesFragmentPattern(name) <==> name == FragmentName(0))
      && IsGlobListing(DirectoryAt(fs', dir), [FragmentName(0)])
      && Load(fs', filePath, [FragmentName(0)]) == Success([])
  {
    var dir := Paths.Dirname(filePath);
    var d' := DirectoryAt(fs, dir)[FragmentName(0) := []];
    FragmentNames(0, 0);
    assert ConcatFiles(d', [FragmentName(0)]) == ConcatFiles(d', []) + d'[FragmentName(0)];
  }

  /**
    Stale fragments survive a re-save: if an earlier save left data_<k>.pkl and the new
    table is split into k sections, loading in ascending order returns the new rows
    followed by the stale rows.
   */
  lemma StaleFragmentIsLoaded<Row>(d: Directory<Row>, rows: seq<Row>, k: nat, stale: seq<Row>)
    requires 0 < k
    requires FragmentName(k) in d && d[FragmentName(k)] == stale
    requires forall name :: name in d && MatchesFragmentPattern(name) ==> name == FragmentName(k)
    ensures IsGlobListing(Written(d, rows, k, k), AscendingListing(k + 1))
    ensures forall name :: name in AscendingListing(k + 1) ==> name in Written(d, rows, k, k)
    ensures ConcatFiles(Written(d, rows, k, k), AscendingListing(k + 1)) == rows + stale
  {
    var w := Written(d, rows, k, k);
    WrittenContents(d, rows, k, k);
    StaleListing(d, rows, k);
    assert FragmentName(k) !in FragmentNameSet(k) by {
      forall j | 0 <= j < k ensures FragmentName(j) != FragmentName(k) {
        FragmentNames(j, k);
      }
    }
    ConcatThenStale(w, rows, k, stale);
  }

  /** Sections 0 .. k-1 followed by one more fragment read back, in ascending order, as the rows followed by that fragment's rows. */
  lemma {:induction false} ConcatThenStale<Row>(w: Directory<Row>, rows: seq<Row>, k: nat, stale: seq<Row>)
    requires 0 < k
    requires forall i :: 0 <= i < k ==> FragmentName(i) in w && w[FragmentName(i)] == Section(rows, k, i)
    requires FragmentName(k) in w && w[FragmentName(k)] == stale
    ensures forall name :: name in AscendingListing(k + 1) ==> name in w
    ensures ConcatFiles(w, AscendingListing(k + 1)) == rows + stale
  {
    ConcatAscending(w, rows, k, k);
    SectionStartEnd(|rows|, k);
    var listing := AscendingListing(k + 1);
    assert listing == AscendingListing(k) + [FragmentName(k)];
    assert listing[..k] == AscendingListing(k);
  }

  lemma StaleListing<Row>(d: Directory<Row>, rows: seq<Row>, k: nat)
    requires FragmentName(k) in d
    requires forall name :: name in d && MatchesFragmentPattern(name) ==> name == FragmentName(k)
    ensures IsGlobListing(Written(d, rows, k, k), AscendingListing(k + 1))
  {
    var w := Written(d, rows, k, k);
    WrittenContents(d, rows, k, k);
    FragmentNameSetStep(k);
    StaleKeys(d, w, k);
  }

  /** The fragments of the written directory are data_0 .. data_<k>, the last one stale. */
  lemma StaleKeys<Row>(d: Directory<Row>, w: Directory<Row>, k: nat)
    requires FragmentName(k) in d
    requires forall name :: name in d && MatchesFragmentPattern(name) ==> name == FragmentName(k)
    requires w.Keys == d.Keys + FragmentNameSet(k)
    requires FragmentNameSet(k + 1) == FragmentNameSet(k) + {FragmentName(k)}
    ensures IsGlobListing(w, AscendingListing(k + 1))
  {
    AscendingListingFacts(k + 1);
    forall name | name in FragmentNameSet(k + 1)
      ensures name in w && MatchesFragmentPattern(name)
    {
      var j :| 0 <= j < k + 1 && name == FragmentName(j);
      FragmentNames(j, j);
    }
  }

}
