// The files of a project: everything imported, directly or not, from an entry file
// (crates/fidan-cli/src/ai_analysis.rs).

module ImportClosure {
  import opened Sorting
  import opened Options

  type Path = string

  /** A file's imports count only if it parses without diagnostics. */
  datatype Source = Source(clean: bool, imports: seq<Path>)

  /** `canonical` resolves paths; `files` holds the readable files by canonical path. */
  datatype Disk = Disk(canonical: map<Path, Path>, files: map<Path, Source>)

  function Canon(d: Disk, path: Path): Path {
    if path in d.canonical then d.canonical[path] else path
  }

  function ImportsOf(d: Disk, file: Path): seq<Path> {
    if file in d.files && d.files[file].clean then d.files[file].imports else []
  }

  // ----- reachability -----

  /** A readable file that parses without diagnostics imports what its paths resolve to, or stand for where they
      do not resolve; any other file imports nothing. */
  ghost predicate Imports(d: Disk, a: Path, b: Path) {
    && a in d.files && d.files[a].clean
    && exists i :: 0 <= i < |d.files[a].imports| &&
         var path := d.files[a].imports[i];
         (path in d.canonical && b == d.canonical[path]) || (path !in d.canonical && b == path)
  }

  /** A chain of imports from the entry file. */
  ghost predicate Chain(d: Disk, entry: Path, chain: seq<Path>) {
    && chain != [] && chain[0] == Canon(d, entry)
    && forall i :: 0 <= i < |chain| - 1 ==> Imports(d, chain[i], chain[i + 1])
  }

  ghost predicate Reachable(d: Disk, entry: Path, file: Path) {
    exists chain :: Chain(d, entry, chain) && chain[|chain| - 1] == file
  }

  lemma EntryReachable(d: Disk, entry: Path)
    ensures Reachable(d, entry, Canon(d, entry))
  {
    assert Chain(d, entry, [Canon(d, entry)]);
  }

  lemma ImportReachable(d: Disk, entry: Path, a: Path, b: Path)
    requires Reachable(d, entry, a) && Imports(d, a, b)
    ensures Reachable(d, entry, b)
  {
    var chain :| Chain(d, entry, chain) && chain[|chain| - 1] == a;
    var longer := chain + [b];
    forall i | 0 <= i < |longer| - 1
      ensures Imports(d, longer[i], longer[i + 1])
    {
      if i < |chain| - 1 {
        assert Imports(d, chain[i], chain[i + 1]);
      }
    }
    assert Chain(d, entry, longer);
  }

  /** A set that holds the entry and the imports of its members holds everything reachable. */
  lemma {:induction false} ClosedHolds(d: Disk, entry: Path, files: set<Path>, chain: seq<Path>)
    requires Canon(d, entry) in files
    requires forall a, b :: a in files && Imports(d, a, b) ==> b in files
    requires Chain(d, entry, chain)
    ensures chain[|chain| - 1] in files
    decreases |chain|
  {
    var n := |chain| - 1;
    if n > 0 {
      var shorter := chain[..n];
      forall i | 0 <= i < |shorter| - 1
        ensures Imports(d, shorter[i], shorter[i + 1])
      {
        assert Imports(d, chain[i], chain[i + 1]);
      }
      assert Chain(d, entry, shorter);
      ClosedHolds(d, entry, files, shorter);
      assert Imports(d, chain[n - 1], chain[n - 1 + 1]);
    }
  }

  // ----- the worklist -----

  ghost predicate TotalOrder(less: (Path, Path) -> bool) {
    WeakOrder(less) && forall a, b :: a != b ==> less(a, b) || less(b, a)
  }

  ghost predicate Distinct(s: seq<Path>) {
    forall i, j :: 0 <= i < j < |s| ==> s[i] != s[j]
  }

  /** Everything a visited file imports is visited or waiting. */
  ghost predicate Accounted(d: Disk, entry: Path, visited: set<Path>, queue: seq<Path>) {
    && (Canon(d, entry) in visited || Waiting(d, queue, Canon(d, entry)))
    && forall a, b :: a in visited && Imports(d, a, b) ==> b in visited || Waiting(d, queue, b)
  }

  ghost predicate Waiting(d: Disk, queue: seq<Path>, file: Path) {
    exists i :: 0 <= i < |queue| && Canon(d, queue[i]) == file
  }

  lemma WaitingAfterPop(d: Disk, queue: seq<Path>, added: seq<Path>, file: Path)
    requires queue != [] && Waiting(d, queue, file)
    ensures file == Canon(d, queue[0]) || Waiting(d, queue[1..] + added, file)
  {
    var i :| 0 <= i < |queue| && Canon(d, queue[i]) == file;
    if i > 0 {
      assert (queue[1..] + added)[i - 1] == queue[i];
    }
  }

  lemma WaitingAdded(d: Disk, queue: seq<Path>, added: seq<Path>, i: nat)
    requires i < |added|
    ensures Waiting(d, queue + added, Canon(d, added[i]))
  {
    assert (queue + added)[|queue| + i] == added[i];
  }

  /** Visiting the file at the front keeps everything accounted for. */
  lemma VisitAccounts(d: Disk, entry: Path, visited: set<Path>, queue: seq<Path>, file: Path)
    requires queue != [] && file == Canon(d, queue[0]) && Accounted(d, entry, visited, queue)
    ensures Accounted(d, entry, visited + {file}, queue[1..] + (if file in visited then [] else ImportsOf(d, file)))
  {
    var added := if file in visited then [] else ImportsOf(d, file);
    var later := queue[1..] + added;
    if Waiting(d, queue, Canon(d, entry)) {
      WaitingAfterPop(d, queue, added, Canon(d, entry));
    }
    forall a, b | a in visited + {file} && Imports(d, a, b)
      ensures b in visited + {file} || Waiting(d, later, b)
    {
      if a in visited {
        if Waiting(d, queue, b) {
          WaitingAfterPop(d, queue, added, b);
        }
      } else {
        var i :| 0 <= i < |ImportsOf(d, a)| && Canon(d, ImportsOf(d, a)[i]) == b;
        WaitingAdded(d, queue[1..], added, i);
      }
    }
  }

  lemma NothingVisited(d: Disk, entry: Path)
    ensures Accounted(d, entry, {}, [entry]) && Distinct([])
  {
    assert [entry][0] == entry;
  }

  lemma DistinctMore(files: seq<Path>, file: Path)
    requires Distinct(files) && file !in files
    ensures Distinct(files + [file])
  {
  }

  lemma QueueReachable(d: Disk, entry: Path, file: Path, i: nat)
    requires Reachable(d, entry, file) && i < |ImportsOf(d, file)|
    ensures Reachable(d, entry, Canon(d, ImportsOf(d, file)[i]))
  {
    ImportReachable(d, entry, file, Canon(d, ImportsOf(d, file)[i]));
  }

  /** On any import graph, cyclic or not, the search ends. It succeeds exactly if every reachable file can
      be read, and then lists exactly the files reachable through files that parse cleanly, in order and
      once each. */
  method CollectProjectFiles(d: Disk, entry: Path, less: (Path, Path) -> bool) returns (r: Option<seq<Path>>)
    requires TotalOrder(less)
    ensures r.Some? <==> forall file :: Reachable(d, entry, file) ==> file in d.files
    ensures r.Some? ==> Strict(less, r.value) && forall file :: file in r.value <==> Reachable(d, entry, file)
  {
    hide Reachable, Imports, TotalOrder, ImportsOf, Canon, Accounted, Distinct, Strict;
    var files: seq<Path>, visited: set<Path>, queue := [], {}, [entry];
    EntryReachable(d, entry);
    NothingVisited(d, entry);
    while queue != []
      invariant forall i :: 0 <= i < |queue| ==> Reachable(d, entry, Canon(d, queue[i]))
      invariant forall file :: file in visited ==> file in d.files && Reachable(d, entry, file)
      invariant forall file :: file in files <==> file in visited
      invariant Distinct(files)
      invariant Accounted(d, entry, visited, queue)
      decreases |d.files.Keys - visited|, |queue|
    {
      var file := Canon(d, queue[0]);
      VisitAccounts(d, entry, visited, queue, file);
      if file in visited {
        assert visited + {file} == visited && queue[1..] + [] == queue[1..];
        queue := queue[1..];
      } else {
        DistinctMore(files, file);
        files := files + [file];
        if file !in d.files {
          return None;
        }
        forall i | 0 <= i < |ImportsOf(d, file)|
          ensures Reachable(d, entry, Canon(d, ImportsOf(d, file)[i]))
        {
          QueueReachable(d, entry, file, i);
        }
        VisitShrinks(d.files.Keys, visited, file);
        visited := visited + {file};
        queue := queue[1..] + ImportsOf(d, file);
      }
    }
    AllFound(d, entry, visited);
    r := Some(Sort(less, files));
    SortedDistinct(less, files);
  }

  lemma VisitShrinks(keys: set<Path>, visited: set<Path>, file: Path)
    requires file in keys && file !in visited
    ensures |keys - (visited + {file})| < |keys - visited|
  {
    assert keys - visited == (keys - (visited + {file})) + {file};
  }

  lemma AllFound(d: Disk, entry: Path, visited: set<Path>)
    requires Accounted(d, entry, visited, [])
    ensures forall file :: Reachable(d, entry, file) ==> file in visited
  {
    forall file | Reachable(d, entry, file)
      ensures file in visited
    {
      var chain :| Chain(d, entry, chain) && chain[|chain| - 1] == file;
      ClosedHolds(d, entry, visited, chain);
    }
  }

  lemma SortedDistinct(less: (Path, Path) -> bool, files: seq<Path>)
    requires TotalOrder(less) && Distinct(files)
    ensures Strict(less, Sort(less, files))
    ensures forall file :: file in Sort(less, files) <==> file in files
  {
    var sorted := Sort(less, files);
    SortCounts(less, files);
    SortOrdered(less, files);
    forall file
      ensures file in sorted <==> file in files
    {
      MemberCounts(sorted, files, file);
    }
    forall i, j | 0 <= i < j < |sorted|
      ensures less(sorted[i], sorted[j])
    {
      if sorted[i] == sorted[j] {
        assert sorted == sorted[..i] + [sorted[i]] + sorted[i + 1..j] + [sorted[j]] + sorted[j + 1..];
        assert multiset(files)[sorted[i]] >= 2;
        DistinctOnce(files, sorted[i]);
      }
    }
  }

  lemma {:induction false} DistinctOnce(files: seq<Path>, file: Path)
    requires Distinct(files)
    ensures multiset(files)[file] <= 1
  {
    if files != [] {
      DistinctOnce(files[1..], file);
      assert files == [files[0]] + files[1..];
      assert file in files[1..] <==> file in multiset(files[1..]);
    }
  }
}
