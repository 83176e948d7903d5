// One publisher's program: the local checks and the sequence of conditional requests
// (scripts/publish-distribution.py). Whatever it does to the bucket is a path of the protocol's steps.

module Publisher {
  import opened Options
  import opened Publication

  // ----- local checks -----

  /** The dictionary of releases by identity; none if an identity is listed twice. */
  method Identities(entries: seq<Entry>) returns (r: Option<map<seq<string>, Entry>>)
    ensures r.Some? <==> Unambiguous(entries)
    ensures r.Some? ==> forall id :: id in r.value <==> Lists(entries, id)
    ensures r.Some? ==> forall id :: id in r.value ==> r.value[id] in entries && r.value[id].identity == id
  {
    var result: map<seq<string>, Entry> := map[];
    for i := 0 to |entries|
      invariant Unambiguous(entries[..i])
      invariant forall id :: id in result <==> Lists(entries[..i], id)
      invariant forall id :: id in result ==> result[id] in entries && result[id].identity == id
    {
      var e := entries[i];
      assert entries[..i + 1] == entries[..i] + [e];
      if e.identity in result {
        var j :| 0 <= j < i && entries[j].identity == e.identity;
        return None;
      }
      forall id
        ensures Lists(entries[..i + 1], id) <==> Lists(entries[..i], id) || id == e.identity
      {
        ListsMore(entries[..i], e, id);
      }
      forall j | 0 <= j < i
        ensures entries[j].identity != e.identity
      {
        assert entries[..i][j] in entries[..i];
      }
      result := result[e.identity := e];
    }
    assert entries[..|entries|] == entries;
    r := Some(result);
  }

  lemma ListsMore(entries: seq<Entry>, e: Entry, id: seq<string>)
    ensures Lists(entries + [e], id) <==> Lists(entries, id) || id == e.identity
  {
    if Lists(entries, id) {
      var e' :| e' in entries && e'.identity == id;
      assert e' in entries + [e];
    }
    if id == e.identity {
      assert e in entries + [e];
    }
  }

  /** In unambiguous lists, a release kept under its identity is the very same entry. */
  lemma KeptByIdentity(before: seq<Entry>, after: seq<Entry>, existing: map<seq<string>, Entry>,
      incoming: map<seq<string>, Entry>)
    requires Unambiguous(before) && Unambiguous(after)
    requires forall id :: id in existing <==> Lists(before, id)
    requires forall id :: id in incoming <==> Lists(after, id)
    requires forall id :: id in existing ==> existing[id] in before && existing[id].identity == id
    requires forall id :: id in incoming ==> incoming[id] in after && incoming[id].identity == id
    ensures (forall id :: id in existing ==> id in incoming && incoming[id] == existing[id]) <==>
        (forall e :: e in before ==> e in after)
  {
    if forall id :: id in existing ==> id in incoming && incoming[id] == existing[id] {
      forall e | e in before
        ensures e in after
      {
        assert Lists(before, e.identity);
        SameEntry(before, e, existing[e.identity]);
      }
    }
    if forall e :: e in before ==> e in after {
      forall id | id in existing
        ensures id in incoming && incoming[id] == existing[id]
      {
        assert existing[id] in after;
        assert Lists(after, id);
        SameEntry(after, existing[id], incoming[id]);
      }
    }
  }

  lemma SameEntry(entries: seq<Entry>, a: Entry, b: Entry)
    requires Unambiguous(entries) && a in entries && b in entries && a.identity == b.identity
    ensures a == b
  {
    var i :| 0 <= i < |entries| && entries[i] == a;
    var j :| 0 <= j < |entries| && entries[j] == b;
  }

  method FamilyPreserved(before: seq<Entry>, after: seq<Entry>) returns (ok: bool)
    ensures ok <==> Unambiguous(before) && Unambiguous(after) && forall e :: e in before ==> e in after
  {
    var existing := Identities(before);
    var incoming := Identities(after);
    if existing == None || incoming == None {
      return false;
    }
    KeptByIdentity(before, after, existing.value, incoming.value);
    ok := forall id :: id in existing.value ==> id in incoming.value && incoming.value[id] == existing.value[id];
  }

  method ValidatePreservation(before: Manifest, after: Manifest) returns (ok: bool)
    ensures ok <==> Valid(before) && Valid(after) && Preserves(before, after)
  {
    if before.schema != 1 || after.schema != 1 {
      return false;
    }
    var compilers := FamilyPreserved(before.compilers, after.compilers);
    var toolchains := FamilyPreserved(before.toolchains, after.toolchains);
    ok := compilers && toolchains;
    PreservesByFamily(before, after);
  }

  lemma PreservesByFamily(before: Manifest, after: Manifest)
    ensures Preserves(before, after) <==>
              (forall e :: e in before.compilers ==> e in after.compilers) &&
                  (forall e :: e in before.toolchains ==> e in after.toolchains)
  {
    if Preserves(before, after) {
      forall e | e in before.compilers
        ensures e in after.compilers
      {
        assert e in EntriesOf(before, Compilers) && e in EntriesOf(after, Compilers);
      }
      forall e | e in before.toolchains
        ensures e in after.toolchains
      {
        assert e in EntriesOf(before, Toolchains) && e in EntriesOf(after, Toolchains);
      }
    }
  }

  method CheckArchive(sha: Digest, b: Bundle, e: Entry) returns (ok: bool)
    ensures ok <==> ArchiveOk(sha, b, e)
  {
    if e.url.scheme != "https" || e.url.host != "releases.fidan.dev" || e.url.query != "" || e.url.fragment != "" {
      return false;
    }
    ok := false;
    for i := 0 to |b.files|
      invariant ok <==> exists f :: f in b.files[..i] && f.key == e.url.key && sha(f.bytes) == e.sha256
    {
      assert b.files[..i + 1] == b.files[..i] + [b.files[i]];
      if b.files[i].key == e.url.key && sha(b.files[i].bytes) == e.sha256 {
        assert b.files[i] in b.files[..i + 1];
        ok := true;
      }
    }
    assert b.files[..|b.files|] == b.files;
  }

  /** The directories of one family's new archives; none if one of them is not as its manifest says. */
  method NewPrefixes(sha: Digest, b: Bundle, family: Family) returns (r: Option<set<string>>)
    ensures r.Some? <==> forall e :: IsNew(b.base, b.next, family, e) ==> ArchiveOk(sha, b, e)
    ensures r.Some? ==> forall prefix :: prefix in r.value <==>
        exists e :: IsNew(b.base, b.next, family, e) && Parent(e.url.key) == prefix
  {
    hide ArchiveOk, Lists;
    var entries, previous := EntriesOf(b.next, family), EntriesOf(b.base, family);
    var prefixes: set<string> := {};
    for i := 0 to |entries|
      invariant forall e :: e in entries[..i] && !Lists(previous, e.identity) ==> ArchiveOk(sha, b, e)
      invariant forall prefix :: prefix in prefixes <==>
          exists e :: e in entries[..i] && !Lists(previous, e.identity) && Parent(e.url.key) == prefix
    {
      var e := entries[i];
      assert entries[..i + 1] == entries[..i] + [e];
      if !Lists(previous, e.identity) {
        var ok := CheckArchive(sha, b, e);
        if !ok {
          assert IsNew(b.base, b.next, family, e);
          return None;
        }
        prefixes := prefixes + {Parent(e.url.key)};
      }
    }
    assert entries[..|entries|] == entries;
    r := Some(prefixes);
  }

  /** The new compiler releases of a bundle share one version, which the changelog knows. */
  method CheckCompilers(b: Bundle) returns (ok: bool)
    ensures ok <==> OneCompiler(b)
  {
    hide Lists;
    var added: seq<Entry> := [];
    for i := 0 to |b.next.compilers|
      invariant forall e :: e in added <==> e in b.next.compilers[..i] && !Lists(b.base.compilers, e.identity)
    {
      assert b.next.compilers[..i + 1] == b.next.compilers[..i] + [b.next.compilers[i]];
      if !Lists(b.base.compilers, b.next.compilers[i].identity) {
        added := added + [b.next.compilers[i]];
      }
    }
    assert b.next.compilers[..|b.next.compilers|] == b.next.compilers;
    assert forall e :: e in added <==> IsNew(b.base, b.next, Compilers, e);
    if added == [] {
      return true;
    }
    assert IsNew(b.base, b.next, Compilers, added[0]);
    ok := b.notes && forall e :: e in added ==> Version(e) == Version(added[0]);
  }

  method CheckFiles(b: Bundle, compilers: set<string>, toolchains: set<string>) returns (ok: bool)
    requires forall prefix :: prefix in compilers <==>
        exists e :: IsNew(b.base, b.next, Compilers, e) && Parent(e.url.key) == prefix
    requires forall prefix :: prefix in toolchains <==>
        exists e :: IsNew(b.base, b.next, Toolchains, e) && Parent(e.url.key) == prefix
    ensures ok <==> forall f :: f in b.files ==> FileOk(b, f)
  {
    var paths := (set e | e in b.base.compilers :: e.url.key) + (set e | e in b.base.toolchains :: e.url.key);
    ok := true;
    for i := 0 to |b.files|
      invariant ok <==> forall f :: f in b.files[..i] ==> FileOk(b, f)
    {
      var f := b.files[i];
      assert b.files[..i + 1] == b.files[..i] + [f];
      FileChecks(b, f, compilers, toolchains, paths);
      ok := ok && Parent(f.key) in compilers + toolchains && f.key !in paths;
    }
    assert b.files[..|b.files|] == b.files;
  }

  lemma FileChecks(b: Bundle, f: File, compilers: set<string>, toolchains: set<string>, paths: set<string>)
    requires forall prefix :: prefix in compilers <==>
        exists e :: IsNew(b.base, b.next, Compilers, e) && Parent(e.url.key) == prefix
    requires forall prefix :: prefix in toolchains <==>
        exists e :: IsNew(b.base, b.next, Toolchains, e) && Parent(e.url.key) == prefix
    requires paths == (set e | e in b.base.compilers :: e.url.key) + (set e | e in b.base.toolchains :: e.url.key)
    ensures FileOk(b, f) <==> Parent(f.key) in compilers + toolchains && f.key !in paths
  {
    hide IsNew, Parent;
    if Parent(f.key) in compilers {
      var e :| IsNew(b.base, b.next, Compilers, e) && Parent(e.url.key) == Parent(f.key);
    }
    if Parent(f.key) in toolchains {
      var e :| IsNew(b.base, b.next, Toolchains, e) && Parent(e.url.key) == Parent(f.key);
    }
    if family: Family, e :| IsNew(b.base, b.next, family, e) && Parent(e.url.key) == Parent(f.key) {
      assert family == Compilers || family == Toolchains;
    }
    if f.key in paths {
      if e :| e in b.base.compilers && e.url.key == f.key {
        assert e in EntriesOf(b.base, Compilers);
      } else {
        var e :| e in b.base.toolchains && e.url.key == f.key;
        assert e in EntriesOf(b.base, Toolchains);
      }
    }
    if family: Family, e :| e in EntriesOf(b.base, family) && e.url.key == f.key {
      assert e in b.base.compilers || e in b.base.toolchains;
    }
  }

  method CheckBundle(sha: Digest, b: Bundle) returns (ok: bool)
    ensures ok <==> BundleOk(sha, b)
  {
    hide ArchiveOk, FileOk, OneCompiler, IsNew, Valid, Preserves;
    var preserved := ValidatePreservation(b.base, b.next);
    if !preserved || b.files == [] {
      return false;
    }
    var compilers := NewPrefixes(sha, b, Compilers);
    if compilers == None {
      return false;
    }
    var toolchains := NewPrefixes(sha, b, Toolchains);
    if toolchains == None {
      return false;
    }
    assert forall family: Family, e :: IsNew(b.base, b.next, family, e) ==> ArchiveOk(sha, b, e) by {
      forall family: Family, e | IsNew(b.base, b.next, family, e)
        ensures ArchiveOk(sha, b, e)
      {
        assert family == Compilers || family == Toolchains;
      }
    }
    var files := CheckFiles(b, compilers.value, toolchains.value);
    if !files {
      return false;
    }
    ok := CheckCompilers(b);
  }

  /** What gets through: both manifests have schema 1 and list no release twice, and the new one keeps every
      release; every new release's archive is among the files, under the distribution host and with the digest
      listed; and every file lies beside one of them and is none of a release already published. */
  lemma CheckedBundle(sha: Digest, b: Bundle)
    requires BundleOk(sha, b)
    ensures b.base.schema == b.next.schema == 1 && b.files != []
    ensures forall i, j :: 0 <= i < j < |b.next.compilers| ==>
        b.next.compilers[i].identity != b.next.compilers[j].identity
    ensures forall i, j :: 0 <= i < j < |b.next.toolchains| ==>
        b.next.toolchains[i].identity != b.next.toolchains[j].identity
    ensures forall e :: e in b.base.compilers ==> e in b.next.compilers
    ensures forall e :: e in b.base.toolchains ==> e in b.next.toolchains
    ensures forall family: Family, e :: IsNew(b.base, b.next, family, e) ==>
        && e.url.scheme == "https" && e.url.host == "releases.fidan.dev" && e.url.query == e.url.fragment == ""
        && exists f :: f in b.files && f.key == e.url.key && sha(f.bytes) == e.sha256
    ensures forall f :: f in b.files ==>
        && (forall family: Family, e :: e in EntriesOf(b.base, family) ==> e.url.key != f.key)
        && exists family: Family, e :: IsNew(b.base, b.next, family, e) && Parent(e.url.key) == Parent(f.key)
  {
    hide OneCompiler, IsNew, Preserves, Parent;
    PreservesByFamily(b.base, b.next);
    forall family: Family, e | IsNew(b.base, b.next, family, e)
      ensures ArchiveOk(sha, b, e)
    {
    }
    forall f | f in b.files
      ensures FileOk(b, f)
    {
    }
  }

  // ----- the requests -----

  /** The object store. Reads and conditional writes are atomic. */
  class Bucket {
    var objects: map<string, Object>

    method Get(key: string) returns (r: Option<Object>)
      ensures r == if key in objects then Some(objects[key]) else None
    {
      r := if key in objects then Some(objects[key]) else None;
    }

    /** `If-None-Match: *` */
    method PutIfAbsent(key: string, object_: Object) returns (ok: bool)
      modifies this
      ensures ok == (key !in old(objects))
      ensures objects == if ok then old(objects)[key := object_] else old(objects)
    {
      ok := key !in objects;
      if ok {
        objects := objects[key := object_];
      }
    }

    /** `If-Match: tag` */
    method PutManifestIfMatch(entityTag: Manifest -> string, tag: string, next: Manifest) returns (ok: bool)
      modifies this
      ensures ok == (MANIFEST_KEY in old(objects) && old(objects)[MANIFEST_KEY].Index? &&
          entityTag(old(objects)[MANIFEST_KEY].manifest) == tag)
      ensures objects == if ok then old(objects)[MANIFEST_KEY := Index(next)] else old(objects)
    {
      ok := MANIFEST_KEY in objects && objects[MANIFEST_KEY].Index? && entityTag(objects[MANIFEST_KEY].manifest) == tag;
      if ok {
        objects := objects[MANIFEST_KEY := Index(next)];
      }
    }
  }

  /** These files, under their keys, and nothing else were added to `before`. */
  ghost predicate Adds(before: map<string, Object>, after: map<string, Object>, files: seq<File>) {
    && (forall key :: key in before ==> key in after && after[key] == before[key])
    && (forall f :: f in files ==> f.key !in before && f.key in after && after[f.key] == Blob(f.bytes))
    && (forall i, j :: 0 <= i < j < |files| ==> files[i].key != files[j].key)
    && forall key :: key in after && key !in before ==> exists i :: 0 <= i < |files| && files[i].key == key
  }

  lemma AddsNone(before: map<string, Object>)
    ensures Adds(before, before, [])
  {
  }

  /** What was there is still there, and storing over it can be undone. */
  lemma AddsKeeps(before: map<string, Object>, after: map<string, Object>, files: seq<File>, key: string,
      stored: Object)
    requires Adds(before, after, files) && key in before
    ensures key in after && after[key := stored][key := before[key]] == after
  {
  }

  lemma PathStart(c: Setup, w: World)
    ensures Path(c, w, [w], w.objects)
  {
  }

  lemma AddsMore(before: map<string, Object>, after: map<string, Object>, files: seq<File>, f: File)
    requires Adds(before, after, files) && f.key !in after
    ensures Adds(before, after[f.key := Blob(f.bytes)], files + [f])
  {
    var more := files + [f];
    forall i, j | 0 <= i < j < |more|
      ensures more[i].key != more[j].key
    {
      assert more[i] in files;
    }
    forall key | key in after[f.key := Blob(f.bytes)] && key !in before
      ensures exists i :: 0 <= i < |more| && more[i].key == key
    {
      if key == f.key {
        assert more[|files|].key == key;
      } else {
        var i :| 0 <= i < |files| && files[i].key == key;
        assert more[i].key == key;
      }
    }
  }

  /** `states` is a path of the protocol from `w` to a world with these objects. */
  ghost predicate Path(c: Setup, w: World, states: seq<World>, objects: map<string, Object>) {
    && states != [] && states[0] == w && states[|states| - 1].objects == objects
    && forall i :: 0 <= i < |states| - 1 ==> Next(c, states[i], states[i + 1])
  }

  lemma PathMore(c: Setup, w: World, states: seq<World>, objects: map<string, Object>, w': World, p: nat,
      answered: bool)
    requires Path(c, w, states, objects) && Step(c, states[|states| - 1], w', p, answered)
    ensures Path(c, w, states + [w'], w'.objects)
  {
    hide Step;
    var more := states + [w'];
    forall i | 0 <= i < |more| - 1
      ensures Next(c, more[i], more[i + 1])
    {
      if i < |states| - 1 {
        assert Next(c, states[i], states[i + 1]);
      }
    }
  }

  /** Publishes bundle `p`. `answers` says how many requests get through before the next one fails. The run
      is a path of the protocol; it succeeds only from the manifest the bundle was built on, having added
      every file under a new key; a failed run leaves the stored manifest alone. */
  method Publish(c: Setup, p: nat, bucket: Bucket, answers: nat, ghost w: World)
    returns (published: bool, ghost states: seq<World>)
    requires p in c.bundles && p in w.phases && w.phases[p] == Ready && w.objects == bucket.objects
    modifies bucket
    ensures Path(c, w, states, bucket.objects)
    ensures published ==> p in states[|states| - 1].phases && states[|states| - 1].phases[p] == Committed
    ensures published ==>
              && BundleOk(c.sha, c.bundles[p]) && Stored(w) == Some(c.bundles[p].base)
              && MANIFEST_KEY in old(bucket.objects) && MANIFEST_KEY in bucket.objects
              && bucket.objects[MANIFEST_KEY] == Index(c.bundles[p].next)
              && Adds(old(bucket.objects), bucket.objects[MANIFEST_KEY := old(bucket.objects)[MANIFEST_KEY]],
                  c.bundles[p].files)
    ensures !published ==>
              exists k :: 0 <= k <= |c.bundles[p].files| &&
                  Adds(old(bucket.objects), bucket.objects, c.bundles[p].files[..k])
    ensures answers < |c.bundles[p].files| + 2 ==> !published
  {
    hide BundleOk, Step, Adds, Path;
    PathStart(c, w);
    AddsNone(bucket.objects);
    var b := c.bundles[p];
    states := [w];
    assert b.files[..0] == [];
    var ok := CheckBundle(c.sha, b);
    if !ok || answers == 0 {
      return false, states;
    }
    var current := bucket.Get(MANIFEST_KEY);
    if current == None || !current.value.Index? || current.value.manifest != b.base {
      return false, states;
    }
    var tag := c.tag(b.base);
    ghost var now := Moved(w, p, Uploading(tag, 0));
    CheckStep(c, w, now, p);
    PathMore(c, w, states, w.objects, now, p, true);
    states := states + [now];
    for k := 0 to |b.files|
      invariant Path(c, w, states, bucket.objects)
      invariant states != [] && now.objects == bucket.objects
      invariant now == states[|states| - 1] && p in now.phases && now.phases[p] == Uploading(tag, k)
      invariant Adds(old(bucket.objects), bucket.objects, b.files[..k])
      invariant k + 1 <= answers
    {
      assert b.files[..k + 1] == b.files[..k] + [b.files[k]];
      ghost var before := bucket.objects;
      if k + 1 >= answers {
        return false, states;
      }
      var put := bucket.PutIfAbsent(b.files[k].key, Blob(b.files[k].bytes));
      if !put {
        return false, states;
      }
      AddsMore(old(bucket.objects), before, b.files[..k], b.files[k]);
      ghost var next := UploadStep(c, now, p);
      PathMore(c, w, states, now.objects, next, p, true);
      states, now := states + [next], next;
    }
    assert b.files[..|b.files|] == b.files;
    if |b.files| + 1 >= answers {
      return false, states;
    }
    AddsKeeps(old(bucket.objects), bucket.objects, b.files, MANIFEST_KEY, Index(b.next));
    published := bucket.PutManifestIfMatch(c.tag, tag, b.next);
    if published {
      ghost var next := CommitStep(c, now, p);
      PathMore(c, w, states, now.objects, next, p, true);
      states := states + [next];
    }
  }

  lemma CheckStep(c: Setup, w: World, w': World, p: nat)
    requires p in c.bundles && p in w.phases && w.phases[p] == Ready && BundleOk(c.sha, c.bundles[p])
    requires Stored(w) == Some(c.bundles[p].base) && w' == Moved(w, p, Uploading(c.tag(c.bundles[p].base), 0))
    ensures Step(c, w, w', p, true)
  {
    hide BundleOk;
    assert Check(c, w, w', p);
  }

  lemma UploadStep(c: Setup, w: World, p: nat) returns (w': World)
    requires p in c.bundles && p in w.phases && w.phases[p].Uploading? && w.phases[p].k < |c.bundles[p].files|
    requires c.bundles[p].files[w.phases[p].k].key !in w.objects
    ensures Step(c, w, w', p, true)
    ensures var f := c.bundles[p].files[w.phases[p].k]; w'.objects == w.objects[f.key := Blob(f.bytes)]
    ensures p in w'.phases && w'.phases[p] == w.phases[p].(k := w.phases[p].k + 1)
  {
    var f := c.bundles[p].files[w.phases[p].k];
    w' := Moved(w, p, w.phases[p].(k := w.phases[p].k + 1)).(objects := w.objects[f.key := Blob(f.bytes)]);
    assert Upload(c, w, w', p, true);
  }

  lemma CommitStep(c: Setup, w: World, p: nat) returns (w': World)
    requires p in c.bundles && p in w.phases && w.phases[p].Uploading? && w.phases[p].k == |c.bundles[p].files|
    requires Stored(w).Some? && c.tag(Stored(w).value) == w.phases[p].tag
    ensures Step(c, w, w', p, true)
    ensures w'.objects == w.objects[MANIFEST_KEY := Index(c.bundles[p].next)]
    ensures p in w'.phases && w'.phases[p] == Committed
  {
    var b := c.bundles[p];
    w' := Moved(w, p, Committed)
            .(objects := w.objects[MANIFEST_KEY := Index(b.next)], served := w.served + [b.next],
                commits := w.commits + [(p, b.base)]);
    assert Commit(c, w, w', p, true);
  }
}
