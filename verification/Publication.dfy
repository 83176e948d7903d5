// Publishing releases to a shared bucket: immutable artifacts, then a compare-and-swap on the manifest
// (scripts/publish-distribution.py). Conditional writes follow sections 13.1.1 (If-Match) and 13.1.2
// (If-None-Match) of RFC 9110.

module Publication {
  import opened Text
  import opened Options

  type Bytes = seq<bv8>

  datatype Url = Url(scheme: string, host: string, key: string, query: string, fragment: string)

  /** A released archive. `identity` is version and host, or kind, version and host. */
  datatype Entry = Entry(identity: seq<string>, url: Url, sha256: string, details: string)

  datatype Manifest = Manifest(schema: nat, compilers: seq<Entry>, toolchains: seq<Entry>)

  datatype Family = Compilers | Toolchains

  function EntriesOf(m: Manifest, family: Family): seq<Entry> {
    match family
    case Compilers => m.compilers
    case Toolchains => m.toolchains
  }

  // ----- identities -----

  /** No release identity is listed twice. */
  ghost predicate Unambiguous(entries: seq<Entry>) {
    forall i, j :: 0 <= i < j < |entries| ==> entries[i].identity != entries[j].identity
  }

  ghost predicate Valid(m: Manifest) {
    m.schema == 1 && Unambiguous(m.compilers) && Unambiguous(m.toolchains)
  }

  /** Every release of `before` is still in `after`, unchanged. */
  ghost predicate Preserves(before: Manifest, after: Manifest) {
    forall family: Family, e ::
      e in EntriesOf(before, family) ==> e in EntriesOf(after, family)
  }

  predicate Lists(entries: seq<Entry>, identity: seq<string>) {
    exists e :: e in entries && e.identity == identity
  }

  /** A release of `after` whose identity `before` does not have. */
  predicate IsNew(before: Manifest, after: Manifest, family: Family, e: Entry) {
    e in EntriesOf(after, family) && !Lists(EntriesOf(before, family), e.identity)
  }

  // ----- bundles -----

  datatype File = File(key: string, bytes: Bytes)

  /** What one publisher brings: the manifest it was built from, the one it wants to store, and the
      archives, in upload order. `notes` says whether the changelog has the new version's heading. */
  datatype Bundle = Bundle(base: Manifest, next: Manifest, files: seq<File>, notes: bool)

  type Digest = Bytes -> string

  function Parent(key: string): string {
    if key == [] then [] else if key[|key| - 1] == '/' then key[..|key| - 1] else Parent(key[..|key| - 1])
  }

  /** The directory of a key: everything before its last slash. */
  lemma {:induction false} ParentIs(directory: string, name: string)
    requires '/' !in name
    ensures Parent(name) == [] && Parent(directory + "/" + name) == directory
    decreases |name|
  {
    var key := directory + "/" + name;
    if name == [] {
      assert key[..|key| - 1] == directory;
    } else {
      var n := |name| - 1;
      ParentIs(directory, name[..n]);
      assert key[..|key| - 1] == directory + "/" + name[..n];
      assert name[n] in name;
    }
  }

  ghost predicate ArchiveOk(sha: Digest, b: Bundle, e: Entry) {
    && e.url.scheme == "https" && e.url.host == "releases.fidan.dev" && e.url.query == "" && e.url.fragment == ""
    && exists f :: f in b.files && f.key == e.url.key && sha(f.bytes) == e.sha256
  }

  /** A file lies beside a new release's archive and is not an already published one. */
  ghost predicate FileOk(b: Bundle, f: File) {
    && (exists family: Family, e :: IsNew(b.base, b.next, family, e) && Parent(e.url.key) == Parent(f.key))
    && (forall family: Family, e :: e in EntriesOf(b.base, family) ==> e.url.key != f.key)
  }

  function Version(e: Entry): string {
    if e.identity == [] then "" else e.identity[0]
  }

  ghost predicate OneCompiler(b: Bundle) {
    && (forall e, e' :: IsNew(b.base, b.next, Compilers, e) && IsNew(b.base, b.next, Compilers, e') ==>
        Version(e) == Version(e'))
    && ((exists e :: IsNew(b.base, b.next, Compilers, e)) ==> b.notes)
  }

  /** Compilers are identified by version and host. New ones must share one version, and the changelog must have
      a heading for it. */
  lemma SharedVersion(b: Bundle)
    requires forall e :: e in b.next.compilers ==> |e.identity| == 2
    ensures OneCompiler(b) <==>
              || (forall e :: !IsNew(b.base, b.next, Compilers, e))
              || (b.notes && forall e, e' ::
                    IsNew(b.base, b.next, Compilers, e) && IsNew(b.base, b.next, Compilers, e') ==>
                      e.identity[0] == e'.identity[0])
  {
    hide Lists;
  }

  /** The local checks: nothing has been uploaded if they fail. */
  ghost predicate BundleOk(sha: Digest, b: Bundle) {
    && Valid(b.base) && Valid(b.next) && Preserves(b.base, b.next)
    && b.files != []
    && (forall family: Family, e :: IsNew(b.base, b.next, family, e) ==> ArchiveOk(sha, b, e))
    && (forall f :: f in b.files ==> FileOk(b, f))
    && OneCompiler(b)
  }

  // ----- the bucket and its publishers -----

  datatype Object = Blob(bytes: Bytes) | Index(manifest: Manifest)

  const MANIFEST_KEY := "manifest.json"

  datatype Phase = Ready | Uploading(tag: string, k: nat) | Committed | Stopped

  /** `served` lists every manifest ever stored, `commits` who stored each one after the first and from
      which base. */
  datatype World = World(
    objects: map<string, Object>, phases: map<nat, Phase>, served: seq<Manifest>, commits: seq<(nat, Manifest)>)

  /** `tag` is the entity tag of a stored manifest, a strong validator. */
  datatype Setup = Setup(sha: Digest, tag: Manifest -> string, bundles: map<nat, Bundle>)

  ghost predicate StrongTags(c: Setup) {
    forall a, b :: c.tag(a) == c.tag(b) ==> a == b
  }

  function Stored(w: World): Option<Manifest> {
    if MANIFEST_KEY in w.objects && w.objects[MANIFEST_KEY].Index? then Some(w.objects[MANIFEST_KEY].manifest) else None
  }

  function Moved(w: World, p: nat, phase: Phase): World {
    w.(phases := w.phases[p := phase])
  }

  /** The freshness check just before uploading. */
  ghost predicate Check(c: Setup, w: World, w': World, p: nat) {
    && p in c.bundles && p in w.phases && w.phases[p] == Ready && BundleOk(c.sha, c.bundles[p])
    && w' == Moved(w, p, if Stored(w) == Some(c.bundles[p].base) then Uploading(c.tag(c.bundles[p].base), 0)
        else Stopped)
  }

  /** One artifact, written only if its key is absent. A write whose answer is lost took effect although
      the publisher gives up. */
  ghost predicate Upload(c: Setup, w: World, w': World, p: nat, answered: bool) {
    && p in c.bundles && p in w.phases && w.phases[p].Uploading? && w.phases[p].k < |c.bundles[p].files|
    && var f := c.bundles[p].files[w.phases[p].k];
       w' == if f.key in w.objects then Moved(w, p, Stopped)
             else Moved(w, p, if answered then w.phases[p].(k := w.phases[p].k + 1) else Stopped)
                  .(objects := w.objects[f.key := Blob(f.bytes)])
  }

  /** The manifest, written only if its tag is still the one read. */
  ghost predicate Commit(c: Setup, w: World, w': World, p: nat, answered: bool) {
    && p in c.bundles && p in w.phases && w.phases[p].Uploading? && w.phases[p].k == |c.bundles[p].files|
    && var b := c.bundles[p];
       w' == if Stored(w).Some? && c.tag(Stored(w).value) == w.phases[p].tag
             then Moved(w, p, if answered then Committed else Stopped)
                  .(objects := w.objects[MANIFEST_KEY := Index(b.next)], served := w.served + [b.next],
                    commits := w.commits + [(p, b.base)])
             else Moved(w, p, Stopped)
  }

  /** A publisher fails or is killed between requests, or a request fails without effect. */
  ghost predicate Stop(w: World, w': World, p: nat) {
    p in w.phases && w' == Moved(w, p, Stopped)
  }

  ghost predicate Step(c: Setup, w: World, w': World, p: nat, answered: bool) {
    Check(c, w, w', p) || Upload(c, w, w', p, answered) || Commit(c, w, w', p, answered) || Stop(w, w', p)
  }

  ghost predicate Next(c: Setup, w: World, w': World) {
    exists p, answered :: Step(c, w, w', p, answered)
  }

  // ----- what every state satisfies -----

  /** The entry names a stored artifact with its digest. */
  ghost predicate Backed(sha: Digest, objects: map<string, Object>, e: Entry) {
    e.url.key in objects && objects[e.url.key].Blob? && sha(objects[e.url.key].bytes) == e.sha256
  }

  ghost predicate AllBacked(sha: Digest, objects: map<string, Object>, m: Manifest) {
    forall family: Family, e :: e in EntriesOf(m, family) ==> Backed(sha, objects, e)
  }

  ghost predicate Initial(c: Setup, w: World) {
    && Stored(w).Some? && w.served == [Stored(w).value] && w.commits == []
    && AllBacked(c.sha, w.objects, Stored(w).value)
    && forall p :: p in w.phases ==> w.phases[p] == Ready
  }

  /** `after` extends `before`: nothing removed or replaced, something new. */
  ghost predicate Extends(before: Manifest, after: Manifest) {
    && Preserves(before, after)
    && exists family: Family, e :: IsNew(before, after, family, e)
  }

  ghost predicate PhaseOk(c: Setup, w: World, p: nat)
    requires p in w.phases
  {
    w.phases[p].Uploading? ==>
      && p in c.bundles && BundleOk(c.sha, c.bundles[p])
      && w.phases[p].tag == c.tag(c.bundles[p].base)
      && w.phases[p].k <= |c.bundles[p].files|
      && forall i :: 0 <= i < w.phases[p].k ==>
           c.bundles[p].files[i].key in w.objects &&
               w.objects[c.bundles[p].files[i].key] == Blob(c.bundles[p].files[i].bytes)
  }

  ghost predicate Inv(c: Setup, w: World) {
    && |w.served| == |w.commits| + 1
    && Stored(w) == Some(w.served[|w.served| - 1])
    && (forall i :: 0 <= i < |w.commits| ==> w.commits[i].1 == w.served[i] && Extends(w.served[i], w.served[i + 1]))
    && AllBacked(c.sha, w.objects, w.served[|w.served| - 1])
    && (forall p :: p in w.phases ==> PhaseOk(c, w, p))
  }

  /** Blobs are never changed or removed. */
  ghost predicate BlobsKept(objects: map<string, Object>, objects': map<string, Object>) {
    forall key :: key in objects && objects[key].Blob? ==> key in objects' && objects'[key] == objects[key]
  }

  lemma BundleExtends(sha: Digest, b: Bundle)
    requires BundleOk(sha, b)
    ensures Extends(b.base, b.next)
  {
    assert b.files[0] in b.files;
    assert FileOk(b, b.files[0]);
  }

  lemma BackedLater(sha: Digest, objects: map<string, Object>, objects': map<string, Object>, m: Manifest)
    requires AllBacked(sha, objects, m) && BlobsKept(objects, objects')
    ensures AllBacked(sha, objects', m)
  {
    forall family: Family, e | e in EntriesOf(m, family)
      ensures Backed(sha, objects', e)
    {
      assert Backed(sha, objects, e);
    }
  }

  lemma PhaseLater(c: Setup, w: World, w': World, p: nat)
    requires p in w.phases && p in w'.phases && w'.phases[p] == w.phases[p] && PhaseOk(c, w, p) &&
        BlobsKept(w.objects, w'.objects)
    ensures PhaseOk(c, w', p)
  {
    hide BundleOk;
  }

  lemma NewBacked(c: Setup, w: World, p: nat, e: Entry)
    requires p in w.phases && PhaseOk(c, w, p) && w.phases[p].Uploading? && p in c.bundles &&
        w.phases[p].k == |c.bundles[p].files|
    requires ArchiveOk(c.sha, c.bundles[p], e)
    ensures Backed(c.sha, w.objects, e)
  {
    hide BundleOk;
    var b := c.bundles[p];
    var f :| f in b.files && f.key == e.url.key && c.sha(f.bytes) == e.sha256;
    var i :| 0 <= i < |b.files| && b.files[i] == f;
  }

  /** All files uploaded: every release of the new manifest is backed. */
  lemma CommitBacked(c: Setup, w: World, p: nat)
    requires p in w.phases && PhaseOk(c, w, p) && w.phases[p].Uploading? && p in c.bundles &&
        w.phases[p].k == |c.bundles[p].files|
    requires Stored(w) == Some(c.bundles[p].base) && AllBacked(c.sha, w.objects, c.bundles[p].base)
    ensures AllBacked(c.sha, w.objects, c.bundles[p].next)
  {
    hide ArchiveOk, FileOk, OneCompiler, Backed;
    var b := c.bundles[p];
    forall family: Family, e | e in EntriesOf(b.next, family)
      ensures Backed(c.sha, w.objects, e)
    {
      if IsNew(b.base, b.next, family, e) {
        NewBacked(c, w, p, e);
      } else {
        SameRelease(b, family, e);
      }
    }
  }

  lemma SameRelease(b: Bundle, family: Family, e: Entry)
    requires Valid(b.next) && Preserves(b.base, b.next)
    requires e in EntriesOf(b.next, family) && Lists(EntriesOf(b.base, family), e.identity)
    ensures e in EntriesOf(b.base, family)
  {
    var e' :| e' in EntriesOf(b.base, family) && e'.identity == e.identity;
    assert e' in EntriesOf(b.next, family);
    var i :| 0 <= i < |EntriesOf(b.next, family)| && EntriesOf(b.next, family)[i] == e;
    var j :| 0 <= j < |EntriesOf(b.next, family)| && EntriesOf(b.next, family)[j] == e';
  }

  /** A step that stores no manifest. */
  lemma QuietStepKeeps(c: Setup, w: World, w': World, p: nat)
    requires Inv(c, w) && BlobsKept(w.objects, w'.objects) && Stored(w') == Stored(w)
    requires w'.served == w.served && w'.commits == w.commits
    requires p in w'.phases && PhaseOk(c, w', p)
    requires forall q :: q in w'.phases && q != p ==> q in w.phases && w'.phases[q] == w.phases[q]
    ensures Inv(c, w')
  {
    hide BundleOk, Extends, AllBacked, PhaseOk;
    BackedLater(c.sha, w.objects, w'.objects, w.served[|w.served| - 1]);
    forall q | q in w'.phases
      ensures PhaseOk(c, w', q)
    {
      if q != p {
        PhaseLater(c, w, w', q);
      }
    }
  }

  lemma CommitKeeps(c: Setup, w: World, w': World, p: nat, answered: bool)
    requires StrongTags(c) && Inv(c, w) && Commit(c, w, w', p, answered) && w'.served != w.served
    ensures Inv(c, w') && BlobsKept(w.objects, w'.objects) && w.served <= w'.served && w.commits <= w'.commits
  {
    hide BundleOk, Extends, AllBacked;
    var b := c.bundles[p];
    assert PhaseOk(c, w, p);
    assert c.tag(w.served[|w.served| - 1]) == c.tag(b.base);
    BundleExtends(c.sha, b);
    CommitBacked(c, w, p);
    BackedLater(c.sha, w.objects, w'.objects, b.next);
    forall q | q in w'.phases && q != p
      ensures PhaseOk(c, w', q)
    {
      PhaseLater(c, w, w', q);
    }
  }

  lemma StepKeeps(c: Setup, w: World, w': World, p: nat, answered: bool)
    requires StrongTags(c) && Inv(c, w) && Step(c, w, w', p, answered)
    ensures Inv(c, w') && BlobsKept(w.objects, w'.objects) && w.served <= w'.served && w.commits <= w'.commits
  {
    hide BundleOk, Extends, AllBacked;
    if Commit(c, w, w', p, answered) && w'.served != w.served {
      CommitKeeps(c, w, w', p, answered);
    } else {
      assert PhaseOk(c, w, p);
      QuietStepKeeps(c, w, w', p);
    }
  }

  // ----- whole runs -----

  ghost predicate Run(c: Setup, run: seq<World>) {
    && run != [] && StrongTags(c) && Initial(c, run[0])
    && forall i :: 0 <= i < |run| - 1 ==> Next(c, run[i], run[i + 1])
  }

  lemma InitialKeeps(c: Setup, w: World)
    requires Initial(c, w)
    ensures Inv(c, w)
  {
  }

  lemma {:induction false} RunKeeps(c: Setup, run: seq<World>, i: nat)
    requires Run(c, run) && i < |run|
    ensures Inv(c, run[i])
  {
    hide Inv, Initial, Step;
    if i == 0 {
      InitialKeeps(c, run[0]);
    } else {
      RunKeeps(c, run, i - 1);
      assert Next(c, run[i - 1], run[i - 1 + 1]);
      var p, answered :| Step(c, run[i - 1], run[i], p, answered);
      StepKeeps(c, run[i - 1], run[i], p, answered);
    }
  }

  /** From one moment of a run to a later one. */
  lemma {:induction false} Later(c: Setup, run: seq<World>, i: nat, j: nat)
    requires Run(c, run) && i <= j < |run|
    ensures BlobsKept(run[i].objects, run[j].objects) && run[i].served <= run[j].served &&
        run[i].commits <= run[j].commits
    decreases j - i
  {
    hide Inv, Initial, Step;
    if i < j {
      Later(c, run, i, j - 1);
      RunKeeps(c, run, j - 1);
      assert Next(c, run[j - 1], run[j - 1 + 1]);
      var p, answered :| Step(c, run[j - 1], run[j], p, answered);
      StepKeeps(c, run[j - 1], run[j], p, answered);
    }
  }

  lemma {:induction false} ChainFrom(c: Setup, w: World, i: nat, j: nat)
    requires Inv(c, w) && i <= j < |w.served|
    ensures Preserves(w.served[i], w.served[j])
    ensures i < j ==> exists family: Family, e :: IsNew(w.served[i], w.served[j], family, e)
    decreases j - i
  {
    if i < j {
      ChainFrom(c, w, i + 1, j);
      assert Extends(w.served[i], w.served[i + 1]);
      var family: Family, e :| IsNew(w.served[i], w.served[i + 1], family, e);
      assert IsNew(w.served[i], w.served[j], family, e);
    }
  }

  /** Under any interleaving of any number of publishers, each able to stop or lose an answer anywhere, the
      manifests served form a chain: every release listed once is listed, unchanged, in every later one. */
  lemma ManifestsFormChain(c: Setup, run: seq<World>, t: nat, i: nat, j: nat, family: Family, e: Entry)
    requires Run(c, run) && t < |run| && i <= j < |run[t].served|
    requires e in EntriesOf(run[t].served[i], family)
    ensures e in EntriesOf(run[t].served[j], family)
    ensures i < j ==> run[t].served[i] != run[t].served[j]
  {
    hide Inv, Run;
    RunKeeps(c, run, t);
    ChainFrom(c, run[t], i, j);
  }

  /** Of publishers starting from the same stored manifest at most one commits. */
  lemma AtMostOneCommit(c: Setup, run: seq<World>, t: nat, i: nat, j: nat)
    requires Run(c, run) && t < |run| && i < |run[t].commits| && j < |run[t].commits|
    requires run[t].commits[i].1 == run[t].commits[j].1
    ensures i == j
  {
    RunKeeps(c, run, t);
    if i < j {
      ChainFrom(c, run[t], i, j);
    } else if j < i {
      ChainFrom(c, run[t], j, i);
    }
  }

  /** Every release of every manifest ever served names, from then on, the same stored bytes, and their
      digest is the one listed. */
  lemma {:induction false} ReleasesStayBacked(c: Setup, run: seq<World>, i: nat, j: nat, k: nat, family: Family,
      e: Entry)
    requires Run(c, run) && i <= j < |run| && k < |run[i].served| && e in EntriesOf(run[i].served[k], family)
    ensures Backed(c.sha, run[i].objects, e) && Backed(c.sha, run[j].objects, e)
    ensures run[j].objects[e.url.key] == run[i].objects[e.url.key]
  {
    hide Run;
    RunKeeps(c, run, i);
    Later(c, run, i, j);
    ChainFrom(c, run[i], k, |run[i].served| - 1);
    assert e in EntriesOf(run[i].served[|run[i].served| - 1], family);
  }

  // ----- an upload whose key is taken -----

  /** The publisher still has to upload a file whose key exists already. */
  ghost predicate Blocked(c: Setup, w: World, p: nat, n: nat) {
    && p in c.bundles && p in w.phases && n < |c.bundles[p].files| && c.bundles[p].files[n].key in w.objects
    && !w.phases[p].Committed? && (w.phases[p].Uploading? ==> w.phases[p].k <= n)
  }

  lemma StepBlocks(c: Setup, w: World, w': World, q: nat, answered: bool, p: nat, n: nat)
    requires Blocked(c, w, p, n) && Step(c, w, w', q, answered)
    ensures Blocked(c, w', p, n)
    ensures w'.commits == w.commits || (w'.commits == w.commits + [w'.commits[|w.commits|]] &&
        w'.commits[|w.commits|].0 != p)
  {
    hide BundleOk;
  }

  /** Artifacts left by a publisher that stopped halfway are never overwritten, so no bundle that brings
      one of their keys can ever be published: a retry needs new keys. */
  lemma {:induction false} LeftoversBlock(c: Setup, run: seq<World>, i: nat, j: nat, p: nat, n: nat)
    requires Run(c, run) && i <= j < |run| && Blocked(c, run[i], p, n)
    ensures Blocked(c, run[j], p, n) && run[i].commits <= run[j].commits
    ensures forall t :: |run[i].commits| <= t < |run[j].commits| ==> run[j].commits[t].0 != p
    decreases j - i
  {
    hide Blocked, Step, Initial;
    if i < j {
      LeftoversBlock(c, run, i, j - 1, p, n);
      assert Next(c, run[j - 1], run[j - 1 + 1]);
      var q, answered :| Step(c, run[j - 1], run[j], q, answered);
      StepBlocks(c, run[j - 1], run[j], q, answered, p, n);
    }
  }

  // ----- the client -----

  ghost predicate HexDigests(sha: Digest) {
    forall bytes :: IsHex(sha(bytes))
  }

  predicate Verified(sha: Digest, bytes: Bytes, expected: string) {
    sha(bytes) == Lower(Trim(expected))
  }

  /** Bytes verify exactly if their digest is the expected one, white space around it and the case of its letters
      aside. */
  lemma VerifiedExactly(sha: Digest, bytes: Bytes, expected: string, before: string, digits: string, after: string)
    requires HexDigests(sha) && expected == before + digits + after && Blank(before) && Blank(after)
    requires digits == [] || (!IsSpace(digits[0]) && !IsSpace(digits[|digits| - 1]))
    ensures Verified(sha, bytes, expected) <==>
              && |digits| == |sha(bytes)|
              && forall i :: 0 <= i < |digits| ==>
                   || digits[i] == sha(bytes)[i]
                   || ('A' <= digits[i] <= 'F' && digits[i] as int + 32 == sha(bytes)[i] as int)
  {
    hide IsSpace, Trim, Blank;
    TrimmedIs(before, digits, after);
    assert IsHex(sha(bytes));
    assert forall i :: 0 <= i < |digits| ==> Lower(digits)[i] == LowerChar(digits[i]);
  }

  /** What a client gets: a cached copy that verifies, else a download that does. */
  function Fetched(sha: Digest, cached: Option<Bytes>, download: Option<Bytes>, expected: string): Option<Bytes> {
    if cached.Some? && Verified(sha, cached.value, expected) then cached
    else if download.Some? && Verified(sha, download.value, expected) then download
    else None
  }

  /** A client holding any manifest ever served, however old, gets for each of its releases bytes whose digest is
      the one listed, whatever its cache contains; and a cached copy with that digest is used as it is. */
  lemma ClientsVerify(c: Setup, run: seq<World>, i: nat, j: nat, k: nat, family: Family, e: Entry,
      cached: Option<Bytes>)
    requires Run(c, run) && HexDigests(c.sha)
    requires i <= j < |run| && k < |run[i].served| && e in EntriesOf(run[i].served[k], family)
    ensures e.url.key in run[j].objects && run[j].objects[e.url.key].Blob?
    ensures var r := Fetched(c.sha, cached, Some(run[j].objects[e.url.key].bytes), e.sha256);
            && r.Some? && c.sha(r.value) == e.sha256
            && (cached.Some? && c.sha(cached.value) == e.sha256 ==> r == cached)
  {
    hide Run;
    ReleasesStayBacked(c, run, i, j, k, family, e);
    HexUnchanged(e.sha256);
  }

  /** The download cache on disk. */
  class Cache {
    var files: map<string, Bytes>

    /** `download` is what the network delivers, `leftover` what a failed write leaves behind. */
    method Fetch(sha: Digest, path: string, expected: string, download: Option<Bytes>, writes: bool,
        leftover: Option<Bytes>)
      returns (r: Option<Bytes>)
      modifies this
      ensures var cached := if path in old(files) then Some(old(files)[path]) else None;
              && (r.Some? ==> r == Fetched(sha, cached, download, expected))
              && (writes ==> r == Fetched(sha, cached, download, expected))
      ensures r.Some? ==> sha(r.value) == Lower(Trim(expected))
      ensures writes && r.Some? ==> files == old(files)[path := r.value]
      ensures forall other :: other != path ==> (other in files <==> other in old(files))
      ensures forall other :: other != path && other in files ==> files[other] == old(files)[other]
    {
      if path in files && Verified(sha, files[path], expected) {
        return Some(files[path]);
      }
      if download == None || !Verified(sha, download.value, expected) {
        return None;
      }
      if writes {
        files := files[path := download.value];
        return download;
      }
      files := if leftover.Some? then files[path := leftover.value] else files - {path};
      r := None;
    }
  }
}
