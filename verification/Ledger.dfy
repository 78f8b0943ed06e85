/** The version ledger of assistant/indexing/crawl.py: `reconcile` and `archive_source`. */
module Ledger {
  import opened Wrappers

  type Url = string
  type Bytes = string
  type Digest = string
  type Stamp = string

  /** `versions/<identity of the url>/<digest of the content><suffix>`. */
  datatype Path = Path(identity: string, digest: Digest, suffix: string)

  datatype Change = New | Unchanged | Changed

  datatype Record = Record(version: nat, hash: Digest, etag: string, lastModified: string,
                           firstSeen: Stamp, fetched: Stamp, checked: Stamp,
                           supersedes: Option<Digest>, change: Change, source: Path)

  /** A ledger entry: the active record, and those it superseded, oldest first. */
  datatype Entry = Entry(current: Record, history: seq<Record>)

  type Files = map<Path, Bytes>

  /** The functions of the outside world: a digest, and the two parts of a path taken from a url. */
  datatype World = World(hash: Bytes -> Digest, identity: Url -> string, suffix: Url -> string)

  /** One fetch. */
  datatype Fetch = Fetch(url: Url, content: Bytes, headers: map<string, string>, stamp: Stamp)

  function PathOf(w: World, url: Url, content: Bytes): Path {
    Path(w.identity(url), w.hash(content), w.suffix(url))
  }

  /** `archive_source`: written once; a different content under the same path is an error. */
  function Archived(files: Files, path: Path, content: Bytes): Option<Files> {
    if path !in files then Some(files[path := content])
    else if files[path] == content then Some(files)
    else None
  }

  function Header(headers: map<string, string>, name: string): string {
    if name in headers then headers[name] else ""
  }

  function NewRecord(f: Fetch, digest: Digest, source: Path): Record {
    Record(1, digest, Header(f.headers, "etag"), Header(f.headers, "last-modified"),
           f.stamp, f.stamp, f.stamp, None, New, source)
  }

  function NextRecord(prior: Record, f: Fetch, digest: Digest, source: Path): Record {
    if prior.hash == digest then
      prior.(checked := f.stamp, change := Unchanged, source := source,
             etag := if "etag" in f.headers then f.headers["etag"] else prior.etag,
             lastModified := if "last-modified" in f.headers then f.headers["last-modified"] else prior.lastModified)
    else
      Record(prior.version + 1, digest, Header(f.headers, "etag"), Header(f.headers, "last-modified"),
             prior.firstSeen, f.stamp, f.stamp, Some(prior.hash), Changed, source)
  }

  /** The entry after a fetch that was archived. */
  function Reconciled(prior: Option<Entry>, f: Fetch, w: World): Entry {
    var digest := w.hash(f.content);
    var source := PathOf(w, f.url, f.content);
    match prior
    case None => Entry(NewRecord(f, digest, source), [])
    case Some(e) =>
      Entry(NextRecord(e.current, f, digest, source),
            if e.current.hash == digest then e.history else e.history + [e.current])
  }

  class Crawl {
    const world: World
    var ledger: map<Url, Entry>
    var files: Files

    constructor (world: World, ledger: map<Url, Entry>, files: Files)
      ensures this.world == world && this.ledger == ledger && this.files == files
    {
      this.world := world;
      this.ledger, this.files := ledger, files;
    }

    /** `ok` is false where the source raises because the archived file is corrupt. */
    method ArchiveSource(url: Url, content: Bytes) returns (ok: bool, path: Path)
      modifies this`files
      ensures path == PathOf(world, url, content)
      ensures ok == Archived(old(files), path, content).Some?
      ensures files == if ok then Archived(old(files), path, content).value else old(files)
    {
      path := Path(world.identity(url), world.hash(content), world.suffix(url));
      ok := true;
      if path !in files {
        files := files[path := content];
      } else if files[path] != content {
        ok := false;
      }
    }

    method Reconcile(f: Fetch) returns (ok: bool)
      modifies this
      ensures var archived := Archived(old(files), PathOf(world, f.url, f.content), f.content);
              && ok == archived.Some?
              && files == (if ok then archived.value else old(files))
              && ledger == if ok then old(ledger)[f.url := Reconciled(
                                 if f.url in old(ledger) then Some(old(ledger)[f.url]) else None, f, world)]
                           else old(ledger)
    {
      var digest := world.hash(f.content);
      var source := PathOf(world, f.url, f.content);
      var record: Record;
      var history: seq<Record> := [];
      if f.url !in ledger {
        record := NewRecord(f, digest, source);
      } else {
        var prior := ledger[f.url];
        record := NextRecord(prior.current, f, digest, source);
        history := prior.history;
        if prior.current.hash != digest {
          history := history + [prior.current];
        }
      }
      var path;
      ok, path := ArchiveSource(f.url, f.content);
      if ok {
        ledger := ledger[f.url := Entry(record, history)];
      }
    }
  }

  // -------------------------------------------------------------- whole runs

  datatype State = State(ledger: map<Url, Entry>, files: Files)

  predicate Accepts(s: State, f: Fetch, w: World) {
    Archived(s.files, PathOf(w, f.url, f.content), f.content).Some?
  }

  function Next(s: State, f: Fetch, w: World): State {
    match Archived(s.files, PathOf(w, f.url, f.content), f.content)
    case None => s
    case Some(files) =>
      State(s.ledger[f.url := Reconciled(if f.url in s.ledger then Some(s.ledger[f.url]) else None, f, w)], files)
  }

  function Run(files: Files, fs: seq<Fetch>, w: World): State {
    if fs == [] then State(map[], files)
    else Next(Run(files, fs[..|fs| - 1], w), fs[|fs| - 1], w)
  }

  /** The fetches of one url that were recorded, in order. */
  function Recorded(files: Files, fs: seq<Fetch>, url: Url, w: World): seq<Fetch> {
    if fs == [] then []
    else
      var f := fs[|fs| - 1];
      var front := fs[..|fs| - 1];
      Recorded(files, front, url, w)
      + (if f.url == url && Accepts(Run(files, front, w), f, w) then [f] else [])
  }

  function Hashes(fs: seq<Fetch>, w: World): seq<Digest> {
    if fs == [] then [] else Hashes(fs[..|fs| - 1], w) + [w.hash(fs[|fs| - 1].content)]
  }

  /** Consecutive repeats collapsed. */
  function Collapse(s: seq<Digest>): seq<Digest> {
    if s == [] then []
    else
      var c := Collapse(s[..|s| - 1]);
      if c != [] && c[|c| - 1] == s[|s| - 1] then c else c + [s[|s| - 1]]
  }

  function Versions(e: Entry): seq<Digest> {
    seq(|e.history| + 1, i requires 0 <= i <= |e.history| => if i < |e.history| then e.history[i].hash else e.current.hash)
  }

  /** All records of an entry, oldest first. */
  function Records(e: Entry): seq<Record> {
    e.history + [e.current]
  }

  ghost predicate InChain(e: Entry, i: nat, firstSeen: Stamp)
    requires i <= |e.history|
  {
    var r := Records(e)[i];
    && r.version == i + 1 && r.firstSeen == firstSeen
    && r.supersedes == (if i == 0 then None else Some(Records(e)[i - 1].hash))
  }

  /** What an entry says of its own past. */
  ghost predicate Consistent(e: Entry, firstSeen: Stamp) {
    forall i: nat :: i <= |e.history| ==> InChain(e, i, firstSeen)
  }

  ghost predicate IsLog(s: State, url: Url, recorded: seq<Fetch>, w: World) {
    && (recorded == [] <==> url !in s.ledger)
    && (url in s.ledger ==>
          && Versions(s.ledger[url]) == Collapse(Hashes(recorded, w))
          && Consistent(s.ledger[url], recorded[0].stamp))
  }

  lemma SameVersionConsistent(e: Entry, e2: Entry, firstSeen: Stamp)
    requires Consistent(e, firstSeen) && e2.history == e.history
    requires e2.current.version == e.current.version && e2.current.firstSeen == e.current.firstSeen
    requires e2.current.supersedes == e.current.supersedes
    ensures Consistent(e2, firstSeen)
  {
    forall i: nat | i <= |e2.history|
      ensures InChain(e2, i, firstSeen)
    {
      assert InChain(e, i, firstSeen);
    }
  }

  lemma NextVersionConsistent(e: Entry, e2: Entry, firstSeen: Stamp)
    requires Consistent(e, firstSeen) && e2.history == e.history + [e.current]
    requires e2.current.version == e.current.version + 1 && e2.current.firstSeen == e.current.firstSeen
    requires e2.current.supersedes == Some(e.current.hash)
    ensures Consistent(e2, firstSeen)
  {
    assert Records(e2) == Records(e) + [e2.current];
    assert InChain(e, |e.history|, firstSeen);
    forall i: nat | i <= |e2.history|
      ensures InChain(e2, i, firstSeen)
    {
      if i <= |e.history| {
        assert InChain(e, i, firstSeen);
      }
    }
  }

  lemma HashesPush(recorded: seq<Fetch>, f: Fetch, w: World)
    ensures var hashes := Hashes(recorded, w);
            var c := Collapse(hashes);
            && Hashes(recorded + [f], w) == hashes + [w.hash(f.content)]
            && Collapse(hashes + [w.hash(f.content)]) ==
                 if c != [] && c[|c| - 1] == w.hash(f.content) then c else c + [w.hash(f.content)]
  {
    var hashes := Hashes(recorded, w);
    assert (recorded + [f])[..|recorded|] == recorded;
    assert (hashes + [w.hash(f.content)])[..|hashes|] == hashes;
  }

  lemma FirstIsLog(f: Fetch, w: World)
    ensures var e := Reconciled(None, f, w); Versions(e) == [w.hash(f.content)] && Consistent(e, f.stamp)
  {
    var e := Reconciled(None, f, w);
    assert InChain(e, 0, f.stamp);
  }

  lemma NextIsLog(e: Entry, f: Fetch, firstSeen: Stamp, w: World)
    requires Consistent(e, firstSeen)
    ensures Versions(e) != [] && Versions(e)[|Versions(e)| - 1] == e.current.hash
    ensures var e2 := Reconciled(Some(e), f, w);
            Consistent(e2, firstSeen)
            && Versions(e2) == if e.current.hash == w.hash(f.content) then Versions(e) else Versions(e) + [w.hash(f.content)]
  {
    hide InChain;
    var e2 := Reconciled(Some(e), f, w);
    if e.current.hash == w.hash(f.content) {
      assert Versions(e2) == Versions(e);
      SameVersionConsistent(e, e2, firstSeen);
    } else {
      assert Versions(e2) == Versions(e) + [w.hash(f.content)];
      NextVersionConsistent(e, e2, firstSeen);
    }
  }

  /** The entry after one more recorded fetch. */
  lemma ReconciledIsLog(s: State, f: Fetch, recorded: seq<Fetch>, w: World)
    requires IsLog(s, f.url, recorded, w) && Accepts(s, f, w)
    ensures IsLog(Next(s, f, w), f.url, recorded + [f], w)
  {
    hide Versions, Consistent, Collapse, Hashes, Reconciled;
    HashesPush(recorded, f, w);
    if f.url in s.ledger {
      NextIsLog(s.ledger[f.url], f, recorded[0].stamp, w);
    } else {
      FirstIsLog(f, w);
      NothingLogged(w);
    }
  }

  lemma NothingLogged(w: World)
    ensures Hashes([], w) == [] && Collapse([]) == []
  {
  }

  /** From an empty ledger and any archive: an entry's hashes, oldest first, are the recorded
  hashes with consecutive repeats collapsed; its version counts them, each record supersedes the
  one before, and the time of the first sight never moves. */
  lemma {:induction false} LedgerIsLog(files: Files, fs: seq<Fetch>, url: Url, w: World)
    ensures IsLog(Run(files, fs, w), url, Recorded(files, fs, url, w), w)
  {
    if fs != [] {
      var front := fs[..|fs| - 1];
      var f := fs[|fs| - 1];
      LedgerIsLog(files, front, url, w);
      if f.url == url && Accepts(Run(files, front, w), f, w) {
        ReconciledIsLog(Run(files, front, w), f, Recorded(files, front, url, w), w);
      } else {
        assert Recorded(files, fs, url, w) == Recorded(files, front, url, w);
      }
    }
  }

  // ------------------------------------------------------------- the archive

  /** Every version ever recorded has its file, and the file still hashes to the recorded hash. */
  ghost predicate ArchiveKept(s: State, w: World) {
    forall url :: url in s.ledger ==> forall i :: 0 <= i <= |s.ledger[url].history| ==>
      var r := Records(s.ledger[url])[i];
      r.source in s.files && w.hash(s.files[r.source]) == r.hash
  }

  ghost predicate Grows(before: Files, after: Files) {
    forall p :: p in before ==> p in after && after[p] == before[p]
  }

  lemma StepKeepsArchive(s: State, f: Fetch, w: World)
    requires ArchiveKept(s, w)
    ensures ArchiveKept(Next(s, f, w), w) && Grows(s.files, Next(s, f, w).files)
  {
    if Accepts(s, f, w) && f.url in s.ledger {
      var e, e2 := s.ledger[f.url], Next(s, f, w).ledger[f.url];
      assert forall i :: 0 <= i < |e2.history| ==> Records(e2)[i] == Records(e)[i];
    }
  }

  /** In every run no archived file is ever changed, and every recorded version can be read back. */
  lemma {:induction false} VersionsStayReadable(files: Files, fs: seq<Fetch>, w: World)
    ensures ArchiveKept(Run(files, fs, w), w) && Grows(files, Run(files, fs, w).files)
  {
    if fs != [] {
      VersionsStayReadable(files, fs[..|fs| - 1], w);
      StepKeepsArchive(Run(files, fs[..|fs| - 1], w), fs[|fs| - 1], w);
    }
  }

  /** Every archived file hashes to the digest in its path. */
  ghost predicate Intact(files: Files, w: World) {
    forall p :: p in files ==> w.hash(files[p]) == p.digest
  }

  /** No two of these contents have the same digest. */
  ghost predicate Distinguishes(w: World, contents: set<Bytes>) {
    forall a, b :: a in contents && b in contents && w.hash(a) == w.hash(b) ==> a == b
  }

  /** The contents are those in the archive and those fetched, and perhaps others. */
  ghost predicate Contain(contents: set<Bytes>, files: Files, fs: seq<Fetch>) {
    (forall p :: p in files ==> files[p] in contents) && (forall f :: f in fs ==> f.content in contents)
  }

  /** Over an intact archive, and as long as no two contents collide, nothing is ever refused. */
  lemma {:induction false} NothingRefused(files: Files, fs: seq<Fetch>, f: Fetch, contents: set<Bytes>, w: World)
    requires Intact(files, w) && Contain(contents, files, fs + [f]) && Distinguishes(w, contents)
    ensures Intact(Run(files, fs, w).files, w) && Contain(contents, Run(files, fs, w).files, fs + [f])
    ensures Accepts(Run(files, fs, w), f, w)
  {
    if fs != [] {
      var front, last := fs[..|fs| - 1], fs[|fs| - 1];
      assert front + [last] == fs;
      assert last in fs + [f];
      assert forall g :: g in fs ==> g in fs + [f];
      NothingRefused(files, front, last, contents, w);
    }
  }

  /** All fetches of one url, in order. */
  function Observed(fs: seq<Fetch>, url: Url): seq<Fetch> {
    if fs == [] then []
    else Observed(fs[..|fs| - 1], url) + (if fs[|fs| - 1].url == url then [fs[|fs| - 1]] else [])
  }

  lemma {:induction false} RecordedIsObserved(files: Files, fs: seq<Fetch>, url: Url, contents: set<Bytes>, w: World)
    requires Intact(files, w) && Contain(contents, files, fs) && Distinguishes(w, contents)
    ensures Recorded(files, fs, url, w) == Observed(fs, url)
  {
    if fs != [] {
      var front, last := fs[..|fs| - 1], fs[|fs| - 1];
      assert front + [last] == fs;
      RecordedIsObserved(files, front, url, contents, w);
      NothingRefused(files, front, last, contents, w);
    }
  }

  /** There the ledger is the log of everything observed. */
  lemma LedgerIsObserved(files: Files, fs: seq<Fetch>, url: Url, contents: set<Bytes>, w: World)
    requires Intact(files, w) && Contain(contents, files, fs) && Distinguishes(w, contents)
    ensures IsLog(Run(files, fs, w), url, Observed(fs, url), w)
  {
    LedgerIsLog(files, fs, url, w);
    RecordedIsObserved(files, fs, url, contents, w);
  }

  // ------------------------------------------------- what a record says of its fetches

  /** Where the last unbroken run of equal digests begins. */
  function VersionStart(fs: seq<Fetch>, w: World): (i: nat)
    requires fs != []
    ensures i < |fs|
  {
    var n := |fs| - 1;
    if n > 0 && w.hash(fs[n - 1].content) == w.hash(fs[n].content) then VersionStart(fs[..n], w) else n
  }

  /** The header as it was last given since fetch `start`, none as an empty one. */
  function LastGiven(fs: seq<Fetch>, start: nat, name: string): string
    requires start < |fs|
    decreases |fs|
  {
    var n := |fs| - 1;
    if name in fs[n].headers then fs[n].headers[name]
    else if start == n then "" else LastGiven(fs[..n], start, name)
  }

  /** A record as its url's fetches make it. */
  ghost predicate Tells(r: Record, fs: seq<Fetch>, w: World)
    requires fs != []
  {
    var n := |fs| - 1;
    var start := VersionStart(fs, w);
    && r.hash == w.hash(fs[n].content) && r.checked == fs[n].stamp && r.fetched == fs[start].stamp
    && r.source == PathOf(w, fs[n].url, fs[n].content)
    && r.etag == LastGiven(fs, start, "etag") && r.lastModified == LastGiven(fs, start, "last-modified")
    && r.change == if n == 0 then New
                   else if w.hash(fs[n - 1].content) == w.hash(fs[n].content) then Unchanged else Changed
  }

  lemma TellsNext(s: State, f: Fetch, recorded: seq<Fetch>, w: World)
    requires Accepts(s, f, w) && (f.url in s.ledger <==> recorded != [])
    requires f.url in s.ledger ==> Tells(s.ledger[f.url].current, recorded, w)
    ensures Tells(Next(s, f, w).ledger[f.url].current, recorded + [f], w)
  {
    var fs := recorded + [f];
    assert fs[..|recorded|] == recorded;
    if recorded != [] {
      assert fs[|fs| - 2] == recorded[|recorded| - 1];
    }
  }

  /** In every run the current record of a url says when it was last checked and first fetched as it is
  now, what the server last said of this version, and whether the last fetch brought anything new. */
  lemma {:induction false} RecordTells(files: Files, fs: seq<Fetch>, url: Url, w: World)
    ensures url in Run(files, fs, w).ledger <==> Recorded(files, fs, url, w) != []
    ensures url in Run(files, fs, w).ledger ==>
              Tells(Run(files, fs, w).ledger[url].current, Recorded(files, fs, url, w), w)
  {
    hide Tells;
    if fs != [] {
      var front, f := fs[..|fs| - 1], fs[|fs| - 1];
      RecordTells(files, front, url, w);
      if f.url == url && Accepts(Run(files, front, w), f, w) {
        TellsNext(Run(files, front, w), f, Recorded(files, front, url, w), w);
      } else {
        assert Recorded(files, fs, url, w) == Recorded(files, front, url, w);
      }
    }
  }
}
