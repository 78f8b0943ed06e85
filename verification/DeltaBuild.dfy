/** The delta build of assistant/indexing/index.py: what a build serves afterwards, as a map from
url to content hash. */
module DeltaBuild {
  import opened Wrappers

  type Url = string
  type Bytes = string
  type Digest = string
  type Served = map<Url, Digest>

  /** One entry of the crawl log; `content` is absent when the cached file is missing. */
  datatype Fetched = Fetched(url: Url, content: Option<Bytes>, isPage: bool)

  /** What the version ledger holds of a url; an empty hash stands for none. */
  datatype LedgerRow = LedgerRow(hash: Digest, archived: bool)

  type LedgerRows = map<Url, LedgerRow>

  /** The outside world: the digest, the digest after newline decoding, and whether extracting a
  document yields passages. */
  datatype World = World(hash: Bytes -> Digest, decoded: Bytes -> Digest, extracts: (Url, Bytes) -> bool)

  type Authored = seq<(Url, Digest)>

  datatype Inputs = Inputs(fetched: seq<Fetched>, errors: seq<Url>, ledger: LedgerRows,
                           fixtures: Authored, staff: Authored)

  /** The four lists of `_classify`, and the ledger as it left it. */
  datatype Lists = Lists(added: seq<Url>, altered: seq<Url>, same: seq<Url>, failed: seq<Url>, ledger: LedgerRows)

  const FULL_HASH: nat := 71

  // ----------------------------------------------------------- classification

  /** The digest of a cached file that the ledger confirms. */
  function Verified(e: Fetched, ledger: LedgerRows, w: World): Option<Digest> {
    if e.content.None? then None
    else
      var digest := w.hash(e.content.value);
      var expected := if e.url in ledger then ledger[e.url].hash else "";
      var legacy := e.isPage && !(e.url in ledger && ledger[e.url].archived);
      if |expected| == FULL_HASH && expected != digest && expected != (if legacy then w.decoded(e.content.value) else "")
      then None else Some(digest)
  }

  function Sorted(l: Lists, e: Fetched, known: Served, w: World): Lists {
    var row := if e.url in l.ledger then l.ledger[e.url] else LedgerRow("", false);
    match Verified(e, l.ledger, w)
    case None =>
      l.(failed := l.failed + [e.url], ledger := if e.content.None? then l.ledger else l.ledger[e.url := row])
    case Some(digest) =>
      var l2 := l.(ledger := l.ledger[e.url := row.(hash := digest)]);
      if e.url !in known then l2.(added := l.added + [e.url])
      else if known[e.url] != digest then l2.(altered := l.altered + [e.url])
      else l2.(same := l.same + [e.url])
  }

  function Classified(fetched: seq<Fetched>, errors: seq<Url>, ledger: LedgerRows, known: Served, w: World): Lists {
    if fetched == [] then Lists([], [], [], errors, ledger)
    else Sorted(Classified(fetched[..|fetched| - 1], errors, ledger, known, w), fetched[|fetched| - 1], known, w)
  }

  method Classify(fetched: seq<Fetched>, errors: seq<Url>, ledger: LedgerRows, known: Served, w: World)
    returns (l: Lists)
    ensures l == Classified(fetched, errors, ledger, known, w)
  {
    var added: seq<Url>, altered: seq<Url>, same: seq<Url>, failed := [], [], [], errors;
    var rows := ledger;
    for i := 0 to |fetched|
      invariant Lists(added, altered, same, failed, rows) == Classified(fetched[..i], errors, ledger, known, w)
    {
      var e := fetched[i];
      assert fetched[..i + 1][..i] == fetched[..i];
      if e.content.None? {
        failed := failed + [e.url];
        continue;
      }
      var digest := w.hash(e.content.value);
      var row := if e.url in rows then rows[e.url] else LedgerRow("", false);
      var expected := row.hash;
      if |expected| == FULL_HASH && expected != digest {
        var legacy := e.isPage && !row.archived;
        var normalized := if legacy then w.decoded(e.content.value) else "";
        if expected != normalized {
          rows := rows[e.url := row];
          failed := failed + [e.url];
          continue;
        }
      }
      rows := rows[e.url := row.(hash := digest)];
      if e.url !in known {
        added := added + [e.url];
      } else if known[e.url] != digest {
        altered := altered + [e.url];
      } else {
        same := same + [e.url];
      }
    }
    assert fetched[..|fetched|] == fetched;
    l := Lists(added, altered, same, failed, rows);
  }

  // -------------------------------------------------------------- the build

  function Entries(fetched: seq<Fetched>): map<Url, Fetched> {
    if fetched == [] then map[]
    else Entries(fetched[..|fetched| - 1])[fetched[|fetched| - 1].url := fetched[|fetched| - 1]]
  }

  /** The updates from the crawled documents that were extracted. */
  function Extracted(urls: seq<Url>, entries: map<Url, Fetched>, w: World): Authored {
    if urls == [] then []
    else
      var url := urls[|urls| - 1];
      Extracted(urls[..|urls| - 1], entries, w)
      + (if url in entries && entries[url].content.Some? && w.extracts(url, entries[url].content.value)
         then [(url, w.hash(entries[url].content.value))] else [])
  }

  /** The authored sources whose digest is not the one served. */
  function Pending(authored: Authored, comparison: Served): Authored {
    if authored == [] then []
    else
      var (url, digest) := authored[|authored| - 1];
      Pending(authored[..|authored| - 1], comparison)
      + (if url in comparison && comparison[url] == digest then [] else [(url, digest)])
  }

  /** The store applies updates one after the other. */
  function Applied(served: Served, updates: Authored): Served {
    if updates == [] then served
    else Applied(served, updates[..|updates| - 1])[updates[|updates| - 1].0 := updates[|updates| - 1].1]
  }

  function Urls(authored: Authored): set<Url> {
    set u | u in authored :: u.0
  }

  function Removed(known: Served, inp: Inputs): set<Url> {
    if inp.errors != [] then {}
    else known.Keys - Entries(inp.fetched).Keys - Urls(inp.fixtures) - Urls(inp.staff)
  }

  function Updates(inp: Inputs, comparison: Served, w: World): Authored {
    var l := Classified(inp.fetched, inp.errors, inp.ledger, comparison, w);
    Extracted(l.added + l.altered, Entries(inp.fetched), w)
    + Pending(inp.fixtures, comparison) + Pending(inp.staff, comparison)
  }

  /** What is served after a build; nothing is published when a staff source collides. */
  function Build(known: Served, inp: Inputs, rebuild: bool, w: World): Option<Served> {
    if Urls(inp.staff) !! Urls(inp.fixtures) + Entries(inp.fetched).Keys then
      Some(Applied(known, Updates(inp, if rebuild then map[] else known, w)) - Removed(known, inp))
    else None
  }
}
