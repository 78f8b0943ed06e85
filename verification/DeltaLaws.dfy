/** A delta build serves what a rebuild would serve. */
module DeltaLaws {
  import opened Wrappers
  import opened DeltaBuild

  // ------------------------------------------------ updates, one url at a time

  function Lookup(us: Authored, url: Url): Option<Digest> {
    if us == [] then None
    else if us[|us| - 1].0 == url then Some(us[|us| - 1].1)
    else Lookup(us[..|us| - 1], url)
  }

  function Get(m: Served, url: Url): Option<Digest> {
    if url in m then Some(m[url]) else None
  }

  /** Each url once, as the source insists for authored sources and as a crawl gives it. */
  ghost predicate DistinctAuthored(us: Authored) {
    forall i, j :: 0 <= i < j < |us| ==> us[i].0 != us[j].0
  }

  ghost predicate DistinctFetched(fs: seq<Fetched>) {
    forall i, j :: 0 <= i < j < |fs| ==> fs[i].url != fs[j].url
  }

  lemma {:induction false} AppliedAt(served: Served, us: Authored, url: Url)
    ensures Get(Applied(served, us), url) == if Lookup(us, url).Some? then Lookup(us, url) else Get(served, url)
  {
    if us != [] {
      AppliedAt(served, us[..|us| - 1], url);
    }
  }

  lemma {:induction false} LookupAppend(a: Authored, b: Authored, url: Url)
    ensures Lookup(a + b, url) == if Lookup(b, url).Some? then Lookup(b, url) else Lookup(a, url)
  {
    if b == [] {
      assert a + b == a;
    } else {
      assert (a + b)[..|a + b| - 1] == a + b[..|b| - 1];
      LookupAppend(a, b[..|b| - 1], url);
    }
  }

  lemma {:induction false} LookupMembers(us: Authored, url: Url)
    ensures Lookup(us, url).Some? <==> url in Urls(us)
    ensures Lookup(us, url).Some? ==> (url, Lookup(us, url).value) in us
  {
    if us != [] {
      var front := us[..|us| - 1];
      LookupMembers(front, url);
      assert us == front + [us[|us| - 1]];
      assert Urls(us) == Urls(front) + {us[|us| - 1].0};
    }
  }

  lemma {:induction false} LookupPending(us: Authored, comparison: Served, url: Url)
    requires DistinctAuthored(us)
    ensures Lookup(Pending(us, comparison), url)
         == if Lookup(us, url) == Get(comparison, url) then None else Lookup(us, url)
  {
    if us != [] {
      var front := us[..|us| - 1];
      var last := us[|us| - 1];
      LookupPending(front, comparison, url);
      LookupAppend(Pending(front, comparison), if last.0 in comparison && comparison[last.0] == last.1 then [] else [last], url);
      if last.0 == url {
        LookupMembers(front, url);
      }
    }
  }

  lemma {:induction false} LookupExtracted(urls: seq<Url>, entries: map<Url, Fetched>, w: World, url: Url)
    ensures Lookup(Extracted(urls, entries, w), url)
         == if url in urls && url in entries && entries[url].content.Some? && w.extracts(url, entries[url].content.value)
            then Some(w.hash(entries[url].content.value)) else None
  {
    if urls != [] {
      var front := urls[..|urls| - 1];
      var last := urls[|urls| - 1];
      LookupExtracted(front, entries, w, url);
      LookupAppend(Extracted(front, entries, w), Extracted([last], entries, w), url);
      assert urls == front + [last] && [last][..0] == [];
      assert Extracted(urls, entries, w) == Extracted(front, entries, w) + Extracted([last], entries, w);
    }
  }

  // ------------------------------------------------------------ classification

  lemma {:induction false} EntriesMembers(fs: seq<Fetched>, url: Url)
    requires DistinctFetched(fs)
    ensures url in Entries(fs) <==> exists i :: 0 <= i < |fs| && fs[i].url == url
    ensures forall i :: 0 <= i < |fs| && fs[i].url == url ==> url in Entries(fs) && Entries(fs)[url] == fs[i]
  {
    if fs != [] {
      EntriesMembers(fs[..|fs| - 1], url);
    }
  }

  /** The digest of a crawled document that the ledger confirms. */
  function Confirmed(inp: Inputs, url: Url, w: World): Option<Digest> {
    var entries := Entries(inp.fetched);
    if url in entries then Verified(entries[url], inp.ledger, w) else None
  }

  ghost predicate SameRow(a: LedgerRows, b: LedgerRows, url: Url) {
    (url in a <==> url in b) && (url in a ==> a[url] == b[url])
  }

  /** What one url's place in the lists is, read off the loop. */
  lemma {:induction false} ListsMembers(fs: seq<Fetched>, errors: seq<Url>, ledger: LedgerRows, known: Served,
                                        w: World, url: Url)
    requires DistinctFetched(fs)
    ensures var l := Classified(fs, errors, ledger, known, w);
            var d := if url in Entries(fs) then Verified(Entries(fs)[url], ledger, w) else None;
            && (url !in Entries(fs) ==> SameRow(l.ledger, ledger, url))
            && (url in l.added || url in l.altered <==> d.Some? && Get(known, url) != d)
            && (url in l.same <==> d.Some? && Get(known, url) == d)
  {
    hide Verified, Sorted;
    if fs != [] {
      var front := fs[..|fs| - 1];
      var e := fs[|fs| - 1];
      var l := Classified(front, errors, ledger, known, w);
      ListsMembers(front, errors, ledger, known, w, url);
      EntriesMembers(front, url);
      SortedAt(l, e, known, w, url);
      if e.url == url {
        VerifiedSame(e, l.ledger, ledger, w);
      }
    }
  }

  /** One turn of the loop, as seen by one url. */
  lemma SortedAt(l: Lists, e: Fetched, known: Served, w: World, url: Url)
    ensures var l2 := Sorted(l, e, known, w);
            var d := Verified(e, l.ledger, w);
            && (url != e.url ==> SameRow(l2.ledger, l.ledger, url))
            && (url in l2.added || url in l2.altered <==>
                  url in l.added || url in l.altered || (url == e.url && d.Some? && Get(known, url) != d))
            && (url in l2.same <==> url in l.same || (url == e.url && d.Some? && Get(known, url) == d))
  {
    hide Verified;
  }

  lemma VerifiedSame(e: Fetched, a: LedgerRows, b: LedgerRows, w: World)
    requires SameRow(a, b, e.url)
    ensures Verified(e, a, w) == Verified(e, b, w)
  {
  }

  // --------------------------------------------------------- one url's outcome

  /** The digest that a crawled document would be served with, if it is reprocessed. */
  function Candidate(inp: Inputs, url: Url, w: World): Option<Digest> {
    var d := Confirmed(inp, url, w);
    if d.Some? && w.extracts(url, Entries(inp.fetched)[url].content.value) then d else None
  }

  /** Each source of a digest wins over those before it, unless it has nothing new to say. */
  function Outcome(known: Served, comparison: Served, inp: Inputs, w: World, url: Url): Option<Digest> {
    var staff := Lookup(inp.staff, url);
    var fixture := Lookup(inp.fixtures, url);
    var candidate := Candidate(inp, url, w);
    if staff.Some? && staff != Get(comparison, url) then staff
    else if fixture.Some? && fixture != Get(comparison, url) then fixture
    else if candidate.Some? && candidate != Get(comparison, url) then candidate
    else if url in Removed(known, inp) then None
    else Get(known, url)
  }

  ghost predicate GoodInputs(inp: Inputs) {
    DistinctFetched(inp.fetched) && DistinctAuthored(inp.fixtures) && DistinctAuthored(inp.staff)
  }

  lemma UpdatesAt(inp: Inputs, comparison: Served, w: World, url: Url)
    requires GoodInputs(inp)
    ensures var staff := Lookup(inp.staff, url);
            var fixture := Lookup(inp.fixtures, url);
            var candidate := Candidate(inp, url, w);
            Lookup(Updates(inp, comparison, w), url) ==
              if staff.Some? && staff != Get(comparison, url) then staff
              else if fixture.Some? && fixture != Get(comparison, url) then fixture
              else if candidate.Some? && candidate != Get(comparison, url) then candidate
              else None
  {
    hide Verified, Classified, Pending, Extracted, Entries;
    var l := Classified(inp.fetched, inp.errors, inp.ledger, comparison, w);
    var entries := Entries(inp.fetched);
    var crawled := Extracted(l.added + l.altered, entries, w);
    var fixtures := Pending(inp.fixtures, comparison);
    var staff := Pending(inp.staff, comparison);
    ListsMembers(inp.fetched, inp.errors, inp.ledger, comparison, w, url);
    LookupExtracted(l.added + l.altered, entries, w, url);
    LookupPending(inp.fixtures, comparison, url);
    LookupPending(inp.staff, comparison, url);
    LookupAppend(crawled, fixtures, url);
    LookupAppend(crawled + fixtures, staff, url);
    VerifiedDigest(inp, url, w);
  }

  lemma VerifiedDigest(inp: Inputs, url: Url, w: World)
    ensures var d := Confirmed(inp, url, w);
            d.Some? ==> Entries(inp.fetched)[url].content.Some? && d.value == w.hash(Entries(inp.fetched)[url].content.value)
  {
  }

  /** A build, read one url at a time. */
  lemma BuildAt(known: Served, inp: Inputs, rebuild: bool, w: World, url: Url)
    requires GoodInputs(inp) && Build(known, inp, rebuild, w).Some?
    ensures Get(Build(known, inp, rebuild, w).value, url)
         == Outcome(known, if rebuild then map[] else known, inp, w, url)
  {
    hide Updates, Candidate, Entries;
    var comparison := if rebuild then map[] else known;
    UpdatesAt(inp, comparison, w, url);
    AppliedAt(known, Updates(inp, comparison, w), url);
    LookupMembers(inp.staff, url);
    LookupMembers(inp.fixtures, url);
    CandidateCrawled(inp, url, w);
  }

  lemma CandidateCrawled(inp: Inputs, url: Url, w: World)
    ensures Candidate(inp, url, w).Some? ==> url in Entries(inp.fetched)
  {
  }

  // ------------------------------------------------------------ main results

  /** A url that a fixture and a crawled document claim, and that serves the fixture. */
  ghost predicate Clash(known: Served, inp: Inputs, w: World, url: Url) {
    Claimed(inp, w, url) && Get(known, url) == Lookup(inp.fixtures, url)
  }

  lemma OutcomesAgree(known: Served, inp: Inputs, w: World, url: Url)
    requires Build(known, inp, false, w).Some?
    ensures Outcome(known, known, inp, w, url) == Outcome(known, map[], inp, w, url) <==> !Clash(known, inp, w, url)
  {
    hide Candidate, Entries;
    LookupMembers(inp.staff, url);
    LookupMembers(inp.fixtures, url);
    CandidateCrawled(inp, url, w);
  }

  /** A delta build serves exactly what a rebuild over the same crawl serves, if and only if no
  url is claimed by a served fixture and by a crawled document with another content.  The source
  checks such collisions for staff sources only. */
  lemma DeltaIsRebuild(known: Served, inp: Inputs, w: World)
    requires GoodInputs(inp)
    ensures Build(known, inp, false, w).Some? <==> Build(known, inp, true, w).Some?
    ensures Build(known, inp, false, w).Some? ==>
              (Build(known, inp, false, w) == Build(known, inp, true, w) <==> forall url :: !Clash(known, inp, w, url))
  {
    hide Outcome, Clash, Updates, Removed;
    if Build(known, inp, false, w).Some? {
      var delta, full := Build(known, inp, false, w).value, Build(known, inp, true, w).value;
      forall url
        ensures Get(delta, url) == Get(full, url) <==> !Clash(known, inp, w, url)
      {
        BuildAt(known, inp, false, w, url);
        BuildAt(known, inp, true, w, url);
        OutcomesAgree(known, inp, w, url);
      }
      SameServed(delta, full);
    }
  }

  lemma SameServed(a: Served, b: Served)
    ensures (forall url :: Get(a, url) == Get(b, url)) <==> a == b
  {
    if forall url :: Get(a, url) == Get(b, url) {
      assert forall url :: url in a ==> Get(a, url) == Get(b, url);
      assert forall url :: url in b ==> Get(a, url) == Get(b, url);
    }
  }

  /** The kinds of failure that the source lists: the fetch failed, or the cached file is missing,
  not confirmed, or not extracted. */
  ghost predicate Failing(inp: Inputs, w: World, url: Url) {
    Candidate(inp, url, w).None? && (url in inp.errors || url in Entries(inp.fetched))
  }

  /** A source that failed keeps the version served before, unless an author claims its url. */
  lemma FailedKeepsOld(known: Served, inp: Inputs, rebuild: bool, w: World, url: Url)
    requires GoodInputs(inp) && Build(known, inp, rebuild, w).Some?
    requires Failing(inp, w, url) && url !in Urls(inp.fixtures) && url !in Urls(inp.staff)
    ensures Get(Build(known, inp, rebuild, w).value, url) == Get(known, url)
  {
    hide Updates, Candidate;
    BuildAt(known, inp, rebuild, w, url);
    LookupMembers(inp.staff, url);
    LookupMembers(inp.fixtures, url);
  }

  /** A crawl with errors removes nothing. */
  lemma ErrorsRemoveNothing(known: Served, inp: Inputs, rebuild: bool, w: World, url: Url)
    requires GoodInputs(inp) && Build(known, inp, rebuild, w).Some? && inp.errors != [] && url in known
    ensures url in Build(known, inp, rebuild, w).value
  {
    hide Updates, Candidate;
    BuildAt(known, inp, rebuild, w, url);
  }

  /** A fixture and a crawled document claim the same url with different contents. */
  ghost predicate Claimed(inp: Inputs, w: World, url: Url) {
    var fixture := Lookup(inp.fixtures, url);
    var candidate := Candidate(inp, url, w);
    fixture.Some? && candidate.Some? && fixture != candidate
  }

  /** Right after a build, a second delta over the same crawl has no update for a url and leaves
  what is served under it, exactly when no fixture and crawled document claim it together; what
  it reprocesses is then only a crawled document whose extraction failed. */
  lemma SecondDeltaIdle(known: Served, inp: Inputs, rebuild: bool, w: World, url: Url)
    requires GoodInputs(inp) && Build(known, inp, rebuild, w).Some?
    ensures var served := Build(known, inp, rebuild, w).value;
            var l := Classified(inp.fetched, inp.errors, inp.ledger, served, w);
            && Build(served, inp, false, w).Some?
            && (Lookup(Updates(inp, served, w), url) == None <==> !Claimed(inp, w, url))
            && (Get(Build(served, inp, false, w).value, url) == Get(served, url) <==> !Claimed(inp, w, url))
            && (!Claimed(inp, w, url) && (url in l.added || url in l.altered) ==> Candidate(inp, url, w).None?)
  {
    hide Updates, Classified, Entries, Verified, Candidate;
    var served := Build(known, inp, rebuild, w).value;
    BuildAt(known, inp, rebuild, w, url);
    BuildAt(served, inp, false, w, url);
    UpdatesAt(inp, served, w, url);
    LookupMembers(inp.staff, url);
    LookupMembers(inp.fixtures, url);
    CandidateCrawled(inp, url, w);
    SecondLists(served, inp, w, url);
  }

  /** So a second delta is idle as a whole exactly when no fixture and crawled document clash. */
  lemma DeltasSettle(known: Served, inp: Inputs, rebuild: bool, w: World)
    requires GoodInputs(inp) && Build(known, inp, rebuild, w).Some?
    ensures var served := Build(known, inp, rebuild, w).value;
            Build(served, inp, false, w) == Some(served) <==> forall url :: !Claimed(inp, w, url)
  {
    hide Build, Claimed, Updates;
    var served := Build(known, inp, rebuild, w).value;
    forall url
      ensures Build(served, inp, false, w).Some?
      ensures Get(Build(served, inp, false, w).value, url) == Get(served, url) <==> !Claimed(inp, w, url)
    {
      SecondDeltaIdle(known, inp, rebuild, w, url);
    }
    SecondDeltaIdle(known, inp, rebuild, w, "");
    SameServed(Build(served, inp, false, w).value, served);
  }

  lemma SecondLists(served: Served, inp: Inputs, w: World, url: Url)
    requires GoodInputs(inp)
    ensures var l := Classified(inp.fetched, inp.errors, inp.ledger, served, w);
            (url in l.added || url in l.altered) && Candidate(inp, url, w).Some? ==> Candidate(inp, url, w) != Get(served, url)
  {
    hide Classified, Entries, Verified;
    ListsMembers(inp.fetched, inp.errors, inp.ledger, served, w, url);
  }

  /** A crawl of one page whose url a fixture claims too. */
  function Doubled(url: Url, content: Bytes, authored: Digest): Inputs {
    Inputs([Fetched(url, Some(content), true)], [], map[], [(url, authored)], [])
  }

  lemma DoubledFields(url: Url, content: Bytes, authored: Digest, w: World)
    requires w.extracts(url, content) && authored != w.hash(content)
    ensures var inp := Doubled(url, content, authored);
            && GoodInputs(inp) && Lookup(inp.fixtures, url) == Some(authored) && Lookup(inp.staff, url) == None
            && Candidate(inp, url, w) == Some(w.hash(content)) && Claimed(inp, w, url)
            && forall known, rebuild :: Build(known, inp, rebuild, w).Some?
  {
    hide Updates;
    var inp := Doubled(url, content, authored);
    assert [(url, authored)][..0] == [];
    assert inp.fetched[..0] == [];
    assert Entries(inp.fetched) == map[url := inp.fetched[0]];
    assert Urls(inp.staff) == {};
  }

  /** Such a url is served by turns: the first build over an empty store serves the fixture, each
  later delta the version that the one before did not serve, and a rebuild the fixture again. */
  lemma DoubledFlips(url: Url, content: Bytes, authored: Digest, w: World)
    requires w.extracts(url, content) && authored != w.hash(content)
    ensures var inp := Doubled(url, content, authored);
            GoodInputs(inp) && forall known, rebuild :: Build(known, inp, rebuild, w).Some?
    ensures var inp := Doubled(url, content, authored);
            var first := Build(map[], inp, false, w).value;
            var second := Build(first, inp, false, w).value;
            && Get(first, url) == Some(authored) && Clash(first, inp, w, url)
            && Get(second, url) == Some(w.hash(content))
            && Get(Build(second, inp, false, w).value, url) == Some(authored)
            && Get(Build(first, inp, true, w).value, url) == Some(authored)
  {
    hide Build, Doubled, GoodInputs, Candidate;
    var inp := Doubled(url, content, authored);
    DoubledFields(url, content, authored, w);
    var first := Build(map[], inp, false, w).value;
    var second := Build(first, inp, false, w).value;
    BuildAt(map[], inp, false, w, url);
    BuildAt(first, inp, false, w, url);
    BuildAt(first, inp, true, w, url);
    BuildAt(second, inp, false, w, url);
  }

  // -------------------------------------------------- what a build confirms

  /** The ledger has a whole digest of the url, which this is not. */
  predicate LedgerDiffers(ledger: LedgerRows, url: Url, digest: Digest) {
    url in ledger && |ledger[url].hash| == 71 && ledger[url].hash != digest
  }

  /** A cached file is accepted exactly if it is there, and the ledger's digest of its url, if it is a
  whole one, is the file's: or, for a page that was never archived, what an older release took the
  digest of, the text with its line breaks decoded. */
  lemma VerifiedExactly(e: Fetched, ledger: LedgerRows, w: World)
    ensures Verified(e, ledger, w).Some? <==>
              && e.content.Some?
              && (LedgerDiffers(ledger, e.url, w.hash(e.content.value)) ==>
                    e.isPage && !ledger[e.url].archived && ledger[e.url].hash == w.decoded(e.content.value))
    ensures Verified(e, ledger, w).Some? ==> Verified(e, ledger, w).value == w.hash(e.content.value)
  {
  }

  /** What is classified as failed: a fetch that failed, or a cached file that is not accepted. */
  lemma {:induction false} FailedExactly(fs: seq<Fetched>, errors: seq<Url>, ledger: LedgerRows, known: Served, w: World, url: Url)
    requires DistinctFetched(fs)
    ensures url in Classified(fs, errors, ledger, known, w).failed <==>
              url in errors || exists i :: 0 <= i < |fs| && fs[i].url == url && Verified(fs[i], ledger, w).None?
  {
    hide Verified;
    if fs != [] {
      var front, e := fs[..|fs| - 1], fs[|fs| - 1];
      FailedExactly(front, errors, ledger, known, w, url);
      var l := Classified(front, errors, ledger, known, w);
      ListsMembers(front, errors, ledger, known, w, e.url);
      EntriesMembers(front, e.url);
      VerifiedSame(e, l.ledger, ledger, w);
      assert url in Sorted(l, e, known, w).failed <==> url in l.failed || (url == e.url && Verified(e, l.ledger, w).None?);
      assert fs == front + [e];
    }
  }

  /** What one turn of the loop makes of one url's row. */
  ghost predicate RowAfter(before: LedgerRows, after: LedgerRows, url: Url, confirmed: Option<Digest>) {
    && (confirmed.Some? ==> url in after && after[url].hash == confirmed.value)
    && (confirmed.None? && url in before ==> url in after && after[url].hash == before[url].hash)
    && (url in before ==> url in after && after[url].archived == before[url].archived)
  }

  lemma SortedRow(l: Lists, e: Fetched, known: Served, w: World, url: Url)
    ensures var after := Sorted(l, e, known, w).ledger;
            if url == e.url then RowAfter(l.ledger, after, url, Verified(e, l.ledger, w)) else SameRow(after, l.ledger, url)
  {
    hide Verified;
  }

  lemma RowSame(a: LedgerRows, b: LedgerRows, after: LedgerRows, url: Url, confirmed: Option<Digest>)
    requires SameRow(a, b, url)
    ensures RowAfter(a, after, url, confirmed) <==> RowAfter(b, after, url, confirmed)
    ensures RowAfter(after, a, url, confirmed) <==> RowAfter(after, b, url, confirmed)
  {
  }

  /** A confirmed file's digest goes into the ledger; of a file that is not, the ledger keeps what it had. */
  lemma {:induction false} LedgerAfter(fs: seq<Fetched>, errors: seq<Url>, ledger: LedgerRows, known: Served, w: World, i: nat)
    requires DistinctFetched(fs) && i < |fs|
    ensures RowAfter(ledger, Classified(fs, errors, ledger, known, w).ledger, fs[i].url, Verified(fs[i], ledger, w))
  {
    hide Verified, Sorted, RowAfter, SameRow;
    var front, e := fs[..|fs| - 1], fs[|fs| - 1];
    var l := Classified(front, errors, ledger, known, w);
    var after := Sorted(l, e, known, w).ledger;
    SortedRow(l, e, known, w, fs[i].url);
    if i < |fs| - 1 {
      LedgerAfter(front, errors, ledger, known, w, i);
      RowSame(after, l.ledger, ledger, fs[i].url, Verified(fs[i], ledger, w));
    } else {
      ListsMembers(front, errors, ledger, known, w, e.url);
      EntriesMembers(front, e.url);
      VerifiedSame(e, l.ledger, ledger, w);
      RowSame(l.ledger, ledger, after, e.url, Verified(e, ledger, w));
    }
  }

  /** Whatever was served, a build serves a crawled document that is accepted and can be extracted with
  the digest of what was crawled, unless an author claims its url. */
  lemma CrawledIsServed(known: Served, inp: Inputs, rebuild: bool, w: World, i: nat)
    requires GoodInputs(inp) && Build(known, inp, rebuild, w).Some? && i < |inp.fetched|
    requires var e := inp.fetched[i];
             Verified(e, inp.ledger, w).Some? && e.content.Some? && w.extracts(e.url, e.content.value)
    requires inp.fetched[i].url !in Urls(inp.fixtures) && inp.fetched[i].url !in Urls(inp.staff)
    ensures Get(Build(known, inp, rebuild, w).value, inp.fetched[i].url) == Some(w.hash(inp.fetched[i].content.value))
  {
    hide Updates, Verified, Removed;
    var e := inp.fetched[i];
    EntriesMembers(inp.fetched, e.url);
    VerifiedExactly(e, inp.ledger, w);
    BuildAt(known, inp, rebuild, w, e.url);
    LookupMembers(inp.staff, e.url);
    LookupMembers(inp.fixtures, e.url);
    NotRemoved(known, inp, e.url);
  }

  lemma NotRemoved(known: Served, inp: Inputs, url: Url)
    ensures url in Entries(inp.fetched) || url in Urls(inp.fixtures) || url in Urls(inp.staff) ==> url !in Removed(known, inp)
  {
  }

  /** And an authored source with the digest of its file: staff sources always, fixtures unless the
  crawl claims their url too. */
  lemma AuthoredIsServed(known: Served, inp: Inputs, rebuild: bool, w: World, url: Url, digest: Digest)
    requires GoodInputs(inp) && Build(known, inp, rebuild, w).Some?
    requires (url, digest) in inp.staff || ((url, digest) in inp.fixtures && Candidate(inp, url, w).None?)
    ensures Get(Build(known, inp, rebuild, w).value, url) == Some(digest)
  {
    hide Updates, Candidate, Removed;
    BuildAt(known, inp, rebuild, w, url);
    LookupMembers(inp.staff, url);
    LookupMembers(inp.fixtures, url);
    NotRemoved(known, inp, url);
    if (url, digest) in inp.staff {
      LookupOnly(inp.staff, url, digest);
      CandidateCrawled(inp, url, w);
    } else {
      LookupOnly(inp.fixtures, url, digest);
    }
    UrlsHas(inp.staff, url, digest);
    UrlsHas(inp.fixtures, url, digest);
  }

  lemma UrlsHas(us: Authored, url: Url, digest: Digest)
    ensures (url, digest) in us ==> url in Urls(us)
  {
    assert forall u :: u in us ==> u.0 in Urls(us);
  }

  lemma {:induction false} LookupOnly(us: Authored, url: Url, digest: Digest)
    requires DistinctAuthored(us) && (url, digest) in us
    ensures Lookup(us, url) == Some(digest)
  {
    var last := us[|us| - 1];
    if last != (url, digest) {
      LookupOnly(us[..|us| - 1], url, digest);
      var i :| 0 <= i < |us| - 1 && us[i] == (url, digest);
    }
  }

  /** What is served and withdrawn: exactly what a crawl without errors no longer lists and no author
  claims. */
  lemma WithdrawnExactly(known: Served, inp: Inputs, rebuild: bool, w: World, url: Url)
    requires GoodInputs(inp) && Build(known, inp, rebuild, w).Some? && url in known
    ensures url !in Build(known, inp, rebuild, w).value <==>
              && inp.errors == []
              && (forall i :: 0 <= i < |inp.fetched| ==> inp.fetched[i].url != url)
              && url !in Urls(inp.fixtures) && url !in Urls(inp.staff)
  {
    hide Updates, Candidate;
    BuildAt(known, inp, rebuild, w, url);
    LookupMembers(inp.staff, url);
    LookupMembers(inp.fixtures, url);
    CandidateCrawled(inp, url, w);
    EntriesMembers(inp.fetched, url);
  }
}
