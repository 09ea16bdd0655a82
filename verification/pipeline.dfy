/**
  How the two stages meet: the transcriber learns which chunks exist only
  by listing the folder the segmenter wrote into. These lemmas say what
  that hand-off guarantees and where it stops guaranteeing it.
 */
module Pipeline {
  import opened Segmenter
  import opened Transcriber
  import opened Paths
  import opened Whitespace
  import opened Metadata

  predicate Distinct(s: seq<string>) {
    forall i, j :: 0 <= i < j < |s| ==> s[i] != s[j]
  }

  /**
    `listing` is a possible result of `os.listdir` for a folder whose entry
    names are `dir`: every entry exactly once, in no particular order.
   */
  ghost predicate IsListingOf(listing: seq<string>, dir: set<string>) {
    Distinct(listing) && forall e :: e in listing <==> e in dir
  }

  /** The entries of a folder that the transcriber selects. */
  ghost function WavEntries(dir: set<string>): set<string> {
    set e | e in dir && IsWav(e)
  }

  /** In a sequence without repetitions every element occurs once. */
  lemma {:induction false} DistinctCounts(s: seq<string>)
    requires Distinct(s)
    ensures forall e :: multiset(s)[e] == if e in s then 1 else 0
    decreases |s|
  {
    if |s| > 0 {
      var init := s[..|s| - 1];
      assert s == init + [s[|s| - 1]];
      assert s[|s| - 1] !in init;
      DistinctCounts(init);
    }
  }

  /**
    The `.wav` entries of a listing are those of the folder, each once: so
    the transcriber sees the folder's `.wav` files whatever order
    `os.listdir` returned them in.
   */
  lemma ListingWavEntries(listing: seq<string>, dir: set<string>)
    requires IsListingOf(listing, dir)
    ensures multiset(KeepWav(listing)) == multiset(WavEntries(dir))
  {
    DistinctCounts(listing);
    KeepWavCounts(listing);
    assert forall e :: multiset(KeepWav(listing))[e] == multiset(WavEntries(dir))[e];
  }

  /**
    One metadata line per `.wav` file in the folder at transcription time:
    a complete run writes as many records as the folder has `.wav` entries,
    whether this run's segmenter wrote them or an earlier run left them.
   */
  lemma RecordCount(listing: seq<string>, dir: set<string>)
    requires IsListingOf(listing, dir)
    ensures |Visits(listing)| == |WavEntries(dir)|
  {
    ListingWavEntries(listing, dir);
    assert |Visits(listing)| == |multiset(Visits(listing))|;
    assert |multiset(WavEntries(dir))| == |WavEntries(dir)|;
  }

  /** The names of one run's chunks occur once each. */
  lemma ChunkNamesDistinct(n: nat)
    ensures Distinct(ChunkNames(n))
    ensures forall e :: e in ChunkNames(n) <==> e in ChunkNameSet(n)
  {
    var names := ChunkNames(n);
    forall i, j | 0 <= i < j < n
      ensures names[i] != names[j]
    {
      ChunkNameInjective(i, j);
    }
    forall e
      ensures e in names <==> e in ChunkNameSet(n)
    {
      if e in ChunkNameSet(n) {
        var i :| 0 <= i < n && e == ChunkName(i);
        assert names[i] == e;
      }
    }
  }

  /**
    Within the padding width, sorting restores chronological order: when the
    `.wav` entries of a listing are exactly the names of chunks `0 .. n - 1`
    and `n <= 1000`, the transcriber visits `chunk_000.wav`, `chunk_001.wav`,
    ... in chunk order.
   */
  lemma {:induction false} ChronologicalVisits(listing: seq<string>, n: nat)
    requires n <= 1000
    requires multiset(KeepWav(listing)) == multiset(ChunkNames(n))
    ensures Visits(listing) == ChunkNames(n)
  {
    ChunkNamesSorted(n);
    VisitsDetermined(listing, ChunkNames(n));
  }

  /**
    Past the padding width the same hand-off scrambles the order: with more
    than 1000 chunks the transcriber does not visit them in chunk order.
   */
  lemma {:induction false} ChronologyBreaks(listing: seq<string>, n: nat)
    requires n > 1000
    requires multiset(KeepWav(listing)) == multiset(ChunkNames(n))
    ensures Visits(listing) != ChunkNames(n)
  {
    ChunkNamesUnsorted(n);
  }

  /**
    The end-to-end promise of the two stages. The segmenter wrote `n <= 1000`
    chunks into a folder whose `.wav` entries, if any, it overwrote; then
    whatever order the folder is listed in, the transcriber visits exactly
    this run's chunks, in chronological order.
   */
  lemma SegmentThenTranscribe(dir: set<string>, dir': set<string>, n: nat, listing: seq<string>)
    requires n <= 1000
    requires forall e :: e in dir && IsWav(e) ==> e in ChunkNameSet(n)
    requires forall e :: e in dir' <==> e in dir || (ParseChunkName(e).Some? && ParseChunkName(e).value < n)
    requires IsListingOf(listing, dir')
    ensures Visits(listing) == ChunkNames(n)
  {
    forall e
      ensures e in WavEntries(dir') <==> e in ChunkNameSet(n)
    {
      ChunkNameSetMembers(n, e);
      if e in ChunkNameSet(n) {
        var i :| 0 <= i < n && e == ChunkName(i);
        ChunkNameShape(i);
      }
    }
    assert WavEntries(dir') == ChunkNameSet(n);
    ListingWavEntries(listing, dir');
    ChunkNamesDistinct(n);
    DistinctCounts(ChunkNames(n));
    assert multiset(ChunkNames(n)) == multiset(ChunkNameSet(n));
    ChronologicalVisits(listing, n);
  }

  /**
    The example line for the first chunk of the default folder, speaker
    and language, from a transcription that comes back with surrounding
    whitespace.
   */
  lemma FirstChunkLine()
    ensures FormatLine(RecordFor(Join("data/chunks", ChunkName(0)), "Kumuyi", "en", " hello world\n"))
         == "data/chunks/chunk_000.wav |Kumuyi|en|hello world\n"
  {
    StripExample();
    FirstChunkPath();
    FormatLineExample();
    assert RecordFor(Join("data/chunks", ChunkName(0)), "Kumuyi", "en", " hello world\n")
        == Record("data/chunks/chunk_000.wav", "Kumuyi", "en", "hello world");
  }
}
