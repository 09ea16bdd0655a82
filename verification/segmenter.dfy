/**
  The naming half of `split_audio`: chunk `i` of the recording is written as
  `chunk_{i:03d}.wav` in the output folder, for `i` running over
  `0 .. n - 1`, and `n` is returned. Decoding and slicing the audio belong to
  the audio library; only the number of chunks `n` enters the model.
 */
module Segmenter {
  import opened Wrappers
  import opened Lex
  import opened Decimal
  import opened Paths
  import opened Sorting

  /** The minimum width of the zero-padded index in a chunk name. */
  const IndexWidth: nat := 3

  /** `f"chunk_{i:03d}.wav"`. */
  function ChunkName(i: nat): string {
    "chunk_" + ZeroPadded(i, IndexWidth) + ".wav"
  }

  /**
    The inverse of `ChunkName`: the index a file name stands for, or `None`
    when the name is not one that `ChunkName` produces (wrong prefix or
    suffix, a non-digit, fewer than three digits, or more than three digits
    with a leading zero).
   */
  function ParseChunkName(s: string): Option<nat> {
    if |s| < 13 || s[..6] != "chunk_" || s[|s| - 4..] != ".wav" then None
    else
      var d := s[6..|s| - 4];
      if AllDigits(d) && (|d| == 3 || d[0] != '0') then Some(Value(d)) else None
  }

  /** Parsing a chunk name gives back exactly the index it was made from, and nothing else parses to it. */
  lemma ParseChunkNameInverse(s: string, i: nat)
    ensures ParseChunkName(s) == Some(i) <==> s == ChunkName(i)
  {
    var z := ZeroPadded(i, IndexWidth);
    var name := ChunkName(i);
    assert name[..6] == "chunk_" && name[|name| - 4..] == ".wav";
    assert name[6..|name| - 4] == z;
    if |z| > 3 {
      assert z == Digits(i);
    }
    if ParseChunkName(s) == Some(i) {
      var d := s[6..|s| - 4];
      ZeroPaddedOfValue(d, IndexWidth);
      assert s == s[..6] + d + s[|s| - 4..];
    }
  }

  /** Distinct indices give distinct file names, so no chunk of a run overwrites another. */
  lemma ChunkNameInjective(i: nat, j: nat)
    ensures ChunkName(i) == ChunkName(j) <==> i == j
  {
    ParseChunkNameInverse(ChunkName(i), i);
    ParseChunkNameInverse(ChunkName(i), j);
  }

  /**
    `{i:03d}` never truncates: the name is `chunk_`, at least three digits,
    and `.wav`, exactly thirteen characters for the first thousand indices.
   */
  lemma ChunkNameLength(i: nat)
    ensures |ChunkName(i)| >= 13
    ensures i < 1000 <==> |ChunkName(i)| == 13
  {
    DigitsLength(i, 3);
    assert Pow10(3) == 1000;
  }

  /** Chunk names end with the extension the transcriber selects and contain no path separator. */
  lemma {:induction false} ChunkNameShape(i: nat)
    ensures EndsWith(ChunkName(i), ".wav")
    ensures '/' !in ChunkName(i)
  {
    var name := ChunkName(i);
    assert name[|name| - 4..] == ".wav";
    assert forall k :: 0 <= k < |name| ==> name[k] != '/' by {
      var z := ZeroPadded(i, IndexWidth);
      assert forall k :: 0 <= k < |z| ==> IsDigit(z[k]);
      assert forall k :: 6 <= k < 6 + |z| ==> name[k] == z[k - 6];
    }
  }

  /**
    Within the padding width, the lexicographic order of chunk names is the
    chronological order of the chunks: for indices below 1000, `i < j`
    exactly when `ChunkName(i) < ChunkName(j)` as Python strings.
   */
  lemma ChunkOrder(i: nat, j: nat)
    requires i < 1000 && j < 1000
    ensures i < j <==> Less(ChunkName(i), ChunkName(j))
  {
    var zi, zj := ZeroPadded(i, IndexWidth), ZeroPadded(j, IndexWidth);
    assert Pow10(3) == 1000;
    assert ChunkName(i) == "chunk_" + (zi + ".wav");
    assert ChunkName(j) == "chunk_" + (zj + ".wav");
    LessCommonPrefix("chunk_", zi + ".wav", zj + ".wav");
    if i == j {
      LessIrreflexive(zi + ".wav");
    } else {
      ZeroPaddedWidth(i, IndexWidth);
      ZeroPaddedWidth(j, IndexWidth);
      LessEqualLengthHead(zi, zj, ".wav", ".wav");
      ZeroPaddedOrder(i, j, IndexWidth);
    }
  }

  /**
    Past the padding width the two orders part: the 1001st chunk,
    `chunk_1000.wav`, sorts before the 1000th, `chunk_999.wav`.
   */
  lemma ChunkOrderBreaksAtWidth()
    ensures Less(ChunkName(1000), ChunkName(999))
  {
    assert ZeroPadded(1000, IndexWidth) == "1000";
    assert ZeroPadded(999, IndexWidth) == "999";
    assert ChunkName(1000) == "chunk_" + "1000.wav";
    assert ChunkName(999) == "chunk_" + "999.wav";
    LessCommonPrefix("chunk_", "1000.wav", "999.wav");
  }

  /** The names of the first `n` chunks, in chunk order. */
  function ChunkNames(n: nat): (names: seq<string>)
    ensures |names| == n
    ensures forall i :: 0 <= i < n ==> names[i] == ChunkName(i)
  {
    seq(n, i requires 0 <= i => ChunkName(i))
  }

  /** The set of names a run with `n` chunks writes. */
  function ChunkNameSet(n: nat): set<string> {
    set i | 0 <= i < n :: ChunkName(i)
  }

  /** A name is written by a run of `n` chunks exactly when it parses to an index below `n`. */
  lemma ChunkNameSetMembers(n: nat, e: string)
    ensures e in ChunkNameSet(n) <==> ParseChunkName(e).Some? && ParseChunkName(e).value < n
  {
    if e in ChunkNameSet(n) {
      var i :| 0 <= i < n && e == ChunkName(i);
      ParseChunkNameInverse(e, i);
    }
    if ParseChunkName(e).Some? && ParseChunkName(e).value < n {
      ParseChunkNameInverse(e, ParseChunkName(e).value);
    }
  }

  /**
    `split_audio(input_audio, output_folder)` once the audio library has cut
    the recording into `n` chunks. `dir` is the set of entry names of the
    output folder before the run; exporting a chunk adds its name, replacing
    a file of the same name. Returns the folder afterwards, the paths
    written in order, and `len(chunks)`.
   */
  method SplitAudio(dir: set<string>, folder: string, n: nat)
      returns (dir': set<string>, written: seq<string>, count: nat)
    ensures count == n
    ensures |written| == n
    ensures forall i :: 0 <= i < n ==> written[i] == Join(folder, ChunkName(i))
    ensures forall i :: 0 <= i < n ==> ParseChunkName(BaseName(written[i])) == Some(i)
    ensures forall i, j :: 0 <= i < j < n ==> written[i] != written[j]
    ensures forall e :: e in dir' <==> e in dir || (ParseChunkName(e).Some? && ParseChunkName(e).value < n)
  {
    dir' := dir;
    written := [];
    for i := 0 to n
      invariant |written| == i
      invariant forall k :: 0 <= k < i ==> written[k] == Join(folder, ChunkName(k))
      invariant dir' == dir + ChunkNameSet(i)
    {
      var chunkName := ChunkName(i);
      var chunkPath := Join(folder, chunkName);
      written := written + [chunkPath];
      ChunkNameSetStep(i);
      dir' := dir' + {chunkName};
    }
    count := n;
    WrittenPaths(folder, written);
    DirAfterSplit(dir, n);
  }

  lemma ChunkNameSetStep(i: nat)
    ensures ChunkNameSet(i + 1) == ChunkNameSet(i) + {ChunkName(i)}
  {
  }

  /** The folder after a run holds what it held before plus exactly the names that parse to an index below `n`. */
  lemma DirAfterSplit(dir: set<string>, n: nat)
    ensures forall e :: e in dir + ChunkNameSet(n) <==> e in dir || (ParseChunkName(e).Some? && ParseChunkName(e).value < n)
  {
    forall e
      ensures e in dir + ChunkNameSet(n) <==> e in dir || (ParseChunkName(e).Some? && ParseChunkName(e).value < n)
    {
      ChunkNameSetMembers(n, e);
    }
  }

  /**
    The paths of one run are pairwise distinct, and each one's final
    component names the index of the chunk it holds.
   */
  lemma {:induction false} WrittenPaths(folder: string, written: seq<string>)
    requires forall k :: 0 <= k < |written| ==> written[k] == Join(folder, ChunkName(k))
    ensures forall i :: 0 <= i < |written| ==> ParseChunkName(BaseName(written[i])) == Some(i)
    ensures forall i, j :: 0 <= i < j < |written| ==> written[i] != written[j]
  {
    forall i | 0 <= i < |written|
      ensures ParseChunkName(BaseName(written[i])) == Some(i)
    {
      ChunkNameShape(i);
      JoinBaseName(folder, ChunkName(i));
      ParseChunkNameInverse(ChunkName(i), i);
    }
    forall i, j | 0 <= i < j < |written|
      ensures written[i] != written[j]
    {
      ChunkNameShape(i);
      ChunkNameShape(j);
      JoinInjective(folder, ChunkName(i), ChunkName(j));
      ChunkNameInjective(i, j);
    }
  }

  /** For at most 1000 chunks, their names are already in ascending string order. */
  lemma ChunkNamesSorted(n: nat)
    requires n <= 1000
    ensures Sorted(ChunkNames(n))
  {
    var names := ChunkNames(n);
    forall i, j | 0 <= i < j < n
      ensures LessEq(names[i], names[j])
    {
      ChunkOrder(i, j);
    }
  }

  /** From 1001 chunks on, their names are no longer in ascending string order. */
  lemma ChunkNamesUnsorted(n: nat)
    requires n > 1000
    ensures !Sorted(ChunkNames(n))
  {
    var names := ChunkNames(n);
    ChunkOrderBreaksAtWidth();
    LessTrichotomous(names[999], names[1000]);
    ChunkNameInjective(999, 1000);
  }

  /** The first chunk written into the default output folder. */
  lemma FirstChunkPath()
    ensures Join("data/chunks", ChunkName(0)) == "data/chunks/chunk_000.wav"
  {
    assert Digits(0) == "0";
    assert ZeroPadded(0, IndexWidth) == "000";
  }
}
