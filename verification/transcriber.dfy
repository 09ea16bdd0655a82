/**
  `transcribe_audio_chunks`: load the speech-recognition model, truncate the
  metadata file, then visit the output folder's entries in sorted order,
  keep those ending in `.wav`, transcribe each and write its metadata line.
  The directory listing, the model's availability and its per-file output
  are parameters of the model.
 */
module Transcriber {
  import opened Wrappers
  import opened Lex
  import opened Sorting
  import opened Paths
  import opened Whitespace
  import opened Metadata

  /** The suffix that selects the entries to transcribe. */
  const WavSuffix := ".wav"

  predicate IsWav(name: string) {
    EndsWith(name, WavSuffix)
  }

  /**
    The entries ending in `.wav`, in their original order: each one is kept
    exactly as often as it occurs, every other entry is dropped.
   */
  function KeepWav(entries: seq<string>): (r: seq<string>)
    ensures forall k :: 0 <= k < |r| ==> IsWav(r[k])
  {
    if |entries| == 0 then []
    else
      var last := entries[|entries| - 1];
      KeepWav(entries[..|entries| - 1]) + (if IsWav(last) then [last] else [])
  }

  /** Each `.wav` entry is kept exactly as often as it occurs; every other entry is dropped. */
  lemma {:induction false} KeepWavCounts(entries: seq<string>)
    ensures forall e :: multiset(KeepWav(entries))[e] == if IsWav(e) then multiset(entries)[e] else 0
    decreases |entries|
  {
    if |entries| > 0 {
      var init := entries[..|entries| - 1];
      var last := entries[|entries| - 1];
      assert entries == init + [last];
      KeepWavCounts(init);
    }
  }

  /** Filtering keeps the relative order, so a sorted listing stays sorted. */
  lemma {:induction false} KeepWavSorted(entries: seq<string>)
    requires Sorted(entries)
    ensures Sorted(KeepWav(entries))
    decreases |entries|
  {
    if |entries| > 0 {
      var init := entries[..|entries| - 1];
      var last := entries[|entries| - 1];
      KeepWavSorted(init);
      KeepWavCounts(init);
      var kept := KeepWav(init);
      if IsWav(last) {
        forall e | e in kept
          ensures LessEq(e, last)
        {
          assert e in multiset(kept);
          assert e in init;
        }
        SortedAppend(kept, last);
      }
    }
  }

  /** Extending the listing by one entry extends the kept entries by at most that entry. */
  lemma KeepWavStep(entries: seq<string>, i: nat)
    requires i < |entries|
    ensures KeepWav(entries[..i + 1]) == KeepWav(entries[..i]) + (if IsWav(entries[i]) then [entries[i]] else [])
  {
    assert entries[..i + 1][..i] == entries[..i];
  }

  /** Filtering a prefix of the listing gives a prefix of the filtered listing. */
  lemma {:induction false} KeepWavPrefix(entries: seq<string>, i: nat)
    requires i <= |entries|
    ensures KeepWav(entries[..i]) <= KeepWav(entries)
    decreases |entries|
  {
    if i < |entries| {
      var init := entries[..|entries| - 1];
      assert init[..i] == entries[..i];
      KeepWavPrefix(init, i);
      var a, b := KeepWav(entries[..i]), KeepWav(init);
      var c := if IsWav(entries[|entries| - 1]) then [entries[|entries| - 1]] else [];
      assert (b + c)[..|a|] == b[..|a|];
    } else {
      assert entries[..i] == entries;
    }
  }

  /**
    The entry names the loop visits, in the order it visits them:
    `sorted(os.listdir(output_folder))` filtered to `.wav`. They are exactly
    the `.wav` entries of the listing, each once per occurrence, in
    ascending string order, whatever order the listing came in.
   */
  function Visits(listing: seq<string>): (r: seq<string>)
    ensures Sorted(r)
    ensures multiset(r) == multiset(KeepWav(listing))
    ensures forall k :: 0 <= k < |r| ==> IsWav(r[k])
  {
    var sorted := Sort(listing);
    KeepWavSorted(sorted);
    KeepWavCounts(sorted);
    KeepWavCounts(listing);
    var r := KeepWav(sorted);
    assert forall e :: multiset(r)[e] == multiset(KeepWav(listing))[e];
    r
  }

  /** The only order a list of `.wav` entries can be visited in is the sorted one. */
  lemma {:induction false} VisitsDetermined(listing: seq<string>, order: seq<string>)
    requires Sorted(order) && multiset(order) == multiset(KeepWav(listing))
    ensures Visits(listing) == order
  {
    SortedUnique(Visits(listing), order);
  }

  /** How a run ends. */
  datatype Status =
    | Completed
      /** `whisper.load_model` failed; this happens before the metadata file is opened. */
    | ModelLoadFailed
      /** `model.transcribe` failed on this file; the run stops there. */
    | TranscriptionFailed(path: string)

  /** The record written for a chunk whose transcription came back as `raw`. */
  function RecordFor(path: string, speaker: string, language: string, raw: string): Record {
    Record(path, speaker, language, Strip(raw))
  }

  /**
    `record` is what the loop writes for `entry`: the entry joined to the
    folder, whose transcription succeeded, with that transcription stripped.
   */
  ghost predicate RecordOf(folder: string, entry: string, transcribe: string -> Option<string>,
                           speaker: string, language: string, record: Record)
  {
    var path := Join(folder, entry);
    transcribe(path).Some? && record == RecordFor(path, speaker, language, transcribe(path).value)
  }

  /** `records` holds, in order, the records for the first `|records|` of `entries`. */
  ghost predicate RecordsFollow(folder: string, entries: seq<string>, transcribe: string -> Option<string>,
                                speaker: string, language: string, records: seq<Record>)
  {
    && |records| <= |entries|
    && forall k :: 0 <= k < |records| ==> RecordOf(folder, entries[k], transcribe, speaker, language, records[k])
  }

  lemma {:induction false} RecordsFollowSnoc(folder: string, entries: seq<string>, transcribe: string -> Option<string>,
                          speaker: string, language: string, records: seq<Record>, record: Record)
    requires RecordsFollow(folder, entries, transcribe, speaker, language, records)
    requires |records| < |entries| && RecordOf(folder, entries[|records|], transcribe, speaker, language, record)
    ensures RecordsFollow(folder, entries, transcribe, speaker, language, records + [record])
  {
    var extended := records + [record];
    forall k | 0 <= k < |extended|
      ensures RecordOf(folder, entries[k], transcribe, speaker, language, extended[k])
    {
      if k < |records| {
        assert extended[k] == records[k];
      }
    }
  }

  /** Every visited entry is an entry of the listing. */
  lemma VisitsFromListing(listing: seq<string>)
    ensures forall e :: e in Visits(listing) ==> e in listing
  {
    KeepWavCounts(listing);
    forall e | e in Visits(listing)
      ensures e in listing
    {
      assert e in multiset(Visits(listing));
      assert multiset(listing)[e] > 0;
    }
  }

  /**
    What the written lines look like as a whole, for entry names without
    `'/'` (as every name `os.listdir` returns is): line k's path ends in the
    k-th visited entry, so the lines are in ascending order of the entry
    names they came from, and no text field begins or ends with whitespace.
   */
  lemma RecordsAscending(folder: string, listing: seq<string>, transcribe: string -> Option<string>,
                         speaker: string, language: string, records: seq<Record>)
    requires forall e :: e in listing ==> '/' !in e
    requires RecordsFollow(folder, Visits(listing), transcribe, speaker, language, records)
    ensures forall k :: 0 <= k < |records| ==> BaseName(records[k].path) == Visits(listing)[k]
    ensures forall i, j :: 0 <= i < j < |records| ==> LessEq(BaseName(records[i].path), BaseName(records[j].path))
    ensures forall k :: 0 <= k < |records| ==> NoOuterSpace(records[k].text)
  {
    var visits := Visits(listing);
    VisitsFromListing(listing);
    forall k | 0 <= k < |records|
      ensures BaseName(records[k].path) == visits[k]
      ensures NoOuterSpace(records[k].text)
    {
      assert RecordOf(folder, visits[k], transcribe, speaker, language, records[k]);
      assert visits[k] in listing;
      JoinBaseName(folder, visits[k]);
      StripSpec(transcribe(Join(folder, visits[k])).value);
    }
  }

  /**
    The loop of `transcribe_audio_chunks` over an already sorted listing
    `entries`, writing into the freshly truncated metadata file. Returns the
    file's content, the records written, and the path whose transcription
    raised, if one did.
   */
  method TranscribeEntries(folder: string, entries: seq<string>, transcribe: string -> Option<string>,
                           speaker: string, language: string)
      returns (file: string, records: seq<Record>, failed: Option<string>)
    // The file holds exactly the lines of the records written.
    ensures file == Document(records)
    // The k-th line belongs to the k-th `.wav` entry, joined to the folder, with the stripped text.
    ensures RecordsFollow(folder, KeepWav(entries), transcribe, speaker, language, records)
    // Without a failure every `.wav` entry gets its line.
    ensures failed.None? <==> |records| == |KeepWav(entries)|
    // A failure names the `.wav` entry right after the last line written, joined to the folder.
    ensures failed.Some? ==> |records| < |KeepWav(entries)|
    ensures failed.Some? && |records| < |KeepWav(entries)| ==>
      failed.value == Join(folder, KeepWav(entries)[|records|])
    ensures failed.Some? ==> transcribe(failed.value).None?
  {
    file := "";
    records := [];
    ghost var kept := KeepWav(entries);
    for i := 0 to |entries|
      invariant KeepWav(entries[..i]) <= kept
      invariant |records| == |KeepWav(entries[..i])|
      invariant RecordsFollow(folder, kept, transcribe, speaker, language, records)
      invariant file == Document(records)
    {
      var audioFile := entries[i];
      KeepWavStep(entries, i);
      KeepWavPrefix(entries, i + 1);
      if IsWav(audioFile) {
        assert kept[|records|] == audioFile;
        var filePath := Join(folder, audioFile);
        var result := transcribe(filePath);
        if result.None? {
          return file, records, Some(filePath);
        }
        var record := RecordFor(filePath, speaker, language, result.value);
        RecordsFollowSnoc(folder, kept, transcribe, speaker, language, records, record);
        DocumentSnoc(records, record);
        file := file + FormatLine(record);
        records := records + [record];
      }
    }
    assert entries[..|entries|] == entries;
    failed := None;
  }

  /**
    `transcribe_audio_chunks(output_folder, metadata_file, speaker_name,
    language_code)`. `listing` is `os.listdir(output_folder)`, `prior` the
    metadata file's content before the run, `modelLoaded` whether
    `whisper.load_model` succeeds, and `transcribe(path)` the text the model
    returns for a file, `None` when it raises. Returns the metadata file's
    content afterwards, the records it holds, and how the run ended.
   */
  method TranscribeAudioChunks(folder: string, listing: seq<string>, modelLoaded: bool,
                               transcribe: string -> Option<string>,
                               speaker: string, language: string, prior: string)
      returns (file: string, records: seq<Record>, status: Status)
    // A failed model load leaves the file as it was.
    ensures !modelLoaded ==> status == ModelLoadFailed && file == prior && records == []
    // Otherwise the file was truncated: it holds this run's lines and nothing else.
    ensures modelLoaded ==> status != ModelLoadFailed && file == Document(records)
    // The k-th line belongs to the k-th visited entry, joined to the folder, with the stripped text.
    ensures RecordsFollow(folder, Visits(listing), transcribe, speaker, language, records)
    // A complete run writes one line per `.wav` entry.
    ensures status == Completed <==> modelLoaded && |records| == |Visits(listing)|
    // A failed transcription stops the run at the first entry whose transcription fails:
    // the entry right after the last line written, joined to the folder.
    ensures status.TranscriptionFailed? ==> |records| < |Visits(listing)|
    ensures status.TranscriptionFailed? && |records| < |Visits(listing)| ==>
      status.path == Join(folder, Visits(listing)[|records|])
    ensures status.TranscriptionFailed? ==> transcribe(status.path).None?
  {
    if !modelLoaded {
      return prior, [], ModelLoadFailed;
    }
    var sorted := Sort(listing);
    var failed;
    file, records, failed := TranscribeEntries(folder, sorted, transcribe, speaker, language);
    status := if failed.Some? then TranscriptionFailed(failed.value) else Completed;
  }
}
