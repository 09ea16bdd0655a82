/**
  The metadata file the transcriber writes: one line per transcribed chunk,
  `PATH |SPEAKER|LANG|TEXT` followed by a newline. Note the single space
  before the first `|` and none before the others. The parser below is the
  inverse of the renderer and shows that each field is recoverable.
 */
module Metadata {
  import opened Wrappers

  /** One transcription record: the chunk's path, the speaker label, the language code and the text. */
  datatype Record = Record(path: string, speaker: string, language: string, text: string)

  /** `f"{file_path} |{speaker_name}|{language_code}|{transcription}\n"`. */
  function FormatLine(r: Record): string {
    r.path + " |" + r.speaker + "|" + r.language + "|" + r.text + "\n"
  }

  /** The rendered line grouped the way the parser takes it apart. */
  lemma FormatLineShape(r: Record)
    ensures FormatLine(r) == (r.path + " ") + ['|'] + (r.speaker + ['|'] + (r.language + ['|'] + r.text)) + ['\n']
  {
    var t := r.language + ['|'] + r.text;
    var m := r.speaker + ['|'] + t;
    var a := r.path + " |";
    assert a == (r.path + " ") + ['|'];
    assert a + r.speaker + "|" == a + (r.speaker + ['|']);
    assert a + r.speaker + "|" + r.language == a + (r.speaker + ['|'] + r.language);
    assert a + r.speaker + "|" + r.language + "|" == a + (r.speaker + ['|'] + r.language + ['|']);
    assert r.speaker + ['|'] + r.language + ['|'] + r.text == m;
    assert a + r.speaker + "|" + r.language + "|" + r.text == a + m;
  }

  /** The fields that come before a `|` in a line cannot contain one themselves. */
  predicate Delimitable(r: Record) {
    '|' !in r.path && '|' !in r.speaker && '|' !in r.language
  }

  /** Splits `s` at the first occurrence of `c`; `None` if `c` does not occur. */
  function SplitAt(s: string, c: char): (r: Option<(string, string)>)
    ensures r.None? <==> c !in s
    ensures r.Some? ==> c !in r.value.0 && s == r.value.0 + [c] + r.value.1
  {
    if |s| == 0 then None
    else if s[0] == c then
      assert s == [] + [c] + s[1..];
      Some(([], s[1..]))
    else
      match SplitAt(s[1..], c)
      case None => None
      case Some((a, b)) =>
        assert s == [s[0]] + s[1..];
        Some(([s[0]] + a, b))
  }

  /** When `c` does not occur in `a`, splitting `a + [c] + b` at `c` gives back `a` and `b`. */
  lemma {:induction false} SplitAtFirst(a: string, c: char, b: string)
    requires c !in a
    ensures SplitAt(a + [c] + b, c) == Some((a, b))
    decreases |a|
  {
    var s := a + [c] + b;
    if |a| > 0 {
      assert s[0] == a[0] && s[1..] == a[1..] + [c] + b;
      assert a[0] in a;
      assert a == [a[0]] + a[1..];
      SplitAtFirst(a[1..], c, b);
    } else {
      assert s[1..] == b;
    }
  }

  /**
    Reads one metadata line back into a record: the line must end in a
    newline, the first field must end in the single space, and the text is
    everything after the third `|`.
   */
  function ParseLine(line: string): Option<Record> {
    if |line| == 0 || line[|line| - 1] != '\n' then None
    else
      var s1 := SplitAt(line[..|line| - 1], '|');
      if s1.None? then None
      else
        var first := s1.value.0;
        if |first| == 0 || first[|first| - 1] != ' ' then None
        else
          var s2 := SplitAt(s1.value.1, '|');
          if s2.None? then None
          else
            var s3 := SplitAt(s2.value.1, '|');
            if s3.None? then None
            else Some(Record(first[..|first| - 1], s2.value.0, s3.value.0, s3.value.1))
  }

  /** Rendering a record whose leading fields contain no `|` and parsing the line gives the record back. */
  lemma ParseFormatLine(r: Record)
    requires Delimitable(r)
    ensures ParseLine(FormatLine(r)) == Some(r)
  {
    var line := FormatLine(r);
    var first := r.path + " ";
    var rest' := r.language + "|" + r.text;
    var rest := r.speaker + "|" + rest';
    assert line[..|line| - 1] == first + ['|'] + rest;
    assert '|' !in first;
    SplitAtFirst(first, '|', rest);
    assert rest == r.speaker + ['|'] + rest';
    SplitAtFirst(r.speaker, '|', rest');
    assert rest' == r.language + ['|'] + r.text;
    SplitAtFirst(r.language, '|', r.text);
    assert first[..|first| - 1] == r.path;
  }

  /** Every line the parser accepts is the rendering of the record it returns. */
  lemma {:induction false} FormatParseLine(line: string)
    requires ParseLine(line).Some?
    ensures Delimitable(ParseLine(line).value)
    ensures FormatLine(ParseLine(line).value) == line
  {
    var body := line[..|line| - 1];
    var s1 := SplitAt(body, '|');
    var first, rest := s1.value.0, s1.value.1;
    var s2 := SplitAt(rest, '|');
    var speaker, rest' := s2.value.0, s2.value.1;
    var s3 := SplitAt(rest', '|');
    var language, text := s3.value.0, s3.value.1;
    var path := first[..|first| - 1];
    assert ParseLine(line) == Some(Record(path, speaker, language, text));
    assert first == path + " ";
    assert '|' !in path by {
      assert forall k :: 0 <= k < |path| ==> path[k] == first[k];
    }
    assert line == body + "\n";
    FormatLineShape(Record(path, speaker, language, text));
  }

  /**
    A line is accepted by the parser exactly when it is the rendering of a
    record whose leading fields contain no `|`, and the parser then returns
    that record.
   */
  lemma {:induction false} ParseLineInverse(line: string, r: Record)
    ensures ParseLine(line) == Some(r) <==> Delimitable(r) && line == FormatLine(r)
  {
    if Delimitable(r) && line == FormatLine(r) {
      ParseFormatLine(r);
    }
    if ParseLine(line) == Some(r) {
      FormatParseLine(line);
    }
  }

  /** The file's content: the rendered records, in order. */
  function Document(records: seq<Record>): string {
    if |records| == 0 then ""
    else Document(records[..|records| - 1]) + FormatLine(records[|records| - 1])
  }

  lemma {:induction false} DocumentCons(r: Record, records: seq<Record>)
    ensures Document([r] + records) == FormatLine(r) + Document(records)
    decreases |records|
  {
    if |records| > 0 {
      var last := records[|records| - 1];
      assert ([r] + records)[..|records|] == [r] + records[..|records| - 1];
      DocumentCons(r, records[..|records| - 1]);
    } else {
      assert Document([r]) == Document([]) + FormatLine(r);
    }
  }

  /** Appending a record appends its line to the file content. */
  lemma {:induction false} DocumentSnoc(records: seq<Record>, r: Record)
    ensures Document(records + [r]) == Document(records) + FormatLine(r)
  {
    assert (records + [r])[..|records|] == records;
  }

  /** A record that renders as exactly one line and can be read back. */
  predicate Writable(r: Record) {
    Delimitable(r) && '\n' !in r.path && '\n' !in r.speaker && '\n' !in r.language && '\n' !in r.text
  }

  /** Reads a whole metadata file back into its records, one per newline-terminated line. */
  function ParseDocument(s: string): Option<seq<Record>>
    decreases |s|
  {
    if |s| == 0 then Some([])
    else
      match SplitAt(s, '\n')
      case None => None
      case Some((line, rest)) =>
        match ParseLine(line + "\n")
        case None => None
        case Some(r) =>
          match ParseDocument(rest)
          case None => None
          case Some(records) => Some([r] + records)
  }

  /**
    The file holds one line per record and nothing else: reading it back
    gives exactly the records written, in the order written.
   */
  lemma {:induction false} ParseDocumentInverse(records: seq<Record>)
    requires forall k :: 0 <= k < |records| ==> Writable(records[k])
    ensures ParseDocument(Document(records)) == Some(records)
    decreases |records|
  {
    if |records| > 0 {
      var r := records[0];
      var tail := records[1..];
      assert records == [r] + tail;
      DocumentCons(r, tail);
      var body := r.path + " |" + r.speaker + "|" + r.language + "|" + r.text;
      assert FormatLine(r) == body + "\n";
      assert '\n' !in body;
      assert Document(records) == body + ['\n'] + Document(tail);
      SplitAtFirst(body, '\n', Document(tail));
      ParseLineInverse(body + "\n", r);
      ParseDocumentInverse(tail);
    }
  }

  /** An example rendering, with its single space before the first `|`. */
  lemma FormatLineExample()
    ensures FormatLine(Record("data/chunks/chunk_000.wav", "Kumuyi", "en", "hello world"))
         == "data/chunks/chunk_000.wav |Kumuyi|en|hello world\n"
  {
  }
}
