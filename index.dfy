/** The index files cars_index.txt and models_index.txt: one JSON object per
    line, as `_write_index` writes them and `_read_index` reads them. */
module Index {
  import opened Wrappers
  import opened Json
  import opened TextFiles

  /** What `json.loads` raises on a line that is not JSON */
  datatype Error = JsonDecodeError

  /** The line `_write_index` writes for one entry */
  function Line(e: Object): (r: string)
    ensures |r| > 1 && r[0] == '{' && r[|r| - 1] == '\n'
  {
    Dumps(e) + "\n"
  }

  /** The whole text of an index file after `_write_index(f, entries)`: empty
      exactly when there are no entries, and otherwise ended by a newline */
  function IndexText(entries: seq<Object>): (r: string)
    ensures r == "" <==> entries == []
    ensures entries != [] ==> r[0] == '{' && r[|r| - 1] == '\n'
  {
    if entries == [] then "" else Line(entries[0]) + IndexText(entries[1..])
  }

  lemma {:induction false} IndexTextAppend(entries: seq<Object>, e: Object)
    ensures IndexText(entries + [e]) == IndexText(entries) + Line(e)
  {
    if entries == [] {
      assert entries + [e] == [e];
    } else {
      assert (entries + [e])[1..] == entries[1..] + [e];
      IndexTextAppend(entries[1..], e);
    }
  }

  /** The text after writing the first i + 1 entries */
  lemma IndexTextPrefix(entries: seq<Object>, i: nat)
    requires i < |entries|
    ensures IndexText(entries[..i + 1]) == IndexText(entries[..i]) + Line(entries[i])
  {
    assert entries[..i + 1] == entries[..i] + [entries[i]];
    IndexTextAppend(entries[..i], entries[i]);
  }

  /** `[json.loads(line) for line in lines]`: the first bad line raises */
  function DecodeLines(lines: seq<string>): (r: Result<seq<Object>, Error>)
    ensures r.Ok? ==> |r.value| == |lines|
    ensures r.Ok? ==> forall i :: 0 <= i < |r.value| ==> DistinctKeys(r.value[i])
  {
    if lines == [] then Ok([])
    else
      match Loads(lines[0])
      case None => Err(JsonDecodeError)
      case Some(e) =>
        match DecodeLines(lines[1..])
        case Err(err) => Err(err)
        case Ok(es) => Ok([e] + es)
  }

  /** The index reads exactly when every one of its lines is a JSON object */
  lemma {:induction false} DecodeLinesOk(lines: seq<string>)
    ensures DecodeLines(lines).Ok? <==> forall i :: 0 <= i < |lines| ==> Loads(lines[i]).Some?
  {
    if lines != [] {
      DecodeLinesOk(lines[1..]);
      assert forall i :: 1 <= i < |lines| ==> lines[i] == lines[1..][i - 1];
    }
  }

  /** `_read_index`: a missing file has no entries; otherwise every line of
      the file, read in text mode, is decoded as one entry */
  function ReadIndex(file: Option<string>): (r: Result<seq<Object>, Error>)
    ensures file.None? ==> r == Ok([])
    ensures file == Some("") ==> r == Ok([])
    ensures file.Some? && r.Ok? ==> |r.value| == |Lines(Translate(file.value))|
    ensures r.Ok? ==> forall i :: 0 <= i < |r.value| ==> DistinctKeys(r.value[i])
  {
    match file
    case None => Ok([])
    case Some(text) => DecodeLines(Lines(Translate(text)))
  }

  lemma NoNewlineInDumps(e: Object)
    ensures '\n' !in Dumps(e) && '\r' !in Dumps(e)
  {
    var d := Dumps(e);
    assert forall i :: 0 <= i < |d| ==> ' ' <= d[i] <= '~';
  }

  /** The lines `_write_index` writes, one per entry, in order */
  function IndexLines(entries: seq<Object>): (ls: seq<string>)
    ensures |ls| == |entries|
    ensures forall i :: 0 <= i < |entries| ==> ls[i] == Line(entries[i])
  {
    if entries == [] then [] else [Line(entries[0])] + IndexLines(entries[1..])
  }

  /** Reading back an index file cuts it into exactly the lines written */
  lemma {:induction false} LinesOfIndexText(entries: seq<Object>)
    ensures Lines(IndexText(entries)) == IndexLines(entries)
  {
    if entries != [] {
      NoNewlineInDumps(entries[0]);
      LinesCons(Dumps(entries[0]), IndexText(entries[1..]));
      LinesOfIndexText(entries[1..]);
    }
  }

  /** The text of an index file has no carriage return, so reading it in
      text mode translates nothing */
  lemma {:induction false} TranslateIndexText(entries: seq<Object>)
    ensures Translate(IndexText(entries)) == IndexText(entries)
  {
    if entries != [] {
      NoNewlineInDumps(entries[0]);
      TranslatePrefix(Line(entries[0]), IndexText(entries[1..]));
      TranslateIndexText(entries[1..]);
    }
  }

  lemma DecodeLinesCons(lines: seq<string>, e: Object, es: seq<Object>)
    requires lines != [] && Loads(lines[0]) == Some(e) && DecodeLines(lines[1..]) == Ok(es)
    ensures DecodeLines(lines) == Ok([e] + es)
  {
  }

  lemma {:induction false} DecodeIndexLines(entries: seq<Object>)
    requires forall i :: 0 <= i < |entries| ==> DistinctKeys(entries[i])
    ensures DecodeLines(IndexLines(entries)) == Ok(entries)
  {
    if entries != [] {
      var lines := IndexLines(entries);
      assert lines[1..] == IndexLines(entries[1..]);
      LoadsDumps(entries[0]);
      DecodeIndexLines(entries[1..]);
      DecodeLinesCons(lines, entries[0], entries[1..]);
      assert [entries[0]] + entries[1..] == entries;
    }
  }

  /** Writing an index and reading it back gives the same entries in the
      same order */
  lemma ReadWriteIndex(entries: seq<Object>)
    requires forall i :: 0 <= i < |entries| ==> DistinctKeys(entries[i])
    ensures ReadIndex(Some(IndexText(entries))) == Ok(entries)
  {
    TranslateIndexText(entries);
    LinesOfIndexText(entries);
    DecodeIndexLines(entries);
  }
}
