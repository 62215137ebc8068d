/** `CsvSongReader`: the catalog files that sit next to the videos, one row per song
    in the form `code,filename,artist,title,lyrics_preview`, split at every comma
    with no quoting. Files are read in directory order into one map keyed by code,
    so the last row with a code wins. */
module LocalCsv {

  import opened Wrappers
  import opened Text
  import opened Songs
  import opened SongTable
  import opened FileSystem

  // ---------------------------------------------------------------------------
  // parseCsvLine
  // ---------------------------------------------------------------------------

  /** `parseCsvLine`: blank lines and lines with fewer than four fields give nothing;
      so do rows whose code or filename is blank once trimmed. The fifth and later
      fields are ignored. */
  function ParseLine(line: string): (r: Option<Song>)
    ensures r.Some? <==>
      |Split(line, ',')| >= 4 && !IsBlank(Split(line, ',')[0]) && !IsBlank(Split(line, ',')[1])
    ensures r.Some? ==>
      var p := Split(line, ',');
      |p| >= 4 && r.value == LocalSong(Trim(p[0]), Trim(p[1]), Trim(p[2]), Trim(p[3]))
  {
    SplitCount(line, ',');
    CommaLineIsNotBlank(line);
    if IsBlank(line) then None
    else
      var parts := Split(line, ',');
      if |parts| < 4 then None
      else
        var code := Trim(parts[0]);
        var filename := Trim(parts[1]);
        var artist := Trim(parts[2]);
        var title := Trim(parts[3]);
        TrimKeepsBlankness(parts[0]);
        TrimKeepsBlankness(parts[1]);
        if IsBlank(code) || IsBlank(filename) then None
        else Some(LocalSong(code, filename, artist, title))
  }

  /** A line holding a comma is not blank, so the blank-line check never rejects a
      line the field count would accept. */
  lemma CommaLineIsNotBlank(line: string)
    ensures Count(line, ',') > 0 ==> !IsBlank(line)
  {
    if Count(line, ',') > 0 {
      CountedCharOccurs(line, ',');
      var i :| 0 <= i < |line| && line[i] == ',';
      assert !IsWhitespace(line[i]);
    }
  }

  /** Every song read from a local row is a local song whose fields are free of
      commas and of surrounding whitespace, with a non-empty code and filename. */
  lemma {:induction false} ParsedRowIsLocal(line: string)
    requires ParseLine(line).Some?
    ensures var s := ParseLine(line).value;
      && !IsYouTube(s) && s.code != "" && s.filename != ""
      && ',' !in s.code && ',' !in s.filename && ',' !in s.artist && ',' !in s.title
  {
    var p := Split(line, ',');
    SplitPartsAreClean(line, ',');
    SplitCount(line, ',');
    forall k | 0 <= k < 4 ensures ',' !in Trim(p[k]) {
      var a, b := TrimIsSlice(p[k]);
      assert ',' !in p[k];
      assert forall i :: a <= i < b ==> p[k][a..b][i - a] == p[k][i];
    }
  }

  /** Fields after the fourth do not matter: appending one changes nothing. */
  lemma ExtraFieldIsIgnored(line: string, extra: string)
    requires Count(line, ',') >= 3
    ensures ParseLine(line + [','] + extra) == ParseLine(line)
  {
    SplitConcat(line, extra, ',');
    SplitCount(line, ',');
    var p := Split(line, ',');
    var q := Split(line + [','] + extra, ',');
    assert q == p + Split(extra, ',');
    assert q[0] == p[0] && q[1] == p[1] && q[2] == p[2] && q[3] == p[3];
    SplitCount(line + [','] + extra, ',');
  }

  /** A field as the row format can carry it: no comma, no surrounding whitespace. */
  predicate IsCleanField(f: string) {
    ',' !in f && Trim(f) == f
  }

  /** Writing a local song as a row, with any lyrics preview, and reading the row
      back gives the song again: the format round-trips every song whose fields are
      clean and whose code and filename are not empty. */
  lemma RowRoundTrip(s: Song, lyrics: string)
    requires !IsYouTube(s)
    requires IsCleanField(s.code) && IsCleanField(s.filename)
    requires IsCleanField(s.artist) && IsCleanField(s.title) && ',' !in lyrics
    requires s.code != "" && s.filename != ""
    ensures ParseLine(Join([s.code, s.filename, s.artist, s.title, lyrics], ",")) == Some(s)
  {
    var parts := [s.code, s.filename, s.artist, s.title, lyrics];
    var line := Join(parts, ",");
    JoinSplitRoundTrip(parts, ',');
    assert Split(line, ',') == parts;
    SplitCount(line, ',');
    TrimKeepsBlankness(s.code);
    TrimKeepsBlankness(s.filename);
  }

  // ---------------------------------------------------------------------------
  // parseCsv
  // ---------------------------------------------------------------------------

  /** The songs of a file's data lines, in order. */
  function ParsedRows(lines: seq<string>): seq<Song> {
    DataRows(lines, ParseLine)
  }

  /** A song is read exactly when a line after the header parses to it. */
  lemma ParsedRowsOrigin(lines: seq<string>, s: Song)
    ensures s in ParsedRows(lines) <==> exists i :: 1 <= i < |lines| && ParseLine(lines[i]) == Some(s)
  {
    DataRowsOrigin(lines, ParseLine, s);
  }

  /** The header line never yields a song, whatever it holds. */
  lemma LocalHeaderIsIgnored(lines: seq<string>, header: string)
    requires |lines| >= 1
    ensures ParsedRows(lines[0 := header]) == ParsedRows(lines)
  {
    HeaderIsIgnored(lines, ParseLine, header);
  }

  /** `BufferedReader` lines and `lines()` yield the same songs: they differ only in
      a final empty line, which parses to nothing. */
  lemma ReaderLinesYieldSameRows(text: string)
    ensures ParsedRows(ReaderLines(text)) == ParsedRows(Lines(text))
  {
    var r := ReaderLines(text);
    if r != Lines(text) {
      assert ParseLine("") == None;
      assert (r + [""])[..|r|] == r;
    }
  }

  /** `parseCsv(reader, songsMap)` over a file's text. */
  function ParseCsv(text: string, table: Table): (r: Table)
    ensures UniqueCodes(table) ==> UniqueCodes(r)
    ensures Codes(r) == Codes(table) + Codes(ParsedRows(Lines(text)))
  {
    var rows := ParsedRows(ReaderLines(text));
    ReaderLinesYieldSameRows(text);
    PutAllCodes(table, rows);
    if UniqueCodes(table) then PutAllUnique(table, rows); PutAll(table, rows)
    else PutAll(table, rows)
  }

  // ---------------------------------------------------------------------------
  // Reading a sequence of files into one map
  // ---------------------------------------------------------------------------

  /** What reading one file gives: nothing to read (the content resolver returned
      no stream), a failure with the exception's message, or the text. */
  datatype Outcome = Skipped | Failed(message: Option<string>) | Read(text: string)

  /** The rows of one file, none unless it was read. */
  function OutcomeRows(o: Outcome): seq<Song> {
    if o.Read? then ParsedRows(ReaderLines(o.text)) else []
  }

  /** The rows of every file, file after file. */
  function AllRows(os: seq<Outcome>): seq<Song> {
    FlatMap(os, OutcomeRows)
  }

  /** Position of the first file whose reading failed. */
  function FirstFailure(os: seq<Outcome>, from: nat): (r: Option<nat>)
    ensures r.Some? ==> from <= r.value < |os| && os[r.value].Failed?
    ensures r.Some? ==> forall j :: from <= j < r.value ==> !os[j].Failed?
    ensures r.None? ==> forall j :: from <= j < |os| ==> !os[j].Failed?
    decreases |os| - from
  {
    if from >= |os| then None
    else if os[from].Failed? then Some(from)
    else FirstFailure(os, from + 1)
  }

  lemma FirstFailureIs(os: seq<Outcome>, i: nat)
    requires i < |os| && os[i].Failed?
    requires forall j :: 0 <= j < i ==> !os[j].Failed?
    ensures FirstFailure(os, 0) == Some(i)
  {
  }

  /** One iteration of the `for` loop over the files: a read file is parsed into the
      shared map, and a failure ends the whole read (the enclosing `try` catches it). */
  function ReadStep(prev: Result<Table>, o: Outcome): Result<Table> {
    match prev
    case Failure(m) => Failure(m)
    case Success(t) =>
      match o
      case Skipped => Success(t)
      case Failed(m) => Failure(m)
      case Read(text) => Success(ParseCsv(text, t))
  }

  /** The whole loop, starting from `table`. */
  function ReadAll(os: seq<Outcome>, table: Table): Result<Table>
  {
    if |os| == 0 then Success(table)
    else ReadStep(ReadAll(os[..|os| - 1], table), os[|os| - 1])
  }

  /** A file that did not fail adds its rows to the map. */
  lemma ReadStepPutsRows(t: Table, o: Outcome)
    requires !o.Failed?
    ensures ReadStep(Success(t), o) == Success(PutAll(t, OutcomeRows(o)))
  {
  }

  /** The first failing file decides the outcome, whatever the files after it hold;
      with no failure the map holds every row of every file, put in file order. */
  lemma {:induction false} ReadAllMeaning(os: seq<Outcome>, table: Table)
    ensures FirstFailure(os, 0).Some? ==> ReadAll(os, table) == Failure(os[FirstFailure(os, 0).value].message)
    ensures FirstFailure(os, 0).None? ==> ReadAll(os, table) == Success(PutAll(table, AllRows(os)))
  {
    if |os| > 0 {
      var init := os[..|os| - 1];
      var last := os[|os| - 1];
      ReadAllMeaning(init, table);
      var f := FirstFailure(init, 0);
      if f.Some? {
        assert os[f.value] == init[f.value];
        FirstFailureIs(os, f.value);
        ReadStepKeepsFailure(ReadAll(init, table), last);
      } else if last.Failed? {
        FirstFailureIs(os, |os| - 1);
        ReadStepFails(ReadAll(init, table), last);
      } else {
        NoFailureSnoc(os);
        ReadAllLastStep(os, table);
      }
    }
  }

  /** Once the read has failed, later files change nothing. */
  lemma ReadStepKeepsFailure(prev: Result<Table>, o: Outcome)
    requires prev.Failure?
    ensures ReadStep(prev, o) == prev
  {
  }

  /** A failing file fails a read that had not failed yet, with its message. */
  lemma ReadStepFails(prev: Result<Table>, o: Outcome)
    requires prev.Success? && o.Failed?
    ensures ReadStep(prev, o) == Failure(o.message)
  {
  }

  /** The step of `ReadAllMeaning` where neither the earlier files nor the last one
      failed. */
  lemma ReadAllLastStep(os: seq<Outcome>, table: Table)
    requires |os| > 0 && !os[|os| - 1].Failed?
    requires ReadAll(os[..|os| - 1], table) == Success(PutAll(table, AllRows(os[..|os| - 1])))
    ensures ReadAll(os, table) == Success(PutAll(table, AllRows(os)))
  {
    var init := os[..|os| - 1];
    var last := os[|os| - 1];
    var t := PutAll(table, AllRows(init));
    ReadStepPutsRows(t, last);
    assert ReadAll(os, table) == Success(PutAll(t, OutcomeRows(last)));
    assert AllRows(os) == AllRows(init) + OutcomeRows(last);
    PutAllConcat(table, AllRows(init), OutcomeRows(last));
  }

  lemma NoFailureSnoc(os: seq<Outcome>)
    requires |os| > 0 && !os[|os| - 1].Failed?
    requires FirstFailure(os[..|os| - 1], 0).None?
    ensures FirstFailure(os, 0).None?
  {
    assert forall j :: 0 <= j < |os| - 1 ==> os[j] == os[..|os| - 1][j];
  }

  /** The songs of a successful read: unique codes, every code of every row, and
      for each code the song of its last row across the files. */
  ghost predicate IsMergeOf(t: Table, rows: seq<Song>) {
    && UniqueCodes(t)
    && Codes(t) == Codes(rows)
    && forall c :: Get(t, c) == LastWithCode(rows, c)
  }

  /** Putting rows into an empty map merges them, and gives nothing exactly when
      there are no rows. */
  lemma MergeRows(rows: seq<Song>)
    ensures IsMergeOf(PutAll([], rows), rows)
    ensures |PutAll([], rows)| == 0 <==> |rows| == 0
  {
    var t := PutAll([], rows);
    PutAllUnique([], rows);
    PutAllCodes([], rows);
    assert Codes([]) == {};
    forall c ensures Get(t, c) == LastWithCode(rows, c) {
      PutAllLastWins([], rows, c);
    }
    if |rows| > 0 {
      assert rows[0].code in Codes(rows);
    }
    if |t| > 0 {
      assert t[0].code in Codes(t);
    }
  }

  /** Every song read from local files is a local song. */
  lemma {:induction false} AllRowsAreLocal(os: seq<Outcome>)
    ensures forall s :: s in AllRows(os) ==> !IsYouTube(s) && s.filename != ""
  {
    if |os| > 0 {
      AllRowsAreLocal(os[..|os| - 1]);
      var o := os[|os| - 1];
      if o.Read? {
        forall s | s in ParsedRows(ReaderLines(o.text)) ensures !IsYouTube(s) && s.filename != "" {
          ParsedRowsOrigin(ReaderLines(o.text), s);
          var i :| 1 <= i < |ReaderLines(o.text)| && ParseLine(ReaderLines(o.text)[i]) == Some(s);
          ParsedRowIsLocal(ReaderLines(o.text)[i]);
        }
      }
    }
  }

  /** Merging local rows gives local songs only. */
  lemma MergeIsLocal(rows: seq<Song>)
    requires forall s :: s in rows ==> !IsYouTube(s)
    ensures forall s :: s in PutAll([], rows) ==> !IsYouTube(s)
  {
    var t := PutAll([], rows);
    PutAllUnique([], rows);
    forall s | s in t ensures !IsYouTube(s) {
      StoredSongIsFound(t, s);
      PutAllLastWins([], rows, s.code);
    }
  }

  /** The part both readers share once they have their list of files: read them all
      into an empty map, fail with `emptyMessage` when no song was read. */
  function ReadFiles(os: seq<Outcome>, emptyMessage: string): (r: Result<seq<Song>>)
    ensures FirstFailure(os, 0).Some? ==> r == Failure(os[FirstFailure(os, 0).value].message)
    ensures FirstFailure(os, 0).None? ==>
      && (r.Success? <==> |AllRows(os)| > 0)
      && (r.Failure? ==> r == Failure(Some(emptyMessage)))
      && (r.Success? ==> IsMergeOf(r.value, AllRows(os)))
    ensures r.Success? ==> |r.value| > 0 && UniqueCodes(r.value) && forall s :: s in r.value ==> !IsYouTube(s)
  {
    ReadAllMeaning(os, []);
    MergeRows(AllRows(os));
    AllRowsAreLocal(os);
    MergeIsLocal(AllRows(os));
    match ReadAll(os, [])
    case Failure(m) => Failure(m)
    case Success(t) => if |t| == 0 then Failure(Some(emptyMessage)) else Success(t)
  }

  // ---------------------------------------------------------------------------
  // readFromDirectory
  // ---------------------------------------------------------------------------

  /** `file.extension.equals("csv", ignoreCase = true)`. */
  predicate IsCsvFile(e: FileEntry) {
    EqualsIgnoreCase(Extension(e.name), "csv")
  }

  /** The CSV entries `listFiles` returns; none when the directory cannot be listed. */
  function CsvFiles(dir: Folder): seq<FileEntry> {
    match ListFiles(dir)
    case None => []
    case Some(entries) => Filter(entries, IsCsvFile)
  }

  /** Reading a file gives its text or the exception's message. */
  function EntryOutcome(e: FileEntry): Outcome {
    match e.content
    case Success(text) => Read(text)
    case Failure(m) => Failed(m)
  }

  function EntryOutcomes(files: seq<FileEntry>): (r: seq<Outcome>)
    ensures |r| == |files|
    ensures forall i :: 0 <= i < |files| ==> r[i] == EntryOutcome(files[i])
  {
    seq(|files|, i requires 0 <= i < |files| => EntryOutcome(files[i]))
  }

  function NoCsvInDirectoryMessage(dir: Folder): string {
    "No CSV files found in " + dir.path
  }

  /** `readFromDirectory(directory)`. A CSV file that cannot be read fails the whole
      read with its message. Otherwise the read fails exactly when the CSV files
      hold no song (there are none, or they hold only headers and rejected rows),
      with a message naming the directory; on success the songs are the merge of
      every row of every CSV file in listing order, and all are local. */
  function ReadFromDirectory(dir: Folder): (r: Result<seq<Song>>)
    ensures var files := CsvFiles(dir); var os := EntryOutcomes(files);
      FirstFailure(os, 0).Some? ==> r == Failure(files[FirstFailure(os, 0).value].content.message)
    ensures var os := EntryOutcomes(CsvFiles(dir));
      FirstFailure(os, 0).None? ==>
        && (r.Success? <==> |AllRows(os)| > 0)
        && (r.Failure? ==> r == Failure(Some(NoCsvInDirectoryMessage(dir))))
        && (r.Success? ==> IsMergeOf(r.value, AllRows(os)))
    ensures r.Success? ==> |r.value| > 0 && UniqueCodes(r.value) && forall s :: s in r.value ==> !IsYouTube(s)
  {
    ReadFiles(EntryOutcomes(CsvFiles(dir)), NoCsvInDirectoryMessage(dir))
  }

  // ---------------------------------------------------------------------------
  // readFromDocumentFolder
  // ---------------------------------------------------------------------------

  const CannotAccessMessage: string := "Cannot access folder"
  const NoCsvInFolderMessage: string := "No CSV files found in selected folder"
  const NoSongsInFolderMessage: string := "No songs found in CSV files"

  /** `it.name?.endsWith(".csv", ignoreCase = true) == true`: a nameless document
      is not a CSV file. */
  predicate IsCsvDocument(d: Document) {
    d.name.Some? && EndsWithIgnoreCase(d.name.value, ".csv")
  }

  /** Opening a document gives no stream (it is skipped), an exception, or its text. */
  function DocOutcome(d: Document): Outcome {
    match d.content
    case Unopenable => Skipped
    case ReadFailed(m) => Failed(m)
    case Readable(text) => Read(text)
  }

  function DocOutcomes(docs: seq<Document>): (r: seq<Outcome>)
    ensures |r| == |docs|
    ensures forall i :: 0 <= i < |docs| ==> r[i] == DocOutcome(docs[i])
  {
    seq(|docs|, i requires 0 <= i < |docs| => DocOutcome(docs[i]))
  }

  /** `readFromDocumentFolder(folderUri)`, given what `DocumentFile.fromTreeUri`
      returns for the URI. An inaccessible tree and a tree without CSV documents
      fail with their own messages; a document that throws while being read fails
      the whole read with its message; a document that cannot be opened is
      skipped. Otherwise the read fails exactly when no row yields a song, and on
      success the songs are the merge of every row in listing order. */
  function ReadFromDocumentFolder(tree: Option<Document>): (r: Result<seq<Song>>)
    ensures tree.None? ==> r == Failure(Some(CannotAccessMessage))
    ensures tree.Some? && |Filter(tree.value.children, IsCsvDocument)| == 0 ==>
      r == Failure(Some(NoCsvInFolderMessage))
    ensures tree.Some? ==>
      var docs := Filter(tree.value.children, IsCsvDocument);
      var os := DocOutcomes(docs);
      |docs| > 0 && FirstFailure(os, 0).Some? ==>
        r == Failure(docs[FirstFailure(os, 0).value].content.message)
    ensures tree.Some? ==>
      var os := DocOutcomes(Filter(tree.value.children, IsCsvDocument));
      |os| > 0 && FirstFailure(os, 0).None? ==>
        && (r.Success? <==> |AllRows(os)| > 0)
        && (r.Failure? ==> r == Failure(Some(NoSongsInFolderMessage)))
        && (r.Success? ==> IsMergeOf(r.value, AllRows(os)))
    ensures r.Success? ==> |r.value| > 0 && UniqueCodes(r.value) && forall s :: s in r.value ==> !IsYouTube(s)
  {
    match tree
    case None => Failure(Some(CannotAccessMessage))
    case Some(root) =>
      var docs := Filter(root.children, IsCsvDocument);
      if |docs| == 0 then Failure(Some(NoCsvInFolderMessage))
      else ReadDocuments(docs)
  }

  /** The loop over the CSV documents of the tree, and the final emptiness check. */
  function ReadDocuments(docs: seq<Document>): (r: Result<seq<Song>>)
    ensures var os := DocOutcomes(docs);
      FirstFailure(os, 0).Some? ==> r == Failure(docs[FirstFailure(os, 0).value].content.message)
    ensures var os := DocOutcomes(docs);
      FirstFailure(os, 0).None? ==>
        && (r.Success? <==> |AllRows(os)| > 0)
        && (r.Failure? ==> r == Failure(Some(NoSongsInFolderMessage)))
        && (r.Success? ==> IsMergeOf(r.value, AllRows(os)))
    ensures r.Success? ==> |r.value| > 0 && UniqueCodes(r.value) && forall s :: s in r.value ==> !IsYouTube(s)
  {
    ReadFiles(DocOutcomes(docs), NoSongsInFolderMessage)
  }

  // ---------------------------------------------------------------------------
  // The two readers select the same files
  // ---------------------------------------------------------------------------

  lemma LowerCharIsDot(c: char)
    ensures LowerChar(c) == '.' <==> c == '.'
  {
  }

  /** A name whose extension is "csv" in any case ends in ".csv" in any case. */
  lemma CsvExtensionEndsWithCsv(name: string)
    requires EqualsIgnoreCase(Extension(name), "csv")
    ensures EndsWithIgnoreCase(name, ".csv")
  {
    var n := |name|;
    var x := Extension(name);
    assert |Lower(x)| == 3;
    assert name == name[..n - 4] + "." + x;
    assert name[n - 4..] == "." + x;
    DotCsvLower(x);
  }

  lemma DotCsvLower(x: string)
    requires Lower(x) == "csv"
    ensures Lower("." + x) == ".csv"
  {
    var lt := Lower("." + x);
    assert lt[0] == LowerChar('.') == '.';
    assert lt[1] == LowerChar(x[0]) == Lower(x)[0] == 'c';
    assert lt[2] == LowerChar(x[1]) == Lower(x)[1] == 's';
    assert lt[3] == LowerChar(x[2]) == Lower(x)[2] == 'v';
  }

  /** A name ending in ".csv" in any case has extension "csv" in that case. */
  lemma EndsWithCsvHasCsvExtension(name: string)
    requires EndsWithIgnoreCase(name, ".csv")
    ensures EqualsIgnoreCase(Extension(name), "csv")
  {
    var n := |name|;
    var tail := name[n - 4..];
    var lt := Lower(tail);
    assert lt == ".csv";
    LowerCharIsDot(tail[0]);
    LowerCharIsDot(tail[1]);
    LowerCharIsDot(tail[2]);
    LowerCharIsDot(tail[3]);
    assert name[n - 4] == '.' && name[n - 3] != '.' && name[n - 2] != '.' && name[n - 1] != '.';
    var i := LastIndexOf(name, '.').value;
    assert i == n - 4;
    var x := Extension(name);
    assert x == tail[1..];
    var lx := Lower(x);
    assert lx[0] == lt[1] && lx[1] == lt[2] && lx[2] == lt[3];
    assert lx == "csv";
  }

  /** A file name has extension "csv" (ignoring case) exactly when it ends in ".csv"
      (ignoring case): the directory reader and the document reader pick the same
      names. */
  lemma CsvFiltersAgree(name: string)
    ensures EqualsIgnoreCase(Extension(name), "csv") <==> EndsWithIgnoreCase(name, ".csv")
  {
    if EqualsIgnoreCase(Extension(name), "csv") {
      CsvExtensionEndsWithCsv(name);
    }
    if EndsWithIgnoreCase(name, ".csv") {
      EndsWithCsvHasCsvExtension(name);
    }
  }
}
