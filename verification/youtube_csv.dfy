/** `YouTubeSongLoader`: the remote catalog. Each remote CSV file has a header line,
    then rows `code,title,artist,url` whose fields may be double-quoted to hide
    commas. Fetching the file list and the files over HTTP is not modelled: the
    outcome of each fetch is an input. */
module YouTubeCsv {

  import opened Wrappers
  import opened Text
  import opened Songs
  import opened SongTable

  // ---------------------------------------------------------------------------
  // parseCSVFields: the quote-aware field splitter
  // ---------------------------------------------------------------------------

  /** Splitter state after a prefix of the line: the finished fields, the field being
      built, and whether a quote is open. */
  datatype FieldScan = FieldScan(fields: seq<string>, current: string, inQuotes: bool)

  /** One character of the splitter: a quote toggles quote mode and is dropped, a
      comma outside quotes ends the field, anything else is kept. */
  function ScanStep(st: FieldScan, c: char): FieldScan {
    if c == '"' then FieldScan(st.fields, st.current, !st.inQuotes)
    else if c == ',' && !st.inQuotes then FieldScan(st.fields + [st.current], "", st.inQuotes)
    else FieldScan(st.fields, st.current + [c], st.inQuotes)
  }

  function ScanFields(line: string): FieldScan {
    if |line| == 0 then FieldScan([], "", false)
    else ScanStep(ScanFields(line[..|line| - 1]), line[|line| - 1])
  }

  /** The fields of a line: the finished ones plus the last one. */
  function Fields(line: string): seq<string> {
    var st := ScanFields(line);
    st.fields + [st.current]
  }

  /** The number of commas that are not inside quotes: a comma at index `i` is a
      separator when the quotes before it are balanced. */
  function SeparatorCount(line: string): nat {
    if |line| == 0 then 0
    else
      var p := line[..|line| - 1];
      SeparatorCount(p) + (if line[|line| - 1] == ',' && Count(p, '"') % 2 == 0 then 1 else 0)
  }

  /** Quote mode is open exactly after an odd number of quotes, and a field was
      finished for every separator comma. */
  lemma {:induction false} ScanFieldsCounts(line: string)
    ensures ScanFields(line).inQuotes <==> Count(line, '"') % 2 == 1
    ensures |ScanFields(line).fields| == SeparatorCount(line)
  {
    if |line| > 0 {
      ScanFieldsCounts(line[..|line| - 1]);
    }
  }

  /** `parseCSVFields` returns one field more than there are separator commas, so
      never zero fields. */
  lemma FieldCount(line: string)
    ensures |Fields(line)| == SeparatorCount(line) + 1
  {
    ScanFieldsCounts(line);
  }

  lemma {:induction false} ScanFieldsQuoteFree(line: string)
    ensures forall k :: 0 <= k < |ScanFields(line).fields| ==> '"' !in ScanFields(line).fields[k]
    ensures '"' !in ScanFields(line).current
  {
    if |line| > 0 {
      ScanFieldsQuoteFree(line[..|line| - 1]);
    }
  }

  /** No field holds a quote character. */
  lemma FieldsAreQuoteFree(line: string)
    ensures forall k :: 0 <= k < |Fields(line)| ==> '"' !in Fields(line)[k]
  {
    ScanFieldsQuoteFree(line);
  }

  lemma {:induction false} ScanFieldsJoin(line: string)
    ensures Join(ScanFields(line).fields + [ScanFields(line).current], ",") == Without(line, '"')
  {
    if |line| > 0 {
      var p := line[..|line| - 1];
      var c := line[|line| - 1];
      ScanFieldsJoin(p);
      var st := ScanFields(p);
      var parts := st.fields + [st.current];
      var st' := ScanFields(line);
      if c == '"' {
      } else if c == ',' && !st.inQuotes {
        JoinNewPart(parts, ",");
        assert parts + [""] == st'.fields + [st'.current];
      } else {
        JoinExtendLast(parts, ",", c);
        assert parts[..|parts| - 1] + [parts[|parts| - 1] + [c]] == st'.fields + [st'.current];
      }
    }
  }

  /** Round trip: joining the fields with commas gives the line with its quotes removed. */
  lemma FieldsJoinRoundTrip(line: string)
    ensures Join(Fields(line), ",") == Without(line, '"')
  {
    ScanFieldsJoin(line);
  }

  /** Scanning text with no quote, and no comma unless quote mode is open, only
      extends the current field. */
  lemma {:induction false} ScanPlainText(a: string, w: string)
    requires '"' !in w
    requires ScanFields(a).inQuotes || ',' !in w
    ensures ScanFields(a + w) == ScanFields(a).(current := ScanFields(a).current + w)
  {
    if |w| > 0 {
      var w' := w[..|w| - 1];
      assert (a + w)[..|a + w| - 1] == a + w';
      ScanPlainText(a, w');
      assert ScanFields(a).current + w' + [w[|w| - 1]] == ScanFields(a).current + w;
    } else {
      assert a + w == a;
    }
  }

  lemma ScanOneChar(a: string, c: char)
    ensures ScanFields(a + [c]) == ScanStep(ScanFields(a), c)
  {
    assert (a + [c])[..|a|] == a;
  }

  /** A quoted field and its closing comma close one field holding the quoted text. */
  lemma ScanQuotedField(a: string, acc: seq<string>, y: string)
    requires ScanFields(a) == FieldScan(acc, "", false)
    requires '"' !in y
    ensures ScanFields(a + ['"'] + y + ['"'] + [',']) == FieldScan(acc + [y], "", false)
  {
    var s1 := a + ['"'];
    ScanOneChar(a, '"');
    var s2 := s1 + y;
    ScanPlainText(s1, y);
    assert "" + y == y;
    var s3 := s2 + ['"'];
    ScanOneChar(s2, '"');
    ScanOneChar(s3, ',');
  }

  /** An unquoted field and its closing comma close one field holding its text. */
  lemma ScanPlainField(a: string, acc: seq<string>, z: string)
    requires ScanFields(a) == FieldScan(acc, "", false)
    requires '"' !in z && ',' !in z
    ensures ScanFields(a + z + [',']) == FieldScan(acc + [z], "", false)
  {
    ScanPlainText(a, z);
    assert "" + z == z;
    ScanOneChar(a + z, ',');
  }

  /** A four-field row whose second field is quoted: the quoted text, commas and all,
      is one field, and the quotes are gone. */
  lemma QuotedSecondField(x: string, y: string, z: string, w: string)
    requires '"' !in x && ',' !in x && '"' !in y
    requires '"' !in z && ',' !in z && '"' !in w && ',' !in w
    ensures Fields(x + [','] + ['"'] + y + ['"'] + [','] + z + [','] + w) == [x, y, z, w]
  {
    assert ScanFields([]) == FieldScan([], "", false);
    ScanPlainField([], [], x);
    assert [] + x + [','] == x + [','];
    var s1 := x + [','];
    ScanQuotedField(s1, [x], y);
    var s2 := s1 + ['"'] + y + ['"'] + [','];
    ScanPlainField(s2, [x, y], z);
    var s3 := s2 + z + [','];
    ScanPlainText(s3, w);
    assert "" + w == w;
    assert s3 + w == x + [','] + ['"'] + y + ['"'] + [','] + z + [','] + w;
  }

  /** `A1,"Smith, J.",Title,ref` has four fields and the second is `Smith, J.`. */
  lemma QuotedCommaStaysInField()
    ensures Fields("A1,\"Smith, J.\",Title,ref") == ["A1", "Smith, J.", "Title", "ref"]
  {
    var x, y, z, w := "A1", "Smith, J.", "Title", "ref";
    assert '"' !in x && ',' !in x && '"' !in y;
    assert '"' !in z && ',' !in z && '"' !in w && ',' !in w;
    QuotedSecondField(x, y, z, w);
    assert x + [','] + ['"'] + y + ['"'] + [','] + z + [','] + w == "A1,\"Smith, J.\",Title,ref";
  }

  /** `parseCSVFields`, written as the source's loop over the characters. */
  method ParseCsvFields(line: string) returns (fields: seq<string>)
    ensures fields == Fields(line)
    ensures |fields| == SeparatorCount(line) + 1
    ensures forall k :: 0 <= k < |fields| ==> '"' !in fields[k]
    ensures Join(fields, ",") == Without(line, '"')
  {
    fields := [];
    var current := "";
    var inQuotes := false;
    var i := 0;
    while i < |line|
      invariant 0 <= i <= |line|
      invariant ScanFields(line[..i]) == FieldScan(fields, current, inQuotes)
    {
      var c := line[i];
      assert line[..i + 1][..i] == line[..i];
      if c == '"' {
        inQuotes := !inQuotes;
      } else if c == ',' && !inQuotes {
        fields := fields + [current];
        current := "";
      } else {
        current := current + [c];
      }
      i := i + 1;
    }
    assert line[..i] == line;
    fields := fields + [current];
    FieldCount(line);
    FieldsAreQuoteFree(line);
    FieldsJoinRoundTrip(line);
  }

  // ---------------------------------------------------------------------------
  // parseCsvLine and parseCsv
  // ---------------------------------------------------------------------------

  /** `parseCsvLine`: at least four fields, trimmed and read as code, title, artist and
      url; a blank code or url rejects the row. */
  function ParseLine(line: string): (r: Option<Song>)
    ensures r.Some? <==>
      |Fields(line)| >= 4 && !IsBlank(Fields(line)[0]) && !IsBlank(Fields(line)[3])
    ensures r.Some? ==>
      var f := Fields(line);
      r.value == Song(Trim(f[0]), "", Trim(f[2]), Trim(f[1]), Some(Trim(f[3])))
  {
    var parts := Fields(line);
    if |parts| < 4 then None
    else
      var code := Trim(parts[0]);
      var title := Trim(parts[1]);
      var artist := Trim(parts[2]);
      var url := Trim(parts[3]);
      if IsBlank(code) || IsBlank(url) then None
      else Some(Song(code, "", artist, title, Some(url)))
  }

  /** Every song read from a remote row is a YouTube song with no local file and a
      non-empty code free of surrounding whitespace. */
  lemma ParsedRowIsRemote(line: string)
    requires ParseLine(line).Some?
    ensures IsYouTube(ParseLine(line).value)
    ensures ParseLine(line).value.filename == ""
    ensures ParseLine(line).value.code != "" && ParseLine(line).value.youtubeUrl.value != ""
    ensures !IsWhitespace(ParseLine(line).value.code[0])
  {
  }

  /** What one data line yields: nothing when blank or rejected, else its song. */
  function RowSong(line: string): Option<Song> {
    if IsBlank(line) then None else ParseLine(line)
  }

  /** The songs of a file's data lines, in order. */
  function ParsedRows(lines: seq<string>): seq<Song> {
    DataRows(lines, RowSong)
  }

  /** Line 0 never yields a song and blank lines never do: a song is read exactly
      when a non-blank line after the header parses to it. */
  lemma ParsedRowsOrigin(lines: seq<string>, s: Song)
    ensures s in ParsedRows(lines) <==>
      exists i :: 1 <= i < |lines| && !IsBlank(lines[i]) && ParseLine(lines[i]) == Some(s)
  {
    DataRowsOrigin(lines, RowSong, s);
    if exists i :: 1 <= i < |lines| && RowSong(lines[i]) == Some(s) {
      var i :| 1 <= i < |lines| && RowSong(lines[i]) == Some(s);
      assert !IsBlank(lines[i]) && ParseLine(lines[i]) == Some(s);
    }
    if exists i :: 1 <= i < |lines| && !IsBlank(lines[i]) && ParseLine(lines[i]) == Some(s) {
      var i :| 1 <= i < |lines| && !IsBlank(lines[i]) && ParseLine(lines[i]) == Some(s);
      assert RowSong(lines[i]) == Some(s);
    }
  }

  /** The header line never yields a song, whatever it holds. */
  lemma RemoteHeaderIsIgnored(lines: seq<string>, header: string)
    requires |lines| >= 1
    ensures ParsedRows(lines[0 := header]) == ParsedRows(lines)
  {
    HeaderIsIgnored(lines, RowSong, header);
  }

  /** `parseCsv(content, songsMap)`: every data row's song is put under its code. */
  function ParseCsv(content: string, table: Table): (r: Table)
    ensures UniqueCodes(table) ==> UniqueCodes(r)
    ensures Codes(r) == Codes(table) + Codes(ParsedRows(Lines(content)))
  {
    var rows := ParsedRows(Lines(content));
    PutAllCodes(table, rows);
    if UniqueCodes(table) then PutAllUnique(table, rows); PutAll(table, rows)
    else PutAll(table, rows)
  }

  /** Within one file the last row with a code wins; codes the file lacks keep their
      earlier song. */
  lemma ParseCsvLastWins(content: string, table: Table, c: string)
    ensures var rows := ParsedRows(Lines(content));
      Get(ParseCsv(content, table), c) ==
        (if LastWithCode(rows, c).Some? then LastWithCode(rows, c) else Get(table, c))
  {
    PutAllLastWins(table, ParsedRows(Lines(content)), c);
  }

  // ---------------------------------------------------------------------------
  // loadSongs
  // ---------------------------------------------------------------------------

  /** A file named by the repository listing, with the outcome of fetching it. */
  datatype RemoteFile = RemoteFile(name: string, content: Result<string>)

  /** The outcome of asking the repository for its CSV files: a list (empty when the
      API answered with an error status), or the exception thrown while asking. */
  datatype Listing = Listed(files: seq<RemoteFile>) | ListingFailed(message: Option<string>)

  const NoFilesMessage: string := "No CSV files found in YouTube songs repository"
  const NoSongsMessage: string := "No YouTube songs found"

  /** The rows of every file that was fetched, file after file; a failed fetch
      contributes nothing and does not stop the rest. */
  function AllRows(files: seq<RemoteFile>): seq<Song>
  {
    FlatMap(files, FileRows)
  }

  /** The rows of one file, none when its fetch failed. */
  function FileRows(f: RemoteFile): seq<Song> {
    if f.content.Success? then ParsedRows(Lines(f.content.value)) else []
  }

  /** The `for (filename in csvFiles)` loop: each fetched file is parsed into the one
      shared map. */
  function LoadFiles(files: seq<RemoteFile>, table: Table): (r: Table)
    ensures UniqueCodes(table) ==> UniqueCodes(r)
    ensures Codes(table) <= Codes(r)
  {
    if |files| == 0 then table
    else
      var t := LoadFiles(files[..|files| - 1], table);
      var f := files[|files| - 1];
      if f.content.Success? then ParseCsv(f.content.value, t) else t
  }

  /** Loading the files is putting all their rows, in file order, into one map. */
  lemma {:induction false} LoadFilesPutsAllRows(files: seq<RemoteFile>, table: Table)
    ensures LoadFiles(files, table) == PutAll(table, AllRows(files))
  {
    if |files| > 0 {
      var p := files[..|files| - 1];
      var f := files[|files| - 1];
      LoadFilesPutsAllRows(p, table);
      PutAllConcat(table, AllRows(p), FileRows(f));
      if f.content.Failure? {
        assert AllRows(files) == AllRows(p) + [];
      }
    }
  }

  lemma AllRowsConcat(a: seq<RemoteFile>, b: seq<RemoteFile>)
    ensures AllRows(a + b) == AllRows(a) + AllRows(b)
  {
    FlatMapConcat(a, b, FileRows);
  }

  /** A file whose fetch failed changes nothing: the result is the one obtained
      without that file. */
  lemma FailedFetchIsSkipped(a: seq<RemoteFile>, name: string, m: Option<string>, b: seq<RemoteFile>, table: Table)
    ensures LoadFiles(a + [RemoteFile(name, Failure(m))] + b, table) == LoadFiles(a + b, table)
  {
    var f := RemoteFile(name, Failure(m));
    assert AllRows([f]) == [] by {
      FlatMapSingle(f, FileRows);
    }
    assert AllRows(a + [f] + b) == AllRows(a + b) by {
      AllRowsConcat(a + [f], b);
      AllRowsConcat(a, [f]);
      AllRowsConcat(a, b);
    }
    LoadFilesPutsAllRows(a + [f] + b, table);
    LoadFilesPutsAllRows(a + b, table);
  }

  /** Loading all files from an empty table merges all their rows, last row wins. */
  lemma LoadFilesMerges(files: seq<RemoteFile>)
    ensures var t := LoadFiles(files, []); var rows := AllRows(files);
      && UniqueCodes(t)
      && Codes(t) == Codes(rows)
      && (forall c :: Get(t, c) == LastWithCode(rows, c))
      && (|t| == 0 <==> |rows| == 0)
  {
    var t := LoadFiles(files, []);
    var rows := AllRows(files);
    LoadFilesPutsAllRows(files, []);
    PutAllUnique([], rows);
    PutAllCodes([], rows);
    assert Codes([]) == {};
    assert forall c :: Get(t, c) == LastWithCode(rows, c) by {
      forall c ensures Get(t, c) == LastWithCode(rows, c) {
        PutAllLastWins([], rows, c);
      }
    }
    if |rows| > 0 {
      assert rows[0].code in Codes(rows);
    }
    if |t| > 0 {
      assert t[0].code in Codes(t);
    }
  }

  /** `loadSongs`. It fails when the listing failed, when it names no file, or when
      no row of any fetched file yields a song. On success the songs have unique
      codes, every code of every parsed row, and for each code the song of its last
      row across all files (in listing order). */
  function LoadSongs(listing: Listing): (r: Result<seq<Song>>)
    ensures listing.ListingFailed? ==> r == Failure(listing.message)
    ensures listing.Listed? && |listing.files| == 0 ==> r == Failure(Some(NoFilesMessage))
    ensures listing.Listed? && |listing.files| > 0 ==>
      (r.Success? <==> |AllRows(listing.files)| > 0)
    ensures listing.Listed? && |listing.files| > 0 && r.Failure? ==> r == Failure(Some(NoSongsMessage))
    ensures r.Success? ==>
      && |r.value| > 0
      && UniqueCodes(r.value)
      && Codes(r.value) == Codes(AllRows(listing.files))
      && forall c :: Get(r.value, c) == LastWithCode(AllRows(listing.files), c)
  {
    match listing
    case ListingFailed(m) => Failure(m)
    case Listed(files) =>
      if |files| == 0 then Failure(Some(NoFilesMessage))
      else
        var t := LoadFiles(files, []);
        LoadFilesMerges(files);
        if |t| == 0 then Failure(Some(NoSongsMessage)) else Success(t)
  }

  /** Every loaded remote song is a YouTube song. */
  lemma {:induction false} AllRowsAreRemote(files: seq<RemoteFile>)
    ensures forall s :: s in AllRows(files) ==> IsYouTube(s) && s.filename == ""
  {
    if |files| > 0 {
      AllRowsAreRemote(files[..|files| - 1]);
      var f := files[|files| - 1];
      if f.content.Success? {
        forall s | s in ParsedRows(Lines(f.content.value)) ensures IsYouTube(s) && s.filename == "" {
          ParsedRowsOrigin(Lines(f.content.value), s);
        }
      }
    }
  }

  /** A successful load yields YouTube songs only. */
  lemma LoadedSongsAreRemote(listing: Listing)
    ensures LoadSongs(listing).Success? ==>
      forall s :: s in LoadSongs(listing).value ==> IsYouTube(s) && s.filename == ""
  {
    var r := LoadSongs(listing);
    if r.Success? {
      AllRowsAreRemote(listing.files);
      forall s | s in r.value ensures IsYouTube(s) && s.filename == "" {
        StoredSongIsFound(r.value, s);
        assert Get(r.value, s.code) == LastWithCode(AllRows(listing.files), s.code);
      }
    }
  }
}
