# UtaBox song catalog, modelled in Dafny

UtaBox is an Android karaoke app. Its catalog logic is modelled here:
- **Song**: the record for one song. It is local (a video file) or remote (a YouTube URL).
- **CsvSongReader**: reads the local catalog, CSV files from the test folder, a USB stick or a folder the user picked.
- **YouTubeSongLoader**: reads the remote catalog, CSV files in a GitHub repository whose fields may be quoted.
- **SongRepository**: `reload` merges the two catalogs, with local songs winning on a shared code. `searchSongs` runs the prioritised search: code prefix, then title, then artist, at most 200 results.
- **VideoStorageHelper**: decides where videos and the local catalog come from.
- **LookupReport**: the load summary.
- **Routes**: builds the route to the player screen, including extraction of the YouTube video id.

Every module is a set of pure functions over immutable datatypes:

| file | module | models |
|---|---|---|
| wrappers.dfy | `Wrappers` | Kotlin nullable values (`Option`) and `kotlin.Result`. A failure keeps the exception's nullable `message`. Also `listOfNotNull`, `filter`, first-non-null search. |
| text.dfy | `Text` | The string operations the code uses: `isBlank`, `trim`, `startsWith`, `contains`, `lowercase`, diacritic stripping, `split(",")`, `lines()`, `BufferedReader` lines, `joinToString`, `compareTo`. |
| ordering.dfy | `Ordering` | `sortedWith(compareBy(first, second))` as a stable insertion sort. |
| songs.dfy | `Songs` | `Song.kt` and the search keys derived from a song. |
| song_table.dfy | `SongTable` | The `MutableMap<String, Song>` keyed by code. Kotlin's default map is a `LinkedHashMap`, so it is modelled as a list with one song per code: a later `put` replaces a song in place. It also holds the "skip the header, put every row" shape the two CSV readers share. |
| youtube_csv.dfy | `YouTubeCsv` | The quote-aware field splitter, the row parser, `parseCsv` and `loadSongs`. The outcome of the listing and of each fetch is an input. |
| local_csv.dfy | `LocalCsv` | The plain comma row parser, `parseCsv`, `readFromDirectory` and `readFromDocumentFolder`. |
| files.dfy | `FileSystem` | Directories and documents as values, with the text reading them yields. |
| storage.dfy | `VideoStorage` | The source-selection functions of `VideoStorageHelper`. Each is a pure function of an `Environment` holding what the device would answer. |
| repository.dfy | `SongRepository` | `searchSongs` as a method with the source's loop and early `break`, with its functional specification. `reload` as a function of the storage environment and the YouTube listing. |
| lookup_report.dfy | `LookupReports` | `LookupReport`, `SourceReport` and `CsvFileReport`, with 32-bit `Int` arithmetic. |
| navigation.dfy | `Routes` | `playerRoute` and `extractYouTubeVideoId`: the four regular expressions as a leftmost-match model, and `URLEncoder.encode` as a UTF-8 percent encoding. |

Points where the code fixes details a reader might expect otherwise:
- **Remote field order.** Remote rows are read as `code,title,artist,url`. This is the order the comment at `YouTubeSongLoader.kt:105` gives and the order in which `parseCsvLine` indexes the fields.
- **Local quoting.** Local rows are split on every comma, with no quote handling (`CsvSongReader.kt`, `parseCsvLine`). Only the remote reader honours quotes.
- **Short rows.** A row with fewer than four fields is dropped in both formats.
- **Early stop.** The comments at `SongRepository.kt:38` and `SongRepository.kt:52` present the loop's `break` as stopping early once there are enough results. The result equals ranking every match and then truncating only below 200 matches (`SearchAgreesBelowLimit`); see "## Findings".
- **`reload` result.** `reload` returns the error text, as `SongRepository.kt` declares. It does not return a `LookupReport`.
- **Search keys.** `Song.kt` does not define the keys the search uses. `Songs` defines them as the lowercase code, and the lowercase, diacritic-stripped title and artist.

## Model

Paths are relative to the repository root.

| member | source | states |
|---|---|---|
| `Songs.LocalSong` | app/src/main/java/com/vhiroki/utabox/data/Song.kt:3-10 | A song built from the four string fields, with `youtubeUrl` left at its default, keeps those fields and is not a YouTube song. |
| `Songs.IsYouTube` | app/src/main/java/com/vhiroki/utabox/data/Song.kt:8-10 | A song is not a YouTube song exactly when it is the song with the same fields and a null `youtubeUrl`. |
| `SongTable.Put` | app/src/main/java/com/vhiroki/utabox/data/CsvSongReader.kt:102 | `map[code] = song`. Looking up that code gives the new song; every other code's lookup is unchanged; the codes gain this one; codes stay unique; an existing code keeps its position, and a new code is appended. |
| `SongTable.GetIsMembership` | app/src/main/java/com/vhiroki/utabox/data/CsvSongReader.kt:102 | Looking up a code succeeds exactly for stored codes, and returns a stored song with that code. |
| `SongTable.StoredSongIsFound` | app/src/main/java/com/vhiroki/utabox/data/CsvSongReader.kt:102 | With unique codes, looking up a stored song's code returns that song. |
| `SongTable.LastWithCode` | app/src/main/java/com/vhiroki/utabox/data/CsvSongReader.kt:13 | The reference meaning of "the last occurrence wins". It finds nothing exactly when no song has the code. Otherwise it returns a listed song with that code, and no later song in the list has that code. |
| `SongTable.LastWithCodeSnoc` | app/src/main/java/com/vhiroki/utabox/data/CsvSongReader.kt:13 | Appending a song with another code keeps the last song with the code the last one. |
| `SongTable.PutAllLastWins` | app/src/main/java/com/vhiroki/utabox/data/CsvSongReader.kt:86-105 | After putting a list of songs, each code holds the last song of the list with that code, or its earlier song when the list has none. |
| `SongTable.PutAllCodes` | app/src/main/java/com/vhiroki/utabox/data/CsvSongReader.kt:86-105 | Putting songs leaves exactly the old codes plus every code put. |
| `SongTable.PutAllOrder` | app/src/main/java/com/vhiroki/utabox/data/CsvSongReader.kt:86-105 | Insertion order of a `LinkedHashMap`: after putting songs, the old codes keep their positions. The new codes follow, in the order they first appear. |
| `SongTable.PutAllOrderFromEmpty` | app/src/main/java/com/vhiroki/utabox/data/SongRepository.kt:106-108 | `associateBy` on an empty map: the codes come out in first-appearance order. |
| `SongTable.FirstAppearancesOrder` | app/src/main/java/com/vhiroki/utabox/data/SongRepository.kt:106-108 | The reference order holds exactly the new codes of the list, each once. It is strictly increasing in the index where each code first appears. |
| `SongTable.PutAllUnique` | app/src/main/java/com/vhiroki/utabox/data/CsvSongReader.kt:24 | Putting keeps codes unique. |
| `SongTable.PutAllConcat` | app/src/main/java/com/vhiroki/utabox/data/CsvSongReader.kt:30-34 | Putting the rows of one file and then the next equals putting all the rows at once: the files share one map. |
| `SongTable.GetPermutation` | app/src/main/java/com/vhiroki/utabox/data/SongRepository.kt:108-109 | Reordering a catalog with unique codes changes no lookup. |
| `SongTable.UniqueCodesPermutation` | app/src/main/java/com/vhiroki/utabox/data/SongRepository.kt:108-109 | Reordering a catalog with unique codes keeps the codes unique. |
| `SongTable.DataRowsOrigin` | app/src/main/java/com/vhiroki/utabox/data/CsvSongReader.kt:90-105 | A song is read exactly when some line at index 1 or later yields it. |
| `SongTable.HeaderIsIgnored` | app/src/main/java/com/vhiroki/utabox/data/CsvSongReader.kt:91-98 | Replacing the first line with anything changes no row read. |
| `Text.Trim` | app/src/main/java/com/vhiroki/utabox/data/CsvSongReader.kt:117-120 | `trim()`. The result is empty exactly for blank text; otherwise it neither starts nor ends with whitespace. |
| `Text.TrimIsSlice` | app/src/main/java/com/vhiroki/utabox/data/CsvSongReader.kt:117-120 | The trimmed text is a slice of the input, and everything outside the slice is whitespace. |
| `Text.ContainsIsOccurrence` | app/src/main/java/com/vhiroki/utabox/data/SongRepository.kt:47-49 | `contains` holds exactly when the query occurs at some index. |
| `Text.Lower` | app/src/main/java/com/vhiroki/utabox/data/SongRepository.kt:35 | `lowercase()` keeps the length and maps each character. |
| `Text.RemoveDiacritics` | app/src/main/java/com/vhiroki/utabox/data/SongRepository.kt:35 | Diacritic stripping never lengthens the text and leaves no combining mark. |
| `Text.RemoveDiacriticsKeepsAscii` | app/src/main/java/com/vhiroki/utabox/data/SongRepository.kt:35 | ASCII text is left unchanged by diacritic stripping. |
| `Text.SplitCount` | app/src/main/java/com/vhiroki/utabox/data/CsvSongReader.kt:114 | `split(",")` yields one part more than there are commas. |
| `Text.Split` | app/src/main/java/com/vhiroki/utabox/data/CsvSongReader.kt:114 | `split(",")` never returns an empty list, even for empty text. |
| `Text.SplitPartsAreClean` | app/src/main/java/com/vhiroki/utabox/data/CsvSongReader.kt:114 | No part of a split holds the delimiter. |
| `Text.SplitJoinRoundTrip` | app/src/main/java/com/vhiroki/utabox/data/CsvSongReader.kt:114 | Joining the parts with the delimiter gives the line back. |
| `Text.JoinSplitRoundTrip` | app/src/main/java/com/vhiroki/utabox/data/CsvSongReader.kt:114 | Splitting joined parts that hold no delimiter gives the parts back. |
| `Text.SplitConcat` | app/src/main/java/com/vhiroki/utabox/data/CsvSongReader.kt:114 | Splitting at one delimiter splits the two sides independently. |
| `Text.LinesJoinRoundTrip` | app/src/main/java/com/vhiroki/utabox/data/YouTubeSongLoader.kt:109 | For text without CR, joining `lines()` with LF gives the text back. |
| `Text.Lines` | app/src/main/java/com/vhiroki/utabox/data/YouTubeSongLoader.kt:109 | `lines()` never returns an empty list: the text after the last terminator is always a line. |
| `Text.LinesHaveNoTerminators` | app/src/main/java/com/vhiroki/utabox/data/YouTubeSongLoader.kt:109 | No line holds a line terminator. |
| `Text.ReaderLines` | app/src/main/java/com/vhiroki/utabox/data/CsvSongReader.kt:93 | `BufferedReader` lines are those of `lines()` without its final empty line exactly when the text is empty or ends in a line terminator. Otherwise they are all the lines of `lines()`. |
| `Text.ScanLinesCurrent` | app/src/main/java/com/vhiroki/utabox/data/CsvSongReader.kt:93 | The line being read is empty exactly when the text so far is empty or ends in a terminator, and it is always empty right after a CR. |
| `Text.LastIndexOf` | app/src/main/java/com/vhiroki/utabox/util/VideoStorageHelper.kt:141 | Finds nothing exactly when the character is absent; otherwise the position holds the character and no later one does. |
| `Text.LexLeTotal` | app/src/main/java/com/vhiroki/utabox/data/SongRepository.kt:109 | `compareTo` orders any two strings. |
| `Text.LexLeAntisym` | app/src/main/java/com/vhiroki/utabox/data/SongRepository.kt:109 | Two strings each no greater than the other are equal. |
| `Text.LexLeTrans` | app/src/main/java/com/vhiroki/utabox/data/SongRepository.kt:109 | The string order is transitive. |
| `Text.LexLeIsCodeUnitOrder` | app/src/main/java/com/vhiroki/utabox/data/SongRepository.kt:109 | Comparing one character at a time by `Utf16Rank` is the same as comparing the UTF-16 code unit sequences lexicographically, which is what `String.compareTo` does. |
| `Text.CharUnits` | app/src/main/java/com/vhiroki/utabox/data/SongRepository.kt:109 | A character below U+10000 is one code unit. Any other character is a high surrogate followed by a low surrogate that together encode its value. |
| `Text.DifferentCharsDecide` | app/src/main/java/com/vhiroki/utabox/data/SongRepository.kt:109 | The first pair of different characters decides the code unit comparison, whatever follows, in the order of their ranks. |
| `Text.UnitsLeCancel` | app/src/main/java/com/vhiroki/utabox/data/SongRepository.kt:109 | A common prefix of code units does not affect the comparison. |
| `Text.CodeUnitOrderIsNotScalarOrder` | app/src/main/java/com/vhiroki/utabox/data/SongRepository.kt:109 | U+FF21 sorts after U+1F600 under `compareTo`, although its scalar value is smaller. |
| `Ordering.SortBy` | app/src/main/java/com/vhiroki/utabox/data/SongRepository.kt:60-62 | `sortedWith(compareBy(...))`: the result is a sorted permutation of the input, and elements with equal keys keep their relative order (a stable sort). |
| `Ordering.Insert` | app/src/main/java/com/vhiroki/utabox/data/SongRepository.kt:109 | One insertion step keeps the list sorted, adds exactly the element, and keeps equal keys in order. |
| `Wrappers.NotNulls` | app/src/main/java/com/vhiroki/utabox/data/SongRepository.kt:115 | `listOfNotNull` keeps exactly the present values. |
| `Wrappers.Filter` | app/src/main/java/com/vhiroki/utabox/data/CsvSongReader.kt:56-58 | `filter` keeps exactly the elements satisfying the predicate. |
| `Wrappers.NotNullsSingle` | app/src/main/java/com/vhiroki/utabox/data/SongRepository.kt:115 | `listOfNotNull` of one value is that value when it is present, and nothing when it is null. |
| `Wrappers.NotNullsConcat` | app/src/main/java/com/vhiroki/utabox/data/SongRepository.kt:115 | `listOfNotNull` of two lists joined is the two results joined, so the order of the values is kept. |
| `Wrappers.FilterSingle` | app/src/main/java/com/vhiroki/utabox/data/CsvSongReader.kt:56-58 | `filter` of one element keeps it exactly when the predicate holds. |
| `Wrappers.FilterConcat` | app/src/main/java/com/vhiroki/utabox/data/CsvSongReader.kt:56-58 | `filter` of two lists joined is the two results joined, so listing order is kept. |
| `Wrappers.FirstSome` | app/src/main/java/com/vhiroki/utabox/util/VideoStorageHelper.kt:154-171 | The first present value: it is present, and everything before it is absent. |
| `YouTubeCsv.ParseCsvFields` | app/src/main/java/com/vhiroki/utabox/data/YouTubeSongLoader.kt:151-169 | The character loop of `parseCSVFields`. It yields one field more than there are commas outside quotes, so never zero fields. No field holds a quote. Joining the fields with commas gives the line with its quotes removed. |
| `YouTubeCsv.ScanFieldsCounts` | app/src/main/java/com/vhiroki/utabox/data/YouTubeSongLoader.kt:156-165 | Quote mode is open exactly after an odd number of quotes, and one field is finished per separator comma. |
| `YouTubeCsv.FieldCount` | app/src/main/java/com/vhiroki/utabox/data/YouTubeSongLoader.kt:151-169 | The number of fields is one more than the number of commas outside quotes. |
| `YouTubeCsv.FieldsAreQuoteFree` | app/src/main/java/com/vhiroki/utabox/data/YouTubeSongLoader.kt:158 | No field holds a double quote. |
| `YouTubeCsv.FieldsJoinRoundTrip` | app/src/main/java/com/vhiroki/utabox/data/YouTubeSongLoader.kt:156-166 | Joining the fields with commas gives the line with every quote removed. |
| `YouTubeCsv.QuotedSecondField` | app/src/main/java/com/vhiroki/utabox/data/YouTubeSongLoader.kt:126-129 | A quoted second field keeps its commas and loses its quotes, so the row still has four fields. |
| `YouTubeCsv.ScanQuotedField` | app/src/main/java/com/vhiroki/utabox/data/YouTubeSongLoader.kt:156-164 | After a closed field, a quoted run without quotes followed by a comma closes one more field that holds exactly the quoted text. Quote mode is off again afterwards. |
| `YouTubeCsv.ScanPlainField` | app/src/main/java/com/vhiroki/utabox/data/YouTubeSongLoader.kt:156-164 | After a closed field, a run without quotes or commas followed by a comma closes one more field that holds exactly that run. |
| `YouTubeCsv.QuotedCommaStaysInField` | app/src/main/java/com/vhiroki/utabox/data/YouTubeSongLoader.kt:126-129 | `A1,"Smith, J.",Title,ref` has the four fields `A1`, `Smith, J.`, `Title` and `ref`. |
| `YouTubeCsv.ParseLine` | app/src/main/java/com/vhiroki/utabox/data/YouTubeSongLoader.kt:128-146 | A row yields a song exactly when it has at least four fields and neither the trimmed code nor the trimmed url is blank. The trimmed fields are read as code, title, artist and url, with an empty filename. |
| `YouTubeCsv.ParsedRowIsRemote` | app/src/main/java/com/vhiroki/utabox/data/YouTubeSongLoader.kt:139-145 | Every parsed remote song is a YouTube song with no filename, a non-empty code and a non-empty url. |
| `YouTubeCsv.ParsedRowsOrigin` | app/src/main/java/com/vhiroki/utabox/data/YouTubeSongLoader.kt:111-120 | A song is read exactly when a non-blank line at index 1 or later parses to it. |
| `YouTubeCsv.RemoteHeaderIsIgnored` | app/src/main/java/com/vhiroki/utabox/data/YouTubeSongLoader.kt:113 | Line 0 never matters, whatever it holds. |
| `YouTubeCsv.ParseCsvLastWins` | app/src/main/java/com/vhiroki/utabox/data/YouTubeSongLoader.kt:117-119 | Within one file, a code holds its last row's song; codes the file lacks keep their earlier song. |
| `YouTubeCsv.ParseCsv` | app/src/main/java/com/vhiroki/utabox/data/YouTubeSongLoader.kt:108-121 | `parseCsv` keeps the map's codes unique. Its codes become the old codes plus the code of every parsed row of `lines()`. |
| `YouTubeCsv.LoadFilesPutsAllRows` | app/src/main/java/com/vhiroki/utabox/data/YouTubeSongLoader.kt:35-43 | The fetch loop puts every row of every fetched file into one map, in listing order. |
| `YouTubeCsv.LoadFiles` | app/src/main/java/com/vhiroki/utabox/data/YouTubeSongLoader.kt:35-43 | The fetch loop keeps codes unique and never loses a code already in the map. |
| `YouTubeCsv.FailedFetchIsSkipped` | app/src/main/java/com/vhiroki/utabox/data/YouTubeSongLoader.kt:36-42 | A file whose fetch failed changes nothing, and the later files are still read. |
| `YouTubeCsv.LoadSongs` | app/src/main/java/com/vhiroki/utabox/data/YouTubeSongLoader.kt:23-53 | `loadSongs`. A failed listing fails with its message. An empty listing fails with "No CSV files found…". Otherwise the load succeeds exactly when some row yields a song, and fails with "No YouTube songs found" when none does. On success, codes are unique and are exactly the parsed codes, and each code holds its last row across all files. |
| `YouTubeCsv.LoadFilesMerges` | app/src/main/java/com/vhiroki/utabox/data/YouTubeSongLoader.kt:32-45 | The map filled file by file holds unique codes, exactly the codes of all parsed rows, and for each code the last row across all files. It is empty exactly when no row was parsed. |
| `YouTubeCsv.LoadedSongsAreRemote` | app/src/main/java/com/vhiroki/utabox/data/YouTubeSongLoader.kt:139-145 | A successful load yields YouTube songs only. |
| `LocalCsv.ParseLine` | app/src/main/java/com/vhiroki/utabox/data/CsvSongReader.kt:111-131 | A row yields a song exactly when splitting at every comma gives at least four parts and the trimmed code and filename are not blank. The song holds the four trimmed parts as code, filename, artist and title, with no URL. |
| `LocalCsv.CommaLineIsNotBlank` | app/src/main/java/com/vhiroki/utabox/data/CsvSongReader.kt:112-115 | A line with a comma is not blank, so the blank check drops only lines the part count would drop anyway. |
| `LocalCsv.ParsedRowIsLocal` | app/src/main/java/com/vhiroki/utabox/data/CsvSongReader.kt:117-130 | A parsed local song is not a YouTube song, has a non-empty code and filename, and holds no comma in any field. |
| `LocalCsv.ExtraFieldIsIgnored` | app/src/main/java/com/vhiroki/utabox/data/CsvSongReader.kt:121 | Appending a field after the fourth changes nothing. |
| `LocalCsv.RowRoundTrip` | app/src/main/java/com/vhiroki/utabox/data/CsvSongReader.kt:109-131 | Writing a clean local song as a row `code,filename,artist,title,lyrics` and parsing the row gives the song back. |
| `LocalCsv.ParsedRowsOrigin` | app/src/main/java/com/vhiroki/utabox/data/CsvSongReader.kt:90-105 | A song is read exactly when a line after the header parses to it. |
| `LocalCsv.LocalHeaderIsIgnored` | app/src/main/java/com/vhiroki/utabox/data/CsvSongReader.kt:91-98 | The header line never matters, whatever it holds. |
| `LocalCsv.ParseCsv` | app/src/main/java/com/vhiroki/utabox/data/CsvSongReader.kt:90-105 | `parseCsv` over a reader keeps the map's codes unique. Its codes become the old codes plus the code of every parsed row, the same rows as `lines()` would give. |
| `LocalCsv.ReaderLinesYieldSameRows` | app/src/main/java/com/vhiroki/utabox/data/CsvSongReader.kt:93 | Reading lines with a `BufferedReader` yields the same songs as `lines()`. |
| `LocalCsv.ReadAllMeaning` | app/src/main/java/com/vhiroki/utabox/data/CsvSongReader.kt:30-34 | The first file whose reading throws decides the outcome, whatever later files hold. With no such file, the map holds every row of every file, put in file order. |
| `LocalCsv.MergeRows` | app/src/main/java/com/vhiroki/utabox/data/CsvSongReader.kt:36-40 | The map built from the rows has unique codes, exactly the rows' codes, and the last row per code. It is empty exactly when there are no rows. |
| `LocalCsv.AllRowsAreLocal` | app/src/main/java/com/vhiroki/utabox/data/CsvSongReader.kt:125-130 | Every song read from local files is local and has a filename. |
| `LocalCsv.ReadFiles` | app/src/main/java/com/vhiroki/utabox/data/CsvSongReader.kt:30-40 | The shared read-all step. A failing file fails the read with its message. Otherwise the read succeeds exactly when some row was read, and its songs merge all rows; they are local, non-empty and have unique codes. |
| `LocalCsv.ReadFromDirectory` | app/src/main/java/com/vhiroki/utabox/data/CsvSongReader.kt:22-44 | `readFromDirectory`. Only `.csv` files (any case) are read, and an unlistable directory counts as empty. A file that cannot be read fails the whole read with its message. Otherwise the read fails with "No CSV files found in <path>" exactly when no row yields a song. |
| `LocalCsv.ReadFromDocumentFolder` | app/src/main/java/com/vhiroki/utabox/data/CsvSongReader.kt:51-84 | `readFromDocumentFolder`. A missing tree fails with "Cannot access folder", and a tree without `.csv` documents fails with "No CSV files found in selected folder". Unopenable documents are skipped, and a failing read fails the whole read. Otherwise the read fails exactly when no row yields a song, and on success holds the merged rows. |
| `LocalCsv.ReadDocuments` | app/src/main/java/com/vhiroki/utabox/data/CsvSongReader.kt:67-82 | The loop over the CSV documents fails with the message of the first failing document. Otherwise it fails with "No songs found in CSV files" exactly when no row yields a song, and on success holds unique local songs, last row wins. |
| `LocalCsv.CsvFiltersAgree` | app/src/main/java/com/vhiroki/utabox/data/CsvSongReader.kt:26-28 | An extension equal to "csv" ignoring case is the same test as a name ending in ".csv" ignoring case, so both readers pick the same files. |
| `FileSystem.Extension` | app/src/main/java/com/vhiroki/utabox/data/CsvSongReader.kt:27 | `File.extension` is the text after the last dot, or empty without a dot; it holds no dot. |
| `FileSystem.FindFile` | app/src/main/java/com/vhiroki/utabox/util/VideoStorageHelper.kt:200-201 | `findFile(name)` returns the first child with that name, and finds nothing exactly when no child has it. |
| `VideoStorage.TestFolderUri` | app/src/main/java/com/vhiroki/utabox/util/VideoStorageHelper.kt:144-149 | A file in the test folder is found exactly when the folder exists and holds the file. Availability is not required. |
| `VideoStorage.IsTestFolderAvailable` | app/src/main/java/com/vhiroki/utabox/util/VideoStorageHelper.kt:130-142 | Requires the test folder. A listable folder counts exactly when some entry has extension "mp4". An unlistable one counts exactly when the lookup of `02017.mp4` in it succeeds. |
| `VideoStorage.VolumeVideoFolder` | app/src/main/java/com/vhiroki/utabox/util/VideoStorageHelper.kt:155-168 | Only removable, mounted volumes with a path count. Their `videoke` folder is preferred. Without one, the root is used exactly when it can be listed and holds an `.mp4` file. |
| `VideoStorage.UsbVideoFolder` | app/src/main/java/com/vhiroki/utabox/util/VideoStorageHelper.kt:151-172 | The USB folder exists exactly when some volume contributes one, and it is the folder of the first such volume. |
| `VideoStorage.UsbStorageUri` | app/src/main/java/com/vhiroki/utabox/util/VideoStorageHelper.kt:178-182 | A file on USB is found exactly when the USB folder exists and holds it. |
| `VideoStorage.PersistedUri` | app/src/main/java/com/vhiroki/utabox/util/VideoStorageHelper.kt:184-193 | The stored URI counts exactly when a held permission has the same URI and grants read access. |
| `VideoStorage.PersistedFolderUri` | app/src/main/java/com/vhiroki/utabox/util/VideoStorageHelper.kt:195-204 | A picked-folder video is the URI of the file at the root of the tree. Failing that, it is the URI of the file in the `videoke` child, and it is absent when neither holds the file. A usable persisted folder is required. |
| `VideoStorage.GetVideoUri` | app/src/main/java/com/vhiroki/utabox/util/VideoStorageHelper.kt:36-49 | The file `<id>.mp4` is looked up in the test folder, then on USB, then in the picked folder. The first hit wins, and nothing is found when no source has the file. |
| `VideoStorage.GetVideoSourceDirectory` | app/src/main/java/com/vhiroki/utabox/util/VideoStorageHelper.kt:108-112 | The test folder when it is available, else the USB folder, never the picked folder. It exists exactly when the test folder or USB is available. |
| `VideoStorage.GetPersistedTreeUri` | app/src/main/java/com/vhiroki/utabox/util/VideoStorageHelper.kt:118-120 | The picked tree is reported exactly when a persisted folder is usable. |
| `VideoStorage.GetVideoSourceDescription` | app/src/main/java/com/vhiroki/utabox/util/VideoStorageHelper.kt:61-72 | Checks the picked folder, then the test folder, then USB, with their prefixes; otherwise "No video source configured". |
| `VideoStorage.HasVideoSource` | app/src/main/java/com/vhiroki/utabox/util/VideoStorageHelper.kt:54-56 | There is a video source exactly when a persisted folder is usable or `getVideoSourceDirectory` gives a folder. |
| `VideoStorage.NoSourceDescriptionIffNoSource` | app/src/main/java/com/vhiroki/utabox/util/VideoStorageHelper.kt:54-72 | The description is "No video source configured" exactly when `hasVideoSource` is false. |
| `VideoStorage.SourceDirectoryAndSources` | app/src/main/java/com/vhiroki/utabox/util/VideoStorageHelper.kt:54-56 | A source directory implies a video source. A source without a directory is the picked folder alone. |
| `VideoStorage.LookupAndDescriptionOrdersDiffer` | app/src/main/java/com/vhiroki/utabox/util/VideoStorageHelper.kt:39-46 | The two orders differ: with a picked folder and a test folder holding the video, the video plays from the test folder while the description names the picked folder. |
| `VideoStorage.VideoFileExtension` | app/src/main/java/com/vhiroki/utabox/util/VideoStorageHelper.kt:37 | The looked-up file `<id>.mp4` has extension `mp4`. |
| `VideoStorage.ListableTestVideoMeansSource` | app/src/main/java/com/vhiroki/utabox/util/VideoStorageHelper.kt:130-142 | A listable test folder holding a song's video is available, so a video source is reported. |
| `VideoStorage.UnlistedTestVideoWithoutSource` | app/src/main/java/com/vhiroki/utabox/util/VideoStorageHelper.kt:130-149 | An unlistable test folder without `02017.mp4` still serves its videos, yet no video source is reported. |
| `SongRepository.Take` | app/src/main/java/com/vhiroki/utabox/data/SongRepository.kt:33 | `take(n)` is the prefix of length `min(n, size)`. |
| `SongRepository.NormalizeQuery` | app/src/main/java/com/vhiroki/utabox/data/SongRepository.kt:35 | The normalised query is no longer than the query, is empty for a blank query, and holds no combining mark. |
| `SongRepository.Classify` | app/src/main/java/com/vhiroki/utabox/data/SongRepository.kt:44-51 | The first test that passes decides. A song is a code match exactly when its lowercase code starts with the query. It is a title match exactly when that fails and the normalized title contains the query, even if the artist matches too. It is an artist match exactly when both fail and the normalized artist contains the query. It matches some bucket exactly when any test passes. |
| `SongRepository.ClassifyByOccurrence` | app/src/main/java/com/vhiroki/utabox/data/SongRepository.kt:44-51 | A title or artist match has the query somewhere in that key. A song matches nothing exactly when its code does not start with the query and neither key holds the query anywhere. |
| `SongRepository.InBucketMembers` | app/src/main/java/com/vhiroki/utabox/data/SongRepository.kt:43-50 | A bucket holds only catalog songs that the query classifies into that bucket. |
| `SongRepository.BucketsPartitionMatches` | app/src/main/java/com/vhiroki/utabox/data/SongRepository.kt:43-50 | Each song lands in at most one bucket: together the three buckets are exactly the matching songs. |
| `SongRepository.MatchingMembers` | app/src/main/java/com/vhiroki/utabox/data/SongRepository.kt:43-50 | A song matches exactly when it is in the catalog and passes the code, title or artist test. |
| `SongRepository.ScannedCount` | app/src/main/java/com/vhiroki/utabox/data/SongRepository.kt:42-56 | The number of songs the loop examines. Either it stops at the first prefix holding 200 matches, or it examines the whole catalog. |
| `SongRepository.ScannedMatchesWithinLimit` | app/src/main/java/com/vhiroki/utabox/data/SongRepository.kt:53-55 | The examined songs never hold more than 200 matches. |
| `SongRepository.AddToBucket` | app/src/main/java/com/vhiroki/utabox/data/SongRepository.kt:43-50 | The `when`: the song is appended to exactly the bucket `Classify` picks. A code-prefix match goes to the code bucket only. A song that fails the code test but whose title holds the query goes to the title bucket only, whatever its artist. |
| `SongRepository.ScanStep` | app/src/main/java/com/vhiroki/utabox/data/SongRepository.kt:42-55 | One pass of the loop body adds the song to its bucket. It signals a break exactly when the examined prefix holds 200 matches. |
| `SongRepository.ScanBuckets` | app/src/main/java/com/vhiroki/utabox/data/SongRepository.kt:38-56 | The loop with its early `break`. The buckets are exactly the bucketed matches among the examined songs, and the loop examines exactly `ScannedCount` songs. |
| `SongRepository.SearchSongs` | app/src/main/java/com/vhiroki/utabox/data/SongRepository.kt:30-66 | `searchSongs` on one snapshot. A blank query gives the first 200 songs in catalog order. Any result has at most 200 songs, all from the catalog and matching the normalised query. Code matches come before title matches, which come before artist matches, each group sorted by normalised artist, then title. |
| `SongRepository.SearchIsRankedMatches` | app/src/main/java/com/vhiroki/utabox/data/SongRepository.kt:31-63 | The specification `SearchSongs` meets, stated of the search function itself. |
| `SongRepository.Search` | app/src/main/java/com/vhiroki/utabox/data/SongRepository.kt:30-66 | At most 200 results. A blank query gives the first `min(200, size)` songs in catalog order. |
| `SongRepository.RankedIsOrderedMatches` | app/src/main/java/com/vhiroki/utabox/data/SongRepository.kt:60-62 | The three sorted buckets, concatenated, are a permutation of the matches, in rank order. |
| `SongRepository.RunsInRankOrder` | app/src/main/java/com/vhiroki/utabox/data/SongRepository.kt:60-62 | Concatenating sorted code, title and artist runs gives a list in rank order. |
| `SongRepository.SearchTakesAllScanned` | app/src/main/java/com/vhiroki/utabox/data/SongRepository.kt:60-63 | The final `take(200)` never cuts the buckets, because the loop stopped at 200. |
| `SongRepository.SearchIsScannedMatches` | app/src/main/java/com/vhiroki/utabox/data/SongRepository.kt:42-63 | The result is a permutation of the matches among the examined songs. |
| `SongRepository.SearchCompleteBelowLimit` | app/src/main/java/com/vhiroki/utabox/data/SongRepository.kt:42-56 | With fewer than 200 matches in the catalog, every matching song is returned. |
| `SongRepository.SearchAgreesBelowLimit` | app/src/main/java/com/vhiroki/utabox/data/SongRepository.kt:53-55 | With fewer than 200 matches, the early-stopping search equals the full rank-and-truncate search. |
| `SongRepository.UnscannedSongIsMissing` | app/src/main/java/com/vhiroki/utabox/data/SongRepository.kt:53-55 | A song found only after the loop broke is never returned. |
| `SongRepository.MatchRunStopsScan` | app/src/main/java/com/vhiroki/utabox/data/SongRepository.kt:53-55 | When the first 200 songs of any catalog all match, the loop stops after the 200th song. |
| `SongRepository.EarlyStopDropsCodeMatch` | app/src/main/java/com/vhiroki/utabox/data/SongRepository.kt:53-55 | For every catalog whose first 200 songs all match: if its only code-prefix match comes later, the search result misses it, though the full search returns it. |
| `SongRepository.EarlyStopExample` | app/src/main/java/com/vhiroki/utabox/data/SongRepository.kt:42-63 | Concrete input: 200 songs by "a" titled "1" with the distinct codes "2", "22", … (200 twos), then the song with code "1" by "b". The catalog has unique codes and is in display order, like every catalog `reload` publishes. The query "1" does not return the song with code "1"; the full search does. |
| `SongRepository.EarlyStopCatalogIsPublishable` | app/src/main/java/com/vhiroki/utabox/data/SongRepository.kt:105-111 | The example catalog meets what `reload` guarantees of `_songs`: unique codes (`associateBy`) and sorted by lower-case artist and title (`sortedWith`). |
| `SongRepository.FullSearchKeepsBest` | app/src/main/java/com/vhiroki/utabox/data/SongRepository.kt:58-63 | The corrected search, which ranks every match before truncating. A matching song is left out only when 200 songs ranking no lower are returned. |
| `SongRepository.FullSearchIsRankedMatches` | app/src/main/java/com/vhiroki/utabox/data/SongRepository.kt:58-63 | The corrected search returns matching catalog songs only, in rank order. |
| `SongRepository.FullSearch` | app/src/main/java/com/vhiroki/utabox/data/SongRepository.kt:58-63 | Rank every match, then truncate: at most 200 results, and a blank query gives the first `min(200, size)` songs. |
| `SongRepository.SoleCodeMatchIsFound` | app/src/main/java/com/vhiroki/utabox/data/SongRepository.kt:44-45 | The corrected search always returns a catalog's only code match. |
| `SongRepository.DiacriticsAreIgnored` | app/src/main/java/com/vhiroki/utabox/data/SongRepository.kt:35-47 | The query "pao" finds the title "Pão". |
| `SongRepository.LowerAsciiQueryIsNormal` | app/src/main/java/com/vhiroki/utabox/data/SongRepository.kt:35 | A lowercase ASCII query without leading or trailing spaces is left unchanged by normalisation. |
| `SongRepository.LocalRead` | app/src/main/java/com/vhiroki/utabox/data/SongRepository.kt:79-83 | With a persisted folder, its result is used, even a failure, and no directory is tried. Otherwise the source directory is read. Nothing is read exactly when there is no persisted folder, no available test folder and no USB folder. |
| `SongRepository.Outcome` | app/src/main/java/com/vhiroki/utabox/data/SongRepository.kt:85-103 | `fold`: a success keeps its songs and no error; a failure keeps no songs and its exception's message. |
| `SongRepository.MergeCatalogs` | app/src/main/java/com/vhiroki/utabox/data/SongRepository.kt:105-108 | `(youtube + local).associateBy { code }`. The codes are unique and are the union of both catalogs' codes. A code present locally holds its local song; any other code holds its YouTube song. The codes are stored in the order they first appear in `youtube + local`, as `LinkedHashMap.values` gives them. |
| `SongRepository.LastWithCodeConcat` | app/src/main/java/com/vhiroki/utabox/data/SongRepository.kt:106-107 | In `youtube + local`, the last song with a code is the local one if there is one. |
| `SongRepository.Reload` | app/src/main/java/com/vhiroki/utabox/data/SongRepository.kt:72-121 | `reload`. The published catalog is sorted by lowercase artist, then title, and songs with equal keys keep their order from `MergeCatalogs` (the sort is stable); it has unique codes, the union of both sources' codes, and the local song on a shared code. The error is absent exactly when the catalog is non-empty; otherwise it is the present error messages joined with "; ". |
| `SongRepository.ReloadFailsIffBothSourcesFail` | app/src/main/java/com/vhiroki/utabox/data/SongRepository.kt:113-120 | An error is returned exactly when the local source is missing or failed and the YouTube load failed. |
| `SongRepository.LocalSongsAreKept` | app/src/main/java/com/vhiroki/utabox/data/SongRepository.kt:105-108 | Every local song is in the new catalog. |
| `SongRepository.YouTubeSongKeptIffCodeNotLocal` | app/src/main/java/com/vhiroki/utabox/data/SongRepository.kt:105-108 | A YouTube song is in the new catalog exactly when no local song has its code. |
| `SongRepository.NoSourceAndFailedLoadError` | app/src/main/java/com/vhiroki/utabox/data/SongRepository.kt:91-94 | With no local source and a failed YouTube load, the error is "No video source configured; " followed by the YouTube message. |
| `SongRepository.SilentFailuresGiveEmptyError` | app/src/main/java/com/vhiroki/utabox/data/SongRepository.kt:115 | When both failures carry no message, the error is the empty text, not absent. |
| `LookupReports.AddInt32` | app/src/main/java/com/vhiroki/utabox/data/LookupReport.kt:13 | Kotlin `Int` addition: congruent to the sum modulo 2^32, and equal to it when it fits. |
| `LookupReports.CountOf` | app/src/main/java/com/vhiroki/utabox/data/LookupReport.kt:13 | An absent report counts 0 songs. |
| `LookupReports.TotalSongs` | app/src/main/java/com/vhiroki/utabox/data/LookupReport.kt:12-13 | `totalSongs` is the 32-bit sum of the two counts, absent reports counting 0. |
| `LookupReports.HasErrors` | app/src/main/java/com/vhiroki/utabox/data/LookupReport.kt:15-16 | A report has errors exactly when a present source report carries an error. |
| `LookupReports.IsSuccess` | app/src/main/java/com/vhiroki/utabox/data/LookupReport.kt:12-19 | The 32-bit total is positive. This holds exactly when the mathematical sum of the counts is in 1..2^31-1, or wraps around from -2^32+1..-2^31-1; negative counts included (5 and -3 succeed). Non-negative counts summing to 2^31 or more never succeed. With non-negative counts that do not overflow, success means some count is positive. |
| `LookupReports.SourceIsSuccess` | app/src/main/java/com/vhiroki/utabox/data/LookupReport.kt:32-33 | A source succeeds exactly when it has no error and counts at least one song: both directions are stated. |
| `LookupReports.SuccessMeansSomeSongs` | app/src/main/java/com/vhiroki/utabox/data/LookupReport.kt:18-19 | With counts that are not negative and do not overflow, the report succeeds exactly when a report counted a song. |
| `LookupReports.SourceSuccessMakesReportSuccess` | app/src/main/java/com/vhiroki/utabox/data/LookupReport.kt:32-33 | A successful source makes the report successful, when the other count is not negative and the sum does not overflow. |
| `LookupReports.SuccessWithErrors` | app/src/main/java/com/vhiroki/utabox/data/LookupReport.kt:12-19 | A report can succeed and have errors: one source failed, the other has songs. |
| `LookupReports.EmptyReport` | app/src/main/java/com/vhiroki/utabox/data/LookupReport.kt:12-19 | With both reports absent: total 0, no success, no errors. |
| `LookupReports.TotalWrapsAround` | app/src/main/java/com/vhiroki/utabox/data/LookupReport.kt:12-13 | Counts of 2147483647 and 1 give the total -2147483648 and no success. |
| `Routes.UrlEncode` | app/src/main/java/com/vhiroki/utabox/ui/navigation/Navigation.kt:30 | `URLEncoder.encode(s, UTF-8)` outputs only unreserved characters, '+' and '%', so never '/', '?', '&' or '='. |
| `Routes.UnreservedTextIsUnchanged` | app/src/main/java/com/vhiroki/utabox/ui/navigation/Navigation.kt:30 | Text of letters, digits and `.-*_` is left unchanged by encoding. |
| `Routes.SpaceAndSlashExample` | app/src/main/java/com/vhiroki/utabox/ui/navigation/Navigation.kt:30 | "a b/" is encoded as "a+b%2F". |
| `Routes.NonAsciiExample` | app/src/main/java/com/vhiroki/utabox/ui/navigation/Navigation.kt:30 | "ã" is encoded as the two UTF-8 escapes "%C3%A3". |
| `Routes.FirstMatch` | app/src/main/java/com/vhiroki/utabox/ui/navigation/Navigation.kt:50 | `Regex.find` starts at the leftmost index where the literal is followed by at least one non-stop character. |
| `Routes.Find` | app/src/main/java/com/vhiroki/utabox/ui/navigation/Navigation.kt:41-52 | A pattern matches exactly when such an index exists. The capture is non-empty, holds no stop character, and runs from the end of the literal to the next stop character or the end of the URL. |
| `Routes.RunIsUnique` | app/src/main/java/com/vhiroki/utabox/ui/navigation/Navigation.kt:43-45 | The greedy `([^?]+)` capture is determined: only one run of non-stop characters starts at a given index and ends at a stop character or at the end of the URL. |
| `Routes.ExtractWithFirstPattern` | app/src/main/java/com/vhiroki/utabox/ui/navigation/Navigation.kt:48-56 | Patterns are tried in list order: the first pattern that matches anywhere in the URL gives the id, even if a later pattern matches earlier in the URL. Without a match, the URL itself is the result. |
| `Routes.ExtractYouTubeVideoId` | app/src/main/java/com/vhiroki/utabox/ui/navigation/Navigation.kt:40-57 | The URL is returned unchanged when no pattern matches. Otherwise the result is the non-empty capture of the first matching pattern. |
| `Routes.WatchPatternComesFirst` | app/src/main/java/com/vhiroki/utabox/ui/navigation/Navigation.kt:42 | A `watch?v=` URL gives the text after `v=` up to the next '&', whatever else it holds. |
| `Routes.ShortLinkExample` | app/src/main/java/com/vhiroki/utabox/ui/navigation/Navigation.kt:43 | `https://youtu.be/abc?t=5` gives the id `abc`. |
| `Routes.PlayerRoute` | app/src/main/java/com/vhiroki/utabox/ui/navigation/Navigation.kt:29-38 | A YouTube song's route is the base route followed by `?videoId=` and the encoded id; any other song's route is the base route. |
| `Routes.BaseRoute` | app/src/main/java/com/vhiroki/utabox/ui/navigation/Navigation.kt:31 | The base route is `player/` followed by the encoded code, artist and title, separated by `/`. |
| `Routes.BaseRouteSplits` | app/src/main/java/com/vhiroki/utabox/ui/navigation/Navigation.kt:27-31 | Splitting the base route at '/' gives "player" and the encoded code, artist and title, so the values fill the placeholders of `player/{code}/{artist}/{title}`. |
| `Routes.RouteHasQueryIffYouTube` | app/src/main/java/com/vhiroki/utabox/ui/navigation/Navigation.kt:32-37 | The route holds a '?' exactly when the song has a YouTube URL. |

## Left out

- HTTP and the GitHub API: `fetchCsvFileList` and `fetchFileContent` (YouTubeSongLoader.kt:58-101), including the JSON regex. Their outcomes are inputs: a `Listing` and one `Result` per file.
- Android storage APIs (`File`, `DocumentFile`, `StorageManager`, `SharedPreferences`, `contentResolver`). They are replaced by the `Environment`, `Folder` and `Document` values. `Uri.parse`, `Uri.fromFile` and paths are plain strings.
- `savePersistedFolderUri` and `clearPersistedFolder` (VideoStorageHelper.kt:77-98). They are side effects on preferences and permissions, and nothing modelled reads them except through `Environment`.
- `Text.Lower`: covers ASCII and the Latin-1 capitals only. The locale-sensitive full Unicode `lowercase()` is a library table.
- `Text.EqualsIgnoreCase`: compares the lowercased texts. Kotlin's `equals(other, ignoreCase = true)` compares character by character, through upper case and then lower case, so `"cſv"` equals `"csv"` in Kotlin but not in the model.
- `Text.RemoveDiacritics`: strips combining marks and decomposes the precomposed Latin-1 letters only. It is not full Unicode normalisation.
- `Songs.TitleNormalized`: the search keys are not defined in `Song.kt`. They are defined the way their names and the query normalisation suggest.
- `URLDecoder`, and how the navigation library parses a route back into arguments. Only the shape of the route is stated (`Routes.BaseRouteSplits`), not the decoding.
- `Routes.Utf8`: encodes Dafny characters, which are Unicode scalar values. A Kotlin `String` is UTF-16, and an unpaired surrogate (which `URLEncoder` replaces with '?') has no counterpart here.
- `StateFlow` publication and the `_error` flow: `SongRepository.Reload` returns the catalog that would be published and the error. Concurrency between `reload` and `searchSongs` is not modelled; a search runs on one catalog snapshot.
- The `localSongs` and `youtubeSongs` fields of `SongRepository`: they only carry values between statements of `reload` and are local values here.
- The `LookupReport` timestamp's default from the clock: the timestamp is an ordinary field.
- Logging (`android.util.Log`) and the `UtaBoxNavHost` composable, the screens, view models and `MainActivity`. They hold no catalog logic.
- The "Removable storage" fallback in `getVideoSourceDescription` (VideoStorageHelper.kt:69): the USB case is taken only when the USB folder exists, so the fallback is unreachable, and the model leaves it out.

## Findings

| source | as written | input that shows it | evidently intended | confidence | as-written member | corrected member |
|---|---|---|---|---|---|---|
| app/src/main/java/com/vhiroki/utabox/data/SongRepository.kt:53-55 | The loop breaks as soon as the three buckets hold 200 songs together, before priority is applied. A code-prefix match after the first 200 matches of any kind is never seen. | 200 songs by artist "a" titled "1" with the distinct codes "2", "22", … (up to 200 twos), then a song with code "1" by artist "b"; query "1". The codes are unique and the catalog is in display order, which `reload` guarantees of every catalog it publishes. The result is the 200 title matches; the code match is missing. | Code-prefix matches outrank title and artist matches, so a song is left out only when 200 songs ranking no lower are shown. The comments present the break as a pure speed-up. | not executed; high that the result differs as stated, medium that it was unintended | `SongRepository.EarlyStopDropsCodeMatch` (with `SongRepository.EarlyStopExample`; `SongRepository.SearchSongs` models the loop as written) | `SongRepository.FullSearchKeepsBest` (about `SongRepository.FullSearch`, which ranks every match before truncating) |
