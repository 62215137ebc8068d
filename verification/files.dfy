/** The parts of the device's storage the readers and the video lookup look at:
    `java.io.File` directories and the Storage Access Framework's document tree.
    Reading is not performed here; each file carries what reading it yields. */
module FileSystem {

  import opened Wrappers
  import opened Text

  /** An entry of a directory: its name, and the text that reading it gives or the
      message of the exception reading it throws (a subdirectory cannot be read). */
  datatype FileEntry = FileEntry(name: string, content: Result<string>)

  /** An existing directory: its absolute path, whether `listFiles()` returns a list
      (it returns `null` when the directory cannot be read), and its entries. */
  datatype Folder = Folder(path: string, listable: bool, entries: seq<FileEntry>)

  /** `folder.listFiles()`. */
  function ListFiles(f: Folder): (r: Option<seq<FileEntry>>)
    ensures r.Some? <==> f.listable
    ensures r.Some? ==> r.value == f.entries
  {
    if f.listable then Some(f.entries) else None
  }

  /** `File(folder, name).exists()`: existence does not depend on listing. */
  predicate HasFile(f: Folder, name: string) {
    exists i :: 0 <= i < |f.entries| && f.entries[i].name == name
  }

  /** `File.extension`: the text after the last dot, or "" when there is none. */
  function Extension(name: string): (r: string)
    ensures '.' !in r
    ensures r == "" || (|r| < |name| && name == name[..|name| - |r| - 1] + "." + r)
    ensures '.' in name ==> name == name[..|name| - |r| - 1] + "." + r
  {
    match LastIndexOf(name, '.')
    case None => ""
    case Some(i) =>
      assert name == name[..i] + "." + name[i + 1..];
      name[i + 1..]
  }

  /** What `openInputStream` and reading a document give: `null` (the document is
      skipped), an exception with its message, or the document's text. */
  datatype DocContent = Unopenable | ReadFailed(message: Option<string>) | Readable(text: string)

  /** A `DocumentFile` of a persisted tree: its display name (nullable), its URI,
      what reading it gives, and its children in `listFiles()` order. */
  datatype Document = Document(
    name: Option<string>,
    uri: string,
    content: DocContent,
    children: seq<Document>)

  /** `document.findFile(name)`: the first child with that display name. */
  function FindFile(d: Document, name: string): (r: Option<Document>)
    ensures r.Some? ==> r.value.name == Some(name)
    ensures r.Some? ==> exists i :: (0 <= i < |d.children| && d.children[i] == r.value
                                     && forall j :: 0 <= j < i ==> d.children[j].name != Some(name))
    ensures r.None? <==> forall i :: 0 <= i < |d.children| ==> d.children[i].name != Some(name)
  {
    match FirstNamed(d.children, name, 0)
    case None => None
    case Some(i) => Some(d.children[i])
  }

  /** Position of the first document at or after `from` with display name `name`. */
  function FirstNamed(ds: seq<Document>, name: string, from: nat): (r: Option<nat>)
    ensures r.Some? ==> from <= r.value < |ds| && ds[r.value].name == Some(name)
    ensures r.Some? ==> forall j :: from <= j < r.value ==> ds[j].name != Some(name)
    ensures r.None? ==> forall j :: from <= j < |ds| ==> ds[j].name != Some(name)
    decreases |ds| - from
  {
    if from >= |ds| then None
    else if ds[from].name == Some(name) then Some(from)
    else FirstNamed(ds, name, from + 1)
  }
}
