/** `VideoStorageHelper`: where the karaoke videos and the local catalog are found.
    Three sources are consulted: the development test folder
    (`<external storage>/Download/karaoke`), the first removable USB volume that
    holds videos, and a folder the user picked through the document picker, whose
    URI is kept in the preferences. Every query is a pure function of an
    `Environment` that records what the device would answer. */
module VideoStorage {

  import opened Wrappers
  import opened Text
  import opened FileSystem

  /** The file whose existence stands in for a listing when the test folder cannot
      be listed. */
  const TestProbeFile: string := "02017.mp4"
  /** The folder on a USB volume or in the picked folder that holds the videos. */
  const VideoFolderName: string := "videoke"
  const NoSourceMessage: string := "No video source configured"

  /** What a mounted volume's directory offers: the root folder, and the `videoke`
      folder under it when that exists and is a directory. */
  datatype VolumeDirectory = VolumeDirectory(root: Folder, videoke: Option<Folder>)

  /** A storage volume: whether it is removable, whether its state is "mounted",
      and its directory (`null` when the volume has no path). */
  datatype Volume = Volume(removable: bool, mounted: bool, directory: Option<VolumeDirectory>)

  /** The URI text kept in the preferences, and what `Uri.getPath()` gives for it. */
  datatype StoredUri = StoredUri(text: string, path: Option<string>)

  /** A persisted URI permission the content resolver reports. */
  datatype UriPermission = UriPermission(uri: string, isRead: bool)

  /** What the device answers to every question the helper asks. */
  datatype Environment = Environment(
    testFolder: Option<Folder>,     // the test folder, when it exists and is a directory
    volumes: Option<seq<Volume>>,   // the storage volumes; `None` without a StorageManager
    stored: Option<StoredUri>,      // the URI saved under the preferences key
    permissions: seq<UriPermission>,
    tree: Option<Document>)         // `DocumentFile.fromTreeUri` of the stored URI

  /** A playable location: a file (`Uri.fromFile`) or a document of the picked tree. */
  datatype VideoUri = FileUri(path: string) | DocumentUri(uri: string)

  /** `file.extension == "mp4"`, case-sensitive. */
  predicate IsMp4(e: FileEntry) {
    Extension(e.name) == "mp4"
  }

  predicate HasMp4(entries: seq<FileEntry>) {
    exists i :: 0 <= i < |entries| && IsMp4(entries[i])
  }

  /** The path of `File(folder, name)`. */
  function FilePath(f: Folder, name: string): string {
    f.path + "/" + name
  }

  // ---------------------------------------------------------------------------
  // Test folder
  // ---------------------------------------------------------------------------

  /** `isTestFolderAvailable()`: the folder exists and lists an `.mp4` file; when it
      cannot be listed, the probe file's existence decides. */
  function IsTestFolderAvailable(env: Environment): (r: bool)
    ensures r ==> env.testFolder.Some?
    ensures env.testFolder.Some? && env.testFolder.value.listable ==>
      (r <==> exists i :: 0 <= i < |env.testFolder.value.entries| && Extension(env.testFolder.value.entries[i].name) == "mp4")
    ensures env.testFolder.Some? && !env.testFolder.value.listable ==>
      (r <==> TestFolderUri(env, TestProbeFile).Some?)
  {
    match env.testFolder
    case None => false
    case Some(f) =>
      match ListFiles(f)
      case None => HasFile(f, TestProbeFile)
      case Some(entries) => HasMp4(entries)
  }

  /** `getTestFolderUri(filename)`: only the folder's existence is required, not its
      availability. */
  function TestFolderUri(env: Environment, filename: string): (r: Option<VideoUri>)
    ensures r.Some? <==> env.testFolder.Some? && HasFile(env.testFolder.value, filename)
    ensures r.Some? ==> r.value == FileUri(FilePath(env.testFolder.value, filename))
  {
    match env.testFolder
    case None => None
    case Some(f) => if HasFile(f, filename) then Some(FileUri(FilePath(f, filename))) else None
  }

  // ---------------------------------------------------------------------------
  // USB volumes
  // ---------------------------------------------------------------------------

  /** What one volume contributes in `getUsbVideoFolder()`: nothing unless it is
      removable, mounted and has a path; then its `videoke` folder when present, else
      its root when the root lists an `.mp4` file. */
  function VolumeVideoFolder(v: Volume): (r: Option<Folder>)
    ensures r.Some? ==> v.removable && v.mounted && v.directory.Some?
    ensures r.Some? ==>
      r.value == v.directory.value.root || Some(r.value) == v.directory.value.videoke
    ensures v.removable && v.mounted && v.directory.Some? && v.directory.value.videoke.Some? ==>
      r == v.directory.value.videoke
    ensures v.removable && v.mounted && v.directory.Some? && v.directory.value.videoke.None? ==>
      var root := v.directory.value.root;
      (r.Some? <==> root.listable && HasMp4(root.entries))
  {
    if !(v.removable && v.mounted) then None
    else
      match v.directory
      case None => None
      case Some(d) =>
        if d.videoke.Some? then d.videoke
        else if d.root.listable && HasMp4(d.root.entries) then Some(d.root)
        else None
  }

  /** What each volume contributes, in volume order. */
  function VolumeFolders(vs: seq<Volume>): (r: seq<Option<Folder>>)
    ensures |r| == |vs|
    ensures forall i :: 0 <= i < |vs| ==> r[i] == VolumeVideoFolder(vs[i])
  {
    seq(|vs|, i requires 0 <= i < |vs| => VolumeVideoFolder(vs[i]))
  }

  /** `getUsbVideoFolder()`: the folder of the first volume that contributes one. */
  function UsbVideoFolder(env: Environment): (r: Option<Folder>)
    ensures r.Some? <==>
      env.volumes.Some? && exists i :: 0 <= i < |env.volumes.value| && VolumeVideoFolder(env.volumes.value[i]).Some?
    ensures r.Some? ==> exists i :: (0 <= i < |env.volumes.value| && r == VolumeVideoFolder(env.volumes.value[i])
                                      && forall j :: 0 <= j < i ==> VolumeVideoFolder(env.volumes.value[j]).None?)
  {
    match env.volumes
    case None => None
    case Some(vs) =>
      var folders := VolumeFolders(vs);
      match FirstSome(folders, 0)
      case None => None
      case Some(i) => folders[i]
  }

  predicate IsUsbStorageAvailable(env: Environment) {
    UsbVideoFolder(env).Some?
  }

  /** `getUsbStorageUri(filename)`. */
  function UsbStorageUri(env: Environment, filename: string): (r: Option<VideoUri>)
    ensures r.Some? <==> UsbVideoFolder(env).Some? && HasFile(UsbVideoFolder(env).value, filename)
    ensures r.Some? ==> r.value == FileUri(FilePath(UsbVideoFolder(env).value, filename))
  {
    match UsbVideoFolder(env)
    case None => None
    case Some(f) => if HasFile(f, filename) then Some(FileUri(FilePath(f, filename))) else None
  }

  // ---------------------------------------------------------------------------
  // The picked folder
  // ---------------------------------------------------------------------------

  /** `getPersistedUri()`: the stored URI, provided a read permission for it is
      still held. */
  function PersistedUri(env: Environment): (r: Option<StoredUri>)
    ensures r.Some? <==>
      env.stored.Some? &&
      exists i :: 0 <= i < |env.permissions| && env.permissions[i].uri == env.stored.value.text
                  && env.permissions[i].isRead
    ensures r.Some? ==> r == env.stored
  {
    if env.stored.Some? && HasReadPermission(env.permissions, env.stored.value.text)
    then env.stored else None
  }

  predicate HasReadPermission(ps: seq<UriPermission>, uri: string) {
    exists i :: 0 <= i < |ps| && ps[i].uri == uri && ps[i].isRead
  }

  predicate HasPersistedFolder(env: Environment) {
    PersistedUri(env).Some?
  }

  /** `getPersistedFolderUri(filename)`: the file at the root of the picked tree,
      else in its `videoke` child. */
  function PersistedFolderUri(env: Environment, filename: string): (r: Option<VideoUri>)
    ensures r.Some? ==> HasPersistedFolder(env) && env.tree.Some?
    ensures HasPersistedFolder(env) && env.tree.Some? && FindFile(env.tree.value, filename).Some? ==>
      r == Some(DocumentUri(FindFile(env.tree.value, filename).value.uri))
    ensures HasPersistedFolder(env) && env.tree.Some? && FindFile(env.tree.value, filename).None? ==>
      var sub := FindFile(env.tree.value, VideoFolderName);
      r.Some? <==> sub.Some? && FindFile(sub.value, filename).Some?
    ensures HasPersistedFolder(env) && env.tree.Some? && FindFile(env.tree.value, filename).None? ==>
      var sub := FindFile(env.tree.value, VideoFolderName);
      sub.Some? && FindFile(sub.value, filename).Some? ==>
        r == Some(DocumentUri(FindFile(sub.value, filename).value.uri))
  {
    if PersistedUri(env).None? then None
    else
      match env.tree
      case None => None
      case Some(root) =>
        match FindFile(root, filename)
        case Some(d) => Some(DocumentUri(d.uri))
        case None =>
          match FindFile(root, VideoFolderName)
          case None => None
          case Some(sub) =>
            match FindFile(sub, filename)
            case None => None
            case Some(d) => Some(DocumentUri(d.uri))
  }

  // ---------------------------------------------------------------------------
  // Public queries
  // ---------------------------------------------------------------------------

  /** The name of a song's video file. */
  function VideoFileName(musicId: string): string {
    musicId + ".mp4"
  }

  /** `getVideoUri(musicId)`: the test folder first, then the USB folder, then the
      picked folder. A source is consulted only when the earlier ones lack the file. */
  function GetVideoUri(env: Environment, musicId: string): (r: Option<VideoUri>)
    ensures var f := VideoFileName(musicId);
      r.Some? <==> TestFolderUri(env, f).Some? || UsbStorageUri(env, f).Some? || PersistedFolderUri(env, f).Some?
    ensures var f := VideoFileName(musicId);
      TestFolderUri(env, f).Some? ==> r == Some(FileUri(FilePath(env.testFolder.value, f)))
    ensures var f := VideoFileName(musicId);
      TestFolderUri(env, f).None? && UsbStorageUri(env, f).Some? ==>
        r == Some(FileUri(FilePath(UsbVideoFolder(env).value, f)))
    ensures var f := VideoFileName(musicId);
      TestFolderUri(env, f).None? && UsbStorageUri(env, f).None? ==> r == PersistedFolderUri(env, f)
  {
    var filename := VideoFileName(musicId);
    if TestFolderUri(env, filename).Some? then TestFolderUri(env, filename)
    else if UsbStorageUri(env, filename).Some? then UsbStorageUri(env, filename)
    else PersistedFolderUri(env, filename)
  }

  /** `hasVideoSource()`. */
  function HasVideoSource(env: Environment): (r: bool)
    ensures r <==> HasPersistedFolder(env) || GetVideoSourceDirectory(env).Some?
  {
    HasPersistedFolder(env) || IsTestFolderAvailable(env) || IsUsbStorageAvailable(env)
  }

  /** `getVideoSourceDirectory()`: the test folder when it is available, else the
      USB folder; never the picked folder, which is not a `File`. */
  function GetVideoSourceDirectory(env: Environment): (r: Option<Folder>)
    ensures IsTestFolderAvailable(env) ==> r == env.testFolder
    ensures !IsTestFolderAvailable(env) ==> r == UsbVideoFolder(env)
    ensures r.Some? <==> IsTestFolderAvailable(env) || IsUsbStorageAvailable(env)
  {
    if env.testFolder.Some? && IsTestFolderAvailable(env) then env.testFolder
    else UsbVideoFolder(env)
  }

  /** `getPersistedTreeUri()`. */
  function GetPersistedTreeUri(env: Environment): (r: Option<StoredUri>)
    ensures r.Some? <==> HasPersistedFolder(env)
    ensures r.Some? ==> r == env.stored
  {
    PersistedUri(env)
  }

  /** The path shown for the picked folder: what follows "primary:" in the URI's
      path (all of it when absent), or the URI text when it has no path. */
  function PickedFolderLabel(u: StoredUri): string {
    match u.path
    case Some(p) => SubstringAfter(p, "primary:")
    case None => u.text
  }

  const FolderPrefix: string := "Folder: "
  const TestFolderPrefix: string := "Test folder: "
  const UsbPrefix: string := "USB: "

  /** `getVideoSourceDescription()`: the first available source, in the order picked
      folder, test folder, USB; the "Removable storage" fallback of the USB case is
      never reached, since the USB case is taken only when the folder exists. */
  function GetVideoSourceDescription(env: Environment): (r: string)
    ensures HasPersistedFolder(env) ==> r == FolderPrefix + PickedFolderLabel(env.stored.value)
    ensures !HasPersistedFolder(env) && IsTestFolderAvailable(env) ==>
      r == TestFolderPrefix + env.testFolder.value.path
    ensures !HasPersistedFolder(env) && !IsTestFolderAvailable(env) && IsUsbStorageAvailable(env) ==>
      r == UsbPrefix + UsbVideoFolder(env).value.path
    ensures !HasVideoSource(env) ==> r == NoSourceMessage
  {
    if HasPersistedFolder(env) then FolderPrefix + PickedFolderLabel(PersistedUri(env).value)
    else if IsTestFolderAvailable(env) then TestFolderPrefix + env.testFolder.value.path
    else if IsUsbStorageAvailable(env) then UsbPrefix + UsbVideoFolder(env).value.path
    else NoSourceMessage
  }

  // ---------------------------------------------------------------------------
  // Properties relating the queries
  // ---------------------------------------------------------------------------

  /** The description reports "no source" exactly when there is none: every other
      description starts with a source prefix that the message does not. */
  lemma NoSourceDescriptionIffNoSource(env: Environment)
    ensures GetVideoSourceDescription(env) == NoSourceMessage <==> !HasVideoSource(env)
  {
    var r := GetVideoSourceDescription(env);
    if HasVideoSource(env) {
      var prefix :=
        if HasPersistedFolder(env) then FolderPrefix
        else if IsTestFolderAvailable(env) then TestFolderPrefix
        else UsbPrefix;
      assert r[0] == prefix[0] != NoSourceMessage[0];
    }
  }

  /** A source directory exists only when there is a video source, and a source
      without a directory is the picked folder alone. */
  lemma SourceDirectoryAndSources(env: Environment)
    ensures GetVideoSourceDirectory(env).Some? ==> HasVideoSource(env)
    ensures HasVideoSource(env) && GetVideoSourceDirectory(env).None? ==>
      HasPersistedFolder(env) && !IsTestFolderAvailable(env) && !IsUsbStorageAvailable(env)
  {
  }

  /** Video lookup and the description rank the sources differently: with a picked
      folder and a test folder that holds the video, the video is played from the
      test folder while the description names the picked folder. */
  lemma LookupAndDescriptionOrdersDiffer(env: Environment, musicId: string)
    requires HasPersistedFolder(env)
    requires TestFolderUri(env, VideoFileName(musicId)).Some?
    ensures GetVideoUri(env, musicId) == Some(FileUri(FilePath(env.testFolder.value, VideoFileName(musicId))))
    ensures GetVideoSourceDescription(env) == FolderPrefix + PickedFolderLabel(env.stored.value)
  {
  }

  /** The extension of a video file name is "mp4". */
  lemma VideoFileExtension(musicId: string)
    ensures Extension(VideoFileName(musicId)) == "mp4"
  {
    var name := VideoFileName(musicId);
    var n := |musicId|;
    assert name[n] == '.' && name[n + 1] == 'm' && name[n + 2] == 'p' && name[n + 3] == '4';
    var i := LastIndexOf(name, '.').value;
    assert i == n;
  }

  /** A listable test folder that holds a song's video makes the test folder
      available, so the video source is reported. */
  lemma ListableTestVideoMeansSource(env: Environment, musicId: string)
    requires env.testFolder.Some? && env.testFolder.value.listable
    requires TestFolderUri(env, VideoFileName(musicId)).Some?
    ensures IsTestFolderAvailable(env) && HasVideoSource(env)
  {
    var f := env.testFolder.value;
    var i :| 0 <= i < |f.entries| && f.entries[i].name == VideoFileName(musicId);
    VideoFileExtension(musicId);
    assert IsMp4(f.entries[i]);
  }

  /** When the test folder cannot be listed and lacks the probe file, a video it
      holds is still found and played, although no video source is reported. */
  lemma UnlistedTestVideoWithoutSource(path: string, musicId: string)
    requires VideoFileName(musicId) != TestProbeFile
    ensures var f := Folder(path, false, [FileEntry(VideoFileName(musicId), Failure(None))]);
      var env := Environment(Some(f), None, None, [], None);
      && GetVideoUri(env, musicId) == Some(FileUri(FilePath(f, VideoFileName(musicId))))
      && !HasVideoSource(env)
  {
    var f := Folder(path, false, [FileEntry(VideoFileName(musicId), Failure(None))]);
    var env := Environment(Some(f), None, None, [], None);
    assert HasFile(f, VideoFileName(musicId)) by {
      assert f.entries[0].name == VideoFileName(musicId);
    }
  }
}
