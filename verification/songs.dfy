/** The catalog entry (`Song.kt`) and the search keys derived from it. */
module Songs {

  import opened Wrappers
  import opened Text

  /** One karaoke song. Local songs have a video `filename` and no `youtubeUrl`;
      remote songs have an empty `filename` and a `youtubeUrl`. Being a datatype,
      a `Song` is immutable and two songs are equal exactly when all five fields are. */
  datatype Song = Song(
    code: string,
    filename: string,
    artist: string,
    title: string,
    youtubeUrl: Option<string>)

  /** `Song.isYouTube`: the song is streamed rather than played from a file. */
  function IsYouTube(s: Song): (r: bool)
    ensures !r <==> s == s.(youtubeUrl := None)
  {
    s.youtubeUrl.Some?
  }

  /** The `Song(code, filename, artist, title)` constructor call, relying on the
      `youtubeUrl = null` default: the song it builds is a local one. */
  function LocalSong(code: string, filename: string, artist: string, title: string): (s: Song)
    ensures !IsYouTube(s)
    ensures s.code == code && s.filename == filename && s.artist == artist && s.title == title
  {
    Song(code, filename, artist, title, None)
  }

  // Search keys: the lowercase code, and the diacritic-stripped lowercase title and
  // artist. The repository uses them without `Song.kt` defining them; they are
  // defined here in the way their names and the query normalisation suggest.

  function CodeLower(s: Song): string {
    Lower(s.code)
  }

  function TitleNormalized(s: Song): string {
    RemoveDiacritics(Lower(s.title))
  }

  function ArtistNormalized(s: Song): string {
    RemoveDiacritics(Lower(s.artist))
  }
}
