/** Primitive types shared by every module of the model, and the two record
    types the downloader receives from the playlist library (`Song` and the
    playlist that holds the songs). */
module Base {

  /** One octet of a file or of a response body. */
  type byte = b: int | 0 <= b < 256

  type Bytes = seq<byte>

  const U64_LIMIT: int := 0x1_0000_0000_0000_0000

  /** Rust's `u64`: content lengths, byte positions and the progress counter. */
  type u64 = x: int | 0 <= x < U64_LIMIT

  /** A path relative to the working directory, written with `/` separators. */
  type Path = string

  datatype Option<+T> = None | Some(value: T)

  function Min(a: int, b: int): int
  {
    if a <= b then a else b
  }

  /** A playlist entry: the map hash that names its files on disk, and the
      optional BeatSaver key used to build its download URL. */
  datatype Song = Song(hash: string, key: Option<string>)

  /** A parsed playlist. Only the song list is read by the downloader; the
      playlist is saved back unchanged at the end of a run. */
  datatype Playlist = Playlist(title: string, songs: seq<Song>)
}
