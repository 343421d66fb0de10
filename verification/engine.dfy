/** The torrent engine's state, as the gateway sees it once a torrent's
    metadata is available. The engine itself is not modelled: its answers
    are given as plain values. */
module Engine {
  import opened Results
  import opened Errors

  /** One file of a torrent: its path inside the torrent, its length, the
      bytes downloaded so far, and what reading it to the end yields. */
  datatype TorrentFile = TorrentFile(
    path: string,
    length: int,
    bytesCompleted: int,
    content: Result<string, Error>)

  /** A joined torrent. `magnet` is the magnet link rebuilt from the stored
      metainfo, or None when that metainfo does not decode. */
  datatype Torrent = Torrent(
    name: string,
    infoHash: string,
    creationDate: int,
    files: seq<TorrentFile>,
    peers: nat,
    magnet: Option<string>)
}
