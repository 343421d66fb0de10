/** The JSON shapes the gateway emits (package api/http/v1). */
module Api {

  datatype File = File(path: string, length: int)

  datatype Info = Info(
    name: string,
    infoHash: string,
    creationDate: int,
    description: string,
    files: seq<File>)

  datatype FileMetrics = FileMetrics(path: string, length: int, completed: int)

  datatype TorrentMetrics = TorrentMetrics(
    magnet: string,
    infoHash: string,
    peers: nat,
    files: seq<FileMetrics>)
}
