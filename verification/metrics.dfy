/** The `/metrics` handler (pkg/server/gateway.go): one entry per torrent
    the engine holds, in the engine's order, skipping every torrent whose
    stored metainfo does not decode. */
module Metrics {
  import opened Engine
  import opened Api

  predicate Decodes(t: Torrent)
  {
    t.magnet.Some?
  }

  /** The completion snapshot of a torrent's files, in order. */
  function FileSnapshots(files: seq<TorrentFile>): (r: seq<FileMetrics>)
    ensures |r| == |files|
    ensures forall i :: 0 <= i < |files| ==>
      r[i] == FileMetrics(files[i].path, files[i].length, files[i].bytesCompleted)
  {
    if files == [] then []
    else [FileMetrics(files[0].path, files[0].length, files[0].bytesCompleted)] + FileSnapshots(files[1..])
  }

  /** The entry for a torrent whose metainfo decodes. */
  function Snapshot(t: Torrent): TorrentMetrics
    requires Decodes(t)
  {
    TorrentMetrics(t.magnet.value, t.infoHash, t.peers, FileSnapshots(t.files))
  }

  /** Number of torrents whose metainfo decodes. */
  function CountDecodable(torrents: seq<Torrent>): nat
  {
    if torrents == [] then 0
    else (if Decodes(torrents[0]) then 1 else 0) + CountDecodable(torrents[1..])
  }

  /** The loop over the engine's torrents. */
  function Collect(torrents: seq<Torrent>): (r: seq<TorrentMetrics>)
    ensures |r| == CountDecodable(torrents)
  {
    if torrents == [] then []
    else
      var rest := Collect(torrents[1..]);
      if Decodes(torrents[0]) then [Snapshot(torrents[0])] + rest else rest
  }

  /** Every entry is the snapshot of a torrent that decodes, and every
      torrent that decodes has its entry. */
  lemma {:induction false} CollectEntries(torrents: seq<Torrent>)
    ensures forall m :: m in Collect(torrents) ==> exists t :: t in torrents && Decodes(t) && m == Snapshot(t)
    ensures forall t :: t in torrents && Decodes(t) ==> Snapshot(t) in Collect(torrents)
    decreases |torrents|
  {
    if torrents != [] {
      CollectEntries(torrents[1..]);
      assert forall t :: t in torrents[1..] ==> t in torrents;
      assert forall t :: t in torrents ==> t == torrents[0] || t in torrents[1..];
    }
  }

  /** Collecting is done torrent by torrent: the entries for two lists
      one after the other are the entries of each, in order. */
  lemma {:induction false} CollectAppend(a: seq<Torrent>, b: seq<Torrent>)
    ensures Collect(a + b) == Collect(a) + Collect(b)
    decreases |a|
  {
    if a != [] {
      assert (a + b)[0] == a[0];
      assert (a + b)[1..] == a[1..] + b;
      CollectAppend(a[1..], b);
      var head := if Decodes(a[0]) then [Snapshot(a[0])] else [];
      assert Collect(a + b) == head + Collect(a[1..] + b);
      assert Collect(a) == head + Collect(a[1..]);
      assert head + (Collect(a[1..]) + Collect(b)) == (head + Collect(a[1..])) + Collect(b);
    } else {
      assert a + b == b;
    }
  }

  /** When every torrent decodes, entry i is the snapshot of torrent i. */
  lemma {:induction false} CollectAllDecodable(torrents: seq<Torrent>)
    requires forall i :: 0 <= i < |torrents| ==> Decodes(torrents[i])
    ensures |Collect(torrents)| == |torrents|
    ensures forall i :: 0 <= i < |torrents| ==> Collect(torrents)[i] == Snapshot(torrents[i])
    decreases |torrents|
  {
    if torrents != [] {
      CollectAllDecodable(torrents[1..]);
    }
  }

  /** A torrent whose metainfo does not decode is skipped, and the rest of
      the response is unaffected. */
  lemma SkipUndecodable(a: seq<Torrent>, t: Torrent, b: seq<Torrent>)
    requires !Decodes(t)
    ensures Collect(a + [t] + b) == Collect(a + b)
  {
    CollectAppend(a + [t], b);
    CollectAppend(a, [t]);
    CollectAppend(a, b);
  }
}
