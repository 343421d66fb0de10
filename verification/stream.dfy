/** The `/stream` handler (pkg/server/gateway.go): validate the query,
    join the torrent, and for every file whose path equals the requested
    one start a progress reporter and serve the file; answer 404 when none
    matches. Its deferred handler recovers every raised error and writes
    500, which only reaches the client when nothing was written before. */
module Stream {
  import opened Results
  import opened Errors
  import opened Engine
  import opened Http

  /** What the handler did, plus the files it started reporters for. */
  datatype StreamReply = StreamReply(reply: Reply<TorrentFile>, reporters: seq<TorrentFile>)

  /** File `j` is the first whose path is `path`. */
  predicate FirstMatch(files: seq<TorrentFile>, path: string, j: int)
  {
    && 0 <= j < |files|
    && files[j].path == path
    && forall i :: 0 <= i < j ==> files[i].path != path
  }

  /** The files whose path equals `path` exactly (case-sensitive), in order. */
  function MatchingFiles(files: seq<TorrentFile>, path: string): (r: seq<TorrentFile>)
    ensures |r| <= |files|
    ensures forall f :: f in r <==> f in files && f.path == path
    ensures r == [] <==> forall i :: 0 <= i < |files| ==> files[i].path != path
    ensures forall j :: FirstMatch(files, path, j) ==> r[0] == files[j]
  {
    if files == [] then []
    else
      var init := files[..|files| - 1];
      var last := files[|files| - 1];
      assert files == init + [last];
      assert forall i :: 0 <= i < |init| ==> init[i] == files[i];
      MatchingFiles(init, path) + (if last.path == path then [last] else [])
  }

  /** Matching goes file by file: the matches of two lists one after the
      other are the matches of each, in order. With MatchingOne this pins
      the result down to the matching files in torrent order, each as
      often as it occurs. */
  lemma {:induction false} MatchingAppend(a: seq<TorrentFile>, b: seq<TorrentFile>, path: string)
    ensures MatchingFiles(a + b, path) == MatchingFiles(a, path) + MatchingFiles(b, path)
    decreases |b|
  {
    if b == [] {
      assert a + b == a;
    } else {
      var init := b[..|b| - 1];
      var last := b[|b| - 1];
      var tail := if last.path == path then [last] else [];
      assert (a + b)[..|a + b| - 1] == a + init;
      assert (a + b)[|a + b| - 1] == last;
      assert MatchingFiles(a + b, path) == MatchingFiles(a + init, path) + tail;
      assert MatchingFiles(b, path) == MatchingFiles(init, path) + tail;
      MatchingAppend(a, init, path);
      assert MatchingFiles(a, path) + MatchingFiles(init, path) + tail
        == MatchingFiles(a, path) + (MatchingFiles(init, path) + tail);
    }
  }

  /** A single file matches exactly when its path is the requested one. */
  lemma MatchingOne(f: TorrentFile, path: string)
    ensures MatchingFiles([f], path) == (if f.path == path then [f] else [])
  {
    assert [f][..0] == [];
  }

  /** The response bodies written for `fs`, one per file, in order. */
  function Bodies(fs: seq<TorrentFile>): (ws: seq<Write<TorrentFile>>)
    ensures |ws| == |fs|
    ensures forall k :: 0 <= k < |fs| ==> ws[k] == Body(fs[k])
  {
    if fs == [] then [] else Bodies(fs[..|fs| - 1]) + [Body(fs[|fs| - 1])]
  }

  /** The loop over the torrent's files: every match gets a progress
      reporter and is served, and the loop goes on to the end of the list. */
  method ServeMatches(files: seq<TorrentFile>, path: string) returns (found: bool, reporters: seq<TorrentFile>, writes: seq<Write<TorrentFile>>)
    ensures reporters == MatchingFiles(files, path)
    ensures found <==> reporters != []
    ensures writes == Bodies(reporters)
  {
    found := false;
    reporters := [];
    writes := [];
    var i := 0;
    while i < |files|
      invariant 0 <= i <= |files|
      invariant reporters == MatchingFiles(files[..i], path)
      invariant found <==> reporters != []
      invariant writes == Bodies(reporters)
    {
      var f := files[i];
      assert files[..i + 1][..i] == files[..i];
      if f.path == path {
        assert (reporters + [f])[..|reporters|] == reporters;
        found := true;
        reporters := reporters + [f];  // the progress reporter goroutine
        writes := writes + [Body(f)];  // http.ServeContent
      }
      i := i + 1;
    }
    assert files[..i] == files;
  }

  /** The handler, given the query's `magnet` and `path` values and what
      joining the magnet link yields once its metadata is available. */
  method HandleStream(magnet: string, path: string, join: Result<Torrent, Error>) returns (r: StreamReply)
    ensures r.reply.recovered
    ensures |r.reply.writes| >= 1 && r.reply.writes[|r.reply.writes| - 1] == Header(StatusInternalServerError)
    ensures r.reply.joinRequested <==> magnet != "" && path != ""
    ensures magnet == "" ==>
      r.reply.raised == Some(EmptyMagnetLink) && r.reporters == [] && Deliver(r.reply) == Delivered(Header(StatusUnprocessableEntity))
    ensures magnet != "" && path == "" ==>
      r.reply.raised == Some(EmptyPath) && r.reporters == [] && Deliver(r.reply) == Delivered(Header(StatusUnprocessableEntity))
    ensures r.reply.joinRequested && join.Failure? ==>
      r.reply.raised == Some(join.error) && r.reporters == [] && Deliver(r.reply) == Delivered(Header(StatusInternalServerError))
    ensures r.reply.joinRequested && join.Success? ==>
      && r.reporters == MatchingFiles(join.value.files, path)
      && (r.reporters == [] <==> forall i :: 0 <= i < |join.value.files| ==> join.value.files[i].path != path)
      && (r.reporters == [] ==>
            r.reply.raised == Some(CouldNotFindPath) && Deliver(r.reply) == Delivered(Header(StatusNotFound)))
      && (r.reporters != [] ==>
            r.reply.raised == None && Deliver(r.reply) == Delivered(Body(r.reporters[0])))
      && (forall j :: FirstMatch(join.value.files, path, j) ==>
            Deliver(r.reply) == Delivered(Body(join.value.files[j])))
      && |r.reporters| < |r.reply.writes|
      && (forall k :: 0 <= k < |r.reporters| ==> r.reply.writes[k] == Body(r.reporters[k]))
  {
    if magnet == "" {
      return StreamReply(Reply(false, [Header(StatusUnprocessableEntity), Header(StatusInternalServerError)], Some(EmptyMagnetLink), true), []);
    }
    if path == "" {
      return StreamReply(Reply(false, [Header(StatusUnprocessableEntity), Header(StatusInternalServerError)], Some(EmptyPath), true), []);
    }
    if join.Failure? {
      return StreamReply(Reply(true, [Header(StatusInternalServerError)], Some(join.error), true), []);
    }
    var found, reporters, writes := ServeMatches(join.value.files, path);
    if !found {
      writes := writes + [Header(StatusNotFound)];
      r := StreamReply(Reply(true, writes + [Header(StatusInternalServerError)], Some(CouldNotFindPath), true), reporters);
    } else {
      r := StreamReply(Reply(true, writes + [Header(StatusInternalServerError)], None, true), reporters);
    }
  }
}
