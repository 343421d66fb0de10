/** The `/info` handler (pkg/server/gateway.go): list a torrent's files and
    take its description from the first file whose extension is ".txt". */
module InfoHandler {
  import opened Results
  import opened Errors
  import opened Engine
  import opened Http
  import opened Text
  import Api

  /** Whether a file supplies the description: its path ends in ".txt",
      which is when path.Ext of it is exactly ".txt". */
  predicate IsText(f: TorrentFile)
  {
    |f.path| >= 4 && f.path[|f.path| - 4..] == ".txt"
  }

  /** IsText is the source's test on path.Ext. */
  lemma IsTextIsExt(f: TorrentFile)
    ensures IsText(f) <==> Ext(f.path) == ".txt"
  {
    TxtExtension(f.path);
  }

  /** Index of the first text file, if any. */
  function FirstText(files: seq<TorrentFile>): (r: Option<nat>)
    ensures r.Some? ==> r.value < |files| && IsText(files[r.value])
    ensures r.Some? ==> forall j :: 0 <= j < r.value ==> !IsText(files[j])
    ensures r.None? <==> forall j :: 0 <= j < |files| ==> !IsText(files[j])
  {
    if files == [] then None
    else if IsText(files[0]) then Some(0)
    else
      var rest := FirstText(files[1..]);
      assert forall j :: 1 <= j < |files| ==> files[j] == files[1..][j - 1];
      if rest.None? then None else Some(rest.value + 1)
  }

  /** What an Info record must hold for torrent `t` when the description
      file was read as `description`: the torrent's name, hash and date,
      and every file as (path, length) in the torrent's order. */
  predicate Lists(info: Api.Info, t: Torrent)
  {
    && info.name == t.name
    && info.infoHash == t.infoHash
    && info.creationDate == t.creationDate
    && |info.files| == |t.files|
    && forall i :: 0 <= i < |t.files| ==> info.files[i] == Api.File(t.files[i].path, t.files[i].length)
  }

  /** The loop building the Info record. Reading the first text file may
      fail, which raises that error; later text files are never read. */
  method AssembleInfo(t: Torrent) returns (r: Result<Api.Info, Error>)
    ensures r.Success? ==> Lists(r.value, t)
    ensures FirstText(t.files).None? ==> r.Success? && r.value.description == ""
    ensures FirstText(t.files).Some? ==>
      var f := t.files[FirstText(t.files).value];
      && (f.content.Success? ==> r.Success? && r.value.description == f.content.value)
      && (f.content.Failure? ==> r == Failure(f.content.error))
  {
    ghost var first := FirstText(t.files);
    var files: seq<Api.File> := [];
    var description := "";
    var found := false;
    var i := 0;
    while i < |t.files|
      invariant 0 <= i <= |t.files|
      invariant |files| == i
      invariant forall k :: 0 <= k < i ==> files[k] == Api.File(t.files[k].path, t.files[k].length)
      invariant found <==> first.Some? && first.value < i
      invariant !found ==> description == ""
      invariant found ==> t.files[first.value].content == Success(description)
    {
      var f := t.files[i];
      files := files + [Api.File(f.path, f.length)];
      if IsText(f) && !found {
        assert first == Some(i);
        match f.content
        case Failure(e) =>
          return Failure(e);
        case Success(text) =>
          description := text;
          found := true;
      }
      i := i + 1;
    }
    r := Success(Api.Info(t.name, t.infoHash, t.creationDate, description, files));
  }

  /** The handler as written: an empty magnet link writes 422 and raises;
      a join failure or a failed read raises. Nothing in this handler
      recovers, so the raise ends in net/http's own recovery. */
  method AnswerInfo(magnet: string, join: Result<Torrent, Error>) returns (r: Reply<Api.Info>)
    ensures !r.recovered
    ensures r.joinRequested <==> magnet != ""
    ensures magnet == "" ==> r.writes == [Header(StatusUnprocessableEntity)] && r.raised == Some(EmptyMagnetLink)
    ensures r.joinRequested && join.Failure? ==> r.writes == [] && r.raised == Some(join.error)
    ensures r.joinRequested && join.Success? ==>
      var t := join.value;
      && (r.raised.None? <==> (FirstText(t.files).None? || t.files[FirstText(t.files).value].content.Success?))
      && (r.raised.Some? ==> r.writes == [] && r.raised == Some(t.files[FirstText(t.files).value].content.error))
      && (r.raised.None? ==> |r.writes| == 1 && r.writes[0].Body? && Lists(r.writes[0].body, t))
      && (r.raised.None? && FirstText(t.files).None? ==> r.writes[0].body.description == "")
      && (r.raised.None? && FirstText(t.files).Some? ==>
            r.writes[0].body.description == t.files[FirstText(t.files).value].content.value)
  {
    if magnet == "" {
      return Reply(false, [Header(StatusUnprocessableEntity)], Some(EmptyMagnetLink), false);
    }
    if join.Failure? {
      return Reply(true, [], Some(join.error), false);
    }
    var info := AssembleInfo(join.value);
    match info
    case Failure(e) =>
      r := Reply(true, [], Some(e), false);
    case Success(i) =>
      r := Reply(true, [Body(i)], None, false);
  }

  /** As written, a request without a magnet link gets no 422: the client
      sees the connection closed. */
  method EmptyMagnetClosesConnection(join: Result<Torrent, Error>) returns (r: Reply<Api.Info>)
    ensures Deliver(r) == ConnectionClosed
    ensures r.writes == [Header(StatusUnprocessableEntity)]
  {
    r := AnswerInfo("", join);
  }

  /** A deferred handler like the one `/stream` has, but writing 500 only
      when something was raised. */
  function Recover<B>(r: Reply<B>): (s: Reply<B>)
    ensures s.recovered && s.joinRequested == r.joinRequested && s.raised == r.raised
    ensures Deliver(s) == (if r.writes != [] then Delivered(r.writes[0])
                           else if r.raised.Some? then Delivered(Header(StatusInternalServerError))
                           else Delivered(Header(StatusOK)))
  {
    if r.raised.Some? then r.(writes := r.writes + [Header(StatusInternalServerError)], recovered := true)
    else r.(recovered := true)
  }

  /** The handler with the raise recovered, as the 422 write intends:
      an empty magnet link answers 422 without joining, an engine or read
      failure answers 500, and otherwise the Info record is sent. */
  method ServeInfo(magnet: string, join: Result<Torrent, Error>) returns (r: Reply<Api.Info>)
    ensures r.joinRequested <==> magnet != ""
    ensures magnet == "" ==> Deliver(r) == Delivered(Header(StatusUnprocessableEntity))
    ensures r.joinRequested && join.Failure? ==> Deliver(r) == Delivered(Header(StatusInternalServerError))
    ensures r.joinRequested && join.Success? ==>
      var t := join.value;
      && (r.raised.Some? <==> FirstText(t.files).Some? && t.files[FirstText(t.files).value].content.Failure?)
      && (r.raised.Some? ==> Deliver(r) == Delivered(Header(StatusInternalServerError)))
      && (r.raised.None? ==> Deliver(r).first.Body? && Lists(Deliver(r).first.body, t))
      && (r.raised.None? ==> Deliver(r).first.Body? && Deliver(r).first.body.description == (if FirstText(t.files).None? then "" else t.files[FirstText(t.files).value].content.value))
  {
    var answer := AnswerInfo(magnet, join);
    r := Recover(answer);
  }
}
