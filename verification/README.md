# htorrent gateway, modelled in Dafny

This project models the core of the htorrent gateway. The gateway is an
HTTP server that joins BitTorrent swarms by magnet link and exposes their
files over three endpoints:

- `/info` lists a torrent's files and its description;
- `/metrics` reports the download progress of every torrent;
- `/stream` serves a file while its download is still in progress.

The model covers:

- how `Gateway.Open` turns the gateway's options into the torrent
  client's configuration: download directory, peers, DHT, UPnP and
  transports;
- how the `gateway` command parses its `--protocols` flag
  (`strings.Split` on commas, then `strings.TrimSpace`);
- the three handlers, including which status code reaches the client;
- the progress reporter each `/stream` request starts;
- `Gateway.Close` and `Gateway.Wait`.

The torrent engine is not modelled. Its answers are given as plain values:

- a joined torrent (`Engine.Torrent`) with its files, peer count and
  rebuilt magnet link;
- the result of reading a file;
- the errors returned when shutting things down.

HTTP is modelled as the sequence of writes a handler makes (`Http.Reply`).
`Http.Deliver` gives what the client actually receives:

- net/http keeps the first status written;
- a panic that escapes a handler makes net/http close the connection
  without sending the buffered response.

A Go string is a sequence of bytes. The model represents each string as
the sequence of code points its UTF-8 encodes. `strings.TrimSpace` uses
the full Unicode White_Space set, which is what `unicode.IsSpace` tests.

Modules, one file each:

| module | contents |
|---|---|
| `Results`, `Errors` | options and results; the gateway's errors |
| `Engine`, `Api` | engine data as values; the JSON shapes |
| `Http` | writes and delivery |
| `Text` | `strings.Split`, `strings.TrimSpace`, `path.Ext` |
| `Configure` | `Open` |
| `GatewayCommand` | the protocol flag |
| `Stream`, `Progress`, `InfoHandler`, `Metrics` | the handlers and the progress reporter |
| `Lifecycle` | `Close` and `Wait` |

`/stream` wraps its handler in a deferred recover that answers 500.
`/info` and `/metrics` have none, so a panic there ends in net/http's own
recovery (see Findings).

## Model

| member | source | states |
|---|---|---|
| Http.Deliver | pkg/server/gateway.go:277-306 | what the client receives, assuming of net/http that the first status or body written fixes the response (a later WriteHeader is superfluous), that no write means an empty 200, and that a panic escaping the handler closes the connection without sending the buffered response |
| Http.FirstWriteWins | pkg/server/gateway.go:277-306 | once a handler has written, later writes such as the deferred 500 do not change what the client receives |
| Text.Split | cmd/htorrent/cmd/gateway.go:67 | strings.Split on one separator gives one part more than there are separators; no part contains the separator; joining the parts with it gives the input back |
| Text.SplitJoin | cmd/htorrent/cmd/gateway.go:67 | splitting a join of separator-free parts returns exactly those parts |
| Text.LeadLength | cmd/htorrent/cmd/gateway.go:69 | the counted leading run is all white space and is maximal: the next character is not white space |
| Text.TrailLength | cmd/htorrent/cmd/gateway.go:69 | the counted trailing run is all white space and is maximal |
| Text.TrimSpace | cmd/htorrent/cmd/gateway.go:69 | the trimmed string neither starts nor ends with white space and is no longer than the input |
| Text.TrimSpaceInfix | cmd/htorrent/cmd/gateway.go:69 | the trimmed string is the infix of the input after its leading white space, and everything before and after that infix is white space |
| Text.TrimSpacePadding | cmd/htorrent/cmd/gateway.go:69 | trimming any white-space padding around a trimmed string gives that string back, so the infix is unique |
| Text.TrimSpaceWithin | cmd/htorrent/cmd/gateway.go:69 | trimming introduces no character absent from the input |
| Text.Ext | pkg/server/gateway.go:209 | path.Ext: empty or starting at a '.', and never longer than the path; ExtShape, ExtEmptyHasNoDot and TxtExtension say which suffix it is |
| Text.ExtLength | pkg/server/gateway.go:209 | the extension path.Ext finds starts at a '.', and nothing after that '.' is a '.' or a '/' |
| Text.ExtShape | pkg/server/gateway.go:209 | a non-empty extension starts with '.', contains no '/' and no second '.' |
| Text.ExtEmptyHasNoDot | pkg/server/gateway.go:209 | an empty extension means the last slash-separated element has no '.' |
| Text.TxtExtension | pkg/server/gateway.go:209 | path.Ext is ".txt" exactly when the path ends in ".txt" |
| GatewayCommand.ParseProtocols | cmd/htorrent/cmd/gateway.go:63-71 | an empty flag gives the empty list; otherwise there is one element per comma-separated segment, each trimmed |
| GatewayCommand.ParseProtocolsSegments | cmd/htorrent/cmd/gateway.go:66-70 | element i is segment i of the split with white space trimmed |
| GatewayCommand.ParseProtocolsCommaFree | cmd/htorrent/cmd/gateway.go:66-70 | no element contains a comma |
| GatewayCommand.SegmentsCons | cmd/htorrent/cmd/gateway.go:66-70 | a comma-free run before a comma becomes the first element, trimmed |
| GatewayCommand.ParseJoined | cmd/htorrent/cmd/gateway.go:63-71 | parsing undoes joining with commas, for any list of trimmed comma-free names other than [""] |
| GatewayCommand.PairParses | cmd/htorrent/cmd/gateway.go:63-71 | "a,b" parses to [a, b] |
| GatewayCommand.BlankAfterCommaDropped | cmd/htorrent/cmd/gateway.go:66-70 | "a, b" parses to [a, b]: the blank after the comma is dropped |
| GatewayCommand.SpacedListParses | cmd/htorrent/cmd/gateway.go:63-71 | "tcp, utp" parses to ["tcp", "utp"] |
| GatewayCommand.EmptySegmentKept | cmd/htorrent/cmd/gateway.go:66-70 | an empty segment between commas survives as "" |
| GatewayCommand.EmptySegmentSurvives | cmd/htorrent/cmd/gateway.go:63-71 | "tcp,,utp" parses to ["tcp", "", "utp"] |
| GatewayCommand.FlagTransportsSpec | cmd/htorrent/cmd/gateway.go:63-81 | end to end: an empty flag keeps the engine's transport defaults; otherwise TCP (uTP) is enabled iff a segment trims to "tcp" ("utp") or none is recognised, so both are never disabled |
| GatewayCommand.DefaultEnablesBoth | cmd/htorrent/cmd/gateway.go:148 | the default flag "tcp,utp" enables both transports |
| Configure.ResolveTransports | pkg/server/gateway.go:134-159 | an empty list keeps the defaults; a non-empty list never disables both transports |
| Configure.EnableAllNames | pkg/server/gateway.go:140-151 | after the switch loop a transport is disabled iff it started disabled and the list never names it |
| Configure.ResolveTransportsExpected | pkg/server/gateway.go:134-159 | the flags equal the membership description: for a non-empty list, TCP is enabled iff "tcp" is listed or nothing is recognised, and likewise uTP |
| Configure.ResolveTransportsByMembership | pkg/server/gateway.go:135-158 | two lists naming the same protocols give the same flags, whatever their order or repetitions |
| Configure.Open | pkg/server/gateway.go:85-167 | a directory is created only when the download directory is set, and a failure there returns that error before anything else. Otherwise the configuration has: the debug flag; the free port; download directory or storage as data directory; max peers only when positive; NoDHT = !dht; NoDefaultPortForwarding = !upnp; and the transports above. The client constructor's error is returned |
| Stream.MatchingFiles | pkg/server/gateway.go:320-328 | the matches are exactly the files whose path equals the requested one; the list is empty iff no file matches; the first entry is the first matching file of the torrent |
| Stream.MatchingAppend | pkg/server/gateway.go:321-326 | matching goes file by file in torrent order: the matches of a concatenation are the matches of each part, one after the other |
| Stream.MatchingOne | pkg/server/gateway.go:324-326 | a single file is kept exactly when its path equals the requested one, so with MatchingAppend every matching file appears once per occurrence, in order |
| Stream.ServeMatches | pkg/server/gateway.go:320-365 | the loop starts a reporter and serves a body for every match, in order, and `found` holds iff something matched |
| Stream.HandleStream | pkg/server/gateway.go:276-372 | empty magnet or path: 422, no join, no reporters. Join failure: 500. No file matches: 404. Otherwise the content of the torrent's first matching file is delivered and a reporter runs for every match. The deferred 500 is always written last and recovers every raise |
| Progress.Run | pkg/server/gateway.go:330-357 | the reporter reads samples until one shows the file complete and stops there; every event has completed < length and carries the request's magnet link and the file's path |
| Progress.StopIndex | pkg/server/gateway.go:336 | the index of the first sample showing the file complete |
| Progress.RunMatchesExpected | pkg/server/gateway.go:334-356 | the events are exactly the samples before the first complete one whose completed bytes differ from the previous sample (or from 0 for the first), in order; the reporter reads up to and including the complete sample |
| Progress.StopsAtCompletion | pkg/server/gateway.go:336-355 | samples after the first complete one are never read |
| Progress.InitialZeroSilent | pkg/server/gateway.go:334-337 | a file at 0 bytes on the first tick produces no event for it |
| Progress.GrowingReports | pkg/server/gateway.go:336-352 | while the completed counter never decreases, each event shows strictly more completed bytes than the one before |
| InfoHandler.IsTextIsExt | pkg/server/gateway.go:209 | the description test agrees with path.Ext(path) == ".txt" |
| InfoHandler.FirstText | pkg/server/gateway.go:197-225 | the index of the first text file, none before it; None iff there is no text file |
| InfoHandler.AssembleInfo | pkg/server/gateway.go:190-226 | the record has the torrent's name, hash, date and every file's (path, length) in order. The description is the first text file's content, or "" if there is none. A failed read of that file raises its error. Later text files are never read |
| InfoHandler.AnswerInfo | pkg/server/gateway.go:172-232 | as written: an empty magnet writes 422 and raises without joining; a join or read failure raises; otherwise the record is written; nothing recovers |
| InfoHandler.EmptyMagnetClosesConnection | pkg/server/gateway.go:174-178 | as written, a request without a magnet link writes 422, yet the client only sees the connection closed |
| InfoHandler.Recover | pkg/server/gateway.go:277-293 | a deferred recovery: a raised error is recovered and answered 500 unless a status was already written. Unlike the `/stream` handler, which writes 500 on every exit, it writes 500 only after a raise; the client receives the same either way whenever the reply wrote something or raised, which every AnswerInfo reply does |
| InfoHandler.ServeInfo | pkg/server/gateway.go:172-232 | corrected: an empty magnet is answered 422 without joining; a join or read failure is answered 500; otherwise the delivered record lists the torrent's name, hash, date and files, and its description is the first `.txt` file's content, or empty when there is none |
| Metrics.FileSnapshots | pkg/server/gateway.go:251-258 | one (path, length, completed) entry per file, in order |
| Metrics.Collect | pkg/server/gateway.go:238-268 | one entry per torrent whose metainfo decodes |
| Metrics.CollectEntries | pkg/server/gateway.go:238-268 | every entry is the snapshot of a decodable torrent, and every decodable torrent has its entry |
| Metrics.CollectAppend | pkg/server/gateway.go:239-268 | the response is built torrent by torrent, in the engine's order |
| Metrics.CollectAllDecodable | pkg/server/gateway.go:239-268 | when all torrents decode, entry i is the snapshot of torrent i |
| Metrics.SkipUndecodable | pkg/server/gateway.go:242-249 | a torrent whose metainfo does not decode is skipped and the rest of the response is unchanged |
| Lifecycle.FirstCounting | pkg/server/gateway.go:407-414 | the first engine close error that is neither nil nor context.Canceled; none iff no error counts |
| Lifecycle.Close | pkg/server/gateway.go:398-417 | a listener shutdown error other than Canceled is returned before the engine is closed; otherwise the engine is closed and the first counting close error is returned; Canceled is never returned |
| Lifecycle.Wait | pkg/server/gateway.go:419-427 | Wait returns the first non-nil error received, nil once the channel is closed with nothing else received, and otherwise blocks |
| Lifecycle.Listener | pkg/server/gateway.go:381-393 | the listener goroutine closes the error channel exactly on ErrServerClosed and sends any other error on it |
| Lifecycle.WaitAfterListener | pkg/server/gateway.go:381-393 | after a clean shutdown (ErrServerClosed) Wait returns nil; after any other listener error it returns that error |

## Left out

- The torrent engine, which is given as values: joining, the metadata
  wait, file readers, peer connections, storage and magnet-link
  reconstruction. Joining the same magnet twice reuses one torrent in the
  engine, so `/metrics` lists it once; that is engine behaviour and is not
  modelled.
- http.ServeContent. Byte ranges, 206, 304 and content types are not
  modelled. Serving a file is one body write.
- JSON encoding and its failure. That failure raises in `/info` and
  `/metrics`, after their writes.
- Goroutines, the 100 ms ticker and channel timing. The progress reporter
  runs over a finite list of samples. The error channel is the values it
  received plus whether it was closed.
- freeport.GetFreePort and its panic: the port is a parameter of
  `Configure.Open`.
- The MinPeerExtensions bit and the storage constructor.
- Logging, OS signals, cobra/viper flag binding, the PORT variable, the
  listen address, the API credential flags and OIDC.
- A second call of Close after a completed one: its outcome depends on
  net/http and the engine.
- Invalid UTF-8 in any string (flag values, query values, torrent paths):
  every string is modelled as the code points of valid UTF-8.
- Int64 byte counts are mathematical integers. The code only compares
  them, so nothing wraps.
- InfoHandler.IsText is stated on the ".txt" suffix; Text.TxtExtension
  shows this is the same as the `path.Ext` test.
- Progress.InitialZeroSilent needs a first sample below the file length;
  for a complete first sample, Progress.Run already says the reporter
  stops there.

## Findings

| source | as written | input that shows it | evidently intended | confidence | as-written member | corrected member |
|---|---|---|---|---|---|---|
| pkg/server/gateway.go:174-178 | the `/info` handler writes 422 and then panics. Unlike `/stream` it has no deferred recover. net/http recovers the panic by closing the connection, and the 422 buffered by WriteHeader is never sent. A join or read failure likewise gives a closed connection, not 500 | GET /info with no `magnet` parameter | the client receives 422, as it does from `/stream`, and 500 for engine failures | medium; not executed | InfoHandler.EmptyMagnetClosesConnection | InfoHandler.ServeInfo |
