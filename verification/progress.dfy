/** The progress reporter `/stream` starts for each matching file
    (pkg/server/gateway.go): on every tick it samples the file's completed
    bytes and length, reports a change while the file is incomplete, and
    stops at the first sample showing the file complete. The ticker is
    replaced by a finite sequence of samples. */
module Progress {
  import opened Results
  import opened Api

  /** One tick's reading: bytes completed, file length, connected peers. */
  datatype Sample = Sample(completed: int, length: int, peers: nat)

  /** One call of the progress callback. */
  datatype Event = Event(torrent: TorrentMetrics, file: FileMetrics)

  /** The outcome of one tick: stop, or carry on with the new
      `lastCompleted` and possibly an event. */
  datatype Step = Stop | Continue(last: int, event: Option<Event>)

  /** The events reported, the number of samples read, and whether the
      reporter stopped. */
  datatype Report = Report(events: seq<Event>, consumed: nat, finished: bool)

  /** A sample at which the reporter stops. */
  predicate Terminal(s: Sample)
  {
    s.completed >= s.length
  }

  /** The callback arguments for a sample: the request's magnet link, the
      live peer count and no file list; the file's path, length and
      completed bytes. */
  function EventFor(magnet: string, path: string, s: Sample): Event
  {
    Event(TorrentMetrics(magnet, "", s.peers, []), FileMetrics(path, s.length, s.completed))
  }

  /** One loop iteration, given `lastCompleted`. */
  function Tick(magnet: string, path: string, last: int, s: Sample): Step
  {
    if s.completed < s.length then
      Continue(s.completed, if s.completed != last then Some(EventFor(magnet, path, s)) else None)
    else
      Stop
  }

  function EventList(e: Option<Event>): seq<Event>
  {
    if e.Some? then [e.value] else []
  }

  /** The reporter run over `samples`, starting with `lastCompleted = last`. */
  function Run(magnet: string, path: string, last: int, samples: seq<Sample>): (r: Report)
    ensures r.consumed <= |samples|
    ensures r.finished ==> r.consumed >= 1 && Terminal(samples[r.consumed - 1])
    ensures !r.finished ==> r.consumed == |samples|
    ensures forall e :: e in r.events ==> e.file.completed < e.file.length
    ensures forall e :: e in r.events ==> e.torrent.magnet == magnet && e.file.path == path
    decreases |samples|
  {
    if samples == [] then Report([], 0, false)
    else
      match Tick(magnet, path, last, samples[0])
      case Stop => Report([], 1, true)
      case Continue(next, event) =>
        var rest := Run(magnet, path, next, samples[1..]);
        Report(EventList(event) + rest.events, rest.consumed + 1, rest.finished)
  }

  /** The reporter as the goroutine starts it: `lastCompleted` is 0. */
  function Reporter(magnet: string, path: string, samples: seq<Sample>): Report
  {
    Run(magnet, path, 0, samples)
  }

  /** Index of the first terminal sample, or |samples| when there is none. */
  function StopIndex(samples: seq<Sample>): (k: nat)
    ensures k <= |samples|
    ensures forall j :: 0 <= j < k ==> !Terminal(samples[j])
    ensures k < |samples| ==> Terminal(samples[k])
  {
    if samples == [] then 0
    else if Terminal(samples[0]) then 0
    else 1 + StopIndex(samples[1..])
  }

  /** The value of `lastCompleted` when sample `i` is read: the previous
      sample's completed bytes, or the start value for the first sample. */
  function Previous(last: int, samples: seq<Sample>, i: nat): int
    requires i < |samples|
  {
    if i == 0 then last else samples[i - 1].completed
  }

  /** Whether sample `i` is reported: it changed since the previous sample. */
  predicate Changed(last: int, samples: seq<Sample>, i: nat)
    requires i < |samples|
  {
    samples[i].completed != Previous(last, samples, i)
  }

  /** Reference: the events for the first `n` samples, one for each sample
      that changed. */
  function Expected(magnet: string, path: string, last: int, samples: seq<Sample>, n: nat): seq<Event>
    requires n <= |samples|
  {
    if n == 0 then []
    else
      Expected(magnet, path, last, samples, n - 1)
        + (if Changed(last, samples, n - 1) then [EventFor(magnet, path, samples[n - 1])] else [])
  }

  /** Reading the first sample separately from the rest. */
  lemma {:induction false} ExpectedFirst(magnet: string, path: string, last: int, samples: seq<Sample>, n: nat)
    requires 0 < n <= |samples|
    ensures Expected(magnet, path, last, samples, n)
      == (if Changed(last, samples, 0) then [EventFor(magnet, path, samples[0])] else [])
         + Expected(magnet, path, samples[0].completed, samples[1..], n - 1)
  {
    if n > 1 {
      ExpectedFirst(magnet, path, last, samples, n - 1);
      assert Previous(samples[0].completed, samples[1..], n - 2) == Previous(last, samples, n - 1);
      assert samples[1..][n - 2] == samples[n - 1];
    }
  }

  /** The reporter reports exactly the samples before the first terminal
      one whose completed bytes differ from the previous sample's; it reads
      up to and including that terminal sample, and stops there. */
  lemma {:induction false} RunMatchesExpected(magnet: string, path: string, last: int, samples: seq<Sample>)
    ensures var k := StopIndex(samples);
      Run(magnet, path, last, samples)
        == Report(Expected(magnet, path, last, samples, k), if k < |samples| then k + 1 else k, k < |samples|)
    decreases |samples|
  {
    if samples != [] && !Terminal(samples[0]) {
      RunMatchesExpected(magnet, path, samples[0].completed, samples[1..]);
      ExpectedFirst(magnet, path, last, samples, StopIndex(samples));
    }
  }

  /** Samples after the first terminal one are never read. */
  lemma {:induction false} StopsAtCompletion(magnet: string, path: string, last: int, samples: seq<Sample>, later: seq<Sample>)
    requires StopIndex(samples) < |samples|
    ensures Run(magnet, path, last, samples + later) == Run(magnet, path, last, samples)
    decreases |samples|
  {
    if !Terminal(samples[0]) {
      assert (samples + later)[1..] == samples[1..] + later;
      StopsAtCompletion(magnet, path, samples[0].completed, samples[1..], later);
    }
  }

  /** A file that starts at 0 bytes produces no event on its first sample. */
  lemma InitialZeroSilent(magnet: string, path: string, samples: seq<Sample>)
    requires samples != [] && samples[0].completed == 0 < samples[0].length
    ensures Reporter(magnet, path, samples).events == Run(magnet, path, 0, samples[1..]).events
  {
  }

  predicate NonDecreasing(samples: seq<Sample>)
  {
    forall i, j :: 0 <= i < j < |samples| ==> samples[i].completed <= samples[j].completed
  }

  predicate StrictlyGrowing(events: seq<Event>)
  {
    forall i, j :: 0 <= i < j < |events| ==> events[i].file.completed < events[j].file.completed
  }

  /** Putting a report of `c` bytes in front of reports of more bytes
      keeps the sequence strictly growing. */
  lemma GrowingPrepend(head: seq<Event>, rest: seq<Event>, c: int)
    requires |head| <= 1 && forall e :: e in head ==> e.file.completed == c
    requires StrictlyGrowing(rest) && forall e :: e in rest ==> c < e.file.completed
    ensures StrictlyGrowing(head + rest)
  {
    var es := head + rest;
    forall i, j | 0 <= i < j < |es| ensures es[i].file.completed < es[j].file.completed {
      assert es[j] == rest[j - |head|] && rest[j - |head|] in rest;
      if i < |head| {
        assert es[i] == head[i] && head[i] in head;
      } else {
        assert es[i] == rest[i - |head|];
      }
    }
  }

  /** While the engine's counter only grows, every report shows strictly
      more completed bytes than the one before. */
  lemma {:induction false} GrowingReports(magnet: string, path: string, last: int, samples: seq<Sample>)
    requires NonDecreasing(samples)
    requires forall i :: 0 <= i < |samples| ==> last <= samples[i].completed
    ensures forall e :: e in Run(magnet, path, last, samples).events ==> last < e.file.completed
    ensures StrictlyGrowing(Run(magnet, path, last, samples).events)
    decreases |samples|
  {
    if samples != [] && !Terminal(samples[0]) {
      var first := samples[0];
      var tail := samples[1..];
      assert NonDecreasing(tail) by {
        forall i, j | 0 <= i < j < |tail| ensures tail[i].completed <= tail[j].completed {
          assert tail[i] == samples[i + 1] && tail[j] == samples[j + 1];
        }
      }
      forall i | 0 <= i < |tail| ensures first.completed <= tail[i].completed {
        assert tail[i] == samples[i + 1];
      }
      GrowingReports(magnet, path, first.completed, tail);
      var rest := Run(magnet, path, first.completed, tail).events;
      var head := EventList(Tick(magnet, path, last, first).event);
      assert Run(magnet, path, last, samples).events == head + rest;
      GrowingPrepend(head, rest, first.completed);
    }
  }
}
