/** Proxy telemetry: totals become windows with byte counts, and the counts add up. */
module ProxyTelemetry {
  import opened Sequences
  import opened Wrappers
  import opened Protocol

  datatype Snapshot = Snapshot(active: bool, engine: string, mode: string, profileId: string, profileRevision: int,
                               selectedProxy: string, uploadTotal: int, downloadTotal: int, activeConnections: int)

  datatype Sample = Sample(at: Time, snapshot: Snapshot)

  /** A reported window and the bytes of it. */
  datatype Window = Window(start: Time, end: Time, upload: int, download: int, of: Snapshot)

  datatype Names = Names(valid: string -> bool)

  const MAX_CONNECTIONS := 1_000_000

  predicate Usable(names: Names, s: Snapshot) {
    && s.engine == "mihomo" && (s.mode == "managed_follow" || s.mode == "app_subscription")
    && ValidIdentifier(s.profileId) && s.profileRevision >= 1 && names.valid(s.selectedProxy)
    && s.uploadTotal >= 0 && s.downloadTotal >= 0 && 0 <= s.activeConnections <= MAX_CONNECTIONS
  }

  predicate SameFlow(a: Snapshot, b: Snapshot) {
    && a.engine == b.engine && a.mode == b.mode && a.profileId == b.profileId
    && a.profileRevision == b.profileRevision && a.selectedProxy == b.selectedProxy
  }

  /** The same flow, and no counter went back. */
  predicate Continues(a: Snapshot, b: Snapshot) {
    SameFlow(a, b) && b.uploadTotal >= a.uploadTotal && b.downloadTotal >= a.downloadTotal
  }

  // --- the client ---

  function Next(names: Names, previous: Option<Sample>, sample: Sample): Option<Sample> {
    if !sample.snapshot.active then None else if !Usable(names, sample.snapshot) then previous else Some(sample)
  }

  function Report(names: Names, previous: Option<Sample>, sample: Sample): Option<Window> {
    var s := sample.snapshot;
    if !s.active || !Usable(names, s) then None
    else if previous.Some? && Continues(previous.value.snapshot, s) then
      Some(Window(previous.value.at, sample.at, s.uploadTotal - previous.value.snapshot.uploadTotal,
                  s.downloadTotal - previous.value.snapshot.downloadTotal, s))
    else Some(Window(sample.at, sample.at, 0, 0, s))
  }

  class TelemetryClient {
    const names: Names
    var previous: Option<Sample>

    constructor (names: Names)
      ensures this.names == names && previous == None
    {
      this.names, previous := names, None;
    }

    method ProxyAggregate(now: Time, snapshot: Snapshot) returns (window: Option<Window>)
      modifies this
      ensures window == Report(names, old(previous), Sample(now, snapshot))
      ensures previous == Next(names, old(previous), Sample(now, snapshot))
    {
      if !snapshot.active {
        previous := None;
        return None;
      }
      if !Usable(names, snapshot) {
        return None;
      }
      var start, upload, download := now, 0, 0;
      if previous.Some? && Continues(previous.value.snapshot, snapshot) {
        start := previous.value.at;
        upload := snapshot.uploadTotal - previous.value.snapshot.uploadTotal;
        download := snapshot.downloadTotal - previous.value.snapshot.downloadTotal;
      }
      previous := Some(Sample(now, snapshot));
      window := Some(Window(start, now, upload, download, snapshot));
    }
  }

  /** Everything reported over a run. */
  function Windows(names: Names, previous: Option<Sample>, samples: seq<Sample>): seq<Window>
    decreases |samples|
  {
    if samples == [] then []
    else
      var window := Report(names, previous, samples[0]);
      (if window.Some? then [window.value] else []) + Windows(names, Next(names, previous, samples[0]), samples[1..])
  }

  /** A run of the client reports exactly these windows. */
  method ReportAll(client: TelemetryClient, samples: seq<Sample>) returns (windows: seq<Window>)
    modifies client
    ensures windows == Windows(client.names, old(client.previous), samples)
  {
    hide Report, Next;
    windows := [];
    for i := 0 to |samples|
      invariant windows + Windows(client.names, client.previous, samples[i..])
             == Windows(client.names, old(client.previous), samples)
    {
      assert samples[i..][0] == samples[i] && samples[i..][1..] == samples[i + 1..];
      ghost var more := Windows(client.names, Next(client.names, client.previous, samples[i]), samples[i + 1..]);
      var window := client.ProxyAggregate(samples[i].at, samples[i].snapshot);
      Associate(windows, if window.Some? then [window.value] else [], more);
      windows := windows + if window.Some? then [window.value] else [];
    }
    assert samples[|samples|..] == [];
  }

  // --- a window never mixes flows ---

  /** The window is what passed from one sample to another of one flow: the same engine, mode, profile, revision and
      proxy, and no counter lower. */
  ghost predicate Spans(w: Window, a: Sample, b: Sample) {
    var x, y := a.snapshot, b.snapshot;
    && w.start == a.at && w.end == b.at && w.of == y && y.active
    && y.engine == "mihomo" && y.mode in {"managed_follow", "app_subscription"} && y.profileRevision >= 1
    && (x.engine, x.mode, x.profileId, x.profileRevision, x.selectedProxy)
       == (y.engine, y.mode, y.profileId, y.profileRevision, y.selectedProxy)
    && w.upload == y.uploadTotal - x.uploadTotal >= 0 && w.download == y.downloadTotal - x.downloadTotal >= 0
  }

  /** Over every run each window spans two samples of one flow, or is empty at one. */
  lemma {:induction false} WindowsSpanOneFlow(names: Names, previous: Option<Sample>, samples: seq<Sample>, w: Window)
    requires w in Windows(names, previous, samples)
    ensures exists a, b :: (a in samples || previous == Some(a)) && b in samples && Spans(w, a, b)
    decreases |samples|
  {
    var first, rest := samples[0], samples[1..];
    var window, next := Report(names, previous, first), Next(names, previous, first);
    if window == Some(w) {
      if previous.Some? && Continues(previous.value.snapshot, first.snapshot) {
        assert Spans(w, previous.value, first);
      } else {
        assert Spans(w, first, first);
      }
    } else {
      WindowsSpanOneFlow(names, next, rest, w);
      var a, b :| (a in rest || next == Some(a)) && b in rest && Spans(w, a, b);
      assert a in samples || previous == Some(a);
    }
  }

  /** A new flow, a counter that went back, or the first sample reports an empty window; a usable sample always
      reports one, and no other does. */
  lemma ReportExactly(names: Names, previous: Option<Sample>, sample: Sample)
    ensures var s := sample.snapshot;
            Report(names, previous, sample).Some? <==>
            && s.active && s.engine == "mihomo" && s.mode in {"managed_follow", "app_subscription"}
            && ValidIdentifier(s.profileId) && s.profileRevision >= 1 && names.valid(s.selectedProxy)
            && s.uploadTotal >= 0 && s.downloadTotal >= 0 && 0 <= s.activeConnections <= 1_000_000
    ensures Report(names, previous, sample).Some? && previous.Some? ==>
              var w := Report(names, previous, sample).value;
              if Spans(Window(previous.value.at, sample.at,
                sample.snapshot.uploadTotal - previous.value.snapshot.uploadTotal,
                              sample.snapshot.downloadTotal - previous.value.snapshot.downloadTotal, sample.snapshot),
                       previous.value, sample)
              then w.start == previous.value.at
                   && w.upload == sample.snapshot.uploadTotal - previous.value.snapshot.uploadTotal
                   && w.download == sample.snapshot.downloadTotal - previous.value.snapshot.downloadTotal
              else w.start == w.end == sample.at && w.upload == w.download == 0
  {
  }

  // --- windows follow each other ---

  ghost predicate InOrder(samples: seq<Sample>) {
    forall i, j :: 0 <= i < j < |samples| ==> samples[i].at <= samples[j].at
  }

  /** One after the other from a point in time, and no negative bytes. */
  ghost predicate Orderly(windows: seq<Window>, from: Time) {
    && (forall i, j :: 0 <= i < j < |windows| ==> windows[i].end <= windows[j].start)
    && (forall i :: 0 <= i < |windows| ==> from <= windows[i].start <= windows[i].end)
    && (forall i :: 0 <= i < |windows| ==> windows[i].upload >= 0 && windows[i].download >= 0)
  }

  lemma {:induction false} WindowsFollow(names: Names, previous: Option<Sample>, samples: seq<Sample>, from: Time)
    requires InOrder(samples) && forall i :: 0 <= i < |samples| ==> from <= samples[i].at
    requires previous.Some? ==>
               from <= previous.value.at && forall i :: 0 <= i < |samples| ==> previous.value.at <= samples[i].at
    ensures Orderly(Windows(names, previous, samples), from)
    decreases |samples|
  {
    hide Usable;
    if samples != [] {
      var first, rest := samples[0], samples[1..];
      var next, window := Next(names, previous, first), Report(names, previous, first);
      assert forall i :: 0 <= i < |rest| ==> rest[i] == samples[i + 1];
      if window.Some? {
        WindowsFollow(names, next, rest, first.at);
        FirstWindow(window.value, Windows(names, next, rest), from, first.at);
      } else {
        WindowsFollow(names, next, rest, from);
        assert [] + Windows(names, next, rest) == Windows(names, next, rest);
      }
    }
  }

  lemma FirstWindow(window: Window, more: seq<Window>, from: Time, at: Time)
    requires from <= window.start <= window.end == at && window.upload >= 0 && window.download >= 0 && Orderly(more, at)
    ensures Orderly([window] + more, from)
  {
  }

  /** In a run with time not going back, windows never overlap and never count negative bytes. */
  lemma WindowsDoNotOverlap(names: Names, samples: seq<Sample>)
    requires InOrder(samples)
    ensures samples != [] ==> Orderly(Windows(names, None, samples), samples[0].at)
  {
    if samples != [] {
      WindowsFollow(names, None, samples, samples[0].at);
    }
  }

  // --- the counts add up ---

  /** The samples the client takes note of. */
  function Noted(names: Names, samples: seq<Sample>): seq<Snapshot> {
    if samples == [] then []
    else
      var s := samples[0].snapshot;
      (if s.active && !Usable(names, s) then [] else [s]) + Noted(names, samples[1..])
  }

  /** How far the first snapshot's counters run on: to an inactive one, another flow or a reset. */
  function Extent(xs: seq<Snapshot>): (n: nat)
    requires xs != []
    ensures 1 <= n <= |xs|
    decreases |xs|
  {
    if |xs| == 1 || !xs[1].active || !Continues(xs[0], xs[1]) then 1 else 1 + Extent(xs[1..])
  }

  /** The stretches of uninterrupted counting. */
  function Segments(xs: seq<Snapshot>): (r: seq<seq<Snapshot>>)
    ensures forall i :: 0 <= i < |r| ==> r[i] != []
    decreases |xs|
  {
    if xs == [] then []
    else if !xs[0].active then Segments(xs[1..])
    else [xs[..Extent(xs)]] + Segments(xs[Extent(xs)..])
  }

  datatype Bytes = Bytes(upload: int, download: int)

  function Plus(a: Bytes, b: Bytes): Bytes {
    Bytes(a.upload + b.upload, a.download + b.download)
  }

  /** Last totals minus first totals. */
  function Gain(segment: seq<Snapshot>): Bytes
    requires segment != []
  {
    var first, last := segment[0], segment[|segment| - 1];
    Bytes(last.uploadTotal - first.uploadTotal, last.downloadTotal - first.downloadTotal)
  }

  function TotalGain(segments: seq<seq<Snapshot>>): Bytes
    requires forall i :: 0 <= i < |segments| ==> segments[i] != []
  {
    if segments == [] then Bytes(0, 0) else Plus(Gain(segments[0]), TotalGain(segments[1..]))
  }

  function Reported(windows: seq<Window>): Bytes {
    if windows == [] then Bytes(0, 0)
    else Plus(Bytes(windows[0].upload, windows[0].download), Reported(windows[1..]))
  }

  /** A baseline counts as one snapshot before the others. */
  function WithBaseline(previous: Option<Sample>, xs: seq<Snapshot>): seq<Snapshot> {
    if previous.Some? then [previous.value.snapshot] + xs else xs
  }

  lemma SegmentsStart(xs: seq<Snapshot>)
    requires xs != [] && xs[0].active
    ensures Segments(xs) == [xs[..Extent(xs)]] + Segments(xs[Extent(xs)..])
    ensures TotalGain(Segments(xs)) == Plus(Gain(xs[..Extent(xs)]), TotalGain(Segments(xs[Extent(xs)..])))
  {
  }

  lemma ExtentStep(base: Snapshot, xs: seq<Snapshot>)
    requires xs != []
    ensures Extent([base] + xs) == if xs[0].active && Continues(base, xs[0]) then 1 + Extent(xs) else 1
  {
  }

  lemma GainTail(base: Snapshot, xs: seq<Snapshot>, n: nat)
    requires 1 <= n <= |xs|
    ensures ([base] + xs)[1 + n..] == xs[n..]
    ensures Gain(([base] + xs)[..1 + n]) ==
            Plus(Bytes(xs[0].uploadTotal - base.uploadTotal, xs[0].downloadTotal - base.downloadTotal), Gain(xs[..n]))
  {
  }

  /** The gain of stretches that start with a baseline, one snapshot on. */
  lemma GainStep(base: Snapshot, xs: seq<Snapshot>)
    requires base.active && xs != []
    ensures TotalGain(Segments([base] + xs)) ==
            if xs[0].active && Continues(base, xs[0]) then
              Plus(Bytes(xs[0].uploadTotal - base.uploadTotal, xs[0].downloadTotal - base.downloadTotal),
                TotalGain(Segments(xs)))
            else TotalGain(Segments(xs))
  {
    hide Extent, Segments, TotalGain, Continues, Gain;
    var all := [base] + xs;
    ExtentStep(base, xs);
    SegmentsStart(all);
    if xs[0].active && Continues(base, xs[0]) {
      SegmentsStart(xs);
      GainTail(base, xs, Extent(xs));
    } else {
      assert all[..1] == [base] && all[1..] == xs;
      NoGain(base);
    }
  }

  lemma NoGain(base: Snapshot)
    ensures Gain([base]) == Bytes(0, 0)
  {
  }

  lemma OneSnapshot(base: Snapshot)
    requires base.active
    ensures TotalGain(Segments([base])) == Bytes(0, 0)
  {
  }

  lemma ReportedFirst(window: Option<Window>, more: seq<Window>)
    ensures Reported((if window.Some? then [window.value] else []) + more) ==
            Plus(if window.Some? then Bytes(window.value.upload, window.value.download) else Bytes(0, 0),
                 Reported(more))
  {
    if window.Some? {
      assert ([window.value] + more)[1..] == more;
    } else {
      assert [] + more == more;
    }
  }

  lemma {:induction false} ReportedIsGained(names: Names, previous: Option<Sample>, samples: seq<Sample>)
    requires previous.Some? ==> previous.value.snapshot.active
    ensures Reported(Windows(names, previous, samples))
            == TotalGain(Segments(WithBaseline(previous, Noted(names, samples))))
    decreases |samples|
  {
    hide TotalGain, Segments, Reported, Continues, Usable;
    if samples == [] {
      Nothing();
      if previous.Some? {
        OneSnapshot(previous.value.snapshot);
        assert [previous.value.snapshot] + [] == [previous.value.snapshot];
      }
    } else {
      var first, rest := samples[0], samples[1..];
      var next, window := Next(names, previous, first), Report(names, previous, first);
      ReportedIsGained(names, next, rest);
      ReportedFirst(window, Windows(names, next, rest));
      NotedStep(names, previous, first, Noted(names, rest));
    }
  }

  lemma Nothing()
    ensures Reported([]) == Bytes(0, 0) && TotalGain(Segments([])) == Bytes(0, 0)
  {
  }

  /** One sample: what it reports is what it adds to the gain. */
  lemma NotedStep(names: Names, previous: Option<Sample>, sample: Sample, rest: seq<Snapshot>)
    requires previous.Some? ==> previous.value.snapshot.active
    ensures var s := sample.snapshot;
            var window := Report(names, previous, sample);
            var now := (if s.active && !Usable(names, s) then [] else [s]) + rest;
            TotalGain(Segments(WithBaseline(previous, now))) ==
            Plus(if window.Some? then Bytes(window.value.upload, window.value.download) else Bytes(0, 0),
                 TotalGain(Segments(WithBaseline(Next(names, previous, sample), rest))))
  {
    hide TotalGain, Usable, Extent;
    var s := sample.snapshot;
    if s.active && !Usable(names, s) {
      assert [] + rest == rest;
    } else {
      if previous.Some? {
        GainStep(previous.value.snapshot, [s] + rest);
      }
      if !s.active {
        assert ([s] + rest)[1..] == rest;
      }
    }
  }

  /** Over every run, whatever is invalid in between: the bytes reported are the sum, over the stretches between
      inactivity, flow changes and counter resets, of last minus first totals. */
  lemma BytesAreConserved(names: Names, samples: seq<Sample>)
    ensures Reported(Windows(names, None, samples)) == TotalGain(Segments(Noted(names, samples)))
  {
    ReportedIsGained(names, None, samples);
  }
}
