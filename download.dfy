/** Image download (`DownloadImages` in `controllers/images/service.go`):
    navigate one tab to each address in turn, wait until the listener has seen
    a request finish loading, fetch the body of the listener's current request
    and write it to `<path>/<i+1>.jpg`. */
module Download {
  import opened Basics
  import opened Decimal
  import opened Browser
  import opened Failures
  import opened Storage

  /** The listener's effect on the current request id. */
  function Track(current: RequestId, ev: NetEvent): RequestId {
    if ev.RequestWillBeSent? then ev.id else current
  }

  /** The listener registered with `ListenTarget`: `current` is the captured
      `currReqId`. It lives for the whole download and is never reset between
      navigations. */
  class Correlator {
    var current: RequestId

    constructor ()
      ensures current == ""
    {
      current := "";
    }

    /** Handles one event; `finished` is the `requestInProgressWG.Done()` call. */
    method Observe(ev: NetEvent) returns (finished: bool)
      modifies this
      ensures current == Track(old(current), ev)
      ensures finished <==> ev == LoadingFinished(old(current))
    {
      finished := false;
      match ev
      case RequestWillBeSent(id) =>
        current := id;
      case LoadingFinished(id) =>
        if id == current {
          finished := true;
        }
      case OtherEvent =>
    }
  }

  /** The id of the most recent request-will-be-sent event in `events`, or
      `initial` when there is none. */
  function LastRequest(initial: RequestId, events: seq<NetEvent>): RequestId {
    if events == [] then initial
    else if events[|events| - 1].RequestWillBeSent? then events[|events| - 1].id
    else LastRequest(initial, events[..|events| - 1])
  }

  /** True when event `k` makes the listener call `requestInProgressWG.Done()`:
      a loading-finished event for the id that is current at that point. */
  predicate CompletesAt(initial: RequestId, events: seq<NetEvent>, k: nat)
    requires k < |events|
  {
    events[k] == LoadingFinished(LastRequest(initial, events[..k]))
  }

  /** The number of `Done()` calls the listener makes over `events`. */
  function Completions(initial: RequestId, events: seq<NetEvent>): nat {
    if events == [] then 0
    else Completions(initial, events[..|events| - 1]) + (if CompletesAt(initial, events, |events| - 1) then 1 else 0)
  }

  lemma CompletesAtPrefix(initial: RequestId, events: seq<NetEvent>, n: nat, k: nat)
    requires k < n <= |events|
    ensures CompletesAt(initial, events[..n], k) == CompletesAt(initial, events, k)
  {
    assert events[..n][..k] == events[..k];
  }

  /** What the listener has done after `events[j..]`, starting from the
      current id `current`: the id then current and the `Done()` calls made. */
  datatype Heard = Heard(last: RequestId, done: nat)

  function Listened(current: RequestId, events: seq<NetEvent>, j: nat): Heard
    requires j <= |events|
    decreases |events| - j
  {
    if j == |events| then Heard(current, 0)
    else
      var rest := Listened(Track(current, events[j]), events, j + 1);
      Heard(rest.last, rest.done + if events[j] == LoadingFinished(current) then 1 else 0)
  }

  lemma {:induction false} ListenedFrom(initial: RequestId, events: seq<NetEvent>, j: nat)
    requires j <= |events|
    ensures var h := Listened(LastRequest(initial, events[..j]), events, j);
      && h.last == LastRequest(initial, events)
      && Completions(initial, events[..j]) + h.done == Completions(initial, events)
    decreases |events| - j
  {
    if j == |events| {
      assert events[..j] == events;
    } else {
      var cur := LastRequest(initial, events[..j]);
      assert events[..j + 1][..j] == events[..j];
      assert LastRequest(initial, events[..j + 1]) == Track(cur, events[j]);
      CompletesAtPrefix(initial, events, j + 1, j);
      ListenedFrom(initial, events, j + 1);
    }
  }

  /** Correlation: fed a navigation's events, the listener ends with the id of
      the last request sent (the one whose body is fetched) and has called
      `Done()` once per event that completes the then-current request. */
  lemma Correlation(initial: RequestId, events: seq<NetEvent>)
    ensures Listened(initial, events, 0) == Heard(LastRequest(initial, events), Completions(initial, events))
  {
    assert events[..0] == [];
    ListenedFrom(initial, events, 0);
  }

  /** No `Done()` is made exactly when no event completes: `Wait()` then
      never returns. */
  lemma {:induction false} NoCompletion(initial: RequestId, events: seq<NetEvent>)
    ensures Completions(initial, events) == 0 <==>
              forall k :: 0 <= k < |events| ==> !CompletesAt(initial, events, k)
    decreases |events|
  {
    if events != [] {
      var n := |events| - 1;
      NoCompletion(initial, events[..n]);
      forall k | 0 <= k < n
        ensures CompletesAt(initial, events[..n], k) == CompletesAt(initial, events, k)
      {
        CompletesAtPrefix(initial, events, n, k);
      }
    }
  }

  /** The completing event when exactly one `Done()` is made. */
  lemma {:induction false} SingleCompletionWitness(initial: RequestId, events: seq<NetEvent>)
    requires Completions(initial, events) == 1
    ensures exists k :: 0 <= k < |events| && CompletesAt(initial, events, k)
                        && forall j :: 0 <= j < |events| && j != k ==> !CompletesAt(initial, events, j)
    decreases |events|
  {
    var n := |events| - 1;
    var prefix := events[..n];
    forall k | 0 <= k < n
      ensures CompletesAt(initial, prefix, k) == CompletesAt(initial, events, k)
    {
      CompletesAtPrefix(initial, events, n, k);
    }
    if CompletesAt(initial, events, n) {
      NoCompletion(initial, prefix);
      assert forall j :: 0 <= j < |events| && j != n ==> !CompletesAt(initial, events, j);
    } else {
      SingleCompletionWitness(initial, prefix);
      var k :| 0 <= k < n && CompletesAt(initial, prefix, k)
               && forall j :: 0 <= j < n && j != k ==> !CompletesAt(initial, prefix, j);
      assert forall j :: 0 <= j < |events| && j != k ==> !CompletesAt(initial, events, j);
    }
  }

  /** A single completing event makes exactly one `Done()`. */
  lemma {:induction false} SingleCompletionCount(initial: RequestId, events: seq<NetEvent>, k: nat)
    requires k < |events| && CompletesAt(initial, events, k)
    requires forall j :: 0 <= j < |events| && j != k ==> !CompletesAt(initial, events, j)
    ensures Completions(initial, events) == 1
    decreases |events|
  {
    var n := |events| - 1;
    var prefix := events[..n];
    forall j | 0 <= j < n
      ensures CompletesAt(initial, prefix, j) == CompletesAt(initial, events, j)
    {
      CompletesAtPrefix(initial, events, n, j);
    }
    if k < n {
      SingleCompletionCount(initial, prefix, k);
    } else {
      NoCompletion(initial, prefix);
    }
  }

  /** Exactly one `Done()` is made when a single event completes and no
      other does. */
  lemma SingleCompletion(initial: RequestId, events: seq<NetEvent>)
    ensures Completions(initial, events) == 1 <==>
              exists k :: 0 <= k < |events| && CompletesAt(initial, events, k)
                          && forall j :: 0 <= j < |events| && j != k ==> !CompletesAt(initial, events, j)
  {
    if Completions(initial, events) == 1 {
      SingleCompletionWitness(initial, events);
    }
    if exists k :: 0 <= k < |events| && CompletesAt(initial, events, k)
                   && forall j :: 0 <= j < |events| && j != k ==> !CompletesAt(initial, events, j) {
      var k :| 0 <= k < |events| && CompletesAt(initial, events, k)
               && forall j :: 0 <= j < |events| && j != k ==> !CompletesAt(initial, events, j);
      SingleCompletionCount(initial, events, k);
    }
  }

  /** If no request-will-be-sent event arrives between the completion and the
      fetch, the id `GetResponseBody` uses is that of the completed request. */
  lemma {:induction false} FetchedIsCompleted(initial: RequestId, events: seq<NetEvent>, k: nat)
    requires k < |events| && CompletesAt(initial, events, k)
    requires forall j :: k < j < |events| ==> !events[j].RequestWillBeSent?
    ensures LastRequest(initial, events) == events[k].id
    decreases |events|
  {
    var n := |events| - 1;
    if k == n {
      assert !events[n].RequestWillBeSent?;
    } else {
      CompletesAtPrefix(initial, events, n, k);
      FetchedIsCompleted(initial, events[..n], k);
    }
  }

  /** A request sent after the completing one, but before the fetch, is the
      one whose body is fetched. */
  lemma LateRequestIsFetched()
    ensures var events := [RequestWillBeSent("A"), LoadingFinished("A"), RequestWillBeSent("B")];
      && Completions("", events) == 1
      && CompletesAt("", events, 1)
      && LastRequest("", events) == "B"
  {
    var events := [RequestWillBeSent("A"), LoadingFinished("A"), RequestWillBeSent("B")];
    assert events[..0] == [];
    assert events[..1] == [RequestWillBeSent("A")];
    assert events[..2] == [RequestWillBeSent("A"), LoadingFinished("A")];
    assert events[..2][..1] == events[..1];
    assert events[..1][..0] == [];
  }

  function FileName(n: nat): string {
    Format(n) + ".jpg"
  }

  /** `fmt.Sprintf("%s/%d.jpg", path, n)`. */
  function FilePath(path: string, n: nat): string {
    path + "/" + FileName(n)
  }

  /** Every ordinal gets its own file name. */
  lemma FilePathInjective(path: string, m: nat, n: nat)
    requires FilePath(path, m) == FilePath(path, n)
    ensures m == n
  {
    var a, b := FilePath(path, m), FilePath(path, n);
    assert a[|path| + 1..] == FileName(m);
    assert b[|path| + 1..] == FileName(n);
    assert FileName(m)[..|FileName(m)| - 4] == Format(m);
    assert FileName(n)[..|FileName(n)| - 4] == Format(n);
  }

  /** The files written for `bodies`: the k-th body as `<path>/<k>.jpg`. */
  function Written(path: string, bodies: seq<Bytes>): map<string, Bytes> {
    if bodies == [] then map[]
    else Written(path, bodies[..|bodies| - 1])[FilePath(path, |bodies|) := bodies[|bodies| - 1]]
  }

  /** Writing one more body adds exactly its file. */
  lemma WrittenSnoc(path: string, bodies: seq<Bytes>, body: Bytes)
    ensures Written(path, bodies + [body]) == Written(path, bodies)[FilePath(path, |bodies| + 1) := body]
  {
    assert (bodies + [body])[..|bodies|] == bodies;
  }

  /** Writing a file over a union lands in its right-hand side. */
  lemma UpdateUnion(m: map<string, Bytes>, w: map<string, Bytes>, f: string, body: Bytes)
    ensures (m + w)[f := body] == m + w[f := body]
  {
  }

  /** Exactly the files `1.jpg` .. `n.jpg` are written, each with its own body. */
  lemma {:induction false} WrittenFiles(path: string, bodies: seq<Bytes>)
    ensures forall k :: 1 <= k <= |bodies| ==>
              FilePath(path, k) in Written(path, bodies) && Written(path, bodies)[FilePath(path, k)] == bodies[k - 1]
    ensures forall f :: f in Written(path, bodies) ==> exists k :: 1 <= k <= |bodies| && f == FilePath(path, k)
  {
    if bodies != [] {
      var n := |bodies|;
      var prefix := bodies[..n - 1];
      var w := Written(path, prefix);
      var last := FilePath(path, n);
      WrittenFiles(path, prefix);
      assert Written(path, bodies) == w[last := bodies[n - 1]];
      forall k | 1 <= k <= n
        ensures last in Written(path, bodies) && Written(path, bodies)[FilePath(path, k)] == bodies[k - 1]
      {
        if k < n {
          if FilePath(path, k) == last {
            FilePathInjective(path, k, n);
          }
          assert prefix[k - 1] == bodies[k - 1];
        }
      }
      forall f | f in Written(path, bodies)
        ensures exists k :: 1 <= k <= n && f == FilePath(path, k)
      {
        if f != last {
          assert f in w;
          var k :| 1 <= k <= n - 1 && f == FilePath(path, k);
        }
      }
    }
  }

  /** The bodies written, in order, and the error the download ends with. */
  datatype Run = Run(bodies: seq<Bytes>, failure: Option<ScrapeError>)

  /** How the work for one address ends: the request whose body was written,
      or the error that stops the download. */
  datatype Step = Saved(id: RequestId) | Stopped(error: ScrapeError)

  /** One iteration of the download loop, for the address `url` at ordinal
      `i`, with the listener's current id `current`; `dirExists` tells
      whether `WriteFile` finds the directory. `Wait()` returns after exactly
      one `Done()`; with none it never returns, and a second one panics. */
  function DownloadStep(tab: Tab, url: string, i: nat, path: string, dirExists: bool, current: RequestId): (r: Step)
    ensures r.Saved? ==> dirExists && r.id in tab.bodies
    ensures r.Stopped? && r.error.WriteError? ==> r.error.path == FilePath(path, i + 1)
  {
    var v := tab.visit(i, url);
    if v.navigation.Some? then Stopped(NavigationError(url, v.navigation.value))
    else
      var heard := Listened(current, v.events, 0);
      if heard.done == 0 then Stopped(LoadNeverFinished(url))
      else if heard.done > 1 then Stopped(WaitGroupPanic(url))
      else if heard.last !in tab.bodies then Stopped(BodyError(heard.last))
      else if !dirExists then Stopped(WriteError(FilePath(path, i + 1)))
      else Saved(heard.last)
  }

  /** After a navigation that succeeds, the step is decided by the number of
      `Done()` calls: none blocks, two or more panic, and exactly one fetches
      the body of the last request sent before the fetch. */
  lemma StepFetchesLastRequest(tab: Tab, url: string, i: nat, path: string, dirExists: bool, current: RequestId)
    requires tab.visit(i, url).navigation.None?
    ensures var events := tab.visit(i, url).events;
            var r := DownloadStep(tab, url, i, path, dirExists, current);
            var id := LastRequest(current, events);
      && (Completions(current, events) == 0 ==> r == Stopped(LoadNeverFinished(url)))
      && (Completions(current, events) > 1 ==> r == Stopped(WaitGroupPanic(url)))
      && (Completions(current, events) == 1 ==>
            && (id !in tab.bodies ==> r == Stopped(BodyError(id)))
            && (id in tab.bodies && !dirExists ==> r == Stopped(WriteError(FilePath(path, i + 1))))
            && (id in tab.bodies && dirExists ==> r == Saved(id)))
  {
    Correlation(current, tab.visit(i, url).events);
  }

  /** The download loop from address `i` on. */
  function DownloadFrom(tab: Tab, urls: seq<string>, path: string, dirExists: bool, i: nat, current: RequestId): Run
    requires i <= |urls|
    decreases |urls| - i
  {
    if i == |urls| then Run([], None)
    else match DownloadStep(tab, urls[i], i, path, dirExists, current)
      case Stopped(e) => Run([], Some(e))
      case Saved(id) =>
        var rest := DownloadFrom(tab, urls, path, dirExists, i + 1, id);
        Run([tab.bodies[id]] + rest.bodies, rest.failure)
  }

  function DownloadRun(tab: Tab, urls: seq<string>, path: string, dirExists: bool): Run {
    DownloadFrom(tab, urls, path, dirExists, 0, "")
  }

  /** The steps the loop takes from address `i` on, the listener holding
      `current`: one per address, up to and including the first that stops. */
  function StepsFrom(tab: Tab, urls: seq<string>, path: string, dirExists: bool, i: nat, current: RequestId): (steps: seq<Step>)
    requires i <= |urls|
    ensures |steps| <= |urls| - i
    ensures forall k :: 0 <= k < |steps| - 1 ==> steps[k].Saved?
    ensures forall k :: 0 <= k < |steps| && steps[k].Saved? ==> steps[k].id in tab.bodies
    decreases |urls| - i
  {
    if i == |urls| then []
    else
      var s := DownloadStep(tab, urls[i], i, path, dirExists, current);
      [s] + if s.Saved? then StepsFrom(tab, urls, path, dirExists, i + 1, s.id) else []
  }

  function Steps(tab: Tab, urls: seq<string>, path: string, dirExists: bool): seq<Step> {
    StepsFrom(tab, urls, path, dirExists, 0, "")
  }

  lemma {:induction false} StepsFromFollowListener(tab: Tab, urls: seq<string>, path: string, dirExists: bool, i: nat, current: RequestId)
    requires i <= |urls|
    ensures var steps := StepsFrom(tab, urls, path, dirExists, i, current);
      && (steps != [] ==> steps[0] == DownloadStep(tab, urls[i], i, path, dirExists, current))
      && (forall k :: 0 <= k < |steps| - 1 ==>
            steps[k + 1] == DownloadStep(tab, urls[i + k + 1], i + k + 1, path, dirExists, steps[k].id))
    decreases |urls| - i
  {
    if i < |urls| {
      var steps := StepsFrom(tab, urls, path, dirExists, i, current);
      var s := DownloadStep(tab, urls[i], i, path, dirExists, current);
      if s.Saved? {
        StepsFromFollowListener(tab, urls, path, dirExists, i + 1, s.id);
        var rest := StepsFrom(tab, urls, path, dirExists, i + 1, s.id);
        assert steps == [s] + rest;
        forall k | 0 <= k < |steps| - 1
          ensures steps[k + 1] == DownloadStep(tab, urls[i + k + 1], i + k + 1, path, dirExists, steps[k].id)
        {
          assert steps[k + 1] == rest[k];
          if k == 0 {
            assert rest[0] == DownloadStep(tab, urls[i + 1], i + 1, path, dirExists, s.id);
          } else {
            var j := k - 1;
            assert steps[k] == rest[j];
            assert rest[j + 1] == DownloadStep(tab, urls[i + 1 + j + 1], i + 1 + j + 1, path, dirExists, rest[j].id);
          }
        }
      }
    }
  }

  /** The steps of a download: step k is `DownloadStep` at address k with the
      listener holding the id the step before saved (`""` before the first);
      every step but the last saved its body. */
  lemma StepsFollowListener(tab: Tab, urls: seq<string>, path: string, dirExists: bool)
    ensures var steps := Steps(tab, urls, path, dirExists);
      && (steps != [] ==> steps[0] == DownloadStep(tab, urls[0], 0, path, dirExists, ""))
      && (forall k :: 0 <= k < |steps| - 1 ==>
            steps[k + 1] == DownloadStep(tab, urls[k + 1], k + 1, path, dirExists, steps[k].id))
  {
    StepsFromFollowListener(tab, urls, path, dirExists, 0, "");
  }

  /** From address `i` on, the run saves a prefix of the remaining addresses,
      and all of them exactly when it reports no error. */
  lemma {:induction false} DownloadFromLength(tab: Tab, urls: seq<string>, path: string, dirExists: bool, i: nat, current: RequestId)
    requires i <= |urls|
    ensures var run := DownloadFrom(tab, urls, path, dirExists, i, current);
      && |run.bodies| <= |urls| - i
      && (run.failure.None? <==> |run.bodies| == |urls| - i)
    decreases |urls| - i
  {
    if i < |urls| {
      var s := DownloadStep(tab, urls[i], i, path, dirExists, current);
      DownloadFromStep(tab, urls, path, dirExists, i, current);
      if s.Saved? {
        DownloadFromLength(tab, urls, path, dirExists, i + 1, s.id);
      }
    }
  }

  /** From address `i` on, the run's outcome is read off its steps: the k-th
      body is the one the k-th step saved, and a failure is the error of the
      step after the last saved one. */
  lemma {:induction false} DownloadFromSteps(tab: Tab, urls: seq<string>, path: string, dirExists: bool, i: nat, current: RequestId)
    requires i <= |urls|
    ensures var run := DownloadFrom(tab, urls, path, dirExists, i, current);
            var steps := StepsFrom(tab, urls, path, dirExists, i, current);
      && |steps| == |run.bodies| + (if run.failure.Some? then 1 else 0)
      && (forall k :: 0 <= k < |run.bodies| ==> steps[k].Saved? && run.bodies[k] == tab.bodies[steps[k].id])
      && (run.failure.Some? ==> steps[|run.bodies|] == Stopped(run.failure.value))
    decreases |urls| - i
  {
    if i < |urls| {
      var s := DownloadStep(tab, urls[i], i, path, dirExists, current);
      var run := DownloadFrom(tab, urls, path, dirExists, i, current);
      var steps := StepsFrom(tab, urls, path, dirExists, i, current);
      DownloadFromStep(tab, urls, path, dirExists, i, current);
      if s.Saved? {
        DownloadFromSteps(tab, urls, path, dirExists, i + 1, s.id);
        var rest := DownloadFrom(tab, urls, path, dirExists, i + 1, s.id);
        var restSteps := StepsFrom(tab, urls, path, dirExists, i + 1, s.id);
        assert steps == [s] + restSteps;
        assert run.bodies == [tab.bodies[s.id]] + rest.bodies;
        forall k | 0 < k < |run.bodies|
          ensures steps[k].Saved? && run.bodies[k] == tab.bodies[steps[k].id]
        {
          assert steps[k] == restSteps[k - 1] && run.bodies[k] == rest.bodies[k - 1];
        }
        if run.failure.Some? {
          assert steps[|run.bodies|] == restSteps[|rest.bodies|];
        }
      }
    }
  }

  /** One unfolding of the download loop. */
  lemma DownloadFromStep(tab: Tab, urls: seq<string>, path: string, dirExists: bool, i: nat, current: RequestId)
    requires i < |urls|
    ensures var step := DownloadStep(tab, urls[i], i, path, dirExists, current);
            var run := DownloadFrom(tab, urls, path, dirExists, i, current);
      && (step.Stopped? ==> run == Run([], Some(step.error)))
      && (step.Saved? ==>
            var rest := DownloadFrom(tab, urls, path, dirExists, i + 1, step.id);
            run == Run([tab.bodies[step.id]] + rest.bodies, rest.failure))
  {
  }

  /** A download either saves every address and reports no error, or saves
      addresses 0..k-1 and stops with the error of step k. The body written
      as `<k+1>.jpg` is the one step k saved. A write failure names the file
      it could not write. An empty list writes nothing and succeeds. */
  lemma DownloadStopsAtFirstFailure(tab: Tab, urls: seq<string>, path: string, dirExists: bool)
    ensures var run := DownloadRun(tab, urls, path, dirExists);
            var steps := Steps(tab, urls, path, dirExists);
      && |run.bodies| <= |urls|
      && (run.failure.None? <==> |run.bodies| == |urls|)
      && |steps| == |run.bodies| + (if run.failure.Some? then 1 else 0)
      && (forall k :: 0 <= k < |run.bodies| ==> steps[k].Saved? && run.bodies[k] == tab.bodies[steps[k].id])
      && (run.failure.Some? ==> steps[|run.bodies|] == Stopped(run.failure.value))
      && (run.failure.Some? && run.failure.value.WriteError? ==>
            run.failure.value.path == FilePath(path, |run.bodies| + 1))
      && (urls == [] ==> run == Run([], None))
      && (!dirExists && urls != [] ==> run.bodies == [] && run.failure.Some?)
  {
    DownloadFromLength(tab, urls, path, dirExists, 0, "");
    DownloadFromSteps(tab, urls, path, dirExists, 0, "");
    StepsFollowListener(tab, urls, path, dirExists);
    var run := DownloadRun(tab, urls, path, dirExists);
    var steps := Steps(tab, urls, path, dirExists);
    var n := |run.bodies|;
    if run.failure.Some? {
      if n == 0 {
        assert steps[n] == DownloadStep(tab, urls[0], 0, path, dirExists, "");
      } else {
        assert steps[n] == DownloadStep(tab, urls[n], n, path, dirExists, steps[n - 1].id);
      }
    }
  }

  /** The listener over one navigation's events, up to the moment
      `GetResponseBody` reads `currReqId`; `done` counts its `Done()` calls. */
  method Listen(listener: Correlator, events: seq<NetEvent>) returns (done: nat)
    modifies listener
    ensures listener.current == LastRequest(old(listener.current), events)
    ensures done == Completions(old(listener.current), events)
  {
    ghost var start := listener.current;
    done := 0;
    var j := 0;
    while j < |events|
      invariant 0 <= j <= |events|
      invariant Listened(start, events, 0)
                == Heard(Listened(listener.current, events, j).last, done + Listened(listener.current, events, j).done)
    {
      var finished := listener.Observe(events[j]);
      if finished {
        done := done + 1;
      }
      j := j + 1;
    }
    Correlation(start, events);
  }

  /** The body of the loop over the addresses: navigate, wait for the load,
      fetch the body of the current request and write it as `<path>/<i+1>.jpg`. */
  method DownloadOne(tab: Tab, url: string, i: nat, path: string, fs: FileSystem, listener: Correlator)
    returns (step: Step)
    modifies fs, listener
    ensures step == DownloadStep(tab, url, i, path, path in old(fs.dirs), old(listener.current))
    ensures step.Saved? ==> listener.current == step.id
    ensures fs.dirs == old(fs.dirs)
    ensures fs.files == if step.Saved? then old(fs.files)[FilePath(path, i + 1) := tab.bodies[step.id]] else old(fs.files)
  {
    var visit := tab.visit(i, url);
    if visit.navigation.Some? {
      return Stopped(NavigationError(url, visit.navigation.value));
    }
    ghost var start := listener.current;
    var done := Listen(listener, visit.events);
    Correlation(start, visit.events);
    if done == 0 {
      return Stopped(LoadNeverFinished(url));
    }
    if done > 1 {
      return Stopped(WaitGroupPanic(url));
    }
    var id := listener.current;
    if id !in tab.bodies {
      return Stopped(BodyError(id));
    }
    var ok := fs.WriteFile(path, FileName(i + 1), tab.bodies[id]);
    if !ok {
      return Stopped(WriteError(FilePath(path, i + 1)));
    }
    return Saved(id);
  }

  /** `DownloadImages` with the listener's wait: the error of the first
      navigation, wait, body fetch or write that fails, and the files written
      before it. */
  method DownloadImages(tab: Tab, urls: seq<string>, path: string, fs: FileSystem)
    returns (err: Option<ScrapeError>)
    modifies fs
    ensures err == DownloadRun(tab, urls, path, path in old(fs.dirs)).failure
    ensures fs.files == old(fs.files) + Written(path, DownloadRun(tab, urls, path, path in old(fs.dirs)).bodies)
    ensures fs.dirs == old(fs.dirs)
  {
    var listener := new Correlator();
    ghost var dirExists := path in fs.dirs;
    ghost var run := DownloadRun(tab, urls, path, dirExists);
    ghost var written: seq<Bytes> := [];
    var i := 0;
    while i < |urls|
      invariant 0 <= i <= |urls|
      invariant fs.dirs == old(fs.dirs)
      invariant fs.files == old(fs.files) + Written(path, written)
      invariant |written| == i
      invariant var rest := DownloadFrom(tab, urls, path, dirExists, i, listener.current);
                run == Run(written + rest.bodies, rest.failure)
    {
      DownloadFromStep(tab, urls, path, dirExists, i, listener.current);
      var step := DownloadOne(tab, urls[i], i, path, fs, listener);
      if step.Stopped? {
        assert written + [] == written;
        return Some(step.error);
      }
      ghost var body := tab.bodies[step.id];
      ghost var next := DownloadFrom(tab, urls, path, dirExists, i + 1, step.id);
      assert written + ([body] + next.bodies) == (written + [body]) + next.bodies;
      WrittenSnoc(path, written, body);
      UpdateUnion(old(fs.files), Written(path, written), FilePath(path, i + 1), body);
      written := written + [body];
      i := i + 1;
    }
    assert written + [] == written;
    return None;
  }

  /** `sync.WaitGroup` as `waitForActions` uses it: `Wait()` returns once the
      counter is zero. `Done()` on a zero counter panics; its precondition
      excludes that. */
  class WaitGroup {
    var counter: int

    constructor ()
      ensures counter == 0
    {
      counter := 0;
    }

    method Add(delta: int)
      modifies this
      ensures counter == old(counter) + delta
    {
      counter := counter + delta;
    }

    method Done()
      requires counter > 0
      modifies this
      ensures counter == old(counter) - 1
    {
      counter := counter - 1;
    }
  }

  /** `DownloadImages` as written: `waitForActions.Add(1)` before the run, the
      action's `Done()` placed after the loop, so reached only when every
      address was saved, and an unconditional `waitForActions.Wait()` after
      the run. `returned` is what the call returns, or None when it never
      returns: it blocks, or for a `WaitGroupPanic` step the listener panics. */
  method DownloadImagesAsWritten(tab: Tab, urls: seq<string>, path: string, fs: FileSystem)
    returns (returned: Option<Option<ScrapeError>>)
    modifies fs
    ensures var run := DownloadRun(tab, urls, path, path in old(fs.dirs));
      && (returned.Some? <==> run.failure.None?)
      && (returned.Some? ==> returned.value == None)
    ensures fs.files == old(fs.files) + Written(path, DownloadRun(tab, urls, path, path in old(fs.dirs)).bodies)
    ensures fs.dirs == old(fs.dirs)
  {
    var waitForActions := new WaitGroup();
    waitForActions.Add(1);
    // the action: the loop returns the first error, or runs to its end
    var err := DownloadImages(tab, urls, path, fs);
    if err.None? {
      waitForActions.Done();
    }
    if waitForActions.counter != 0 {
      return None;
    }
    return Some(err);
  }

  /** The smallest failing case: one address whose navigation fails. The run
      ends with that error, so as written the call never returns. */
  lemma FailedNavigationBlocksAsWritten()
    ensures var tab := Tab((i: nat, url: string) => Visit(Some("net::ERR_NAME_NOT_RESOLVED"), []), map[]);
            var run := DownloadRun(tab, ["http://example.invalid/cat.jpg"], "downloads/x", true);
      && run.failure == Some(NavigationError("http://example.invalid/cat.jpg", "net::ERR_NAME_NOT_RESOLVED"))
      && run.bodies == []
  {
  }
}
