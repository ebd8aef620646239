/** The progress of a streaming operation, from one check of its sessions to the next. */
module Stream {
  import opened Options

  type Host = nat

  datatype Direction = Receiving | Sending | Local

  /** A session as a host shows it. */
  datatype Session = Session(plan: nat, peer: Host, direction: Direction, operation: nat,
                             total: nat, done: nat, filesTotal: nat, filesDone: nat)

  /** What one host answers; nothing when it fails or is skipped. */
  datatype View = View(host: Host, sessions: Option<seq<Session>>)

  /** One check: what the hosts answer, and when. */
  datatype Check = Check(views: seq<View>, now: int)

  /** A session followed, known by its host, plan, peer and direction. */
  datatype Key = Key(host: Host, plan: nat, peer: Host, direction: Direction)

  datatype Progress = Progress(total: nat, done: nat, mark: nat, gone: bool, moved: bool, since: int,
                               filesTotal: nat, filesDone: nat)

  /** The sessions followed, in the order they were first seen. */
  datatype Streams = Streams(order: seq<Key>, of: map<Key, Progress>)

  /** What to follow and when it counts as stalled. */
  datatype Settings = Settings(operations: set<nat>, peer: Option<Host>, stallTime: int, quietFactor: int)

  datatype Sample = Sample(time: int, bytes: nat)

  datatype State = State(streams: Streams, progressed: bool, start: int, now: int, lastProgress: int, idleChecks: nat,
      idle: int,
                         transferring: bool, limit: int, stalled: bool, answered: set<Host>, answeredHosts: set<Host>,
                         bytesDone: nat, bytesTotal: nat, firstDone: nat, samples: seq<Sample>,
                             rate: Option<(int, int)>)

  /** Seconds the rate is measured over. */
  const WINDOW := 90

  ghost predicate WellFormed(streams: Streams) {
    && (forall i, j :: 0 <= i < j < |streams.order| ==> streams.order[i] != streams.order[j])
    && forall k :: k in streams.order <==> k in streams.of
  }

  // ----- one session -----

  function KeyOf(host: Host, s: Session): Key {
    Key(host, s.plan, s.peer, s.direction)
  }

  predicate Followed(settings: Settings, s: Session) {
    && (settings.operations == {} || s.operation in settings.operations)
    && (settings.peer.None? || s.peer == settings.peer.value)
  }

  /** A session started, or streamed more, or changed its total. */
  predicate Moves(streams: Streams, key: Key, s: Session) {
    key !in streams.of || s.done + s.filesDone > streams.of[key].mark || s.total != streams.of[key].total
  }

  function Seen(streams: Streams, key: Key, s: Session, now: int): Streams {
    var mark := s.done + s.filesDone;
    var moved := key !in streams.of || mark > streams.of[key].mark;
    var since := if moved then now else streams.of[key].since;
    Streams(if key in streams.of then streams.order else streams.order + [key],
            streams.of[key := Progress(s.total, s.done, mark, false, moved, since, s.filesTotal, s.filesDone)])
  }

  // ----- one check -----

  /** The sessions so far in a check: the streams, the keys shown, the hosts that answered, whether anything moved. */
  datatype Reading = Reading(streams: Streams, current: set<Key>, answered: set<Host>, progressed: bool)

  function ReadSession(r: Reading, host: Host, s: Session, settings: Settings, now: int): Reading {
    if !Followed(settings, s) then r
    else
      var key := KeyOf(host, s);
      Reading(Seen(r.streams, key, s, now), r.current + {key}, r.answered, r.progressed || Moves(r.streams, key, s))
  }

  function ReadSessions(r: Reading, host: Host, sessions: seq<Session>, settings: Settings, now: int): Reading {
    if sessions == [] then r
    else
      ReadSession(ReadSessions(r, host, sessions[..|sessions| - 1], settings, now), host, sessions[|sessions| - 1],
          settings, now)
  }

  function ReadView(r: Reading, view: View, settings: Settings, now: int): Reading {
    if view.sessions.None? then r
    else ReadSessions(r.(answered := r.answered + {view.host}), view.host, view.sessions.value, settings, now)
  }

  function ReadViews(r: Reading, views: seq<View>, settings: Settings, now: int): Reading {
    if views == [] then r
    else ReadView(ReadViews(r, views[..|views| - 1], settings, now), views[|views| - 1], settings, now)
  }

  /** A session that left, on a host that answered. */
  predicate Leaves(r: Reading, key: Key) {
    key in r.streams.of && key !in r.current && !r.streams.of[key].gone && key.host in r.answered
  }

  /** A session that left counts as fully streamed. */
  function Gone(p: Progress, now: int): Progress {
    p.(gone := true, done := p.total, filesDone := p.filesTotal, moved := true, since := now)
  }

  function LeaveUpTo(r: Reading, now: int, k: nat): Reading
    requires k <= |r.streams.order|
  {
    if k == 0 then r
    else
      var before, key := LeaveUpTo(r, now, k - 1), r.streams.order[k - 1];
      if !Leaves(r, key) then before
      else before.(streams := before.streams.(of := before.streams.of[key := Gone(r.streams.of[key], now)]),
          progressed := true)
  }

  /** The check read: the sessions shown, then those that left. */
  function ReadCheck(streams: Streams, check: Check, settings: Settings): Reading {
    var r := ReadViews(Reading(streams, {}, {}, false), check.views, settings, check.now);
    LeaveUpTo(r, check.now, |r.streams.order|)
  }

  function SumDone(streams: Streams, k: nat): nat
    requires k <= |streams.order| && forall key :: key in streams.order ==> key in streams.of
  {
    if k == 0 then 0 else SumDone(streams, k - 1) + streams.of[streams.order[k - 1]].done
  }

  function SumTotal(streams: Streams, k: nat): nat
    requires k <= |streams.order| && forall key :: key in streams.order ==> key in streams.of
  {
    if k == 0 then 0 else SumTotal(streams, k - 1) + streams.of[streams.order[k - 1]].total
  }

  /** Some session shown has bytes left. */
  predicate Transferring(r: Reading) {
    exists key :: key in r.current && key in r.streams.of && r.streams.of[key].done < r.streams.of[key].total
  }

  predicate Recent(samples: seq<Sample>, i: nat, now: int)
    requires i < |samples|
  {
    now - samples[i].time <= WINDOW || i + 3 >= |samples|
  }

  /** The samples of the last WINDOW seconds, the last 3 at least, among the first k. */
  function RecentUpTo(samples: seq<Sample>, now: int, k: nat): seq<Sample>
    requires k <= |samples|
  {
    if k == 0 then []
    else RecentUpTo(samples, now, k - 1) + if Recent(samples, k - 1, now) then [samples[k - 1]] else []
  }

  function RecentOf(samples: seq<Sample>, now: int): seq<Sample> {
    RecentUpTo(samples, now, |samples|)
  }

  /** Bytes and seconds since the oldest sample kept; None when nothing was streamed or no time passed. */
  function RateOf(samples: seq<Sample>, now: int, done: nat): Option<(int, int)> {
    if samples != [] && now > samples[0].time && done > samples[0].bytes
    then Some((done - samples[0].bytes, now - samples[0].time)) else None
  }

  const NOTHING := Streams([], map[])

  function Before(state: Option<State>): Streams {
    if state.Some? then state.value.streams else NOTHING
  }

  /** The state after a check. */
  function Next(state: Option<State>, check: Check, settings: Settings): State
    requires WellFormed(Before(state))
  {
    ReadKeeps(Before(state), check, settings);
    var now := check.now;
    var r := ReadCheck(Before(state), check, settings);
    var last := if r.progressed || state.None? then now else state.value.lastProgress;
    var transferring := Transferring(r);
    var limit := settings.stallTime * if transferring then 1 else settings.quietFactor;
    var done := SumDone(r.streams, |r.streams.order|);
    var samples := if state.Some? then state.value.samples else [];
    var recent := RecentOf(samples, now);
    State(r.streams, r.progressed, if state.Some? then state.value.start else now, now, last,
          if r.progressed || state.None? then 0 else state.value.idleChecks + 1, now - last,
          transferring, limit, now - last >= limit, r.answered,
          (if state.Some? then state.value.answeredHosts else {}) + r.answered,
          done, SumTotal(r.streams, |r.streams.order|),
          if samples != [] then state.value.firstDone else done,
          if r.answered != {} then RecentOf(recent + [Sample(now, done)], now) else samples,
          if r.answered != {} then RateOf(recent, now, done) else None)
  }

  // ----- the streams stay well formed -----

  lemma {:induction false} SeenKeeps(streams: Streams, key: Key, s: Session, now: int)
    requires WellFormed(streams)
    ensures WellFormed(Seen(streams, key, s, now))
  {
  }

  lemma {:induction false} SessionsKeep(r: Reading, host: Host, sessions: seq<Session>, settings: Settings, now: int)
    requires WellFormed(r.streams)
    ensures WellFormed(ReadSessions(r, host, sessions, settings, now).streams)
  {
    if sessions != [] {
      SessionsKeep(r, host, sessions[..|sessions| - 1], settings, now);
      var mid, s := ReadSessions(r, host, sessions[..|sessions| - 1], settings, now), sessions[|sessions| - 1];
      SeenKeeps(mid.streams, KeyOf(host, s), s, now);
    }
  }

  lemma {:induction false} ViewsKeep(r: Reading, views: seq<View>, settings: Settings, now: int)
    requires WellFormed(r.streams)
    ensures WellFormed(ReadViews(r, views, settings, now).streams)
  {
    if views != [] {
      ViewsKeep(r, views[..|views| - 1], settings, now);
      var mid, view := ReadViews(r, views[..|views| - 1], settings, now), views[|views| - 1];
      if view.sessions.Some? {
        SessionsKeep(mid.(answered := mid.answered + {view.host}), view.host, view.sessions.value, settings, now);
      }
    }
  }

  /** What the pass over the first k sessions leaves of one. */
  ghost predicate LeftAt(r: Reading, after: Reading, now: int, k: nat, key: Key)
    requires k <= |r.streams.order| && key in r.streams.of
  {
    key in after.streams.of &&
    after.streams.of[key] == if Leaves(r, key) && key in r.streams.order[..k] then Gone(r.streams.of[key], now)
        else r.streams.of[key]
  }

  ghost predicate SomeLeft(r: Reading, k: nat)
    requires k <= |r.streams.order|
  {
    exists i :: 0 <= i < k && Leaves(r, r.streams.order[i])
  }

  ghost predicate LeftUpTo(r: Reading, after: Reading, now: int, k: nat)
    requires k <= |r.streams.order|
  {
    && after.streams.order == r.streams.order && after.streams.of.Keys == r.streams.of.Keys
    && after.current == r.current && after.answered == r.answered
    && (forall key :: key in r.streams.of ==> LeftAt(r, after, now, k, key))
    && (after.progressed <==> r.progressed || SomeLeft(r, k))
  }

  lemma {:induction false} LeaveMore(r: Reading, before: Reading, after: Reading, now: int, k: nat)
    requires WellFormed(r.streams) && k < |r.streams.order| && LeftUpTo(r, before, now, k)
    requires var key := r.streams.order[k];
             after == if !Leaves(r, key) then before
                      else before.(streams := before.streams.(of :=
                          before.streams.of[key := Gone(r.streams.of[key], now)]), progressed := true)
    ensures LeftUpTo(r, after, now, k + 1)
  {
    var last := r.streams.order[k];
    assert r.streams.order[..k + 1] == r.streams.order[..k] + [last];
    assert last in r.streams.of;
    forall key | key in r.streams.of ensures LeftAt(r, after, now, k + 1, key) {
      assert LeftAt(r, before, now, k, key);
    }
  }

  /** The pass over the sessions that left: exactly those are gone now, the rest is as it was. */
  lemma {:induction false} LeaveIs(r: Reading, now: int, k: nat)
    requires WellFormed(r.streams) && k <= |r.streams.order|
    ensures LeftUpTo(r, LeaveUpTo(r, now, k), now, k)
  {
    if k > 0 {
      LeaveIs(r, now, k - 1);
      LeaveMore(r, LeaveUpTo(r, now, k - 1), LeaveUpTo(r, now, k), now, k - 1);
    }
  }

  lemma {:induction false} ReadKeeps(streams: Streams, check: Check, settings: Settings)
    requires WellFormed(streams)
    ensures WellFormed(ReadCheck(streams, check, settings).streams)
  {
    ViewsKeep(Reading(streams, {}, {}, false), check.views, settings, check.now);
    var r := ReadViews(Reading(streams, {}, {}, false), check.views, settings, check.now);
    LeaveIs(r, check.now, |r.streams.order|);
  }

  // ----- the check as a loop -----

  method ReadSessionsOf(r: Reading, host: Host, sessions: seq<Session>, settings: Settings, now: int)
      returns (after: Reading)
    ensures after == ReadSessions(r, host, sessions, settings, now)
  {
    var streams, current, progressed := r.streams, r.current, r.progressed;
    var i := 0;
    while i < |sessions|
      invariant 0 <= i <= |sessions|
      invariant Reading(streams, current, r.answered, progressed) == ReadSessions(r, host, sessions[..i], settings, now)
    {
      var s := sessions[i];
      assert sessions[..i + 1][..i] == sessions[..i];
      if Followed(settings, s) {
        var key := KeyOf(host, s);
        progressed := progressed || Moves(streams, key, s);
        streams, current := Seen(streams, key, s, now), current + {key};
      }
      i := i + 1;
    }
    assert sessions[..i] == sessions;
    after := Reading(streams, current, r.answered, progressed);
  }

  method ReadAll(streams: Streams, views: seq<View>, settings: Settings, now: int) returns (r: Reading)
    ensures r == ReadViews(Reading(streams, {}, {}, false), views, settings, now)
  {
    r := Reading(streams, {}, {}, false);
    ghost var start := r;
    var i := 0;
    while i < |views|
      invariant 0 <= i <= |views| && r == ReadViews(start, views[..i], settings, now)
    {
      assert views[..i + 1][..i] == views[..i];
      var view := views[i];
      if view.sessions.Some? {
        r := ReadSessionsOf(r.(answered := r.answered + {view.host}), view.host, view.sessions.value, settings, now);
      }
      i := i + 1;
    }
    assert views[..i] == views;
  }

  method LeaveAll(r: Reading, now: int) returns (after: Reading)
    ensures after == LeaveUpTo(r, now, |r.streams.order|)
  {
    var of, progressed := r.streams.of, r.progressed;
    var k := 0;
    while k < |r.streams.order|
      invariant 0 <= k <= |r.streams.order|
      invariant r.(streams := r.streams.(of := of), progressed := progressed) == LeaveUpTo(r, now, k)
    {
      var key := r.streams.order[k];
      if Leaves(r, key) {
        of, progressed := of[key := Gone(r.streams.of[key], now)], true;
      }
      k := k + 1;
    }
    after := r.(streams := r.streams.(of := of), progressed := progressed);
  }

  method Sums(streams: Streams) returns (done: nat, total: nat)
    requires forall key :: key in streams.order ==> key in streams.of
    ensures done == SumDone(streams, |streams.order|) && total == SumTotal(streams, |streams.order|)
  {
    done, total := 0, 0;
    var k := 0;
    while k < |streams.order|
      invariant 0 <= k <= |streams.order| && done == SumDone(streams, k) && total == SumTotal(streams, k)
    {
      assert streams.order[k] in streams.order;
      done, total := done + streams.of[streams.order[k]].done, total + streams.of[streams.order[k]].total;
      k := k + 1;
    }
  }

  /** The state after a check, from the one before. */
  method CheckProgress(state: Option<State>, check: Check, settings: Settings) returns (next: State)
    requires WellFormed(Before(state))
    ensures next == Next(state, check, settings)
  {
    ReadKeeps(Before(state), check, settings);
    var now, first := check.now, state.None?;
    var shown := ReadAll(Before(state), check.views, settings, now);
    var r := LeaveAll(shown, now);
    var last := if r.progressed || first then now else state.value.lastProgress;
    var idleChecks := if r.progressed || first then 0 else state.value.idleChecks + 1;
    var transferring := Transferring(r);
    var limit := settings.stallTime * if transferring then 1 else settings.quietFactor;
    var done, total := Sums(r.streams);
    var samples := if first then [] else state.value.samples;
    var firstDone := if samples != [] then state.value.firstDone else done;
    var rate := None;
    if r.answered != {} {
      var recent := RecentOf(samples, now);
      rate := RateOf(recent, now, done);
      samples := RecentOf(recent + [Sample(now, done)], now);
    }
    next := State(r.streams, r.progressed, if first then now else state.value.start, now, last, idleChecks, now - last,
                  transferring, limit, now - last >= limit, r.answered,
                  (if first then {} else state.value.answeredHosts) + r.answered, done, total, firstDone, samples,
                      rate);
  }

  // ----- a run of checks -----

  /** The state after the first n checks. */
  function After(checks: seq<Check>, settings: Settings, n: nat): (r: Option<State>)
    requires n <= |checks|
    ensures WellFormed(Before(r)) && (r.Some? <==> n > 0)
  {
    if n == 0 then None
    else
      ReadKeeps(Before(After(checks, settings, n - 1)), checks[n - 1], settings);
      Some(Next(After(checks, settings, n - 1), checks[n - 1], settings))
  }

  ghost predicate ClockRuns(checks: seq<Check>) {
    forall i, j :: 0 <= i < j < |checks| ==> checks[i].now <= checks[j].now
  }

  /** No session has streamed more than its total. */
  ghost predicate Honest(check: Check) {
    forall i, j ::
        0 <= i < |check.views| && check.views[i].sessions.Some? && 0 <= j < |check.views[i].sessions.value| ==>
        check.views[i].sessions.value[j].done <= check.views[i].sessions.value[j].total
  }

  ghost predicate Bounded(streams: Streams) {
    forall key :: key in streams.of ==> streams.of[key].done <= streams.of[key].total
  }

  lemma {:induction false} SessionsBounded(r: Reading, host: Host, sessions: seq<Session>, settings: Settings, now: int)
    requires Bounded(r.streams) && forall j :: 0 <= j < |sessions| ==> sessions[j].done <= sessions[j].total
    ensures Bounded(ReadSessions(r, host, sessions, settings, now).streams)
  {
    if sessions != [] { SessionsBounded(r, host, sessions[..|sessions| - 1], settings, now); }
  }

  lemma {:induction false} ViewsBounded(r: Reading, views: seq<View>, settings: Settings, now: int)
    requires Bounded(r.streams) && Honest(Check(views, now))
    ensures Bounded(ReadViews(r, views, settings, now).streams)
  {
    if views != [] {
      var init, view := views[..|views| - 1], views[|views| - 1];
      assert forall i :: 0 <= i < |init| ==> init[i] == Check(views, now).views[i];
      ViewsBounded(r, init, settings, now);
      if view.sessions.Some? {
        assert Check(views, now).views[|views| - 1] == view;
        var mid := ReadViews(r, init, settings, now);
        SessionsBounded(mid.(answered := mid.answered + {view.host}), view.host, view.sessions.value, settings, now);
      }
    }
  }

  lemma {:induction false} CheckBounded(streams: Streams, check: Check, settings: Settings)
    requires WellFormed(streams) && Bounded(streams) && Honest(check)
    ensures Bounded(ReadCheck(streams, check, settings).streams)
  {
    var start := Reading(streams, {}, {}, false);
    ViewsBounded(start, check.views, settings, check.now);
    ViewsKeep(start, check.views, settings, check.now);
    var r := ReadViews(start, check.views, settings, check.now);
    LeaveIs(r, check.now, |r.streams.order|);
    var after := LeaveUpTo(r, check.now, |r.streams.order|);
    forall key | key in after.streams.of ensures after.streams.of[key].done <= after.streams.of[key].total {
      assert LeftAt(r, after, check.now, |r.streams.order|, key);
    }
  }

  lemma {:induction false} SumsBounded(streams: Streams, k: nat)
    requires WellFormed(streams) && Bounded(streams) && k <= |streams.order|
    ensures SumDone(streams, k) <= SumTotal(streams, k)
  {
    if k > 0 {
      SumsBounded(streams, k - 1);
      assert streams.order[k - 1] in streams.of;
    }
  }

  lemma {:induction false} RunBounded(checks: seq<Check>, settings: Settings, n: nat)
    requires n <= |checks| && forall i :: 0 <= i < |checks| ==> Honest(checks[i])
    ensures Bounded(Before(After(checks, settings, n)))
  {
    if n > 0 {
      RunBounded(checks, settings, n - 1);
      CheckBounded(Before(After(checks, settings, n - 1)), checks[n - 1], settings);
    }
  }

  /** In every state of a run, no more bytes are done than there are. */
  lemma {:induction false} BytesNeverExceed(checks: seq<Check>, settings: Settings, n: nat)
    requires 0 < n <= |checks| && forall i :: 0 <= i < |checks| ==> Honest(checks[i])
    ensures After(checks, settings, n).value.bytesDone <= After(checks, settings, n).value.bytesTotal
  {
    RunBounded(checks, settings, n);
    var streams := After(checks, settings, n).value.streams;
    SumsBounded(streams, |streams.order|);
  }

  // ----- stalling -----

  /** A check that counts as progress: one where something moved, or the first. */
  ghost predicate Progresses(checks: seq<Check>, settings: Settings, i: nat)
    requires 0 < i <= |checks|
  {
    i == 1 || After(checks, settings, i).value.progressed
  }

  lemma {:induction false} ProgressStep(checks: seq<Check>, settings: Settings, n: nat)
    requires 0 < n <= |checks|
    ensures var st := After(checks, settings, n).value;
            if Progresses(checks, settings, n) then st.lastProgress == checks[n - 1].now && st.idleChecks == 0
            else n > 1 && st.lastProgress == After(checks, settings, n - 1).value.lastProgress
                 && st.idleChecks == After(checks, settings, n - 1).value.idleChecks + 1
  {
  }

  /** The latest of the first n checks that progressed. */
  lemma {:induction false} Latest(checks: seq<Check>, settings: Settings, n: nat) returns (i: nat)
    requires 0 < n <= |checks|
    ensures 0 < i <= n && Progresses(checks, settings, i)
    ensures forall j :: i < j <= n ==> !Progresses(checks, settings, j)
  {
    if n == 1 || Progresses(checks, settings, n) { i := n; } else { i := Latest(checks, settings, n - 1); }
  }

  lemma {:induction false} IdleSince(checks: seq<Check>, settings: Settings, n: nat, i: nat)
    requires 0 < i <= n <= |checks| && Progresses(checks, settings, i)
    requires forall j :: i < j <= n ==> !Progresses(checks, settings, j)
    ensures After(checks, settings, n).value.lastProgress == checks[i - 1].now
    ensures After(checks, settings, n).value.idleChecks == n - i
    decreases n
  {
    ProgressStep(checks, settings, n);
    if i < n { IdleSince(checks, settings, n - 1, i); }
  }

  /** The last progress is at the latest check that progressed; the idle checks are those since. */
  lemma {:induction false} LatestProgress(checks: seq<Check>, settings: Settings, n: nat) returns (i: nat)
    requires 0 < n <= |checks|
    ensures 0 < i <= n && Progresses(checks, settings, i)
    ensures forall j :: i < j <= n ==> !Progresses(checks, settings, j)
    ensures After(checks, settings, n).value.lastProgress == checks[i - 1].now
    ensures After(checks, settings, n).value.idleChecks == n - i
  {
    i := Latest(checks, settings, n);
    IdleSince(checks, settings, n, i);
  }

  /** No check of the first n that progressed was later than a time. */
  ghost predicate NoneSince(checks: seq<Check>, settings: Settings, n: nat, time: int)
    requires n <= |checks|
  {
    forall j :: 0 < j <= n && Progresses(checks, settings, j) ==> checks[j - 1].now <= time
  }

  lemma {:induction false} StalledIs(checks: seq<Check>, settings: Settings, n: nat)
    requires 0 < n <= |checks|
    ensures var st := After(checks, settings, n).value; st.stalled <==> st.lastProgress <= st.now - st.limit
  {
  }

  /** Stalled exactly when no check later than the limit ago progressed. */
  lemma {:induction false} StalledMeans(checks: seq<Check>, settings: Settings, n: nat)
    requires 0 < n <= |checks| && ClockRuns(checks)
    ensures var st := After(checks, settings, n).value;
            st.stalled <==> NoneSince(checks, settings, n, st.now - st.limit)
  {
    var i := LatestProgress(checks, settings, n);
    StalledIs(checks, settings, n);
    LatestIsLast(checks, settings, n, i, After(checks, settings, n).value.now - After(checks, settings, n).value.limit);
  }

  lemma {:induction false} LatestIsLast(checks: seq<Check>, settings: Settings, n: nat, i: nat, time: int)
    requires 0 < i <= n <= |checks| && ClockRuns(checks) && Progresses(checks, settings, i)
    requires forall j :: i < j <= n ==> !Progresses(checks, settings, j)
    ensures NoneSince(checks, settings, n, time) <==> checks[i - 1].now <= time
  {
    forall j | 0 < j <= n && Progresses(checks, settings, j) ensures checks[j - 1].now <= checks[i - 1].now {
      if j < i { assert checks[j - 1].now <= checks[i - 1].now; }
    }
  }

  // ----- sessions that leave -----

  /** The host answered the check. */
  ghost predicate Answers(check: Check, host: Host) {
    exists i :: 0 <= i < |check.views| && check.views[i].host == host && check.views[i].sessions.Some?
  }

  ghost predicate ShownIn(sessions: seq<Session>, host: Host, settings: Settings, key: Key) {
    exists j :: 0 <= j < |sessions| && Followed(settings, sessions[j]) && KeyOf(host, sessions[j]) == key
  }

  /** The session is one of those the check shows. */
  ghost predicate Shown(check: Check, settings: Settings, key: Key) {
    exists i :: 0 <= i < |check.views| && check.views[i].sessions.Some? &&
        ShownIn(check.views[i].sessions.value, check.views[i].host, settings, key)
  }

  /** What reading sessions does to one: nothing, or it is there and not gone. */
  ghost predicate ReadTo(before: Reading, after: Reading, key: Key, shown: bool) {
    && (key in after.current <==> key in before.current || shown)
    && (shown ==> key in after.streams.of && !after.streams.of[key].gone)
    && (!shown ==> (key in after.streams.of <==> key in before.streams.of)
                   && (key in before.streams.of ==> after.streams.of[key] == before.streams.of[key]))
  }

  lemma {:induction false} SessionsRead(r: Reading, host: Host, sessions: seq<Session>, settings: Settings, now: int,
        key: Key)
    ensures var after := ReadSessions(r, host, sessions, settings, now);
            ReadTo(r, after, key, ShownIn(sessions, host, settings, key)) && after.answered == r.answered
  {
    if sessions != [] {
      var init, s := sessions[..|sessions| - 1], sessions[|sessions| - 1];
      SessionsRead(r, host, init, settings, now, key);
      assert sessions == init + [s];
      assert ShownIn(sessions, host, settings, key) <==>
          ShownIn(init, host, settings, key) || (Followed(settings, s) && KeyOf(host, s) == key) by {
        if ShownIn(init, host, settings, key) {
          var j :| 0 <= j < |init| && Followed(settings, init[j]) && KeyOf(host, init[j]) == key;
          assert sessions[j] == init[j];
        }
        assert sessions[|init|] == s;
      }
    }
  }

  lemma {:induction false} ReadTwice(a: Reading, b: Reading, c: Reading, key: Key, first: bool, second: bool)
    requires ReadTo(a, b, key, first) && ReadTo(b, c, key, second)
    ensures ReadTo(a, c, key, first || second)
  {
  }

  lemma {:induction false} ShownMore(views: seq<View>, view: View, now: int, settings: Settings, key: Key)
    ensures Shown(Check(views + [view], now), settings, key) <==>
            Shown(Check(views, now), settings, key)
            || (view.sessions.Some? && ShownIn(view.sessions.value, view.host, settings, key))
  {
    var more := views + [view];
    if Shown(Check(views, now), settings, key) {
      var i :| 0 <= i < |views| && views[i].sessions.Some? &&
          ShownIn(views[i].sessions.value, views[i].host, settings, key);
      assert more[i] == views[i];
    }
    assert more[|views|] == view;
  }

  lemma {:induction false} AnswersMore(views: seq<View>, view: View, now: int, host: Host)
    ensures Answers(Check(views + [view], now), host) <==>
            Answers(Check(views, now), host) || (view.sessions.Some? && view.host == host)
  {
    var more := views + [view];
    if Answers(Check(views, now), host) {
      var i :| 0 <= i < |views| && views[i].host == host && views[i].sessions.Some?;
      assert more[i] == views[i];
    }
    assert more[|views|] == view;
  }

  lemma {:induction false} ViewsRead(r: Reading, views: seq<View>, settings: Settings, now: int, key: Key)
    ensures var after := ReadViews(r, views, settings, now);
            && ReadTo(r, after, key, Shown(Check(views, now), settings, key))
            && (key.host in after.answered <==> key.host in r.answered || Answers(Check(views, now), key.host))
  {
    if views != [] {
      var init, view := views[..|views| - 1], views[|views| - 1];
      ViewsRead(r, init, settings, now, key);
      assert views == init + [view];
      ShownMore(init, view, now, settings, key);
      AnswersMore(init, view, now, key.host);
      if view.sessions.Some? {
        var mid := ReadViews(r, init, settings, now);
        var answered := mid.(answered := mid.answered + {view.host});
        SessionsRead(answered, view.host, view.sessions.value, settings, now, key);
        ReadTwice(r, answered, ReadView(mid, view, settings, now), key, Shown(Check(init, now), settings, key),
                  ShownIn(view.sessions.value, view.host, settings, key));
      }
    }
  }

  /** A session is followed once it was shown, and gone once it is not shown by a host that answers. */
  lemma {:induction false} OneCheck(streams: Streams, check: Check, settings: Settings, key: Key)
    requires WellFormed(streams)
    ensures var after := ReadCheck(streams, check, settings).streams;
            && (key in after.of <==> key in streams.of || Shown(check, settings, key))
            && (key in after.of ==>
                  (after.of[key].gone <==>
                   !Shown(check, settings, key) && (streams.of[key].gone || Answers(check, key.host))))
  {
    var start := Reading(streams, {}, {}, false);
    assert Check(check.views, check.now) == check;
    ViewsRead(start, check.views, settings, check.now, key);
    ViewsKeep(start, check.views, settings, check.now);
    var r := ReadViews(start, check.views, settings, check.now);
    LeaveIs(r, check.now, |r.streams.order|);
    assert r.streams.order[..|r.streams.order|] == r.streams.order;
    if key in r.streams.of {
      assert LeftAt(r, LeaveUpTo(r, check.now, |r.streams.order|), check.now, |r.streams.order|, key);
    }
  }

  ghost predicate GoneAfter(checks: seq<Check>, settings: Settings, n: nat, key: Key)
    requires n <= |checks|
  {
    var streams := Before(After(checks, settings, n));
    key in streams.of && streams.of[key].gone
  }

  /** The session leaves at check n. */
  ghost predicate LeavesAt(checks: seq<Check>, settings: Settings, n: nat, key: Key)
    requires 0 < n <= |checks|
  {
    GoneAfter(checks, settings, n, key) && !GoneAfter(checks, settings, n - 1, key)
  }

  /** Check n shows the session. */
  ghost predicate ShownAt(checks: seq<Check>, settings: Settings, n: nat, key: Key) {
    0 < n <= |checks| && Shown(checks[n - 1], settings, key)
  }

  lemma {:induction false} GoneStep(checks: seq<Check>, settings: Settings, n: nat, key: Key)
    requires 0 < n <= |checks| && GoneAfter(checks, settings, n - 1, key) && !ShownAt(checks, settings, n, key)
    ensures GoneAfter(checks, settings, n, key)
  {
    OneCheck(Before(After(checks, settings, n - 1)), checks[n - 1], settings, key);
  }

  lemma {:induction false} GoneStays(checks: seq<Check>, settings: Settings, m: nat, n: nat, key: Key)
    requires m <= n <= |checks| && GoneAfter(checks, settings, m, key)
    requires forall i :: m < i <= n ==> !ShownAt(checks, settings, i, key)
    ensures GoneAfter(checks, settings, n, key)
    decreases n
  {
    if m < n {
      GoneStays(checks, settings, m, n - 1, key);
      GoneStep(checks, settings, n, key);
    }
  }

  /** A session leaves only when its host answered without showing it. */
  lemma {:induction false} LeavesWhenAnswered(checks: seq<Check>, settings: Settings, n: nat, key: Key)
    requires 0 < n <= |checks| && LeavesAt(checks, settings, n, key)
    ensures Answers(checks[n - 1], key.host) && !ShownAt(checks, settings, n, key)
  {
    OneCheck(Before(After(checks, settings, n - 1)), checks[n - 1], settings, key);
  }

  /** Between two times a session leaves, it is shown again. */
  lemma {:induction false} LeavesOncePerAppearance(checks: seq<Check>, settings: Settings, m: nat, n: nat, key: Key)
    requires 0 < m < n <= |checks| && LeavesAt(checks, settings, m, key) && LeavesAt(checks, settings, n, key)
    ensures exists i :: m < i < n && ShownAt(checks, settings, i, key)
  {
    if forall i :: m < i < n ==> !ShownAt(checks, settings, i, key) {
      GoneStays(checks, settings, m, n - 1, key);
    }
  }

  // ----- what no progress means -----

  /** No session started, none streamed more and no total changed, since some streams. */
  ghost predicate Quiet(before: Streams, after: Streams) {
    && after.of.Keys == before.of.Keys
    && forall key :: key in before.of ==> QuietAt(before.of[key], after.of[key])
  }

  ghost predicate QuietAt(before: Progress, after: Progress) {
    after.total == before.total && after.mark <= before.mark
  }

  lemma {:induction false} QuietSessions(r: Reading, host: Host, sessions: seq<Session>, settings: Settings, now: int)
    requires !ReadSessions(r, host, sessions, settings, now).progressed
    ensures !r.progressed && Quiet(r.streams, ReadSessions(r, host, sessions, settings, now).streams)
  {
    if sessions != [] { QuietSessions(r, host, sessions[..|sessions| - 1], settings, now); }
  }

  lemma {:induction false} QuietViews(r: Reading, views: seq<View>, settings: Settings, now: int)
    requires !ReadViews(r, views, settings, now).progressed
    ensures !r.progressed && Quiet(r.streams, ReadViews(r, views, settings, now).streams)
  {
    if views != [] {
      var mid, view := ReadViews(r, views[..|views| - 1], settings, now), views[|views| - 1];
      if view.sessions.Some? {
        QuietSessions(mid.(answered := mid.answered + {view.host}), view.host, view.sessions.value, settings, now);
      }
      QuietViews(r, views[..|views| - 1], settings, now);
    }
  }

  /** A check without progress: no session started, streamed more, changed its total or left. */
  lemma {:induction false} NoProgressMeans(streams: Streams, check: Check, settings: Settings)
    requires WellFormed(streams) && !ReadCheck(streams, check, settings).progressed
    ensures var after := ReadCheck(streams, check, settings).streams;
            Quiet(streams, after) && forall key :: key in streams.of && !streams.of[key].gone ==> !after.of[key].gone
  {
    var start := Reading(streams, {}, {}, false);
    var r := ReadViews(start, check.views, settings, check.now);
    ViewsKeep(start, check.views, settings, check.now);
    LeaveIs(r, check.now, |r.streams.order|);
    QuietViews(start, check.views, settings, check.now);
    NoneLeft(r, check.now);
    forall key | key in streams.of && !streams.of[key].gone
        ensures !ReadCheck(streams, check, settings).streams.of[key].gone {
      assert Check(check.views, check.now) == check;
      ViewsRead(start, check.views, settings, check.now, key);
    }
  }

  lemma {:induction false} NoneLeft(r: Reading, now: int)
    requires WellFormed(r.streams) && !LeaveUpTo(r, now, |r.streams.order|).progressed
    ensures !r.progressed && LeaveUpTo(r, now, |r.streams.order|).streams.of == r.streams.of
  {
    var n := |r.streams.order|;
    LeaveIs(r, now, n);
    forall key | key in r.streams.of ensures LeaveUpTo(r, now, n).streams.of[key] == r.streams.of[key] {
      assert LeftAt(r, LeaveUpTo(r, now, n), now, n, key);
      var i :| 0 <= i < n && r.streams.order[i] == key;
      assert !Leaves(r, r.streams.order[i]);
    }
  }

  // ----- the samples of the rate -----

  ghost predicate InTime(samples: seq<Sample>) {
    forall i, j :: 0 <= i < j < |samples| ==> samples[i].time <= samples[j].time
  }

  /** With a clock that never goes back, the samples kept are the last ones: those of
      the window, and three at least when there are three. */
  lemma {:induction false} RecentIsTail(samples: seq<Sample>, now: int, k: nat) returns (from: nat)
    requires InTime(samples) && k <= |samples|
    ensures from <= k && RecentUpTo(samples, now, k) == samples[from..k]
    ensures forall i :: 0 <= i < k ==> (from <= i <==> Recent(samples, i, now))
  {
    if k == 0 {
      from := 0;
    } else {
      from := RecentIsTail(samples, now, k - 1);
      if Recent(samples, k - 1, now) {
        assert samples[from..k] == samples[from..k - 1] + [samples[k - 1]];
      } else {
        NoneRecent(samples, now, k);
        from := k;
      }
    }
  }

  lemma {:induction false} NoneRecent(samples: seq<Sample>, now: int, k: nat)
    requires InTime(samples) && 0 < k <= |samples| && !Recent(samples, k - 1, now)
    ensures forall i :: 0 <= i < k ==> !Recent(samples, i, now)
  {
  }
}
