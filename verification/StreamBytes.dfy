/** When the bytes done of a streaming operation go back down from one check to the next. */
module StreamBytes {
  import opened Lists
  import opened Options
  import opened Stream

  // ----- what a check counts for one session -----

  predicate IsOf(s: Session, host: Host, settings: Settings, key: Key) {
    Followed(settings, s) && KeyOf(host, s) == key
  }

  /** The bytes done of a session where some sessions show it last. */
  function LastIn(sessions: seq<Session>, host: Host, settings: Settings, key: Key): Option<nat> {
    if sessions == [] then None
    else
      var last := sessions[|sessions| - 1];
      if IsOf(last, host, settings, key) then Some(last.done)
          else LastIn(sessions[..|sessions| - 1], host, settings, key)
  }

  /** The bytes done of a session where a check shows it last, None when it does not. */
  function LastShown(views: seq<View>, settings: Settings, key: Key): Option<nat> {
    if views == [] then None
    else
      var view := views[|views| - 1];
      var here := if view.sessions.Some? then LastIn(view.sessions.value, view.host, settings, key) else None;
      if here.Some? then here else LastShown(views[..|views| - 1], settings, key)
  }

  /** The bytes a check counts for a session: those shown; all of them when it has just
      left; else those counted before. */
  ghost function Counted(streams: Streams, check: Check, settings: Settings, key: Key): nat {
    match LastShown(check.views, settings, key)
    case Some(done) => done
    case None =>
      if key !in streams.of then 0
      else if Answers(check, key.host) && !streams.of[key].gone then streams.of[key].total
      else streams.of[key].done
  }

  /** What reading leaves as the bytes done of a session. */
  ghost predicate DoneTo(before: Reading, after: Reading, key: Key, shown: Option<nat>) {
    && (shown.Some? ==> key in after.streams.of && after.streams.of[key].done == shown.value)
    && (shown.None? ==> (key in after.streams.of <==> key in before.streams.of)
                        && (key in before.streams.of ==> after.streams.of[key] == before.streams.of[key]))
  }

  lemma {:induction false} SessionsDone(r: Reading, host: Host, sessions: seq<Session>, settings: Settings, now: int,
        key: Key)
    ensures DoneTo(r, ReadSessions(r, host, sessions, settings, now), key, LastIn(sessions, host, settings, key))
    ensures LastIn(sessions, host, settings, key).Some? <==> ShownIn(sessions, host, settings, key)
  {
    if sessions != [] {
      var init, s := sessions[..|sessions| - 1], sessions[|sessions| - 1];
      SessionsDone(r, host, init, settings, now, key);
      assert sessions == init + [s];
      ShownInMore(init, s, host, settings, key);
    }
  }

  lemma {:induction false} ShownInMore(init: seq<Session>, s: Session, host: Host, settings: Settings, key: Key)
    ensures ShownIn(init + [s], host, settings, key) <==>
        ShownIn(init, host, settings, key) || IsOf(s, host, settings, key)
  {
    var all := init + [s];
    if ShownIn(init, host, settings, key) {
      var j :| 0 <= j < |init| && Followed(settings, init[j]) && KeyOf(host, init[j]) == key;
      assert all[j] == init[j];
    }
    assert all[|init|] == s;
  }

  lemma {:induction false} ViewsDone(r: Reading, views: seq<View>, settings: Settings, now: int, key: Key)
    ensures DoneTo(r, ReadViews(r, views, settings, now), key, LastShown(views, settings, key))
    ensures LastShown(views, settings, key).Some? <==> Shown(Check(views, now), settings, key)
  {
    if views != [] {
      var init, view := views[..|views| - 1], views[|views| - 1];
      ViewsDone(r, init, settings, now, key);
      assert views == init + [view];
      ShownMore(init, view, now, settings, key);
      if view.sessions.Some? {
        var mid := ReadViews(r, init, settings, now);
        SessionsDone(mid.(answered := mid.answered + {view.host}), view.host, view.sessions.value, settings, now, key);
      }
    }
  }

  /** After a check, each session has the bytes it counts for it. */
  lemma {:induction false} DoneIs(streams: Streams, check: Check, settings: Settings, key: Key)
    requires WellFormed(streams)
    ensures var after := ReadCheck(streams, check, settings).streams; key in after.of ==>
        after.of[key].done == Counted(streams, check, settings, key)
  {
    var start := Reading(streams, {}, {}, false);
    assert Check(check.views, check.now) == check;
    ViewsDone(start, check.views, settings, check.now, key);
    ViewsRead(start, check.views, settings, check.now, key);
    ViewsKeep(start, check.views, settings, check.now);
    var r := ReadViews(start, check.views, settings, check.now);
    LeaveIs(r, check.now, |r.streams.order|);
    assert r.streams.order[..|r.streams.order|] == r.streams.order;
    if key in r.streams.of {
      assert LeftAt(r, LeaveUpTo(r, check.now, |r.streams.order|), check.now, |r.streams.order|, key);
    }
  }

  // ----- sessions are kept in the order they were first seen -----

  lemma {:induction false} SessionsGrow(r: Reading, host: Host, sessions: seq<Session>, settings: Settings, now: int)
    ensures r.streams.order <= ReadSessions(r, host, sessions, settings, now).streams.order
  {
    if sessions != [] { SessionsGrow(r, host, sessions[..|sessions| - 1], settings, now); }
  }

  lemma {:induction false} ViewsGrow(r: Reading, views: seq<View>, settings: Settings, now: int)
    ensures r.streams.order <= ReadViews(r, views, settings, now).streams.order
  {
    if views != [] {
      ViewsGrow(r, views[..|views| - 1], settings, now);
      var mid, view := ReadViews(r, views[..|views| - 1], settings, now), views[|views| - 1];
      if view.sessions.Some? {
        SessionsGrow(mid.(answered := mid.answered + {view.host}), view.host, view.sessions.value, settings, now);
      }
    }
  }

  lemma {:induction false} CheckGrows(streams: Streams, check: Check, settings: Settings)
    requires WellFormed(streams)
    ensures streams.order <= ReadCheck(streams, check, settings).streams.order
  {
    var start := Reading(streams, {}, {}, false);
    ViewsGrow(start, check.views, settings, check.now);
    ViewsKeep(start, check.views, settings, check.now);
    var r := ReadViews(start, check.views, settings, check.now);
    LeaveIs(r, check.now, |r.streams.order|);
  }

  // ----- taken back and brought -----

  /** Bytes a session known takes back: it is shown with fewer than it counts for. */
  ghost function Less(streams: Streams, check: Check, settings: Settings, key: Key): nat {
    var shown := LastShown(check.views, settings, key);
    if key in streams.of && shown.Some? && shown.value < streams.of[key].done then streams.of[key].done - shown.value
        else 0
  }

  /** Bytes a session brings: a new one, one shown with more, one that leaves. */
  ghost function More(streams: Streams, check: Check, settings: Settings, key: Key): nat {
    var was := if key in streams.of then streams.of[key].done else 0;
    var now := Counted(streams, check, settings, key);
    if now > was then now - was else 0
  }

  ghost function SumOf(bytes: map<Key, nat>, keys: set<Key>): nat
    requires keys <= bytes.Keys
  {
    if keys == {} then 0
    else
      var key :| key in keys;
      bytes[key] + SumOf(bytes, keys - {key})
  }

  lemma {:induction false} SumMore(bytes: map<Key, nat>, keys: set<Key>, key: Key)
    requires keys + {key} <= bytes.Keys && key !in keys
    ensures SumOf(bytes, keys + {key}) == SumOf(bytes, keys) + bytes[key]
    decreases |keys|
  {
    var all := keys + {key};
    var first :| first in all && SumOf(bytes, all) == bytes[first] + SumOf(bytes, all - {first});
    if first == key {
      assert all - {first} == keys;
    } else {
      var rest := keys - {first};
      assert keys == rest + {first} && all - {first} == rest + {key};
      SumMore(bytes, rest, key);
      SumMore(bytes, rest, first);
    }
  }

  ghost function LessMap(streams: Streams, check: Check, settings: Settings, keys: set<Key>): map<Key, nat> {
    map key | key in keys :: Less(streams, check, settings, key)
  }

  ghost function MoreMap(streams: Streams, check: Check, settings: Settings, keys: set<Key>): map<Key, nat> {
    map key | key in keys :: More(streams, check, settings, key)
  }

  ghost function TakenBack(streams: Streams, check: Check, settings: Settings, keys: set<Key>): nat {
    SumOf(LessMap(streams, check, settings, keys), keys)
  }

  ghost function Brought(streams: Streams, check: Check, settings: Settings, keys: set<Key>): nat {
    SumOf(MoreMap(streams, check, settings, keys), keys)
  }

  /** The sessions a check shows. */
  function ShownKeys(check: Check, settings: Settings): set<Key> {
    set i, j | 0 <= i < |check.views| && check.views[i].sessions.Some?
               && 0 <= j < |check.views[i].sessions.value| && Followed(settings, check.views[i].sessions.value[j])
      :: KeyOf(check.views[i].host, check.views[i].sessions.value[j])
  }

  /** The sessions known before a check, and those it shows. */
  function Sessions(streams: Streams, check: Check, settings: Settings): set<Key> {
    streams.of.Keys + ShownKeys(check, settings)
  }

  lemma {:induction false} SessionsAfter(streams: Streams, check: Check, settings: Settings)
    requires WellFormed(streams)
    ensures SetOf(ReadCheck(streams, check, settings).streams.order) == Sessions(streams, check, settings)
  {
    ReadKeeps(streams, check, settings);
    forall key ensures key in ReadCheck(streams, check, settings).streams.of <==>
        key in Sessions(streams, check, settings)
    {
      OneCheck(streams, check, settings, key);
      assert key in ShownKeys(check, settings) <==> Shown(check, settings, key);
    }
  }

  /** One session's bytes after a check, with what it takes back or brings. */
  ghost predicate Balances(streams: Streams, after: Streams, check: Check, settings: Settings, key: Key) {
    key in after.of ==>
      after.of[key].done + Less(streams, check, settings, key)
      == (if key in streams.of then streams.of[key].done else 0) + More(streams, check, settings, key)
  }

  lemma {:induction false} OneBalance(streams: Streams, check: Check, settings: Settings, key: Key)
    requires WellFormed(streams) && Bounded(streams)
    ensures Balances(streams, ReadCheck(streams, check, settings).streams, check, settings, key)
  {
    DoneIs(streams, check, settings, key);
  }

  lemma {:induction false} FrontMore(order: seq<Key>, k: nat)
    requires Distinct(order) && k < |order|
    ensures SetOf(order[..k + 1]) == SetOf(order[..k]) + {order[k]} && order[k] !in SetOf(order[..k])
  {
    assert order[..k + 1] == order[..k] + [order[k]];
  }

  /** How many of the first k sessions were known before. */
  function KnownOf(streams: Streams, k: nat): nat {
    if k <= |streams.order| then k else |streams.order|
  }

  /** One more session of the record after a check. */
  lemma {:induction false} SumStep(streams: Streams, after: Streams, less: nat, more: nat, k: nat)
    requires WellFormed(streams) && WellFormed(after) && streams.order <= after.order && k < |after.order|
    requires var key := after.order[k]; key in after.of ==>
        after.of[key].done + less == (if key in streams.of then streams.of[key].done else 0) + more
    ensures SumDone(after, k + 1) + less + SumDone(streams, KnownOf(streams, k)) ==
            SumDone(after, k) + SumDone(streams, KnownOf(streams, k + 1)) + more
  {
    assert after.order[k] in after.order;
    PlaceInBefore(streams, after, k);
  }

  /** Bytes taken back and brought that make up for the change of each session. */
  ghost predicate MakeUp(streams: Streams, after: Streams, less: map<Key, nat>, more: map<Key, nat>) {
    && less.Keys == more.Keys
    && forall key :: key in less && key in after.of ==>
        after.of[key].done + less[key] == (if key in streams.of then streams.of[key].done else 0) + more[key]
  }

  lemma {:induction false} SumsMore(order: seq<Key>, less: map<Key, nat>, more: map<Key, nat>, k: nat)
    requires Distinct(order) && k < |order| && SetOf(order) <= less.Keys && less.Keys == more.Keys
    ensures SetOf(order[..k + 1]) <= less.Keys && SetOf(order[..k]) <= less.Keys && order[k] in less
    ensures SumOf(less, SetOf(order[..k + 1])) == SumOf(less, SetOf(order[..k])) + less[order[k]]
    ensures SumOf(more, SetOf(order[..k + 1])) == SumOf(more, SetOf(order[..k])) + more[order[k]]
  {
    FrontMore(order, k);
    assert order[k] in SetOf(order);
    SumMore(less, SetOf(order[..k]), order[k]);
    SumMore(more, SetOf(order[..k]), order[k]);
  }

  /** The first k sessions of the record after a check, with those of the record before. */
  ghost predicate SumsAgree(streams: Streams, after: Streams, less: map<Key, nat>, more: map<Key, nat>, k: nat) {
    && WellFormed(streams) && WellFormed(after) && k <= |after.order|
    && SetOf(after.order[..k]) <= less.Keys && less.Keys == more.Keys
    && SumDone(after, k) + SumOf(less, SetOf(after.order[..k])) ==
       SumDone(streams, KnownOf(streams, k)) + SumOf(more, SetOf(after.order[..k]))
  }

  lemma {:induction false} AgreeMore(streams: Streams, after: Streams, less: map<Key, nat>, more: map<Key, nat>, k: nat)
    requires streams.order <= after.order && k < |after.order| && SumsAgree(streams, after, less, more, k)
    requires MakeUp(streams, after, less, more) && SetOf(after.order) == less.Keys
    ensures SumsAgree(streams, after, less, more, k + 1)
  {
    SumsMore(after.order, less, more, k);
    SumStep(streams, after, less[after.order[k]], more[after.order[k]], k);
  }

  lemma {:induction false} SumsBalance(streams: Streams, after: Streams, less: map<Key, nat>, more: map<Key, nat>,
        k: nat)
    requires WellFormed(streams) && WellFormed(after) && streams.order <= after.order && k <= |after.order|
    requires MakeUp(streams, after, less, more) && SetOf(after.order) == less.Keys
    ensures SumsAgree(streams, after, less, more, k)
    decreases k
  {
    if k > 0 {
      SumsBalance(streams, after, less, more, k - 1);
      AgreeMore(streams, after, less, more, k - 1);
    }
  }

  lemma {:induction false} PlaceInBefore(streams: Streams, after: Streams, i: nat)
    requires WellFormed(streams) && WellFormed(after) && streams.order <= after.order && i < |after.order|
    ensures i < |streams.order| ==> streams.order[i] == after.order[i] && after.order[i] in streams.of
    ensures i >= |streams.order| ==> after.order[i] !in streams.of
  {
    if i >= |streams.order| {
      forall j | 0 <= j < |streams.order| ensures streams.order[j] != after.order[i] {
        assert after.order[j] == streams.order[j];
      }
    }
  }

  /** From one check to the next, the bytes done fall exactly when the sessions shown with
      fewer bytes than they count for take back more than the others bring: the new ones,
      those shown with more, those that leave. */
  lemma {:induction false} BytesFall(checks: seq<Check>, settings: Settings, n: nat)
    requires 0 < n < |checks| && forall i :: 0 <= i < |checks| ==> Honest(checks[i])
    ensures var before, next := After(checks, settings, n).value, After(checks, settings, n + 1).value;
            var keys := Sessions(before.streams, checks[n], settings);
            next.bytesDone < before.bytesDone <==>
            TakenBack(before.streams, checks[n], settings, keys) > Brought(before.streams, checks[n], settings, keys)
  {
    var streams := After(checks, settings, n).value.streams;
    var after := ReadCheck(streams, checks[n], settings).streams;
    RunBounded(checks, settings, n);
    CheckGrows(streams, checks[n], settings);
    ReadKeeps(streams, checks[n], settings);
    CheckBalances(streams, checks[n], settings);
    assert |after.order| >= |streams.order|;
  }

  lemma {:induction false} CheckBalances(streams: Streams, check: Check, settings: Settings)
    requires WellFormed(streams) && Bounded(streams)
    ensures WellFormed(ReadCheck(streams, check, settings).streams)
    ensures var after, keys := ReadCheck(streams, check, settings).streams, Sessions(streams, check, settings);
            SumDone(after, |after.order|) + TakenBack(streams, check, settings, keys) ==
            SumDone(streams, KnownOf(streams, |after.order|)) + Brought(streams, check, settings, keys)
  {
    var after, keys := ReadCheck(streams, check, settings).streams, Sessions(streams, check, settings);
    var less, more := LessMap(streams, check, settings, keys), MoreMap(streams, check, settings, keys);
    ReadKeeps(streams, check, settings);
    CheckGrows(streams, check, settings);
    SessionsAfter(streams, check, settings);
    assert after.order[..|after.order|] == after.order;
    assert MakeUp(streams, after, less, more) by {
      forall key | key in keys ensures Balances(streams, after, check, settings, key) {
        OneBalance(streams, check, settings, key);
      }
    }
    SumsBalance(streams, after, less, more, |after.order|);
  }

  lemma {:induction false} SumOfNothing(bytes: map<Key, nat>, keys: set<Key>)
    requires keys <= bytes.Keys && forall key :: key in keys ==> bytes[key] == 0
    ensures SumOf(bytes, keys) == 0
    decreases |keys|
  {
    if keys != {} {
      var key :| key in keys && SumOf(bytes, keys) == bytes[key] + SumOf(bytes, keys - {key});
      SumOfNothing(bytes, keys - {key});
    }
  }

  /** So they fall only when some session is shown with fewer bytes than it counts for. */
  lemma {:induction false} SomeoneTookBack(checks: seq<Check>, settings: Settings, n: nat) returns (key: Key)
    requires 0 < n < |checks| && forall i :: 0 <= i < |checks| ==> Honest(checks[i])
    requires After(checks, settings, n + 1).value.bytesDone < After(checks, settings, n).value.bytesDone
    ensures var streams, shown := After(checks, settings, n).value.streams, LastShown(checks[n].views, settings, key);
            key in streams.of && shown.Some? && shown.value < streams.of[key].done
  {
    var streams := After(checks, settings, n).value.streams;
    var keys := Sessions(streams, checks[n], settings);
    BytesFall(checks, settings, n);
    if forall k :: k in keys ==> Less(streams, checks[n], settings, k) == 0 {
      SumOfNothing(LessMap(streams, checks[n], settings, keys), keys);
    }
    key :| key in keys && Less(streams, checks[n], settings, key) != 0;
  }

  // ----- shown again after it left -----

  const FOLLOW_ALL := Settings({}, None, 60, 4)

  /** One host and one session, 4 of its 10 bytes done. */
  const HALF_WAY := Session(0, 1, Receiving, 0, 10, 4, 0, 0)

  /** It is shown, then not shown, then shown again as it was. */
  function ShownAgain(): seq<Check> {
    [Check([View(0, Some([HALF_WAY]))], 0), Check([View(0, Some([]))], 10), Check([View(0, Some([HALF_WAY]))], 20)]
  }

  const ITS_KEY := Key(0, 0, 1, Receiving)

  /** The record with that session only. */
  ghost predicate Only(streams: Streams, done: nat, gone: bool) {
    && streams.order == [ITS_KEY] && streams.of.Keys == {ITS_KEY}
    && streams.of[ITS_KEY].total == 10 && streams.of[ITS_KEY].done == done && streams.of[ITS_KEY].mark == 4
    && streams.of[ITS_KEY].gone == gone
  }

  lemma {:induction false} AfterIs(checks: seq<Check>, settings: Settings, n: nat)
    requires 0 < n <= |checks|
    ensures var before, after := Before(After(checks, settings, n - 1)), After(checks, settings, n).value;
            var r := ReadCheck(before, checks[n - 1], settings);
            && WellFormed(r.streams) && after.streams == r.streams && after.progressed == r.progressed
            && after.bytesDone == SumDone(r.streams, |r.streams.order|)
  {
    ReadKeeps(Before(After(checks, settings, n - 1)), checks[n - 1], settings);
  }

  /** What a check that shows it, or nothing, reads. */
  lemma {:induction false} ReadIt(r: Reading, shown: bool, now: int)
    ensures var next := r.(answered := r.answered + {0});
            ReadViews(r, [View(0, Some(if shown then [HALF_WAY] else []))], FOLLOW_ALL, now) ==
            if shown then Reading(Seen(r.streams, ITS_KEY, HALF_WAY, now), r.current + {ITS_KEY}, next.answered,
                                  r.progressed || Moves(r.streams, ITS_KEY, HALF_WAY))
            else next
  {
    var view := View(0, Some(if shown then [HALF_WAY] else []));
    assert [view][..0] == [] && [HALF_WAY][..0] == [];
    assert ReadViews(r, [], FOLLOW_ALL, now) == r;
    var next := r.(answered := r.answered + {0});
    assert ReadSessions(next, 0, [], FOLLOW_ALL, now) == next;
  }

  lemma {:induction false} OneSum(streams: Streams)
    requires streams.order == [ITS_KEY] && ITS_KEY in streams.of
    ensures SumDone(streams, 1) == streams.of[ITS_KEY].done
  {
    assert SumDone(streams, 0) == 0;
  }

  lemma {:induction false} LeaveNone(r: Reading, now: int)
    requires r.streams.order == [ITS_KEY] && ITS_KEY in r.current
    ensures LeaveUpTo(r, now, 1) == r
  {
    assert LeaveUpTo(r, now, 0) == r;
  }

  lemma {:induction false} ReadShown(streams: Streams, now: int)
    requires streams == NOTHING || Only(streams, 10, true)
    ensures var r := ReadCheck(streams, Check([View(0, Some([HALF_WAY]))], now), FOLLOW_ALL);
            Only(r.streams, 4, false) && (streams != NOTHING ==> !r.progressed)
  {
    var start := Reading(streams, {}, {}, false);
    ReadIt(start, true, now);
    var r := ReadViews(start, [View(0, Some([HALF_WAY]))], FOLLOW_ALL, now);
    LeaveNone(r, now);
  }

  lemma {:induction false} ReadGone(streams: Streams, now: int)
    requires Only(streams, 4, false)
    ensures Only(ReadCheck(streams, Check([View(0, Some([]))], now), FOLLOW_ALL).streams, 10, true)
  {
    var start := Reading(streams, {}, {}, false);
    ReadIt(start, false, now);
    var r := ReadViews(start, [View(0, Some([]))], FOLLOW_ALL, now);
    assert LeaveUpTo(r, now, 0) == r && Leaves(r, ITS_KEY);
  }

  lemma {:induction false} RunShownAgain(n: nat)
    requires 0 < n <= 3
    ensures var checks := ShownAgain();
            && Only(After(checks, FOLLOW_ALL, n).value.streams, if n == 2 then 10 else 4, n == 2)
            && After(checks, FOLLOW_ALL, n).value.bytesDone == (if n == 2 then 10 else 4)
            && (n == 3 ==> !After(checks, FOLLOW_ALL, n).value.progressed)
  {
    var checks := ShownAgain();
    AfterIs(checks, FOLLOW_ALL, n);
    if n == 1 {
      ReadShown(NOTHING, 0);
    } else if n == 2 {
      RunShownAgain(1);
      ReadGone(After(checks, FOLLOW_ALL, 1).value.streams, 10);
    } else {
      RunShownAgain(2);
      ReadShown(After(checks, FOLLOW_ALL, 2).value.streams, 20);
    }
    OneSum(After(checks, FOLLOW_ALL, n).value.streams);
  }

  /** A session that left is shown again with no more streamed than before: the check is no
      progress, and the bytes done go from 10 back to 4. */
  lemma {:induction false} ShownAgainFalls()
    ensures forall i :: 0 <= i < 3 ==> Honest(ShownAgain()[i])
    ensures After(ShownAgain(), FOLLOW_ALL, 2).value.bytesDone == 10
    ensures var last := After(ShownAgain(), FOLLOW_ALL, 3).value; last.bytesDone == 4 && !last.progressed
  {
    RunShownAgain(2);
    RunShownAgain(3);
  }
}
