/** Which block devices to tune for Cassandra's directories, and which are left
    alone because a filesystem of the operating system is on them. */
module DiskPlan {
  import opened Lists
  import opened Options
  import opened DeviceGraph

  type Dir = nat

  /** The filesystem a directory is on: its device number and where it is mounted. */
  datatype Filesystem = Filesystem(number: string, target: string)

  /** A directory looked up: to be tuned or only Cassandra's, the commitlog's, not created yet. */
  datatype Mount = Mount(dir: Dir, tune: bool, commitlog: bool, fs: Option<Filesystem>, missing: bool)

  /** A device set by hand. */
  datatype Given = Given(dir: Dir, dev: Dev)

  /** A device to tune: read through it, or under one that is; the operating system's too. */
  datatype Pick = Pick(dev: Dev, top: bool, os: bool)

  /** Every device has a number of its own. */
  ghost predicate Numbered(g: Graph) {
    && (forall k :: k in g ==> g[k].number != "")
    && forall j, k :: j in g && k in g && j != k ==> g[j].number != g[k].number
  }

  ghost predicate Linked(g: Graph) {
    forall k, c :: k in g && (c in g[k].parents || c in g[k].children) ==> c in g
  }

  /** Nothing at the top of what is built on the device is a filesystem of the operating system. */
  ghost predicate Safe(g: Graph, k: Dev) {
    forall u :: AtTop(g, k, u) ==> g[u].mountpoint !in OS_MOUNTS
  }

  /** No device counted as Cassandra's holds a filesystem of the operating system. */
  ghost predicate Clean(g: Graph, ours: set<string>) {
    forall u :: u in g && g[u].number in ours ==> Safe(g, u)
  }

  // ----- the operating system's uses of a device -----

  lemma {:induction false} UsedByOs(g: Graph, kname: Dev, ours: set<string>, u: Dev)
    requires AtTop(g, kname, u) && g[u].number !in ours && g[u].mountpoint in OS_MOUNTS
    ensures IsOtherUse(g, kname, ours, Mounted(g[u].mountpoint))
  {
    assert UseOf(g, u, ours) == {Mounted(g[u].mountpoint)};
  }

  lemma {:induction false} OsIsUsed(g: Graph, kname: Dev, ours: set<string>, point: string)
    requires IsOtherUse(g, kname, ours, Mounted(point)) && point in OS_MOUNTS
    ensures !Safe(g, kname)
  {
    var u :| AtTop(g, kname, u) && UseOf(g, u, ours) == {Mounted(point)};
    assert Mounted(point) in UseOf(g, u, ours);
  }

  /** A device of our own at the top of what is built on k is no filesystem of the operating system. */
  lemma {:induction false} OursIsSafe(g: Graph, ours: set<string>, kname: Dev, u: Dev)
    requires Clean(g, ours) && AtTop(g, kname, u) && g[u].number in ours
    ensures g[u].mountpoint !in OS_MOUNTS
  {
    ReachesItself(g, u, true);
    assert AtTop(g, u, u);
  }

  lemma {:induction false} NotOfOs(g: Graph, kname: Dev, ours: set<string>, u: Dev)
    requires AtTop(g, kname, u) && g[u].number !in ours
    requires forall p :: p in OS_MOUNTS ==> !IsOtherUse(g, kname, ours, Mounted(p))
    ensures g[u].mountpoint !in OS_MOUNTS
  {
    if g[u].mountpoint in OS_MOUNTS { UsedByOs(g, kname, ours, u); }
  }

  lemma {:induction false} NoOsUses(g: Graph, k: Dev, mine: set<string>, uses: set<Use>, os: set<string>)
    requires Clean(g, mine) && os == set p | p in OS_MOUNTS && Mounted(p) in uses
    requires forall use :: use in uses <==> IsOtherUse(g, k, mine, use)
    ensures os == {} <==> Safe(g, k)
  {
    if os != {} {
      var p :| p in os;
      OsIsUsed(g, k, mine, p);
    } else {
      assert forall p :: p in OS_MOUNTS ==> p !in os;
      forall u | AtTop(g, k, u) ensures g[u].mountpoint !in OS_MOUNTS {
        if g[u].number in mine { OursIsSafe(g, mine, k, u); } else { NotOfOs(g, k, mine, u); }
      }
    }
  }

  /** Leaving out what is ours hides no filesystem of the operating system. */
  method OsUses(g: Graph, kname: Dev, ours: set<string>) returns (os: set<string>)
    requires Clean(g, ours)
    ensures os == {} <==> Safe(g, kname)
  {
    var uses := OtherUses(g, kname, ours);
    os := set p | p in OS_MOUNTS && Mounted(p) in uses;
    NoOsUses(g, kname, ours, uses, os);
  }

  // ----- the directories -----

  predicate NotBlock(number: string) {
    |number| >= 2 && number[0] == '0' && number[1] == ':'
  }

  /** The device whose number it is. */
  ghost predicate Indexed(g: Graph, index: map<string, Dev>) {
    && (forall m :: m in index ==> index[m] in g && g[index[m]].number == m)
    && forall k :: k in g ==> g[k].number in index
  }

  method ByNumber(g: Graph) returns (index: map<string, Dev>)
    ensures Numbered(g) ==> Indexed(g, index)
  {
    index := map[];
    var left := g.Keys;
    while left != {}
      invariant left <= g.Keys
      invariant forall m :: m in index ==> index[m] in g && g[index[m]].number == m
      invariant Numbered(g) ==> forall k :: k in g && k !in left ==> g[k].number in index
      decreases |left|
    {
      var k :| k in left;
      if g[k].number != "" { index := index[g[k].number := k]; }
      left := left - {k};
    }
  }

  /** The directory makes its device one to tune. */
  predicate Tunes(index: map<string, Dev>, m: Mount) {
    && m.fs.Some? && !(m.missing && m.fs.value.target in OS_MOUNTS)
    && m.tune && !NotBlock(m.fs.value.number) && m.fs.value.number in index
  }

  /** The directory is Cassandra's, without being tuned. */
  predicate OnlyCounts(m: Mount, byHand: bool) {
    && m.fs.Some? && !(m.missing && m.fs.value.target in OS_MOUNTS) && (!m.tune || byHand)
  }

  /** Devices to tune, in the order they were found, and their directories. */
  datatype Tops = Tops(order: seq<Dev>, dirs: map<Dev, seq<Dir>>)

  function AddTop(tops: Tops, k: Dev, dir: Dir): Tops {
    if k in tops.dirs then tops.(dirs := tops.dirs[k := tops.dirs[k] + [dir]])
    else Tops(tops.order + [k], tops.dirs[k := [dir]])
  }

  /** Where the last directory that makes k one to tune is mounted. */
  function TargetOf(index: map<string, Dev>, mounts: seq<Mount>, k: Dev): Option<string> {
    if mounts == [] then None
    else
      var last := mounts[|mounts| - 1];
      if Tunes(index, last) && index[last.fs.value.number] == k then Some(last.fs.value.target)
      else TargetOf(index, mounts[..|mounts| - 1], k)
  }

  ghost predicate TopsAre(g: Graph, tops: Tops, targets: map<Dev, string>, index: map<string, Dev>,
        mounts: seq<Mount>) {
    && Distinct(tops.order) && (forall k :: k in tops.order <==> k in tops.dirs)
    && (forall k :: k in tops.dirs ==> k in g)
    && targets.Keys == tops.dirs.Keys
    && forall k :: TargetOf(index, mounts, k) == if k in targets then Some(targets[k]) else None
  }

  lemma {:induction false} TopsMore(g: Graph, tops: Tops, targets: map<Dev, string>, index: map<string, Dev>,
        mounts: seq<Mount>, m: Mount)
    requires Indexed(g, index) && TopsAre(g, tops, targets, index, mounts)
    ensures Tunes(index, m) ==>
              var k := index[m.fs.value.number];
              TopsAre(g, AddTop(tops, k, m.dir), targets[k := m.fs.value.target], index, mounts + [m])
    ensures !Tunes(index, m) ==> TopsAre(g, tops, targets, index, mounts + [m])
  {
    assert (mounts + [m])[..|mounts|] == mounts;
  }

  lemma {:induction false} CleanMore(g: Graph, ours: set<string>, k: Dev)
    requires Numbered(g) && Clean(g, ours) && k in g && Safe(g, k)
    ensures Clean(g, ours + {g[k].number})
  {
  }

  lemma {:induction false} CleanStranger(g: Graph, ours: set<string>, number: string)
    requires Clean(g, ours) && forall k :: k in g ==> g[k].number != number
    ensures Clean(g, ours + {number})
  {
  }

  /** A directory that only counts makes its device ours, but not one of the operating system's. */
  method CountOurs(g: Graph, index: map<string, Dev>, ours: set<string>, fs: Filesystem) returns (r: set<string>)
    requires Numbered(g) && Indexed(g, index) && Clean(g, ours)
    ensures Clean(g, r)
  {
    if fs.target in OS_MOUNTS { return ours; }
    if fs.number !in index {
      CleanStranger(g, ours, fs.number);
      return ours + {fs.number};
    }
    var os := OsUses(g, index[fs.number], {});
    if os == {} {
      CleanMore(g, ours, index[fs.number]);
      return ours + {fs.number};
    }
    return ours;
  }

  /** The directories of the commitlog. */
  function CommitLog(mounts: seq<Mount>): set<Dir> {
    set m | m in mounts && m.commitlog :: m.dir
  }

  lemma {:induction false} CommitLogMore(mounts: seq<Mount>, m: Mount)
    ensures CommitLog(mounts + [m]) == CommitLog(mounts) + if m.commitlog then {m.dir} else {}
  {
    assert m in mounts + [m];
    forall o | o in mounts ensures o in mounts + [m] { }
  }

  /** The devices of the directories to tune, what counts as Cassandra's, and the
      directories of the commitlog. */
  method ReadMounts(g: Graph, index: map<string, Dev>, mounts: seq<Mount>, byHand: bool)
    returns (ours: set<string>, tops: Tops, targets: map<Dev, string>, commitlog: set<Dir>)
    requires Numbered(g) && Indexed(g, index)
    ensures Clean(g, ours)
    ensures TopsAre(g, tops, targets, index, if byHand then [] else mounts)
    ensures commitlog == CommitLog(mounts)
  {
    ours, tops, targets, commitlog := {}, Tops([], map[]), map[], {};
    var i := 0;
    while i < |mounts|
      invariant 0 <= i <= |mounts| && Clean(g, ours)
      invariant TopsAre(g, tops, targets, index, if byHand then [] else mounts[..i])
      invariant commitlog == CommitLog(mounts[..i])
    {
      var m := mounts[i];
      assert mounts[..i + 1] == mounts[..i] + [m];
      CommitLogMore(mounts[..i], m);
      if m.commitlog { commitlog := commitlog + {m.dir}; }
      if OnlyCounts(m, byHand) {
        ours := CountOurs(g, index, ours, m.fs.value);
      }
      TopsMore(g, tops, targets, index, if byHand then [] else mounts[..i], m);
      if !byHand && Tunes(index, m) {
        var k := index[m.fs.value.number];
        targets, tops := targets[k := m.fs.value.target], AddTop(tops, k, m.dir);
      }
      i := i + 1;
    }
    assert mounts[..i] == mounts;
  }

  // ----- the devices set by hand -----

  ghost predicate Picked(picks: seq<Pick>, k: Dev) {
    exists i :: 0 <= i < |picks| && picks[i].dev == k
  }

  predicate Has(picks: seq<Pick>, k: Dev)
    ensures Has(picks, k) <==> Picked(picks, k)
  {
    if picks == [] then false
    else
      assert picks == picks[..|picks| - 1] + [picks[|picks| - 1]];
      picks[|picks| - 1].dev == k || Has(picks[..|picks| - 1], k)
  }

  /** A device is tuned once. */
  function Add(picks: seq<Pick>, p: Pick): (r: seq<Pick>)
    ensures forall k :: Picked(r, k) <==> Picked(picks, k) || k == p.dev
  {
    if Has(picks, p.dev) then picks
    else
      PickedMore(picks, p);
      picks + [p]
  }

  lemma {:induction false} PickedMore(picks: seq<Pick>, p: Pick)
    ensures forall k :: Picked(picks + [p], k) <==> Picked(picks, k) || k == p.dev
  {
    forall k ensures Picked(picks + [p], k) <==> Picked(picks, k) || k == p.dev {
      if Picked(picks, k) {
        var i :| 0 <= i < |picks| && picks[i].dev == k;
        assert (picks + [p])[i].dev == k;
      }
      assert (picks + [p])[|picks|] == p;
    }
  }

  /** Every device is picked once; one not marked as the operating system's is safe,
      and with its filesystems left alone none is marked. */
  ghost predicate PicksOk(g: Graph, picks: seq<Pick>, tuneOs: bool) {
    && (forall i, j :: 0 <= i < j < |picks| ==> picks[i].dev != picks[j].dev)
    && (forall i :: 0 <= i < |picks| && picks[i].dev in g && !picks[i].os ==> Safe(g, picks[i].dev))
    && (!tuneOs ==> forall i :: 0 <= i < |picks| ==> !picks[i].os)
  }

  lemma {:induction false} AddOk(g: Graph, picks: seq<Pick>, p: Pick, tuneOs: bool)
    requires PicksOk(g, picks, tuneOs) && (p.dev in g && !p.os ==> Safe(g, p.dev)) && (!tuneOs ==> !p.os)
    ensures PicksOk(g, Add(picks, p), tuneOs)
  {
  }

  ghost predicate Asked(given: seq<Given>, k: Dev) {
    exists i :: 0 <= i < |given| && given[i].dev == k
  }

  lemma {:induction false} AskedMore(given: seq<Given>, e: Given)
    ensures forall k :: Asked(given + [e], k) <==> Asked(given, k) || k == e.dev
  {
    forall k ensures Asked(given + [e], k) <==> Asked(given, k) || k == e.dev {
      if Asked(given, k) {
        var i :| 0 <= i < |given| && given[i].dev == k;
        assert (given + [e])[i].dev == k;
      }
      assert (given + [e])[|given|] == e;
    }
  }

  /** What the devices set by hand add: those known to the devices to tune, the others as they are. */
  ghost predicate GivenRead(g: Graph, given: seq<Given>, tops: Tops, before: Tops, picks: seq<Pick>) {
    && Distinct(tops.order) && (forall k :: k in tops.order <==> k in tops.dirs)
    && (forall k :: k in tops.dirs <==> k in before.dirs || (k in g && Asked(given, k)))
    && (forall k :: Picked(picks, k) <==> k !in g && Asked(given, k))
  }

  lemma {:induction false} GivenKnown(g: Graph, given: seq<Given>, tops: Tops, before: Tops, picks: seq<Pick>, e: Given)
    requires GivenRead(g, given, tops, before, picks) && e.dev in g
    ensures GivenRead(g, given + [e], AddTop(tops, e.dev, e.dir), before, picks)
  {
    AskedMore(given, e);
  }

  lemma {:induction false} GivenUnknown(g: Graph, given: seq<Given>, tops: Tops, before: Tops, picks: seq<Pick>,
        e: Given, p: Pick)
    requires GivenRead(g, given, tops, before, picks) && e.dev !in g && p.dev == e.dev
    ensures GivenRead(g, given + [e], tops, before, Add(picks, p))
  {
    AskedMore(given, e);
  }

  /** Devices set by hand: to tune when they are known, taken as they are when not;
      Cassandra's unless the operating system is on them. */
  method ReadGiven(g: Graph, given: seq<Given>, ours: set<string>, tops: Tops, ghost tuneOs: bool)
    returns (ours': set<string>, tops': Tops, picks: seq<Pick>)
    requires Numbered(g) && Clean(g, ours)
    requires Distinct(tops.order) && forall k :: k in tops.order <==> k in tops.dirs
    ensures Clean(g, ours') && PicksOk(g, picks, tuneOs) && GivenRead(g, given, tops', tops, picks)
  {
    ours', tops', picks := ours, tops, [];
    var i := 0;
    while i < |given|
      invariant 0 <= i <= |given| && Clean(g, ours')
      invariant PicksOk(g, picks, tuneOs) && GivenRead(g, given[..i], tops', tops, picks)
    {
      assert given[..i + 1] == given[..i] + [given[i]];
      if given[i].dev !in g {
        var p := Pick(given[i].dev, true, false);
        AddOk(g, picks, p, tuneOs);
        GivenUnknown(g, given[..i], tops', tops, picks, given[i], p);
        picks := Add(picks, p);
      } else {
        GivenKnown(g, given[..i], tops', tops, picks, given[i]);
        ours' := CountDevice(g, ours', given[i].dev);
        tops' := AddTop(tops', given[i].dev, given[i].dir);
      }
      i := i + 1;
    }
    assert given[..i] == given;
  }

  method CountDevice(g: Graph, ours: set<string>, k: Dev) returns (r: set<string>)
    requires Numbered(g) && Clean(g, ours) && k in g
    ensures Clean(g, r)
  {
    var os := OsUses(g, k, {});
    if os != {} { return ours; }
    CleanMore(g, ours, k);
    return ours + {g[k].number};
  }

  /** What the directories' filesystems sit on is ours too, but for the operating system's. */
  method CountTops(g: Graph, ours: set<string>, tops: Tops, targets: map<Dev, string>) returns (r: set<string>)
    requires Numbered(g) && Clean(g, ours) && forall k :: k in tops.order ==> k in g
    ensures Clean(g, r)
  {
    r := ours;
    var i := 0;
    while i < |tops.order|
      invariant 0 <= i <= |tops.order| && Clean(g, r)
    {
      var k := tops.order[i];
      assert k in tops.order;
      if !(k in targets && targets[k] in OS_MOUNTS) { r := CountDevice(g, r, k); }
      i := i + 1;
    }
  }

  // ----- one filesystem and what is under it -----

  /** A partition is read through its disk. */
  function DiskOf(g: Graph, k: Dev): Dev
    requires k in g
  {
    if g[k].kind == Partition && g[k].parents != [] then g[k].parents[0] else k
  }

  /** The device under others can be tuned. */
  predicate Tunable(g: Graph, k: Dev) {
    k in g && g[k].kind != Partition && g[k].kind != Loop && g[k].kind != Internal
  }

  predicate ReadThrough(g: Graph, k: Dev)
    requires k in g
  {
    var top := DiskOf(g, k);
    top in g && g[top].kind != Loop && g[top].kind != Internal
  }

  /** The operating system has a filesystem at the top of what is built on the device, beside what is mine. */
  ghost predicate OsUse(g: Graph, k: Dev, mine: set<string>) {
    exists p :: p in OS_MOUNTS && IsOtherUse(g, k, mine, Mounted(p))
  }

  /** A device under a filesystem is tuned with it: not when the operating system is on it
      too and is to be left alone, or the filesystem has the commitlog alone. */
  ghost predicate Takes(g: Graph, k: Dev, mine: set<string>, logOnly: bool, tuneOs: bool) {
    Tunable(g, k) && !(OsUse(g, k, mine) && (!tuneOs || logOnly))
  }

  /** Of the devices, those that are taken were picked. */
  ghost predicate PickedOf(g: Graph, picks: seq<Pick>, r: seq<Pick>, devs: seq<Dev>, mine: set<string>, logOnly: bool,
        tuneOs: bool) {
    forall d :: Picked(r, d) <==> Picked(picks, d) || (d in devs && Takes(g, d, mine, logOnly, tuneOs))
  }

  lemma {:induction false} PickedTwice(g: Graph, a: seq<Pick>, b: seq<Pick>, c: seq<Pick>, devs: seq<Dev>,
        more: seq<Dev>, mine: set<string>, logOnly: bool, tuneOs: bool)
    requires PickedOf(g, a, b, devs, mine, logOnly, tuneOs) && PickedOf(g, b, c, more, mine, logOnly, tuneOs)
    ensures PickedOf(g, a, c, devs + more, mine, logOnly, tuneOs)
  {
  }

  lemma {:induction false} OsUseIs(g: Graph, k: Dev, mine: set<string>, uses: set<Use>, os: set<string>)
    requires os == set p | p in OS_MOUNTS && Mounted(p) in uses
    requires forall use :: use in uses <==> IsOtherUse(g, k, mine, use)
    ensures os != {} <==> OsUse(g, k, mine)
    ensures Clean(g, mine) ==> (OsUse(g, k, mine) <==> !Safe(g, k))
  {
    if Clean(g, mine) { NoOsUses(g, k, mine, uses, os); }
    if OsUse(g, k, mine) {
      var p :| p in OS_MOUNTS && IsOtherUse(g, k, mine, Mounted(p));
      assert p in os;
    }
    if os != {} {
      var p :| p in os;
      assert IsOtherUse(g, k, mine, Mounted(p));
    }
  }

  /** A level under a filesystem: every device of it that is tuned with it. */
  method AddLevel(g: Graph, level: seq<Dev>, top: Dev, picks: seq<Pick>, mine: set<string>, onOs: bool, logOnly: bool,
        tuneOs: bool)
    returns (r: seq<Pick>)
    requires PicksOk(g, picks, tuneOs) && Picked(picks, top) && (!onOs ==> Clean(g, mine)) && (!tuneOs ==> !onOs)
    ensures PicksOk(g, r, tuneOs) && PickedOf(g, picks, r, level, mine, logOnly, tuneOs)
  {
    r := picks;
    var i := 0;
    while i < |level|
      invariant 0 <= i <= |level| && PicksOk(g, r, tuneOs) && PickedOf(g, picks, r, level[..i], mine, logOnly, tuneOs)
    {
      assert level[..i + 1] == level[..i] + [level[i]];
      var more := AddUnder(g, level[i], top, r, mine, onOs, logOnly, tuneOs);
      PickedTwice(g, picks, r, more, level[..i], [level[i]], mine, logOnly, tuneOs);
      r := more;
      i := i + 1;
    }
    assert level[..i] == level;
  }

  method AddUnder(g: Graph, k: Dev, top: Dev, picks: seq<Pick>, mine: set<string>, onOs: bool, logOnly: bool,
        tuneOs: bool)
    returns (r: seq<Pick>)
    requires PicksOk(g, picks, tuneOs) && Picked(picks, top) && (!onOs ==> Clean(g, mine)) && (!tuneOs ==> !onOs)
    ensures PicksOk(g, r, tuneOs) && PickedOf(g, picks, r, [k], mine, logOnly, tuneOs)
  {
    r := picks;
    if k == top || !Tunable(g, k) || Has(picks, k) { return; }
    var uses := OtherUses(g, k, mine);
    var os := set p | p in OS_MOUNTS && Mounted(p) in uses;
    OsUseIs(g, k, mine, uses, os);
    if os != {} && (!tuneOs || logOnly) { return; }
    AddOk(g, picks, Pick(k, false, onOs || os != {}), tuneOs);
    r := Add(picks, Pick(k, false, onOs || os != {}));
  }

  /** What a filesystem to tune asks for: the device it is read through, and those
      under it that can be tuned; nothing the operating system is on unless that is tuned too. */
  ghost predicate Wanted(g: Graph, kname: Dev, target: Option<string>, tuneOs: bool, d: Dev)
    requires kname in g
  {
    && ReadThrough(g, kname)
    && (tuneOs || (!(target.Some? && target.value in OS_MOUNTS) && Safe(g, kname) && Safe(g, DiskOf(g, kname))))
    && (d == DiskOf(g, kname) || (Reaches(g, kname, d, false) && Tunable(g, d) && (tuneOs || Safe(g, d))))
  }

  /** The filesystem, or the disk it is read through, is the operating system's. */
  ghost predicate OnTheOs(g: Graph, kname: Dev, target: Option<string>)
    requires kname in g
  {
    (target.Some? && target.value in OS_MOUNTS) || !Safe(g, kname) || !Safe(g, DiskOf(g, kname))
  }

  /** What a filesystem to tune adds: nothing when the operating system is on it and is to
      be left alone, or when it has the commitlog alone on a disk no data is read through;
      else the device it is read through and those under it tuned with it. */
  ghost predicate Adds(g: Graph, kname: Dev, target: Option<string>, ours: set<string>, dataDisks: set<Dev>,
        logOnly: bool, tuneOs: bool, d: Dev)
    requires kname in g
  {
    && ReadThrough(g, kname)
    && (OnTheOs(g, kname, target) ==> tuneOs && (logOnly ==> DiskOf(g, kname) in dataDisks))
    && (d == DiskOf(g, kname) ||
        (Reaches(g, kname, d, false) && Takes(g, d, ours + {g[kname].number}, logOnly, tuneOs)))
  }

  /** Left alone, or with data on it: what the filesystem adds does not depend on the rest. */
  lemma {:induction false} AddsWanted(g: Graph, kname: Dev, target: Option<string>, ours: set<string>,
        dataDisks: set<Dev>, logOnly: bool, tuneOs: bool, d: Dev)
    requires kname in g && Numbered(g) && Clean(g, ours) && (!tuneOs || !logOnly)
    ensures Adds(g, kname, target, ours, dataDisks, logOnly, tuneOs, d) <==> Wanted(g, kname, target, tuneOs, d)
  {
    if !tuneOs && !OnTheOs(g, kname, target) {
      CleanMore(g, ours, kname);
      OsUseIsUnsafe(g, d, ours + {g[kname].number});
    }
  }

  lemma {:induction false} OsUseIsUnsafe(g: Graph, k: Dev, mine: set<string>)
    requires Clean(g, mine)
    ensures OsUse(g, k, mine) <==> !Safe(g, k)
  {
    if OsUse(g, k, mine) {
      var p :| p in OS_MOUNTS && IsOtherUse(g, k, mine, Mounted(p));
      OsIsUsed(g, k, mine, p);
    } else {
      forall u | AtTop(g, k, u) ensures g[u].mountpoint !in OS_MOUNTS {
        if g[u].number in mine { OursIsSafe(g, mine, k, u); } else { NotOfOs(g, k, mine, u); }
      }
    }
  }

  lemma {:induction false} NoneIsClean(g: Graph)
    ensures Clean(g, {})
  {
  }

  /** The operating system's mounts of a filesystem and of the disk it is read through. */
  method OnOs(g: Graph, kname: Dev, target: Option<string>, ours: set<string>) returns (onOs: bool)
    requires kname in g && Clean(g, ours)
    ensures onOs <==> OnTheOs(g, kname, target)
  {
    NoneIsClean(g);
    var fs := OsUses(g, kname, {});
    var top, disk := DiskOf(g, kname), {};
    if kname != top { disk := OsUses(g, top, ours); }
    return (target.Some? && target.value in OS_MOUNTS) || fs != {} || disk != {};
  }

  method AddLevels(g: Graph, kname: Dev, top: Dev, picks: seq<Pick>, mine: set<string>, onOs: bool, logOnly: bool,
        tuneOs: bool)
    returns (r: seq<Pick>)
    requires PicksOk(g, picks, tuneOs) && Picked(picks, top) && (!onOs ==> Clean(g, mine)) && (!tuneOs ==> !onOs)
    ensures PicksOk(g, r, tuneOs)
    ensures forall d :: Picked(r, d) <==>
        Picked(picks, d) || (Reaches(g, kname, d, false) && Takes(g, d, mine, logOnly, tuneOs))
  {
    var levels := Levels(g, kname);
    r := picks;
    var i := 0;
    while i < |levels|
      invariant 0 <= i <= |levels| && PicksOk(g, r, tuneOs) &&
          PickedOf(g, picks, r, Flat(levels[..i]), mine, logOnly, tuneOs)
    {
      assert levels[..i + 1][..i] == levels[..i];
      var more := AddLevel(g, levels[i], top, r, mine, onOs, logOnly, tuneOs);
      PickedTwice(g, picks, r, more, Flat(levels[..i]), levels[i], mine, logOnly, tuneOs);
      r := more;
      i := i + 1;
    }
    assert levels[..i] == levels;
  }

  /** One filesystem to tune, and the devices under it. */
  method AddStack(g: Graph, kname: Dev, target: Option<string>, ours: set<string>, dataDisks: set<Dev>, logOnly: bool,
                  tuneOs: bool, picks: seq<Pick>)
    returns (r: seq<Pick>)
    requires kname in g && Linked(g) && Numbered(g) && Clean(g, ours) && PicksOk(g, picks, tuneOs)
    ensures PicksOk(g, r, tuneOs) && forall d :: Picked(picks, d) ==> Picked(r, d)
    ensures forall d :: Picked(r, d) <==>
        Picked(picks, d) || Adds(g, kname, target, ours, dataDisks, logOnly, tuneOs, d)
    ensures !tuneOs || !logOnly ==> forall d :: Picked(r, d) <==>
        Picked(picks, d) || Wanted(g, kname, target, tuneOs, d)
  {
    if !tuneOs || !logOnly {
      forall d ensures Adds(g, kname, target, ours, dataDisks, logOnly, tuneOs, d) <==>
          Wanted(g, kname, target, tuneOs, d) {
        AddsWanted(g, kname, target, ours, dataDisks, logOnly, tuneOs, d);
      }
    }
    var top := DiskOf(g, kname);
    var onOs := OnOs(g, kname, target, ours);
    if onOs && !tuneOs { return picks; }
    if onOs && logOnly && top !in dataDisks { return picks; }
    if g[top].kind == Loop || g[top].kind == Internal { return picks; }
    AddOk(g, picks, Pick(top, true, onOs), tuneOs);
    var more := Add(picks, Pick(top, true, onOs));
    if !onOs { CleanMore(g, ours, kname); }
    r := AddLevels(g, kname, top, more, ours + {g[kname].number}, onOs, logOnly, tuneOs);
  }

  predicate LogOnly(tops: Tops, commitlog: set<Dir>, k: Dev)
    requires k in tops.dirs
  {
    forall i :: 0 <= i < |tops.dirs[k]| ==> tops.dirs[k][i] in commitlog
  }

  /** The filesystems with data first, then those of the commitlog alone. */
  function DataFirst(tops: Tops, commitlog: set<Dir>, logs: bool, k: nat): (r: seq<Dev>)
    requires k <= |tops.order| && forall d :: d in tops.order ==> d in tops.dirs
    ensures forall d :: d in r <==> d in tops.order[..k] && LogOnly(tops, commitlog, d) == logs
  {
    if k == 0 then []
    else
      var d := tops.order[k - 1];
      assert d in tops.order && tops.order[..k] == tops.order[..k - 1] + [d];
      DataFirst(tops, commitlog, logs, k - 1) + if LogOnly(tops, commitlog, d) == logs then [d] else []
  }

  function TargetIn(targets: map<Dev, string>, k: Dev): Option<string> {
    if k in targets then Some(targets[k]) else None
  }

  ghost predicate WantedBySome(g: Graph, stacks: seq<Dev>, targets: map<Dev, string>, tuneOs: bool, d: Dev) {
    exists k :: k in stacks && k in g && Wanted(g, k, TargetIn(targets, k), tuneOs, d)
  }

  /** One stack after the other. */
  method AddStacks(g: Graph, stacks: seq<Dev>, tops: Tops, targets: map<Dev, string>, ours: set<string>,
        dataDisks: set<Dev>, commitlog: set<Dir>, tuneOs: bool, picks: seq<Pick>)
    returns (r: seq<Pick>)
    requires Linked(g) && Numbered(g) && Clean(g, ours) && PicksOk(g, picks, tuneOs)
    requires forall k :: k in stacks ==> k in g && k in tops.dirs
    ensures PicksOk(g, r, tuneOs)
    ensures !tuneOs ==> forall d :: Picked(r, d) <==> Picked(picks, d) || WantedBySome(g, stacks, targets, tuneOs, d)
  {
    r := picks;
    var i := 0;
    while i < |stacks|
      invariant 0 <= i <= |stacks| && PicksOk(g, r, tuneOs)
      invariant !tuneOs ==> forall d :: Picked(r, d) <==>
          Picked(picks, d) || WantedBySome(g, stacks[..i], targets, tuneOs, d)
    {
      var k := stacks[i];
      assert k in stacks;
      SomeMore(g, stacks[..i], k, targets, tuneOs);
      assert stacks[..i + 1] == stacks[..i] + [k];
      r := AddStack(g, k, TargetIn(targets, k), ours, dataDisks, LogOnly(tops, commitlog, k), tuneOs, r);
      i := i + 1;
    }
    assert stacks[..i] == stacks;
  }

  lemma {:induction false} SomeMore(g: Graph, stacks: seq<Dev>, k: Dev, targets: map<Dev, string>, tuneOs: bool)
    requires k in g
    ensures forall d :: WantedBySome(g, stacks + [k], targets, tuneOs, d) <==>
                        WantedBySome(g, stacks, targets, tuneOs, d) || Wanted(g, k, TargetIn(targets, k), tuneOs, d)
  {
    forall d ensures WantedBySome(g, stacks + [k], targets, tuneOs, d) <==>
                     WantedBySome(g, stacks, targets, tuneOs, d) || Wanted(g, k, TargetIn(targets, k), tuneOs, d)
    {
      if WantedBySome(g, stacks, targets, tuneOs, d) {
        var j :| j in stacks && j in g && Wanted(g, j, TargetIn(targets, j), tuneOs, d);
        assert j in stacks + [k];
      }
      assert k in stacks + [k];
    }
  }

  // ----- the plan -----

  /** A filesystem to tune: a directory's, or a known device set by hand. */
  ghost predicate ToTune(g: Graph, index: map<string, Dev>, mounts: seq<Mount>, given: seq<Given>, k: Dev) {
    if given == [] then TargetOf(index, mounts, k).Some? else k in g && Asked(given, k)
  }

  ghost function TargetFor(index: map<string, Dev>, mounts: seq<Mount>, given: seq<Given>, k: Dev): Option<string> {
    if given == [] then TargetOf(index, mounts, k) else None
  }

  /** The devices the plan is asked for. */
  ghost predicate PlanWants(g: Graph, index: map<string, Dev>, mounts: seq<Mount>, given: seq<Given>, d: Dev) {
    || (d !in g && Asked(given, d))
    || exists k :: k in g && ToTune(g, index, mounts, given, k) &&
        Wanted(g, k, TargetFor(index, mounts, given, k), false, d)
  }

  /** A device data is read through, of the first k filesystems. */
  ghost predicate IsDataDisk(g: Graph, tops: Tops, commitlog: set<Dir>, k: nat, d: Dev)
    requires k <= |tops.order| && forall k :: k in tops.order ==> k in tops.dirs && k in g
  {
    exists i :: 0 <= i < k && tops.order[i] in tops.order && !LogOnly(tops, commitlog, tops.order[i]) &&
        DiskOf(g, tops.order[i]) == d
  }

  method DataDisks(g: Graph, tops: Tops, commitlog: set<Dir>) returns (disks: set<Dev>)
    requires forall k :: k in tops.order ==> k in tops.dirs && k in g
    ensures forall d :: d in disks <==> IsDataDisk(g, tops, commitlog, |tops.order|, d)
  {
    disks := {};
    var i := 0;
    while i < |tops.order|
      invariant 0 <= i <= |tops.order| && forall d :: d in disks <==> IsDataDisk(g, tops, commitlog, i, d)
    {
      var k := tops.order[i];
      assert k in tops.order;
      DataDiskMore(g, tops, commitlog, i);
      if !LogOnly(tops, commitlog, k) { disks := disks + {DiskOf(g, k)}; }
      i := i + 1;
    }
  }

  lemma {:induction false} DataDiskMore(g: Graph, tops: Tops, commitlog: set<Dir>, i: nat)
    requires i < |tops.order| && forall k :: k in tops.order ==> k in tops.dirs && k in g
    ensures tops.order[i] in tops.order
    ensures forall d :: IsDataDisk(g, tops, commitlog, i + 1, d) <==>
              IsDataDisk(g, tops, commitlog, i, d) ||
                  (!LogOnly(tops, commitlog, tops.order[i]) && DiskOf(g, tops.order[i]) == d)
  {
    assert tops.order[i] in tops.order;
    forall d | IsDataDisk(g, tops, commitlog, i + 1, d) && !IsDataDisk(g, tops, commitlog, i, d)
      ensures !LogOnly(tops, commitlog, tops.order[i]) && DiskOf(g, tops.order[i]) == d
    {
      var j :| 0 <= j < i + 1 && tops.order[j] in tops.order && !LogOnly(tops, commitlog, tops.order[j]) &&
          DiskOf(g, tops.order[j]) == d;
      assert j == i;
    }
    forall d | IsDataDisk(g, tops, commitlog, i, d) ensures IsDataDisk(g, tops, commitlog, i + 1, d) {
      var j :| 0 <= j < i && tops.order[j] in tops.order && !LogOnly(tops, commitlog, tops.order[j]) &&
          DiskOf(g, tops.order[j]) == d;
      assert j < i + 1;
    }
  }

  /** The devices read from the directories and set by hand are those to tune. */
  lemma {:induction false} TopsToTune(g: Graph, index: map<string, Dev>, mounts: seq<Mount>, given: seq<Given>,
        before: Tops, tops: Tops, targets: map<Dev, string>, picks: seq<Pick>)
    requires TopsAre(g, before, targets, index, if given != [] then [] else mounts) &&
        GivenRead(g, given, tops, before, picks)
    ensures forall k :: k in tops.dirs <==> k in g && ToTune(g, index, mounts, given, k)
    ensures forall k :: k in tops.dirs ==> TargetIn(targets, k) == TargetFor(index, mounts, given, k)
  {
    forall k ensures k in tops.dirs <==> k in g && ToTune(g, index, mounts, given, k)
             ensures k in tops.dirs ==> TargetIn(targets, k) == TargetFor(index, mounts, given, k)
    {
      assert TargetOf(index, if given != [] then [] else mounts, k) == if k in targets then Some(targets[k]) else None;
    }
  }

  lemma {:induction false} StacksAreTops(tops: Tops, commitlog: set<Dir>)
    requires forall k :: k in tops.order <==> k in tops.dirs
    ensures forall k :: k in DataFirst(tops, commitlog, false, |tops.order|) + DataFirst(tops, commitlog, true,
        |tops.order|) <==> k in tops.dirs
  {
    assert tops.order[..|tops.order|] == tops.order;
  }

  /** What the stacks ask for is what the plan wants. */
  lemma {:induction false} StacksAreWanted(g: Graph, index: map<string, Dev>, mounts: seq<Mount>, given: seq<Given>,
        stacks: seq<Dev>, targets: map<Dev, string>, d: Dev)
    requires forall k :: k in stacks <==> k in g && ToTune(g, index, mounts, given, k)
    requires forall k :: k in stacks ==> TargetIn(targets, k) == TargetFor(index, mounts, given, k)
    ensures PlanWants(g, index, mounts, given, d) <==>
            (d !in g && Asked(given, d)) || WantedBySome(g, stacks, targets, false, d)
  {
    if WantedBySome(g, stacks, targets, false, d) {
      var k :| k in stacks && k in g && Wanted(g, k, TargetIn(targets, k), false, d);
      assert ToTune(g, index, mounts, given, k);
    }
    if k :| k in g && ToTune(g, index, mounts, given, k) && Wanted(g, k, TargetFor(index, mounts, given, k), false, d) {
      assert k in stacks;
    }
  }

  /** Left alone: nothing picked has a filesystem of the operating system on top of it. */
  lemma {:induction false} PicksAreSafe(g: Graph, picks: seq<Pick>)
    requires PicksOk(g, picks, false)
    ensures forall d :: Picked(picks, d) && d in g ==> Safe(g, d)
  {
  }

  /** Which devices to tune: each once. One not marked as the operating system's has
      none of its filesystems on top of it; left alone, no device is marked, and
      exactly the devices wanted that the operating system is not on are there. */
  method Plan(g: Graph, mounts: seq<Mount>, given: seq<Given>, tuneOs: bool)
    returns (picks: seq<Pick>, ghost index: map<string, Dev>)
    requires Numbered(g) && Linked(g)
    ensures PicksOk(g, picks, tuneOs)
    ensures !tuneOs ==> forall d :: Picked(picks, d) && d in g ==> Safe(g, d)
    ensures Indexed(g, index) && (!tuneOs ==> forall d :: Picked(picks, d) <==> PlanWants(g, index, mounts, given, d))
  {
    var numbers := ByNumber(g);
    index := numbers;
    var stacks;
    ghost var targets;
    picks, stacks, targets := PlanStacks(g, numbers, mounts, given, tuneOs);
    if !tuneOs {
      PicksAreSafe(g, picks);
      forall d ensures Picked(picks, d) <==> PlanWants(g, index, mounts, given, d) {
        StacksAreWanted(g, index, mounts, given, stacks, targets, d);
      }
    }
  }

  method PlanStacks(g: Graph, index: map<string, Dev>, mounts: seq<Mount>, given: seq<Given>, tuneOs: bool)
    returns (picks: seq<Pick>, stacks: seq<Dev>, targets: map<Dev, string>)
    requires Numbered(g) && Linked(g) && Indexed(g, index)
    ensures PicksOk(g, picks, tuneOs)
    ensures forall k :: k in stacks <==> k in g && ToTune(g, index, mounts, given, k)
    ensures forall k :: k in stacks ==> TargetIn(targets, k) == TargetFor(index, mounts, given, k)
    ensures !tuneOs ==> forall d :: Picked(picks, d) <==>
        (d !in g && Asked(given, d)) || WantedBySome(g, stacks, targets, tuneOs, d)
  {
    var ours, before, commitlog;
    ours, before, targets, commitlog := ReadMounts(g, index, mounts, given != []);
    var tops, byHand;
    ours, tops, byHand := ReadGiven(g, given, ours, before, tuneOs);
    TopsToTune(g, index, mounts, given, before, tops, targets, byHand);
    StacksAreTops(tops, commitlog);
    ours := CountTops(g, ours, tops, targets);
    var disks := DataDisks(g, tops, commitlog);
    stacks := DataFirst(tops, commitlog, false, |tops.order|) + DataFirst(tops, commitlog, true, |tops.order|);
    picks := AddStacks(g, stacks, tops, targets, ours, disks, commitlog, tuneOs, byHand);
  }
}
