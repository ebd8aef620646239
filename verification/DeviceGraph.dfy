/** The block devices of a host: what is built on a device, what is under it, and
    what else it holds. */
module DeviceGraph {
  import opened Lists

  type Dev = nat

  /** What a device is; a loop device and LVM's own parts are never tuned. */
  datatype Kind = Disk | Partition | Md | Loop | Mapper | Lvm | Internal

  datatype Device = Device(kind: Kind, number: string, mountpoint: string, fstype: string, parents: seq<Dev>,
      children: seq<Dev>)

  /** The devices by name, and the links between them. */
  type Graph = map<Dev, Device>

  /** The filesystems of the operating system. */
  const OS_MOUNTS: set<string> :=
    {"/", "/usr", "/var", "/var/log", "/var/lib", "/var/tmp", "/home", "/opt", "/tmp", "/boot", "/boot/efi"}

  /** The devices on a device, or under it. */
  function Next(g: Graph, k: Dev, up: bool): seq<Dev>
    requires k in g
  {
    if up then g[k].children else g[k].parents
  }

  ghost predicate Path(g: Graph, p: seq<Dev>, up: bool) {
    && p != [] && (forall i :: 0 <= i < |p| ==> p[i] in g)
    && forall i :: 0 <= i < |p| - 1 ==> p[i + 1] in Next(g, p[i], up)
  }

  /** b is reached from a, itself or link by link. */
  ghost predicate Reaches(g: Graph, a: Dev, b: Dev, up: bool) {
    exists p :: Path(g, p, up) && p[0] == a && p[|p| - 1] == b
  }

  lemma {:induction false} ReachesItself(g: Graph, a: Dev, up: bool)
    requires a in g
    ensures Reaches(g, a, a, up)
  {
    assert Path(g, [a], up);
  }

  lemma {:induction false} ReachesMore(g: Graph, a: Dev, b: Dev, c: Dev, up: bool)
    requires Reaches(g, a, b, up) && c in g && b in g && c in Next(g, b, up)
    ensures Reaches(g, a, c, up)
  {
    var p :| Path(g, p, up) && p[0] == a && p[|p| - 1] == b;
    var q := p + [c];
    assert Path(g, q, up) && q[0] == a && q[|q| - 1] == c;
  }

  /** What a search has seen, what it still has to look at. */
  ghost predicate Searching(g: Graph, from: Dev, seen: set<Dev>, todo: seq<Dev>, up: bool) {
    && (forall k :: k in seen ==> k in g && Reaches(g, from, k, up))
    && (forall k :: k in todo && k in g ==> Reaches(g, from, k, up))
    && (from in seen || from in todo || from !in g)
    && forall k, c :: k in seen && k in g && c in Next(g, k, up) ==> c in seen || c in todo || c !in g
  }

  /** Nothing left to look at: everything that can be reached was seen. */
  lemma {:induction false} AllSeen(g: Graph, from: Dev, seen: set<Dev>, up: bool, p: seq<Dev>)
    requires Searching(g, from, seen, [], up) && Path(g, p, up) && p[0] == from
    ensures p[|p| - 1] in seen
    decreases |p|
  {
    if |p| > 1 {
      var q := p[..|p| - 1];
      assert Path(g, q, up);
      AllSeen(g, from, seen, up, q);
      assert p[|p| - 1] in Next(g, q[|q| - 1], up);
    }
  }

  lemma {:induction false} SeenIsReached(g: Graph, from: Dev, seen: set<Dev>, up: bool)
    requires Searching(g, from, seen, [], up)
    ensures forall k :: k in seen <==> Reaches(g, from, k, up)
  {
    forall k | Reaches(g, from, k, up) ensures k in seen {
      var p :| Path(g, p, up) && p[0] == from && p[|p| - 1] == k;
      AllSeen(g, from, seen, up, p);
    }
  }

  lemma {:induction false} StartsSearch(g: Graph, from: Dev, up: bool)
    ensures Searching(g, from, {}, [from], up)
  {
    if from in g { ReachesItself(g, from, up); }
  }

  lemma {:induction false} LooksAt(g: Graph, from: Dev, seen: set<Dev>, todo: seq<Dev>, k: Dev, more: seq<Dev>,
        up: bool)
    requires k in g && Searching(g, from, seen, todo + [k], up) && forall c :: c in more <==> c in Next(g, k, up)
    ensures Searching(g, from, seen + {k}, todo + more, up)
  {
    assert k in todo + [k];
    forall c | c in todo + more && c in g ensures Reaches(g, from, c, up) {
      if c in more { ReachesMore(g, from, k, c, up); } else { assert c in todo + [k]; }
    }
    forall j, c | j in seen + {k} && j in g && c in Next(g, j, up)
        ensures c in seen + {k} || c in todo + more || c !in g {
      if j in seen { assert c in seen || c in todo + [k] || c !in g; }
    }
  }

  lemma {:induction false} PassesOver(g: Graph, from: Dev, seen: set<Dev>, todo: seq<Dev>, k: Dev, up: bool)
    requires Searching(g, from, seen, todo + [k], up) && (k in seen || k !in g)
    ensures Searching(g, from, seen, todo, up)
  {
    forall c | c in todo && c in g ensures Reaches(g, from, c, up) { assert c in todo + [k]; }
    forall j, c | j in seen && j in g && c in Next(g, j, up) ensures c in seen || c in todo || c !in g {
      assert c in seen || c in todo + [k] || c !in g;
    }
    assert from in seen || from in todo + [k] || from !in g;
  }

  /** u is at the top of what is built on k: nothing is built on it. */
  ghost predicate AtTop(g: Graph, k: Dev, u: Dev) {
    u in g && Reaches(g, k, u, true) && g[u].children == []
  }

  /** What sits at the top of everything built on a device, itself when nothing is: each once. */
  method Uppermost(g: Graph, kname: Dev) returns (out: seq<Dev>)
    ensures forall i, j :: 0 <= i < j < |out| ==> out[i] != out[j]
    ensures forall u :: u in out <==> AtTop(g, kname, u)
  {
    var seen: set<Dev>, todo := {}, [kname];
    out := [];
    StartsSearch(g, kname, true);
    while todo != []
      invariant Searching(g, kname, seen, todo, true)
      invariant forall i, j :: 0 <= i < j < |out| ==> out[i] != out[j]
      invariant forall u :: u in out <==> u in seen && u in g && g[u].children == []
      decreases g.Keys - seen, |todo|
    {
      var k, rest := todo[|todo| - 1], todo[..|todo| - 1];
      assert todo == rest + [k];
      todo := rest;
      if k in seen || k !in g {
        PassesOver(g, kname, seen, rest, k, true);
      } else {
        LooksAt(g, kname, seen, rest, k, g[k].children, true);
        seen := seen + {k};
        if g[k].children != [] { todo := todo + g[k].children; } else { out := out + [k]; todo := todo + []; }
      }
    }
    SeenIsReached(g, kname, seen, true);
  }

  /** A use of a device: a filesystem mounted on top of it, or one that is not mounted. */
  datatype Use = Mounted(point: string) | Unmounted(dev: Dev)

  /** The uses of a device that are not Cassandra's own. */
  ghost predicate IsOtherUse(g: Graph, kname: Dev, ours: set<string>, use: Use) {
    exists u :: AtTop(g, kname, u) && UseOf(g, u, ours) == {use}
  }

  function UseOf(g: Graph, u: Dev, ours: set<string>): set<Use>
    requires u in g
  {
    if g[u].number in ours then {}
    else if g[u].mountpoint != "" then {Mounted(g[u].mountpoint)}
    else if g[u].fstype != "" then {Unmounted(u)}
    else {}
  }

  method OtherUses(g: Graph, kname: Dev, ours: set<string>) returns (uses: set<Use>)
    ensures forall use :: use in uses <==> IsOtherUse(g, kname, ours, use)
  {
    var tops := Uppermost(g, kname);
    uses := {};
    var i := 0;
    while i < |tops|
      invariant 0 <= i <= |tops|
      invariant forall use :: use in uses <==>
          exists j :: 0 <= j < i && tops[j] in g && UseOf(g, tops[j], ours) == {use}
    {
      assert tops[i] in tops;
      uses := uses + UseOf(g, tops[i], ours);
      i := i + 1;
    }
    forall use ensures use in uses <==> IsOtherUse(g, kname, ours, use) {
      if use in uses {
        var j :| 0 <= j < |tops| && tops[j] in g && UseOf(g, tops[j], ours) == {use};
        assert AtTop(g, kname, tops[j]);
      }
      if IsOtherUse(g, kname, ours, use) {
        var u :| AtTop(g, kname, u) && UseOf(g, u, ours) == {use};
        var j :| 0 <= j < |tops| && tops[j] == u;
      }
    }
  }

  // ----- level by level -----

  function Flat(levels: seq<seq<Dev>>): seq<Dev> {
    if levels == [] then [] else Flat(levels[..|levels| - 1]) + levels[|levels| - 1]
  }

  /** The devices of a level that are there and were not seen. */
  method Unseen(g: Graph, level: seq<Dev>, seen: set<Dev>) returns (r: seq<Dev>)
    requires Distinct(level)
    ensures Distinct(r) && forall k :: k in r <==> k in level && k in g && k !in seen
  {
    r := [];
    var i := 0;
    while i < |level|
      invariant 0 <= i <= |level|
      invariant Distinct(r) && forall k :: k in r <==> k in level[..i] && k in g && k !in seen
    {
      assert level[i] !in level[..i] && level[..i + 1] == level[..i] + [level[i]];
      if level[i] in g && level[i] !in seen { r := r + [level[i]]; }
      i := i + 1;
    }
    assert level[..i] == level;
  }

  ghost predicate ParentOfSome(g: Graph, level: seq<Dev>, c: Dev) {
    exists k :: k in level && k in g && c in g[k].parents
  }

  /** The devices right under those of a level, each once. */
  method Parents(g: Graph, level: seq<Dev>) returns (next: seq<Dev>)
    requires forall k :: k in level ==> k in g
    ensures Distinct(next) && forall c :: c in next <==> ParentOfSome(g, level, c)
    ensures level == [] ==> next == []
  {
    next := [];
    var i := 0;
    while i < |level|
      invariant 0 <= i <= |level|
      invariant Distinct(next) && forall c :: c in next <==> ParentOfSome(g, level[..i], c)
      invariant i == 0 ==> next == []
    {
      assert level[..i + 1] == level[..i] + [level[i]] && level[i] in level;
      next := AddNew(next, g[level[i]].parents);
      i := i + 1;
    }
    assert level[..i] == level;
  }

  method AddNew(s: seq<Dev>, more: seq<Dev>) returns (r: seq<Dev>)
    requires Distinct(s)
    ensures Distinct(r) && forall c :: c in r <==> c in s || c in more
  {
    r := s;
    var i := 0;
    while i < |more|
      invariant 0 <= i <= |more|
      invariant Distinct(r) && forall c :: c in r <==> c in s || c in more[..i]
    {
      assert more[..i + 1] == more[..i] + [more[i]];
      if more[i] !in r { r := r + [more[i]]; }
      i := i + 1;
    }
    assert more[..i] == more;
  }

  lemma {:induction false} LevelStep(g: Graph, from: Dev, seen: set<Dev>, level: seq<Dev>, unseen: seq<Dev>,
        next: seq<Dev>)
    requires Searching(g, from, seen, level, false)
    requires forall k :: k in unseen <==> k in level && k in g && k !in seen
    requires forall c :: c in next <==> ParentOfSome(g, unseen, c)
    ensures Searching(g, from, seen + SetOf(unseen), next, false)
  {
    var seen' := seen + SetOf(unseen);
    forall c | c in next && c in g ensures Reaches(g, from, c, false) {
      var k :| k in unseen && k in g && c in g[k].parents;
      ReachesMore(g, from, k, c, false);
    }
    forall j, c | j in seen' && j in g && c in Next(g, j, false) ensures c in seen' || c in next || c !in g {
      if j in seen { assert c in seen || c in level || c !in g; } else { assert ParentOfSome(g, unseen, c); }
    }
  }

  lemma {:induction false} FlatMore(levels: seq<seq<Dev>>, level: seq<Dev>, seen: set<Dev>)
    requires Distinct(Flat(levels)) && SetOf(Flat(levels)) == seen
    requires Distinct(level) && forall k :: k in level ==> k !in seen
    ensures Distinct(Flat(levels + [level])) && SetOf(Flat(levels + [level])) == seen + SetOf(level)
  {
    var flat := Flat(levels);
    assert (levels + [level])[..|levels|] == levels;
    assert Flat(levels + [level]) == flat + level;
    forall i, j | 0 <= i < j < |flat + level| ensures (flat + level)[i] != (flat + level)[j] {
      if i < |flat| <= j { assert flat[i] in seen && level[j - |flat|] in level; }
    }
    assert forall k :: k in flat ==> k in seen;
    assert forall k :: k in seen ==> k in flat;
  }

  /** A device, then the devices under it, level by level: each exactly once. */
  method Levels(g: Graph, kname: Dev) returns (levels: seq<seq<Dev>>)
    ensures Distinct(Flat(levels))
    ensures forall k :: k in Flat(levels) <==> Reaches(g, kname, k, false)
  {
    var seen: set<Dev>, level := {}, [kname];
    levels := [];
    StartsSearch(g, kname, false);
    while level != []
      invariant Searching(g, kname, seen, level, false) && Distinct(level)
      invariant Distinct(Flat(levels)) && SetOf(Flat(levels)) == seen
      decreases g.Keys - seen, |level|
    {
      var unseen := Unseen(g, level, seen);
      var next := Parents(g, unseen);
      LevelStep(g, kname, seen, level, unseen, next);
      if unseen != [] {
        assert unseen[0] in unseen && unseen[0] in g.Keys - seen;
        FlatMore(levels, unseen, seen);
        levels := levels + [unseen];
      }
      seen := seen + SetOf(unseen);
      level := next;
    }
    SeenIsReached(g, kname, seen, false);
    forall k ensures k in Flat(levels) <==> Reaches(g, kname, k, false) {
      assert k in Flat(levels) <==> k in SetOf(Flat(levels));
    }
  }
}
