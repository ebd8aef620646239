/** The variables read on each node, put in the inventory at the highest level
    where the nodes agree, and what Ansible gives each node back. */
module Inventory {
  import opened Options

  type Name = nat
  type Group = string
  type Key = nat

  /** A variable's value; a dict keeps the order of its items, which counts for some keys only. */
  datatype Value = Plain(text: string) | Dict(items: seq<(string, string)>)

  /** A node: its name, the groups of its cluster, its datacenter and its rack, its variables. */
  datatype Host = Host(name: Name, clusterGroup: Group, dcGroup: Group, rackGroup: Group, vars: map<Key, Value>)

  /** Variables written in the order of their dict. */
  const KEEP_ORDER: set<Key> := {0}

  const LEVELS := 3

  function Has(n: Host, key: Key): Option<Value> {
    if key in n.vars then Some(n.vars[key]) else None
  }

  /** Equal as values: the order of a dict's items does not count. */
  predicate Equal(a: Value, b: Value) {
    match (a, b)
    case (Plain(x), Plain(y)) => x == y
    case (Dict(x), Dict(y)) => (set i | i in x) == (set i | i in y)
    case _ => false
  }

  predicate Same(key: Key, a: Option<Value>, b: Option<Value>) {
    match (a, b)
    case (Some(x), Some(y)) => if key in KEEP_ORDER && x.Dict? && y.Dict? then x.items == y.items else Equal(x, y)
    case (None, None) => true
    case _ => false
  }

  lemma {:induction false} SameIsEquivalence(key: Key, a: Option<Value>, b: Option<Value>, c: Option<Value>)
    ensures Same(key, a, a)
    ensures Same(key, a, b) ==> Same(key, b, a)
    ensures Same(key, a, b) && Same(key, b, c) ==> Same(key, a, c)
  {
  }

  // ----- the files -----

  /** Where a variable can be: a group's file or a host's. */
  datatype Slot = InGroup(group: Group) | OnHost(name: Name)

  datatype Files = Files(groups: map<Group, map<Key, Value>>, hosts: map<Name, map<Key, Value>>)

  function VarsOf(f: Files, s: Slot): map<Key, Value> {
    match s
    case InGroup(g) => if g in f.groups then f.groups[g] else map[]
    case OnHost(n) => if n in f.hosts then f.hosts[n] else map[]
  }

  function Get(f: Files, s: Slot, key: Key): Option<Value> {
    if key in VarsOf(f, s) then Some(VarsOf(f, s)[key]) else None
  }

  function Put(f: Files, s: Slot, key: Key, value: Value): (r: Files)
    ensures forall t, k :: Get(r, t, k) == if t == s && k == key then Some(value) else Get(f, t, k)
  {
    match s
    case InGroup(g) => f.(groups := f.groups[g := VarsOf(f, s)[key := value]])
    case OnHost(n) => f.(hosts := f.hosts[n := VarsOf(f, s)[key := value]])
  }

  /** The file a node's variable is in at a level: cluster, datacenter, rack, the node itself. */
  function SlotAt(level: nat, n: Host): Slot
    requires level <= LEVELS
  {
    if level == 0 then InGroup(n.clusterGroup)
    else if level == 1 then InGroup(n.dcGroup)
    else if level == 2 then InGroup(n.rackGroup)
    else OnHost(n.name)
  }

  // ----- the walk down the levels -----

  predicate AllMissing(key: Key, members: seq<Host>) {
    forall i :: 0 <= i < |members| ==> key !in members[i].vars
  }

  predicate AllSame(key: Key, members: seq<Host>)
    requires members != []
  {
    forall i :: 0 <= i < |members| ==> Same(key, Has(members[i], key), Has(members[0], key))
  }

  /** The members in one file's group at a level, in order. */
  function Part(members: seq<Host>, level: nat, s: Slot): (r: seq<Host>)
    requires level <= LEVELS
    ensures forall n :: n in r <==> n in members && SlotAt(level, n) == s
  {
    if members == [] then []
    else
      var last := members[|members| - 1];
      Part(members[..|members| - 1], level, s) + if SlotAt(level, last) == s then [last] else []
  }

  /** Some member's variable is in that file at that level. */
  ghost predicate Used(members: seq<Host>, level: nat, s: Slot)
    requires level <= LEVELS
  {
    exists n :: n in members && SlotAt(level, n) == s
  }

  /** The files of the members at a level, each once, in the order they first appear. */
  function Slots(members: seq<Host>, level: nat): (r: seq<Slot>)
    requires level <= LEVELS
    ensures forall s :: s in r <==> Used(members, level, s)
    ensures forall i, j :: 0 <= i < j < |r| ==> r[i] != r[j]
  {
    if members == [] then []
    else
      var last := members[|members| - 1];
      var before := Slots(members[..|members| - 1], level);
      assert members == members[..|members| - 1] + [last];
      if SlotAt(level, last) in before then before else before + [SlotAt(level, last)]
  }

  /** The value of the first member, in the file of a level. */
  function PutFirst(f: Files, key: Key, level: nat, first: Host): Files
    requires level <= LEVELS
  {
    if key in first.vars then Put(f, SlotAt(level, first), key, first.vars[key]) else f
  }

  /** key in the files from a level down: one file where all the members agree,
      else the files of the next level, member group by member group. */
  ghost function Walk(f: Files, key: Key, level: nat, members: seq<Host>): Files
    requires level <= LEVELS && members != []
    decreases LEVELS - level, 1, 0
  {
    if AllMissing(key, members) then f
    else if level == LEVELS || AllSame(key, members) then PutFirst(f, key, level, members[0])
    else WalkParts(f, key, level, members, Slots(members, level + 1))
  }

  ghost function WalkParts(f: Files, key: Key, level: nat, members: seq<Host>, slots: seq<Slot>): Files
    requires level < LEVELS && forall i :: 0 <= i < |slots| ==> Used(members, level + 1, slots[i])
    decreases LEVELS - level, 0, |slots|
  {
    if slots == [] then f
    else
      PartUsed(members, level + 1, slots[0]);
      WalkParts(Walk(f, key, level + 1, Part(members, level + 1, slots[0])), key, level, members, slots[1..])
  }

  lemma {:induction false} PartUsed(members: seq<Host>, level: nat, s: Slot)
    requires level <= LEVELS && Used(members, level, s)
    ensures Part(members, level, s) != []
  {
    var n :| n in members && SlotAt(level, n) == s;
    assert n in Part(members, level, s);
  }

  // ----- where a value belongs -----

  ghost predicate UniqueNames(members: seq<Host>) {
    forall i, j :: 0 <= i < j < |members| ==> members[i].name != members[j].name
  }

  /** The nodes of m's datacenter group are all of one rack group. */
  ghost predicate OneRack(members: seq<Host>, m: Host) {
    forall o :: o in members && SlotAt(1, o) == SlotAt(1, m) ==> SlotAt(2, o) == SlotAt(2, m)
  }

  /** Datacenter groups that share a rack group have that one only. */
  ghost predicate Nested(members: seq<Host>) {
    forall m, n :: m in members && n in members && SlotAt(2, m) == SlotAt(2, n) && SlotAt(1, m) != SlotAt(1, n) ==>
      OneRack(members, m) && OneRack(members, n)
  }

  /** No group's name is used at two levels. */
  ghost predicate LevelsApart(members: seq<Host>) {
    forall m, n, i: nat, j: nat :: m in members && n in members && i < j <= LEVELS ==> SlotAt(i, m) != SlotAt(j, n)
  }

  /** Members that share the file of their level. */
  ghost predicate Together(members: seq<Host>, level: nat)
    requires level <= LEVELS
  {
    forall m, n :: m in members && n in members ==> SlotAt(level, m) == SlotAt(level, n)
  }

  /** One cluster, whose groups let every value be read back. */
  ghost predicate WellGrouped(members: seq<Host>) {
    UniqueNames(members) && Together(members, 0) && Nested(members) && LevelsApart(members)
  }

  /** All the members that share n's file at a level have n's value, or like n none. */
  ghost predicate Agree(members: seq<Host>, level: nat, n: Host, key: Key)
    requires level <= LEVELS
  {
    forall m :: m in members && SlotAt(level, m) == SlotAt(level, n) ==> Same(key, Has(m, key), Has(n, key))
  }

  /** The highest level from one on where those who share n's file agree: there its value belongs. */
  ghost predicate Sits(members: seq<Host>, from: nat, level: nat, n: Host, key: Key)
    requires from <= level <= LEVELS
  {
    && key in n.vars && Agree(members, level, n, key)
    && forall j: nat :: from <= j < level ==> !Agree(members, j, n, key)
  }

  /** The file of a level has n's value exactly when it belongs there, else what it had before. */
  ghost predicate RightAt(before: Files, after: Files, members: seq<Host>, from: nat, level: nat, n: Host, key: Key)
    requires from <= level <= LEVELS
  {
    if Sits(members, from, level, n, key) then Same(key, Get(after, SlotAt(level, n), key), Has(n, key))
    else Get(after, SlotAt(level, n), key) == Get(before, SlotAt(level, n), key)
  }

  /** s is the file of one of the members at a level or below. */
  ghost predicate Under(members: seq<Host>, level: nat, s: Slot) {
    exists n, j: nat :: n in members && level <= j <= LEVELS && SlotAt(j, n) == s
  }

  /** Nothing but key changed, and only in the members' files from a level down. */
  ghost predicate OnlyUnder(before: Files, after: Files, members: seq<Host>, level: nat, key: Key) {
    && (forall s, k :: k != key ==> Get(after, s, k) == Get(before, s, k))
    && (forall s :: !Under(members, level, s) ==> Get(after, s, key) == Get(before, s, key))
  }

  ghost predicate AllRight(before: Files, after: Files, members: seq<Host>, from: nat, key: Key) {
    forall n, level: nat :: n in members && from <= level <= LEVELS ==>
        RightAt(before, after, members, from, level, n, key)
  }

  /** A walk over some members: every value where it belongs, and nothing else changed. */
  ghost predicate WalkDone(before: Files, after: Files, members: seq<Host>, from: nat, key: Key) {
    OnlyUnder(before, after, members, from, key) && AllRight(before, after, members, from, key)
  }

  // ----- the walk puts every value where it belongs -----

  lemma {:induction false} PartNames(members: seq<Host>, level: nat, s: Slot)
    requires level <= LEVELS && UniqueNames(members)
    ensures UniqueNames(Part(members, level, s))
  {
    if members != [] {
      PartNames(members[..|members| - 1], level, s);
      var part := Part(members[..|members| - 1], level, s);
      forall i | 0 <= i < |part| ensures part[i].name != members[|members| - 1].name {
        assert part[i] in members[..|members| - 1];
      }
    }
  }

  lemma {:induction false} PartGrouped(members: seq<Host>, level: nat, s: Slot)
    requires level <= LEVELS && WellGrouped(members)
    ensures WellGrouped(Part(members, level, s))
  {
    PartNames(members, level, s);
    SomeNested(members, Part(members, level, s));
    SomeApart(members, Part(members, level, s));
  }

  lemma {:induction false} SomeNested(members: seq<Host>, part: seq<Host>)
    requires Nested(members) && forall n :: n in part ==> n in members
    ensures Nested(part)
  {
    forall m, n | m in part && n in part && SlotAt(2, m) == SlotAt(2, n) && SlotAt(1, m) != SlotAt(1, n)
      ensures OneRack(part, m) && OneRack(part, n)
    {
      assert OneRack(members, m) && OneRack(members, n);
    }
  }

  lemma {:induction false} SomeApart(members: seq<Host>, part: seq<Host>)
    requires LevelsApart(members) && forall n :: n in part ==> n in members
    ensures LevelsApart(part)
  {
    forall m, n, i: nat, j: nat | m in part && n in part && i < j <= LEVELS ensures SlotAt(i, m) != SlotAt(j, n) {
      assert m in members && n in members;
    }
  }

  lemma {:induction false} OneName(members: seq<Host>, m: Host, n: Host)
    requires UniqueNames(members) && m in members && n in members && m.name == n.name
    ensures m == n
  {
    var i :| 0 <= i < |members| && members[i] == m;
    var j :| 0 <= j < |members| && members[j] == n;
  }

  /** A node that shares a lower file with n is in n's part, or n's datacenter has one rack. */
  lemma {:induction false} SharesBelow(members: seq<Host>, m: Host, n: Host, low: nat, level: nat)
    requires WellGrouped(members) && m in members && n in members && low <= level <= LEVELS
    requires SlotAt(level, m) == SlotAt(level, n)
    ensures SlotAt(low, m) == SlotAt(low, n) || (low == 1 && level == 2 && OneRack(members, m) && OneRack(members, n))
  {
    if level == LEVELS { OneName(members, m, n); }
    if low == 0 { assert SlotAt(0, m) == SlotAt(0, n); }
  }

  /** The part of a node has everyone it shares a file with, as far as it matters. */
  lemma {:induction false} PartAgrees(members: seq<Host>, low: nat, level: nat, n: Host, key: Key)
    requires WellGrouped(members) && n in members && low <= level <= LEVELS
    requires level == low || !Agree(members, low, n, key)
    ensures Agree(Part(members, low, SlotAt(low, n)), level, n, key) <==> Agree(members, level, n, key)
  {
    var part := Part(members, low, SlotAt(low, n));
    if !Agree(members, level, n, key) {
      var m :| m in members && SlotAt(level, m) == SlotAt(level, n) && !Same(key, Has(m, key), Has(n, key));
      SharesBelow(members, m, n, low, level);
      if SlotAt(low, m) != SlotAt(low, n) {
        var o :| o in members && SlotAt(low, o) == SlotAt(low, n) && !Same(key, Has(o, key), Has(n, key));
        assert o in part && SlotAt(2, o) == SlotAt(2, n);
      } else {
        assert m in part;
      }
    }
  }

  lemma {:induction false} PartSits(members: seq<Host>, low: nat, level: nat, n: Host, key: Key)
    requires WellGrouped(members) && n in members && low <= level <= LEVELS
    ensures Sits(Part(members, low, SlotAt(low, n)), low, level, n, key) <==> Sits(members, low, level, n, key)
  {
    PartAgrees(members, low, low, n, key);
    if level > low && !Agree(members, low, n, key) {
      forall j: nat | low <= j <= level
        ensures Agree(Part(members, low, SlotAt(low, n)), j, n, key) <==> Agree(members, j, n, key)
      {
        PartAgrees(members, low, j, n, key);
      }
    }
  }

  /** The files of a node are other files than those of a part it is not in, but for a
      rack's that nothing is put in. */
  lemma {:induction false} OtherPartStays(before: Files, after: Files, members: seq<Host>, low: nat, s: Slot, n: Host,
        level: nat, key: Key)
    requires WellGrouped(members) && n in members && low <= level <= LEVELS && SlotAt(low, n) != s
    requires WalkDone(before, after, Part(members, low, s), low, key)
    ensures Get(after, SlotAt(level, n), key) == Get(before, SlotAt(level, n), key)
  {
    var part := Part(members, low, s);
    if Under(part, low, SlotAt(level, n)) {
      var m, j: nat :| m in part && low <= j <= LEVELS && SlotAt(j, m) == SlotAt(level, n);
      assert m in members && SlotAt(low, m) == s;
      SameLevel(members, m, n, j, level);
      SharesBelow(members, m, n, low, level);
      OneRackStays(before, after, part, m, key);
    }
  }

  lemma {:induction false} SameLevel(members: seq<Host>, m: Host, n: Host, i: nat, j: nat)
    requires LevelsApart(members) && m in members && n in members && i <= LEVELS && j <= LEVELS &&
        SlotAt(i, m) == SlotAt(j, n)
    ensures i == j
  {
  }

  /** In a datacenter with one rack, nothing is put in the rack's file. */
  lemma {:induction false} OneRackStays(before: Files, after: Files, part: seq<Host>, m: Host, key: Key)
    requires WalkDone(before, after, part, 1, key) && m in part && OneRack(part, m)
    requires forall o :: o in part ==> SlotAt(1, o) == SlotAt(1, m)
    ensures Get(after, SlotAt(2, m), key) == Get(before, SlotAt(2, m), key)
  {
    assert RightAt(before, after, part, 1, 2, m, key);
    assert Agree(part, 2, m, key) ==> Agree(part, 1, m, key);
  }

  /** The effect of the walks over some of the parts. */
  ghost predicate PartsRight(before: Files, after: Files, members: seq<Host>, low: nat, slots: seq<Slot>, key: Key)
    requires low <= LEVELS
  {
    forall n, level: nat :: n in members && low <= level <= LEVELS ==>
      if SlotAt(low, n) in slots then RightAt(before, after, members, low, level, n, key)
      else Get(after, SlotAt(level, n), key) == Get(before, SlotAt(level, n), key)
  }

  ghost predicate PartsDone(before: Files, after: Files, members: seq<Host>, low: nat, slots: seq<Slot>, key: Key)
    requires low <= LEVELS
  {
    OnlyUnder(before, after, members, low, key) && PartsRight(before, after, members, low, slots, key)
  }

  lemma {:induction false} PartIsUnder(members: seq<Host>, low: nat, s: Slot)
    requires low <= LEVELS
    ensures forall t :: Under(Part(members, low, s), low, t) ==> Under(members, low, t)
  {
    forall t | Under(Part(members, low, s), low, t) ensures Under(members, low, t) {
      var n, j: nat :| n in Part(members, low, s) && low <= j <= LEVELS && SlotAt(j, n) == t;
      assert n in members;
    }
  }

  lemma {:induction false} OnlyUnderTwice(a: Files, b: Files, c: Files, part: seq<Host>, members: seq<Host>,
        level: nat, key: Key)
    requires OnlyUnder(a, b, part, level, key) && OnlyUnder(b, c, members, level, key)
    requires forall t :: Under(part, level, t) ==> Under(members, level, t)
    ensures OnlyUnder(a, c, members, level, key)
  {
    forall s | !Under(members, level, s) ensures Get(c, s, key) == Get(a, s, key) {
      assert !Under(part, level, s);
    }
  }

  lemma {:induction false} OnePartRight(f: Files, f1: Files, f2: Files, key: Key, low: nat, members: seq<Host>,
        slots: seq<Slot>, n: Host, level: nat)
    requires WellGrouped(members) && n in members && low <= level <= LEVELS && slots != [] && slots[0] !in slots[1..]
    requires WalkDone(f, f1, Part(members, low, slots[0]), low, key)
    requires PartsRight(f1, f2, members, low, slots[1..], key)
    ensures if SlotAt(low, n) in slots then RightAt(f, f2, members, low, level, n, key)
            else Get(f2, SlotAt(level, n), key) == Get(f, SlotAt(level, n), key)
  {
    var part := Part(members, low, slots[0]);
    assert slots == [slots[0]] + slots[1..];
    if SlotAt(low, n) == slots[0] {
      assert n in part;
      PartSits(members, low, level, n, key);
      assert RightAt(f, f1, part, low, level, n, key);
    } else {
      OtherPartStays(f, f1, members, low, slots[0], n, level, key);
    }
  }

  lemma {:induction false} WalkPartsAreRight(f: Files, key: Key, level: nat, members: seq<Host>, slots: seq<Slot>)
    requires level < LEVELS && WellGrouped(members) && forall i :: 0 <= i < |slots| ==>
        Used(members, level + 1, slots[i])
    requires forall i, j :: 0 <= i < j < |slots| ==> slots[i] != slots[j]
    ensures PartsDone(f, WalkParts(f, key, level, members, slots), members, level + 1, slots, key)
    decreases LEVELS - level, 0, |slots|
  {
    if slots != [] {
      PartUsed(members, level + 1, slots[0]);
      var part := Part(members, level + 1, slots[0]);
      PartGrouped(members, level + 1, slots[0]);
      WalkIsRight(f, key, level + 1, part);
      var f1 := Walk(f, key, level + 1, part);
      WalkPartsAreRight(f1, key, level, members, slots[1..]);
      AllPartsRight(f, f1, WalkParts(f1, key, level, members, slots[1..]), key, level + 1, members, slots);
    }
  }

  lemma {:induction false} AllPartsRight(f: Files, f1: Files, f2: Files, key: Key, low: nat, members: seq<Host>,
        slots: seq<Slot>)
    requires WellGrouped(members) && low <= LEVELS && slots != [] && slots[0] !in slots[1..]
    requires WalkDone(f, f1, Part(members, low, slots[0]), low, key) && PartsDone(f1, f2, members, low, slots[1..], key)
    ensures PartsDone(f, f2, members, low, slots, key)
  {
    PartIsUnder(members, low, slots[0]);
    OnlyUnderTwice(f, f1, f2, Part(members, low, slots[0]), members, low, key);
    forall n, l: nat | n in members && low <= l <= LEVELS
      ensures if SlotAt(low, n) in slots then RightAt(f, f2, members, low, l, n, key)
              else Get(f2, SlotAt(l, n), key) == Get(f, SlotAt(l, n), key)
    {
      OnePartRight(f, f1, f2, key, low, members, slots, n, l);
    }
  }

  lemma {:induction false} WalkIsRight(f: Files, key: Key, level: nat, members: seq<Host>)
    requires level <= LEVELS && members != [] && WellGrouped(members) && Together(members, level)
    ensures WalkDone(f, Walk(f, key, level, members), members, level, key)
    decreases LEVELS - level, 1, 0
  {
    if AllMissing(key, members) {
      forall n | n in members ensures key !in n.vars {
        var i :| 0 <= i < |members| && members[i] == n;
      }
    } else if level == LEVELS || AllSame(key, members) {
      PutFirstIsRight(f, key, level, members);
    } else {
      WalkPartsAreRight(f, key, level, members, Slots(members, level + 1));
      NotHere(f, Walk(f, key, level, members), key, level, members);
    }
  }

  lemma {:induction false} AgreeIsAllSame(key: Key, level: nat, members: seq<Host>, n: Host)
    requires level <= LEVELS && n in members && Together(members, level)
    ensures Agree(members, level, n, key) <==> AllSame(key, members)
  {
    var k :| 0 <= k < |members| && members[k] == n;
    if Agree(members, level, n, key) {
      forall i | 0 <= i < |members| ensures Same(key, Has(members[i], key), Has(members[0], key)) {
        assert members[i] in members && members[0] in members;
        SameIsEquivalence(key, Has(members[0], key), Has(n, key), Has(n, key));
        SameIsEquivalence(key, Has(members[i], key), Has(n, key), Has(members[0], key));
      }
    }
    if AllSame(key, members) {
      forall m | m in members ensures Same(key, Has(m, key), Has(n, key)) {
        var i :| 0 <= i < |members| && members[i] == m;
        SameIsEquivalence(key, Has(members[k], key), Has(members[0], key), Has(n, key));
        SameIsEquivalence(key, Has(m, key), Has(members[0], key), Has(n, key));
      }
    }
  }

  lemma {:induction false} SameName(members: seq<Host>, m: Host, n: Host)
    requires m in members && n in members && Together(members, LEVELS)
    ensures m.name == n.name
  {
    assert SlotAt(LEVELS, m) == SlotAt(LEVELS, n);
  }

  lemma {:induction false} OneHost(members: seq<Host>)
    requires members != [] && UniqueNames(members) && Together(members, LEVELS)
    ensures |members| == 1
  {
    if |members| > 1 {
      SameName(members, members[0], members[1]);
    }
  }

  lemma {:induction false} PutFirstIsRight(f: Files, key: Key, level: nat, members: seq<Host>)
    requires level <= LEVELS && members != [] && WellGrouped(members) && Together(members, level)
    requires !AllMissing(key, members) && (level == LEVELS || AllSame(key, members))
    ensures WalkDone(f, PutFirst(f, key, level, members[0]), members, level, key)
  {
    if level == LEVELS {
      OneHost(members);
      SameIsEquivalence(key, Has(members[0], key), None, None);
    }
    var i :| 0 <= i < |members| && key in members[i].vars;
    assert key in members[0].vars;
    var after := PutFirst(f, key, level, members[0]);
    assert members[0] in members;
    forall n, l: nat | n in members && level <= l <= LEVELS ensures RightAt(f, after, members, level, l, n, key) {
      AgreeIsAllSame(key, level, members, n);
      var k :| 0 <= k < |members| && members[k] == n;
      SameIsEquivalence(key, Has(n, key), Has(members[0], key), None);
    }
  }

  /** When the members of a file disagree, it gets nothing, and what belongs below is found below. */
  lemma {:induction false} NotHere(f: Files, after: Files, key: Key, level: nat, members: seq<Host>)
    requires level < LEVELS && members != [] && WellGrouped(members) && Together(members, level) &&
        !AllSame(key, members)
    requires PartsDone(f, after, members, level + 1, Slots(members, level + 1), key)
    ensures WalkDone(f, after, members, level, key)
  {
    forall s | !Under(members, level, s) ensures !Under(members, level + 1, s) {
    }
    forall n, l: nat | n in members && level <= l <= LEVELS ensures RightAt(f, after, members, level, l, n, key) {
      AgreeIsAllSame(key, level, members, n);
      if l == level {
        assert !Under(members, level + 1, SlotAt(level, n));
      } else {
        assert Used(members, level + 1, SlotAt(level + 1, n));
        assert RightAt(f, after, members, level + 1, l, n, key);
      }
    }
  }

  // ----- the merge gives every node its own variables back -----

  /** The files have key exactly where it belongs, and nowhere else. */
  ghost predicate Placed(f: Files, members: seq<Host>, key: Key) {
    forall n, level: nat :: n in members && level <= LEVELS ==> PlacedAt(f, members, level, n, key)
  }

  ghost predicate PlacedAt(f: Files, members: seq<Host>, level: nat, n: Host, key: Key)
    requires level <= LEVELS
  {
    if Sits(members, 0, level, n, key) then Same(key, Get(f, SlotAt(level, n), key), Has(n, key))
    else Get(f, SlotAt(level, n), key) == None
  }

  /** What Ansible gives a node: the groups' variables from the top down, then the node's own. */
  ghost function Merged(f: Files, n: Host): map<Key, Value> {
    VarsOf(f, SlotAt(0, n)) + VarsOf(f, SlotAt(1, n)) + VarsOf(f, SlotAt(2, n)) + VarsOf(f, SlotAt(3, n))
  }

  function InVars(vars: map<Key, Value>, key: Key): Option<Value> {
    if key in vars then Some(vars[key]) else None
  }

  lemma {:induction false} AgreeWithItself(members: seq<Host>, n: Host, key: Key)
    requires UniqueNames(members) && n in members
    ensures Agree(members, LEVELS, n, key)
  {
    SameIsEquivalence(key, Has(n, key), None, None);
    forall m | m in members && SlotAt(LEVELS, m) == SlotAt(LEVELS, n) ensures m == n {
      var i :| 0 <= i < |members| && members[i] == m;
      var j :| 0 <= j < |members| && members[j] == n;
    }
  }

  /** A variable a node has belongs at exactly one level. */
  lemma {:induction false} SitsOnce(members: seq<Host>, n: Host, key: Key) returns (level: nat)
    requires UniqueNames(members) && n in members && key in n.vars
    ensures level <= LEVELS && Sits(members, 0, level, n, key)
    ensures forall other: nat :: other <= LEVELS && Sits(members, 0, other, n, key) ==> other == level
  {
    AgreeWithItself(members, n, key);
    level := 0;
    while !Agree(members, level, n, key)
      invariant level <= LEVELS && forall j: nat :: j < level ==> !Agree(members, j, n, key)
      decreases LEVELS - level
    {
      level := level + 1;
    }
  }

  /** Each node gets its own value, and nothing where it had none. */
  lemma {:induction false} MergeGivesBack(f: Files, members: seq<Host>, n: Host, key: Key)
    requires UniqueNames(members) && n in members && Placed(f, members, key)
    ensures Same(key, InVars(Merged(f, n), key), Has(n, key))
  {
    assert PlacedAt(f, members, 0, n, key) && PlacedAt(f, members, 1, n, key);
    assert PlacedAt(f, members, 2, n, key) && PlacedAt(f, members, 3, n, key);
    if key in n.vars {
      var level := SitsOnce(members, n, key);
      assert level == 0 || level == 1 || level == 2 || level == 3;
    }
  }

  /** No file has the key yet. */
  ghost predicate Clean(f: Files, key: Key) {
    forall s :: Get(f, s, key) == None
  }

  lemma {:induction false} WalkPlaces(f: Files, members: seq<Host>, key: Key)
    requires members != [] && WellGrouped(members) && Clean(f, key)
    ensures Placed(Walk(f, key, 0, members), members, key)
    ensures forall s, k :: k != key ==> Get(Walk(f, key, 0, members), s, k) == Get(f, s, k)
  {
    WalkIsRight(f, key, 0, members);
    var after := Walk(f, key, 0, members);
    forall n, level: nat | n in members && level <= LEVELS ensures PlacedAt(after, members, level, n, key) {
      assert RightAt(f, after, members, 0, level, n, key);
    }
  }

  /** Every key in turn. */
  ghost function WalkAll(f: Files, keys: seq<Key>, members: seq<Host>): Files
    requires members != []
  {
    if keys == [] then f else Walk(WalkAll(f, keys[..|keys| - 1], members), keys[|keys| - 1], 0, members)
  }

  lemma {:induction false} WalkAllMore(f: Files, keys: seq<Key>, members: seq<Host>, i: nat)
    requires members != [] && i < |keys|
    ensures WalkAll(f, keys[..i + 1], members) == Walk(WalkAll(f, keys[..i], members), keys[i], 0, members)
  {
    assert keys[..i + 1][..i] == keys[..i];
  }

  ghost predicate DistinctKeys(keys: seq<Key>) {
    forall i, j :: 0 <= i < j < |keys| ==> keys[i] != keys[j]
  }

  /** Every key where it belongs, and the others as they were. */
  lemma {:induction false} WalkAllPlaces(f: Files, keys: seq<Key>, members: seq<Host>)
    requires members != [] && WellGrouped(members) && DistinctKeys(keys) && forall key :: key in keys ==> Clean(f, key)
    ensures forall key :: key in keys ==> Placed(WalkAll(f, keys, members), members, key)
    ensures forall s, k :: k !in keys ==> Get(WalkAll(f, keys, members), s, k) == Get(f, s, k)
  {
    if keys != [] {
      var init, last := keys[..|keys| - 1], keys[|keys| - 1];
      assert keys == init + [last];
      WalkAllPlaces(f, init, members);
      var before := WalkAll(f, init, members);
      assert last !in init && Clean(before, last);
      WalkPlaces(before, members, last);
      AllStay(before, Walk(before, last, 0, members), members, init, last);
    }
  }

  lemma {:induction false} PlacedStays(f: Files, after: Files, members: seq<Host>, key: Key)
    requires Placed(f, members, key) && forall s :: Get(after, s, key) == Get(f, s, key)
    ensures Placed(after, members, key)
  {
    forall n, level: nat | n in members && level <= LEVELS ensures PlacedAt(after, members, level, n, key) {
      assert PlacedAt(f, members, level, n, key);
    }
  }

  lemma {:induction false} AllStay(before: Files, after: Files, members: seq<Host>, done: seq<Key>, key: Key)
    requires key !in done && forall k :: k in done ==> Placed(before, members, k)
    requires forall s, k :: k != key ==> Get(after, s, k) == Get(before, s, k)
    ensures forall k :: k in done ==> Placed(after, members, k)
  {
    forall k | k in done ensures Placed(after, members, k) {
      PlacedStays(before, after, members, k);
    }
  }

  // ----- the files as they are written -----

  ghost predicate PartOf(slots: seq<Slot>, parts: map<Slot, seq<Host>>, seen: seq<Host>, level: nat, s: Slot)
    requires level <= LEVELS
  {
    (s in parts <==> s in slots) && (s in parts ==> parts[s] == Part(seen, level, s))
  }

  ghost predicate Partitioned(slots: seq<Slot>, parts: map<Slot, seq<Host>>, seen: seq<Host>, level: nat)
    requires level <= LEVELS
  {
    slots == Slots(seen, level) && forall s :: PartOf(slots, parts, seen, level, s)
  }

  lemma {:induction false} PartMore(seen: seq<Host>, n: Host, level: nat, s: Slot)
    requires level <= LEVELS
    ensures Part(seen + [n], level, s) == Part(seen, level, s) + if SlotAt(level, n) == s then [n] else []
    ensures !Used(seen, level, s) ==> Part(seen, level, s) == []
  {
    assert (seen + [n])[..|seen|] == seen;
    if Part(seen, level, s) != [] {
      assert Part(seen, level, s)[0] in Part(seen, level, s);
    }
  }

  function AddTo(parts: map<Slot, seq<Host>>, s: Slot, n: Host): map<Slot, seq<Host>> {
    parts[s := (if s in parts then parts[s] else []) + [n]]
  }

  function AddSlot(slots: seq<Slot>, parts: map<Slot, seq<Host>>, s: Slot): seq<Slot> {
    if s in parts then slots else slots + [s]
  }

  lemma {:induction false} PartOfMore(slots: seq<Slot>, parts: map<Slot, seq<Host>>, seen: seq<Host>, level: nat,
        n: Host, s: Slot)
    requires level <= LEVELS && slots == Slots(seen, level)
    requires PartOf(slots, parts, seen, level, s) && PartOf(slots, parts, seen, level, SlotAt(level, n))
    ensures PartOf(AddSlot(slots, parts, SlotAt(level, n)), AddTo(parts, SlotAt(level, n), n), seen + [n], level, s)
  {
    PartMore(seen, n, level, s);
  }

  lemma {:induction false} PartitionedMore(slots: seq<Slot>, parts: map<Slot, seq<Host>>, seen: seq<Host>, level: nat,
        n: Host)
    requires level <= LEVELS && Partitioned(slots, parts, seen, level)
    ensures Partitioned(AddSlot(slots, parts, SlotAt(level, n)), AddTo(parts, SlotAt(level, n), n), seen + [n], level)
  {
    assert (seen + [n])[..|seen|] == seen;
    assert PartOf(slots, parts, seen, level, SlotAt(level, n));
    assert AddSlot(slots, parts, SlotAt(level, n)) == Slots(seen + [n], level);
    forall s ensures PartOf(AddSlot(slots, parts, SlotAt(level, n)), AddTo(parts, SlotAt(level, n), n), seen + [n],
        level, s) {
      PartOfMore(slots, parts, seen, level, n, s);
    }
  }

  /** The members by the file of a level, in the order the files first appear. */
  method Partition(members: seq<Host>, level: nat) returns (slots: seq<Slot>, parts: map<Slot, seq<Host>>)
    requires level <= LEVELS
    ensures Partitioned(slots, parts, members, level)
  {
    slots, parts := [], map[];
    var i := 0;
    while i < |members|
      invariant 0 <= i <= |members| && Partitioned(slots, parts, members[..i], level)
    {
      assert members[..i + 1] == members[..i] + [members[i]];
      var s := SlotAt(level, members[i]);
      PartitionedMore(slots, parts, members[..i], level, members[i]);
      slots, parts := AddSlot(slots, parts, s), AddTo(parts, s, members[i]);
      i := i + 1;
    }
    assert members[..i] == members;
  }

  lemma {:induction false} WalkPartsStep(f: Files, key: Key, level: nat, members: seq<Host>, slots: seq<Slot>, i: nat)
    requires level < LEVELS && i < |slots| && forall k :: 0 <= k < |slots| ==> Used(members, level + 1, slots[k])
    ensures Part(members, level + 1, slots[i]) != []
    ensures WalkParts(f, key, level, members, slots[i..]) ==
            WalkParts(Walk(f, key, level + 1, Part(members, level + 1, slots[i])), key, level, members, slots[i + 1..])
  {
    PartUsed(members, level + 1, slots[i]);
    assert slots[i..][0] == slots[i] && slots[i..][1..] == slots[i + 1..];
  }

  lemma {:induction false} AllUsed(slots: seq<Slot>, parts: map<Slot, seq<Host>>, members: seq<Host>, level: nat)
    requires level <= LEVELS && Partitioned(slots, parts, members, level)
    ensures forall i :: 0 <= i < |slots| ==>
        Used(members, level, slots[i]) && slots[i] in parts && parts[slots[i]] == Part(members, level, slots[i])
  {
    forall i | 0 <= i < |slots|
      ensures Used(members, level, slots[i]) && slots[i] in parts && parts[slots[i]] == Part(members, level, slots[i])
    {
      assert slots[i] in slots;
      assert PartOf(slots, parts, members, level, slots[i]);
    }
  }

  /** The keys that are not the same on all the nodes. */
  ghost predicate IsDrift(drift: seq<Key>, keys: seq<Key>, members: seq<Host>)
    requires members != []
  {
    forall key :: key in drift <==> key in keys && !AllMissing(key, members) && !AllSame(key, members)
  }

  lemma {:induction false} DriftMore(drift: seq<Key>, keys: seq<Key>, members: seq<Host>, i: nat, top: bool)
    requires members != [] && i < |keys| && IsDrift(drift, keys[..i], members)
    requires top <==> AllMissing(keys[i], members) || AllSame(keys[i], members)
    ensures IsDrift(if top then drift else drift + [keys[i]], keys[..i + 1], members)
  {
    assert keys[..i + 1] == keys[..i] + [keys[i]];
  }

  /** The variables of the groups and of the hosts, filled in key by key. */
  class Layout {
    var groupVars: map<Group, map<Key, Value>>
    var hostVars: map<Name, map<Key, Value>>

    ghost function Contents(): Files
      reads this
    {
      Files(groupVars, hostVars)
    }

    constructor ()
      ensures groupVars == map[] && hostVars == map[]
    {
      groupVars, hostVars := map[], map[];
    }

    /** Sets a variable in a group's file or a host's. */
    method SetVar(s: Slot, key: Key, value: Value)
      modifies this
      ensures Contents() == Put(old(Contents()), s, key, value)
    {
      match s
      case InGroup(g) =>
        groupVars := groupVars[g := (if g in groupVars then groupVars[g] else map[])[key := value]];
      case OnHost(n) =>
        hostVars := hostVars[n := (if n in hostVars then hostVars[n] else map[])[key := value]];
    }

    /** Puts key at the highest levels where the members agree, from a level down;
        says whether that is the cluster, for all of them. */
    method WalkDown(key: Key, level: nat, members: seq<Host>) returns (top: bool)
      requires level <= LEVELS && members != []
      modifies this
      ensures Contents() == Walk(old(Contents()), key, level, members)
      ensures top <==> level == 0 && (AllMissing(key, members) || AllSame(key, members))
      decreases LEVELS - level, 1
    {
      if AllMissing(key, members) { return level == 0; }
      if level == LEVELS || AllSame(key, members) {
        if key in members[0].vars { SetVar(SlotAt(level, members[0]), key, members[0].vars[key]); }
        return level == 0;
      }
      var slots, parts := Partition(members, level + 1);
      AllUsed(slots, parts, members, level + 1);
      WalkEach(key, level, members, slots, parts);
      return false;
    }

    method WalkEach(key: Key, level: nat, members: seq<Host>, slots: seq<Slot>, parts: map<Slot, seq<Host>>)
      requires level < LEVELS && forall i :: 0 <= i < |slots| ==>
                 Used(members, level + 1, slots[i]) && slots[i] in parts &&
                     parts[slots[i]] == Part(members, level + 1, slots[i])
      modifies this
      ensures Contents() == WalkParts(old(Contents()), key, level, members, slots)
      decreases LEVELS - level, 0
    {
      var i := 0;
      while i < |slots|
        invariant 0 <= i <= |slots|
        invariant WalkParts(Contents(), key, level, members, slots[i..]) ==
            WalkParts(old(Contents()), key, level, members, slots)
      {
        WalkPartsStep(Contents(), key, level, members, slots, i);
        var here := WalkDown(key, level + 1, parts[slots[i]]);
        i := i + 1;
      }
    }

    /** Every key in turn. Returns those not the same on all the nodes. */
    method PlaceAll(keys: seq<Key>, members: seq<Host>) returns (drift: seq<Key>)
      requires members != []
      modifies this
      ensures Contents() == WalkAll(old(Contents()), keys, members)
      ensures IsDrift(drift, keys, members)
    {
      drift := [];
      var i := 0;
      while i < |keys|
        invariant 0 <= i <= |keys| && Contents() == WalkAll(old(Contents()), keys[..i], members)
        invariant IsDrift(drift, keys[..i], members)
      {
        WalkAllMore(old(Contents()), keys, members, i);
        var top := WalkDown(keys[i], 0, members);
        DriftMore(drift, keys, members, i, top);
        if !top { drift := drift + [keys[i]]; }
        i := i + 1;
      }
      assert keys[..i] == keys;
    }

    /** The variables of one node: its groups' from the top down, then its own. */
    method HostVars(chain: seq<Group>, name: Name) returns (out: map<Key, Value>)
      ensures out == Updates(map[], Contents(), chain) + VarsOf(Contents(), OnHost(name))
    {
      out := map[];
      var i := 0;
      while i < |chain|
        invariant 0 <= i <= |chain| && out == Updates(map[], Contents(), chain[..i])
      {
        assert chain[..i + 1][..i] == chain[..i];
        out := out + if chain[i] in groupVars then groupVars[chain[i]] else map[];
        i := i + 1;
      }
      assert chain[..i] == chain;
      out := out + if name in hostVars then hostVars[name] else map[];
    }
  }

  /** Successive updates by the variables of some groups. */
  ghost function Updates(vars: map<Key, Value>, f: Files, chain: seq<Group>): map<Key, Value> {
    if chain == [] then vars
    else Updates(vars, f, chain[..|chain| - 1]) + VarsOf(f, InGroup(chain[|chain| - 1]))
  }

  /** The groups of a node, from the top down. */
  function Path(n: Host): seq<Group> {
    [n.clusterGroup, n.dcGroup, n.rackGroup]
  }

  lemma {:induction false} PathMerges(f: Files, n: Host)
    ensures Updates(map[], f, Path(n)) + VarsOf(f, OnHost(n.name)) == Merged(f, n)
  {
    var path := Path(n);
    assert path[..2] == [n.clusterGroup, n.dcGroup] && path[..2][..1] == [n.clusterGroup] && path[..2][..1][..0] == [];
    assert Updates(map[], f, path[..2][..1]) == VarsOf(f, InGroup(n.clusterGroup));
    assert Updates(map[], f, path[..2]) == VarsOf(f, InGroup(n.clusterGroup)) + VarsOf(f, InGroup(n.dcGroup));
  }

  // ----- the groups of a host in the hosts file -----

  datatype Tree = Tree(hosts: set<Name>, children: seq<Child>)
  datatype Child = Child(group: Group, tree: Tree)

  /** The groups from the top down to the first one holding the host, None if none does. */
  function GroupsOf(t: Tree, name: Name, chain: seq<Group>): Option<seq<Group>>
    decreases t, |t.children| + 1
  {
    if name in t.hosts then Some(chain) else InChildren(t, 0, name, chain)
  }

  function InChildren(t: Tree, i: nat, name: Name, chain: seq<Group>): Option<seq<Group>>
    requires i <= |t.children|
    decreases t, |t.children| - i
  {
    if i == |t.children| then None
    else
      var found := GroupsOf(t.children[i].tree, name, chain + [t.children[i].group]);
      if found.Some? then found else InChildren(t, i + 1, name, chain)
  }

  /** The host is in the group at the end of the chain. */
  ghost predicate Holds(t: Tree, chain: seq<Group>, name: Name)
    decreases |chain|
  {
    if chain == [] then name in t.hosts
    else exists i ::
        0 <= i < |t.children| && t.children[i].group == chain[0] && Holds(t.children[i].tree, chain[1..], name)
  }

  lemma {:induction false} FoundIsHeld(t: Tree, name: Name, chain: seq<Group>) returns (rest: seq<Group>)
    requires GroupsOf(t, name, chain).Some?
    ensures GroupsOf(t, name, chain) == Some(chain + rest) && Holds(t, rest, name)
    decreases t, |t.children| + 1
  {
    if name in t.hosts {
      rest := [];
      assert chain + [] == chain;
    } else {
      rest := FoundBelow(t, 0, name, chain);
    }
  }

  lemma {:induction false} FoundBelow(t: Tree, i: nat, name: Name, chain: seq<Group>) returns (rest: seq<Group>)
    requires i <= |t.children| && InChildren(t, i, name, chain).Some?
    ensures InChildren(t, i, name, chain) == Some(chain + rest) && Holds(t, rest, name)
    decreases t, |t.children| - i
  {
    var child := t.children[i];
    if GroupsOf(child.tree, name, chain + [child.group]).Some? {
      var below := FoundIsHeld(child.tree, name, chain + [child.group]);
      rest := [child.group] + below;
      assert rest[1..] == below;
      assert chain + [child.group] + below == chain + rest;
    } else {
      rest := FoundBelow(t, i + 1, name, chain);
    }
  }

  lemma {:induction false} HeldIsFound(t: Tree, name: Name, chain: seq<Group>, held: seq<Group>)
    requires Holds(t, held, name)
    ensures GroupsOf(t, name, chain).Some?
    decreases |held|
  {
    if held != [] {
      var i :| 0 <= i < |t.children| && t.children[i].group == held[0] && Holds(t.children[i].tree, held[1..], name);
      HeldIsFound(t.children[i].tree, name, chain + [t.children[i].group], held[1..]);
      FoundFrom(t, 0, i, name, chain);
    }
  }

  lemma {:induction false} FoundFrom(t: Tree, i: nat, k: nat, name: Name, chain: seq<Group>)
    requires i <= k < |t.children| && GroupsOf(t.children[k].tree, name, chain + [t.children[k].group]).Some?
    ensures InChildren(t, i, name, chain).Some?
    decreases k - i
  {
    if i < k { FoundFrom(t, i + 1, k, name, chain); }
  }

  // ----- the hosts file -----

  /** The host put under the group a path leads to; groups on the way are made. */
  function AddHost(t: Tree, path: seq<Group>, name: Name): Tree
    decreases |path|, 1, 0
  {
    if path == [] then Tree(t.hosts + {name}, t.children) else Tree(t.hosts, AddBelow(t.children, path, name))
  }

  function AddBelow(children: seq<Child>, path: seq<Group>, name: Name): seq<Child>
    requires path != []
    decreases |path|, 0, |children|
  {
    if children == [] then [Child(path[0], AddHost(Tree({}, []), path[1..], name))]
    else if children[0].group == path[0] then
        [Child(path[0], AddHost(children[0].tree, path[1..], name))] + children[1..]
    else [children[0]] + AddBelow(children[1..], path, name)
  }

  ghost predicate HoldsBelow(children: seq<Child>, chain: seq<Group>, name: Name)
    requires chain != []
  {
    exists i :: 0 <= i < |children| && children[i].group == chain[0] && Holds(children[i].tree, chain[1..], name)
  }

  lemma {:induction false} HoldsBelowFirst(child: Child, rest: seq<Child>, chain: seq<Group>, name: Name)
    requires chain != []
    ensures HoldsBelow([child] + rest, chain, name) <==>
            (child.group == chain[0] && Holds(child.tree, chain[1..], name)) || HoldsBelow(rest, chain, name)
  {
    var all := [child] + rest;
    if child.group == chain[0] && Holds(child.tree, chain[1..], name) { assert all[0] == child; }
    if i :| 0 <= i < |rest| && rest[i].group == chain[0] && Holds(rest[i].tree, chain[1..], name) {
      assert all[i + 1] == rest[i];
    }
    if i :| 0 <= i < |all| && all[i].group == chain[0] && Holds(all[i].tree, chain[1..], name) {
      if i > 0 { assert rest[i - 1] == all[i]; }
    }
  }

  /** A host added is under its path's group, and the others are where they were. */
  lemma {:induction false} AddedHolds(t: Tree, path: seq<Group>, name: Name, chain: seq<Group>, host: Name)
    ensures Holds(AddHost(t, path, name), chain, host) <==> Holds(t, chain, host) || (chain == path && host == name)
    decreases |path|, 1, 0
  {
    if path != [] && chain != [] {
      AddedHoldsBelow(t.children, path, name, chain, host);
      assert Holds(AddHost(t, path, name), chain, host) <==> HoldsBelow(AddBelow(t.children, path, name), chain, host);
      assert Holds(t, chain, host) <==> HoldsBelow(t.children, chain, host);
    }
  }

  lemma {:induction false} AddedHoldsBelow(children: seq<Child>, path: seq<Group>, name: Name, chain: seq<Group>,
        host: Name)
    requires path != [] && chain != []
    ensures HoldsBelow(AddBelow(children, path, name), chain, host) <==>
            HoldsBelow(children, chain, host) || (chain == path && host == name)
    decreases |path|, 0, |children|
  {
    assert chain == path <==> chain[0] == path[0] && chain[1..] == path[1..] by {
      assert chain == [chain[0]] + chain[1..] && path == [path[0]] + path[1..];
    }
    if children == [] {
      var child := Child(path[0], AddHost(Tree({}, []), path[1..], name));
      AddedHolds(Tree({}, []), path[1..], name, chain[1..], host);
      NothingHeld(chain[1..], host);
      HoldsBelowFirst(child, [], chain, host);
      assert [child] + [] == [child];
    } else {
      assert children == [children[0]] + children[1..];
      HoldsBelowFirst(children[0], children[1..], chain, host);
      if children[0].group == path[0] {
        AddedHolds(children[0].tree, path[1..], name, chain[1..], host);
        HoldsBelowFirst(Child(path[0], AddHost(children[0].tree, path[1..], name)), children[1..], chain, host);
      } else {
        AddedHoldsBelow(children[1..], path, name, chain, host);
        HoldsBelowFirst(children[0], AddBelow(children[1..], path, name), chain, host);
      }
    }
  }

  lemma {:induction false} NothingHeld(chain: seq<Group>, host: Name)
    ensures !Holds(Tree({}, []), chain, host)
  {
  }

  /** The hosts file of some nodes: each under its cluster's, its datacenter's and its rack's group. */
  function HostsFile(nodes: seq<Host>): Tree {
    if nodes == [] then Tree({}, [])
    else
      var last := nodes[|nodes| - 1];
      AddHost(HostsFile(nodes[..|nodes| - 1]), Path(last), last.name)
  }

  lemma {:induction false} HostsFileHolds(nodes: seq<Host>, chain: seq<Group>, name: Name)
    ensures Holds(HostsFile(nodes), chain, name) <==>
        exists i :: 0 <= i < |nodes| && nodes[i].name == name && Path(nodes[i]) == chain
  {
    if nodes == [] {
      NothingHeld(chain, name);
    } else {
      var init, last := nodes[..|nodes| - 1], nodes[|nodes| - 1];
      HostsFileHolds(init, chain, name);
      AddedHolds(HostsFile(init), Path(last), last.name, chain, name);
      if i :| 0 <= i < |init| && init[i].name == name && Path(init[i]) == chain { assert nodes[i] == init[i]; }
    }
  }

  /** The host is under one path of groups only. */
  ghost predicate Listed(all: Tree, n: Host) {
    forall chain :: Holds(all, chain, n.name) <==> chain == Path(n)
  }

  /** The hosts file lists every node once, under its rack's group. */
  lemma {:induction false} HostsFileLists(nodes: seq<Host>, n: Host)
    requires UniqueNames(nodes) && n in nodes
    ensures Listed(HostsFile(nodes), n)
  {
    forall chain ensures Holds(HostsFile(nodes), chain, n.name) <==> chain == Path(n) {
      HostsFileHolds(nodes, chain, n.name);
      if i :| 0 <= i < |nodes| && nodes[i].name == n.name && Path(nodes[i]) == chain { OneName(nodes, nodes[i], n); }
      if chain == Path(n) {
        var i :| 0 <= i < |nodes| && nodes[i] == n;
      }
    }
  }

  /** What a host gets back from the files: its groups' variables down its path, then its own. */
  ghost function ReadBack(f: Files, all: Tree, name: Name): map<Key, Value> {
    match GroupsOf(all, name, [])
    case Some(chain) => Updates(map[], f, chain) + VarsOf(f, OnHost(name))
    case None => map[]
  }

  /** A node listed once gets what its cluster, its datacenter, its rack and itself have. */
  lemma {:induction false} ReadBackMerges(f: Files, all: Tree, n: Host)
    requires Listed(all, n)
    ensures GroupsOf(all, n.name, []) == Some(Path(n)) && ReadBack(f, all, n.name) == Merged(f, n)
  {
    assert Holds(all, Path(n), n.name);
    HeldIsFound(all, n.name, [], Path(n));
    var found := FoundIsHeld(all, n.name, []);
    assert [] + found == found;
    PathMerges(f, n);
  }

  /** No variable but these. */
  ghost predicate Only(f: Files, keys: set<Key>) {
    forall s, k :: k !in keys ==> Get(f, s, k) == None
  }

  /** Factored into the levels and merged back through the hosts file, every node has
      exactly the variables it had, each with its value, beside those fixed for its groups. */
  lemma {:induction false} EveryNodeItsOwn(f: Files, members: seq<Host>, keys: seq<Key>, fixed: set<Key>, all: Tree,
        n: Host)
    requires UniqueNames(members) && n in members && Listed(all, n)
    requires (forall key :: key in keys ==> Placed(f, members, key)) && Only(f, (set key | key in keys) + fixed)
    ensures forall key :: key in keys ==> Same(key, InVars(ReadBack(f, all, n.name), key), Has(n, key))
    ensures forall key :: key !in keys && key !in fixed ==> key !in ReadBack(f, all, n.name)
  {
    ReadBackMerges(f, all, n);
    forall key ensures if key in keys then Same(key, InVars(Merged(f, n), key), Has(n, key))
        else key in fixed || key !in Merged(f, n) {
      if key in keys {
        MergeGivesBack(f, members, n, key);
      } else if key !in fixed {
        assert Get(f, SlotAt(0, n), key) == None && Get(f, SlotAt(1, n), key) == None;
        assert Get(f, SlotAt(2, n), key) == None && Get(f, SlotAt(3, n), key) == None;
      }
    }
  }
}
