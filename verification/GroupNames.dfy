/** The names of the inventory's groups, and for which names every node gets its own
    variables back. */
module GroupNames {
  import opened Options
  import opened Inventory

  // ----- slugs -----

  function Lower(c: char): char {
    if 'A' <= c <= 'Z' then (c as int - 'A' as int + 'a' as int) as char else c
  }

  predicate IsDigit(c: char) {
    '0' <= c <= '9'
  }

  /** A letter or a digit, as it is kept in a name. */
  predicate Kept(c: char) {
    'a' <= c <= 'z' || IsDigit(c)
  }

  /** In lower case, each run of other characters as one underscore. */
  function Squeezed(text: string): string {
    if text == "" then ""
    else
      var before, c := Squeezed(text[..|text| - 1]), Lower(text[|text| - 1]);
      if Kept(c) then before + [c]
      else if before != "" && before[|before| - 1] == '_' then before
      else before + "_"
  }

  function StripLeft(s: string): string {
    if s != "" && s[0] == '_' then StripLeft(s[1..]) else s
  }

  function StripRight(s: string): string {
    if s != "" && s[|s| - 1] == '_' then StripRight(s[..|s| - 1]) else s
  }

  /** A name as it is written in group names. */
  function Slug(text: string): string {
    var stripped := StripRight(StripLeft(Squeezed(text)));
    var s := if stripped == "" then "x" else stripped;
    if IsDigit(s[0]) then "c_" + s else s
  }

  ghost predicate Plainly(s: string) {
    forall i :: 0 <= i < |s| ==> Kept(s[i]) || s[i] == '_'
  }

  lemma {:induction false} SqueezedPlain(text: string)
    ensures Plainly(Squeezed(text))
  {
    if text != "" { SqueezedPlain(text[..|text| - 1]); }
  }

  lemma {:induction false} StripLeftPlain(s: string)
    requires Plainly(s)
    ensures Plainly(StripLeft(s)) && (StripLeft(s) != "" ==> StripLeft(s)[0] != '_')
  {
    if s != "" && s[0] == '_' { StripLeftPlain(s[1..]); }
  }

  lemma {:induction false} StripRightPlain(s: string)
    requires Plainly(s) && (s != "" ==> s[0] != '_')
    ensures var r := StripRight(s); Plainly(r) && (r != "" ==> r[0] != '_' && r[|r| - 1] != '_')
  {
    if s != "" && s[|s| - 1] == '_' { StripRightPlain(s[..|s| - 1]); }
  }

  /** A slug is a name of letters, digits and underscores that starts with a letter and
      does not end with an underscore, whatever the text. */
  lemma {:induction false} SlugIsName(text: string)
    ensures var s := Slug(text); s != "" && 'a' <= s[0] <= 'z' && s[|s| - 1] != '_' && Plainly(s)
  {
    SqueezedPlain(text);
    StripLeftPlain(Squeezed(text));
    StripRightPlain(StripLeft(Squeezed(text)));
  }

  // ----- the groups -----

  /** A node of the ring, before its variables: its name, its datacenter and rack as group
      names write them and as the ring does. */
  datatype Site = Site(name: Name, dcName: string, rackName: string, dc: string, rack: string)

  /** A node as the layout reads it. */
  function SiteAt(name: Name, dc: string, rack: string): Site {
    Site(name, Slug(dc), Slug(rack), dc, rack)
  }

  function Joined(a: string, b: string): string {
    a + "_" + b
  }

  /** A datacenter's and a rack's name, as one. */
  function RackName(s: Site): string {
    Joined(s.dcName, s.rackName)
  }

  /** The node with its groups, named by its cluster's, its datacenter's and its rack's slugs. */
  function HostOf(cluster: string, s: Site, vars: map<Key, Value>): Host {
    var dcGroup := Joined(cluster, s.dcName);
    Host(s.name, cluster, dcGroup, Joined(dcGroup, s.rackName), vars)
  }

  lemma {:induction false} JoinedSame(c: string, x: string, y: string)
    ensures Joined(c, x) == Joined(c, y) <==> x == y
    ensures Joined(c, x) != c
  {
    assert Joined(c, x)[|c| + 1..] == x && Joined(c, y)[|c| + 1..] == y;
    assert |Joined(c, x)| > |c|;
  }

  lemma {:induction false} GroupIs(cluster: string, s: Site, vars: map<Key, Value>)
    ensures HostOf(cluster, s, vars).rackGroup == Joined(cluster, RackName(s))
  {
    var dc, rack := s.dcName, s.rackName;
    assert cluster + "_" + dc + "_" + rack == cluster + "_" + (dc + "_" + rack);
  }

  /** Two groups have one name exactly when the names joined in them are the same. */
  lemma {:induction false} GroupsSame(cluster: string, s: Site, t: Site, v: map<Key, Value>, w: map<Key, Value>)
    ensures var m, n := HostOf(cluster, s, v), HostOf(cluster, t, w);
            && (m.dcGroup == n.dcGroup <==> s.dcName == t.dcName)
            && (m.rackGroup == n.rackGroup <==> RackName(s) == RackName(t))
            && (m.dcGroup == n.rackGroup <==> s.dcName == RackName(t))
            && m.dcGroup != cluster && m.rackGroup != cluster
  {
    GroupIs(cluster, s, v);
    GroupIs(cluster, t, w);
    JoinedSame(cluster, s.dcName, t.dcName);
    JoinedSame(cluster, RackName(s), RackName(t));
    JoinedSame(cluster, s.dcName, RackName(t));
  }

  ghost predicate DistinctSites(sites: seq<Site>) {
    forall i, j :: 0 <= i < j < |sites| ==> sites[i].name != sites[j].name
  }

  /** The datacenter of s has one rack. */
  ghost predicate OneRackName(sites: seq<Site>, s: Site) {
    forall o :: o in sites && o.dcName == s.dcName ==> RackName(o) == RackName(s)
  }

  /** No datacenter is named like another's rack, and datacenters with a rack of one
      joined name have that rack only. */
  ghost predicate NamesApart(sites: seq<Site>) {
    && (forall s, t :: s in sites && t in sites ==> s.dcName != RackName(t))
    && forall s, t :: s in sites && t in sites && RackName(s) == RackName(t) && s.dcName != t.dcName ==>
         OneRackName(sites, s) && OneRackName(sites, t)
  }

  // ----- the files -----

  const CASSANDRA_DC: Key := 1
  const CASSANDRA_RACK: Key := 2

  /** Variables fixed for the groups before any other is placed. */
  const FIXED: set<Key> := {CASSANDRA_DC, CASSANDRA_RACK}

  /** The group files at the start: each datacenter's and each rack's own name. */
  function StartFiles(cluster: string, sites: seq<Site>): Files {
    if sites == [] then Files(map[], map[])
    else
      var last := sites[|sites| - 1];
      var n := HostOf(cluster, last, map[]);
      var f := Put(StartFiles(cluster, sites[..|sites| - 1]), InGroup(n.dcGroup), CASSANDRA_DC, Plain(last.dc));
      Put(f, InGroup(n.rackGroup), CASSANDRA_RACK, Plain(last.rack))
  }

  lemma {:induction false} StartFixed(cluster: string, sites: seq<Site>)
    ensures Only(StartFiles(cluster, sites), FIXED)
  {
    if sites != [] { StartFixed(cluster, sites[..|sites| - 1]); }
  }

  function Bare(cluster: string, sites: seq<Site>): (r: seq<Host>)
    ensures |r| == |sites| && forall i :: 0 <= i < |sites| ==> r[i] == HostOf(cluster, sites[i], map[])
  {
    seq(|sites|, i requires 0 <= i < |sites| => HostOf(cluster, sites[i], map[]))
  }

  /** The hosts file. */
  function Hosts(cluster: string, sites: seq<Site>): Tree {
    HostsFile(Bare(cluster, sites))
  }

  lemma {:induction false} HostIsListed(cluster: string, sites: seq<Site>, s: Site, vars: map<Key, Value>)
    requires DistinctSites(sites) && s in sites
    ensures Listed(Hosts(cluster, sites), HostOf(cluster, s, vars))
  {
    var bare := Bare(cluster, sites);
    var i :| 0 <= i < |sites| && sites[i] == s;
    assert bare[i] in bare && UniqueNames(bare);
    HostsFileLists(bare, bare[i]);
  }

  // ----- the round trip -----

  /** The nodes read, each with some variables. */
  ghost predicate Assigned(members: seq<Host>, cluster: string, read: seq<Site>) {
    |members| == |read| && forall i :: 0 <= i < |read| ==> members[i] == HostOf(cluster, read[i], members[i].vars)
  }

  ghost predicate SomeHas(members: seq<Host>, key: Key) {
    exists n :: n in members && key in n.vars
  }

  /** The variables to place, each once. */
  ghost predicate KeysOf(keys: seq<Key>, members: seq<Host>) {
    DistinctKeys(keys) && forall key :: key in keys <==> key !in FIXED && SomeHas(members, key)
  }

  ghost function FilesOf(cluster: string, sites: seq<Site>, keys: seq<Key>, members: seq<Host>): Files {
    if members == [] then StartFiles(cluster, sites) else WalkAll(StartFiles(cluster, sites), keys, members)
  }

  /** Every node read gets exactly its variables back, beside those fixed for its groups. */
  ghost predicate GivenBack(cluster: string, sites: seq<Site>, keys: seq<Key>, members: seq<Host>) {
    forall n, key :: n in members && key !in FIXED ==>
      Same(key, InVars(ReadBack(FilesOf(cluster, sites, keys, members), Hosts(cluster, sites), n.name), key),
          Has(n, key))
  }

  /** Whatever the variables. */
  ghost predicate RoundTrips(cluster: string, sites: seq<Site>, read: seq<Site>) {
    forall members, keys :: Assigned(members, cluster, read) && KeysOf(keys, members) ==>
        GivenBack(cluster, sites, keys, members)
  }

  /** Nodes read are nodes of the ring. */
  ghost predicate ReadOf(read: seq<Site>, sites: seq<Site>) {
    DistinctSites(sites) && DistinctSites(read) && forall s :: s in read ==> s in sites
  }

  lemma {:induction false} SiteOf(members: seq<Host>, cluster: string, read: seq<Site>, n: Host) returns (s: Site)
    requires Assigned(members, cluster, read) && n in members
    ensures s in read && n == HostOf(cluster, s, n.vars)
  {
    var i :| 0 <= i < |members| && members[i] == n;
    s := read[i];
  }

  lemma {:induction false} ApartIsNested(members: seq<Host>, cluster: string, read: seq<Site>)
    requires Assigned(members, cluster, read) && NamesApart(read)
    ensures Nested(members)
  {
    forall m, n | m in members && n in members && SlotAt(2, m) == SlotAt(2, n) && SlotAt(1, m) != SlotAt(1, n)
      ensures OneRack(members, m) && OneRack(members, n)
    {
      var s := SiteOf(members, cluster, read, m);
      var t := SiteOf(members, cluster, read, n);
      GroupsSame(cluster, s, t, m.vars, n.vars);
      OneRackNamed(members, cluster, read, s, m);
      OneRackNamed(members, cluster, read, t, n);
    }
  }

  lemma {:induction false} ApartAtLevels(members: seq<Host>, cluster: string, read: seq<Site>)
    requires Assigned(members, cluster, read) && NamesApart(read)
    ensures LevelsApart(members) && Together(members, 0)
  {
    forall m, n | m in members && n in members
      ensures SlotAt(0, m) == SlotAt(0, n) && forall i: nat, j: nat :: i < j <= LEVELS ==> SlotAt(i, m) != SlotAt(j, n)
    {
      var s := SiteOf(members, cluster, read, m);
      var t := SiteOf(members, cluster, read, n);
      GroupsSame(cluster, s, t, m.vars, n.vars);
      GroupsSame(cluster, t, s, n.vars, m.vars);
      SlotsDiffer(m, n);
    }
  }

  lemma {:induction false} SlotsDiffer(m: Host, n: Host)
    requires m.clusterGroup == n.clusterGroup && m.dcGroup != n.rackGroup
    requires n.dcGroup != m.clusterGroup && n.rackGroup != m.clusterGroup
    ensures forall i: nat, j: nat :: i < j <= LEVELS ==> SlotAt(i, m) != SlotAt(j, n)
  {
  }

  /** With names apart, the groups let every value be read back. */
  lemma {:induction false} ApartIsGrouped(members: seq<Host>, cluster: string, read: seq<Site>)
    requires Assigned(members, cluster, read) && DistinctSites(read) && NamesApart(read)
    ensures WellGrouped(members)
  {
    ApartIsNested(members, cluster, read);
    ApartAtLevels(members, cluster, read);
  }

  lemma {:induction false} OneRackNamed(members: seq<Host>, cluster: string, read: seq<Site>, s: Site, m: Host)
    requires Assigned(members, cluster, read) && s in read && OneRackName(read, s) && m == HostOf(cluster, s, m.vars)
    ensures OneRack(members, m)
  {
    forall o | o in members && SlotAt(1, o) == SlotAt(1, m) ensures SlotAt(2, o) == SlotAt(2, m) {
      var t := SiteOf(members, cluster, read, o);
      GroupsSame(cluster, t, s, o.vars, m.vars);
    }
  }

  /** Every variable is where it belongs, and those fixed for the groups as they were. */
  lemma {:induction false} ApartPlaces(cluster: string, sites: seq<Site>, read: seq<Site>, members: seq<Host>,
        keys: seq<Key>)
    requires DistinctSites(read) && NamesApart(read) && Assigned(members, cluster, read) && KeysOf(keys, members)
    requires members != []
    ensures var f := FilesOf(cluster, sites, keys, members);
            && (forall key :: key in keys ==> Placed(f, members, key))
            && Only(f, (set key | key in keys) + FIXED)
            && forall s, key :: key in FIXED ==> Get(f, s, key) == Get(StartFiles(cluster, sites), s, key)
  {
    ApartIsGrouped(members, cluster, read);
    StartFixed(cluster, sites);
    WalkAllPlaces(StartFiles(cluster, sites), keys, members);
  }

  lemma {:induction false} ApartRoundTrips(cluster: string, sites: seq<Site>, read: seq<Site>, members: seq<Host>,
        keys: seq<Key>)
    requires ReadOf(read, sites) && NamesApart(read) && Assigned(members, cluster, read) && KeysOf(keys, members)
    ensures GivenBack(cluster, sites, keys, members)
  {
    var f := FilesOf(cluster, sites, keys, members);
    if members != [] { ApartPlaces(cluster, sites, read, members, keys); }
    forall n, key | n in members && key !in FIXED
      ensures Same(key, InVars(ReadBack(f, Hosts(cluster, sites), n.name), key), Has(n, key))
    {
      var s := SiteOf(members, cluster, read, n);
      HostIsListed(cluster, sites, s, n.vars);
      EveryNodeItsOwn(f, members, keys, FIXED, Hosts(cluster, sites), n);
    }
  }

  // ----- names that clash -----

  lemma {:induction false} WalkNone(f: Files, key: Key, level: nat, members: seq<Host>, slots: seq<Slot>)
    requires level < LEVELS && forall i :: 0 <= i < |slots| ==> Used(members, level + 1, slots[i])
    requires forall i :: 0 <= i < |slots| ==> AllMissing(key, Part(members, level + 1, slots[i]))
    ensures WalkParts(f, key, level, members, slots) == f
  {
    if slots != [] {
      PartUsed(members, level + 1, slots[0]);
      WalkNone(f, key, level, members, slots[1..]);
    }
  }

  /** When one part only has the variable, the walk goes on with it. */
  lemma {:induction false} WalkOne(f: Files, key: Key, level: nat, members: seq<Host>, slots: seq<Slot>, s: Slot)
    requires level < LEVELS && forall i :: 0 <= i < |slots| ==> Used(members, level + 1, slots[i])
    requires forall i, j :: 0 <= i < j < |slots| ==> slots[i] != slots[j]
    requires s in slots
    requires forall i :: 0 <= i < |slots| && slots[i] != s ==> AllMissing(key, Part(members, level + 1, slots[i]))
    ensures Part(members, level + 1, s) != []
    ensures WalkParts(f, key, level, members, slots) == Walk(f, key, level + 1, Part(members, level + 1, s))
  {
    WalkFirst(f, key, level, members, slots);
    assert slots == [slots[0]] + slots[1..];
    if slots[0] == s {
      var part := Part(members, level + 1, s);
      forall i | 0 <= i < |slots[1..]| ensures AllMissing(key, Part(members, level + 1, slots[1..][i])) {
        assert slots[1..][i] == slots[i + 1];
      }
      WalkNone(Walk(f, key, level + 1, part), key, level, members, slots[1..]);
    } else {
      WalkOne(f, key, level, members, slots[1..], s);
    }
  }

  lemma {:induction false} WalkFirst(f: Files, key: Key, level: nat, members: seq<Host>, slots: seq<Slot>)
    requires level < LEVELS && slots != [] && forall i :: 0 <= i < |slots| ==> Used(members, level + 1, slots[i])
    ensures var part := Part(members, level + 1, slots[0]);
            && part != []
            && (forall i :: 0 <= i < |slots[1..]| ==> Used(members, level + 1, slots[1..][i]))
            && WalkParts(f, key, level, members, slots) ==
               WalkParts(Walk(f, key, level + 1, part), key, level, members, slots[1..])
            && (AllMissing(key, part) ==> Walk(f, key, level + 1, part) == f)
  {
    PartUsed(members, level + 1, slots[0]);
  }

  /** The members with the variable share the file of the next level with h; some member has none. */
  ghost predicate OnlyPart(key: Key, level: nat, members: seq<Host>, h: Host)
    requires level < LEVELS
  {
    && h in members && key in h.vars && (exists o :: o in members && key !in o.vars)
    && forall n :: n in members && key in n.vars ==> SlotAt(level + 1, n) == SlotAt(level + 1, h)
  }

  lemma {:induction false} WalkDownTo(f: Files, key: Key, level: nat, members: seq<Host>, h: Host)
    requires level < LEVELS && OnlyPart(key, level, members, h)
    ensures var part := Part(members, level + 1, SlotAt(level + 1, h));
            h in part && Walk(f, key, level, members) == Walk(f, key, level + 1, part)
  {
    var s := SlotAt(level + 1, h);
    Mixed(key, members, h);
    assert Used(members, level + 1, s) && s in Slots(members, level + 1);
    WalkOne(f, key, level, members, Slots(members, level + 1), s);
  }

  lemma {:induction false} Mixed(key: Key, members: seq<Host>, h: Host)
    requires h in members && key in h.vars && exists o :: o in members && key !in o.vars
    ensures members != [] && !AllMissing(key, members) && !AllSame(key, members)
  {
    var i :| 0 <= i < |members| && members[i] == h;
    var o :| o in members && key !in o.vars;
    var j :| 0 <= j < |members| && members[j] == o;
    assert Same(key, Has(members[i], key), Has(members[0], key)) ==> key in members[0].vars;
    assert Same(key, Has(members[j], key), Has(members[0], key)) ==> key !in members[0].vars;
  }

  /** All the members have the value. */
  lemma {:induction false} WalkHere(f: Files, key: Key, level: nat, members: seq<Host>, h: Host, value: Value)
    requires level <= LEVELS && h in members
    requires forall n :: n in members ==> key in n.vars && n.vars[key] == value && SlotAt(level, n) == SlotAt(level, h)
    ensures Walk(f, key, level, members) == Put(f, SlotAt(level, h), key, value)
  {
    SameIsEquivalence(key, Some(value), None, None);
    assert members[0] in members;
    forall i | 0 <= i < |members| ensures Has(members[i], key) == Some(value) {
      assert members[i] in members;
    }
  }

  /** The value is in a file that is also the rack's of a node that has none: the node gets it. */
  lemma {:induction false} StrayValue(cluster: string, sites: seq<Site>, read: seq<Site>, members: seq<Host>, key: Key,
        group: Group, value: Value, w: Host)
    requires ReadOf(read, sites) && Assigned(members, cluster, read) && key !in FIXED
    requires w in members && w.rackGroup == group && key !in w.vars
    requires Walk(StartFiles(cluster, sites), key, 0, members) ==
        Put(StartFiles(cluster, sites), InGroup(group), key, value)
    ensures !GivenBack(cluster, sites, [key], members)
  {
    var start, f := StartFiles(cluster, sites), FilesOf(cluster, sites, [key], members);
    assert [key][..0] == [] && WalkAll(start, [], members) == start;
    var s := SiteOf(members, cluster, read, w);
    HostIsListed(cluster, sites, s, w.vars);
    ReadBackMerges(f, Hosts(cluster, sites), w);
    StartFixed(cluster, sites);
    RackValueRead(start, key, value, w);
  }

  lemma {:induction false} RackValueRead(start: Files, key: Key, value: Value, w: Host)
    requires Get(start, OnHost(w.name), key) == None
    ensures InVars(Merged(Put(start, InGroup(w.rackGroup), key, value), w), key) == Some(value)
  {
    var f := Put(start, InGroup(w.rackGroup), key, value);
    assert Get(f, SlotAt(2, w), key) == Some(value) && Get(f, SlotAt(3, w), key) == None;
  }

  const SOME_KEY: Key := 3
  const SOME_VALUE := Plain("1")

  predicate InDatacenter(s: Site, o: Site) {
    o.dcName == s.dcName
  }

  predicate InRack(s: Site, o: Site) {
    InDatacenter(s, o) && RackName(o) == RackName(s)
  }

  function VarsIf(has: bool): map<Key, Value> {
    if has then map[SOME_KEY := SOME_VALUE] else map[]
  }

  /** The nodes of a site's datacenter, or of its rack, with one variable; the others with none. */
  function OneVariable(cluster: string, read: seq<Site>, s: Site, rack: bool): (r: seq<Host>)
    ensures Assigned(r, cluster, read)
    ensures forall i :: 0 <= i < |read| ==>
              r[i] == HostOf(cluster, read[i], VarsIf(if rack then InRack(s, read[i]) else InDatacenter(s, read[i])))
  {
    seq(|read|, i requires 0 <= i < |read| =>
      HostOf(cluster, read[i], VarsIf(if rack then InRack(s, read[i]) else InDatacenter(s, read[i]))))
  }

  lemma {:induction false} OneVariableAt(cluster: string, read: seq<Site>, s: Site, rack: bool, o: Site)
    requires o in read
    ensures HostOf(cluster, o, VarsIf(if rack then InRack(s, o) else InDatacenter(s, o)))
              in OneVariable(cluster, read, s, rack)
  {
    var i :| 0 <= i < |read| && read[i] == o;
    assert OneVariable(cluster, read, s, rack)[i] in OneVariable(cluster, read, s, rack);
  }

  /** Which site a member of such an assignment is of. */
  lemma {:induction false} OneVariableOf(cluster: string, read: seq<Site>, s: Site, rack: bool, n: Host)
      returns (o: Site)
    requires n in OneVariable(cluster, read, s, rack)
    ensures o in read && n == HostOf(cluster, o, VarsIf(if rack then InRack(s, o) else InDatacenter(s, o)))
  {
    var members := OneVariable(cluster, read, s, rack);
    var i :| 0 <= i < |members| && members[i] == n;
    o := read[i];
  }

  lemma {:induction false} OneKey(cluster: string, read: seq<Site>, s: Site, rack: bool)
    requires s in read
    ensures KeysOf([SOME_KEY], OneVariable(cluster, read, s, rack))
  {
    var members := OneVariable(cluster, read, s, rack);
    OneVariableAt(cluster, read, s, rack, s);
    forall key ensures key in [SOME_KEY] <==> key !in FIXED && SomeHas(members, key) {
      if key == SOME_KEY { assert SOME_KEY in HostOf(cluster, s, VarsIf(true)).vars; }
      if SomeHas(members, key) {
        var n :| n in members && key in n.vars;
        var o := OneVariableOf(cluster, read, s, rack, n);
      }
    }
  }

  /** Who has the variable, by the files of the groups. */
  lemma {:induction false} HasByDatacenter(cluster: string, read: seq<Site>, s: Site, n: Host)
    requires n in OneVariable(cluster, read, s, false)
    ensures SOME_KEY in n.vars <==> SlotAt(1, n) == SlotAt(1, HostOf(cluster, s, VarsIf(true)))
    ensures SOME_KEY in n.vars ==> n.vars[SOME_KEY] == SOME_VALUE
  {
    var o := OneVariableOf(cluster, read, s, false, n);
    GroupsSame(cluster, o, s, n.vars, VarsIf(true));
  }

  lemma {:induction false} HasByRack(cluster: string, read: seq<Site>, s: Site, n: Host)
    requires n in OneVariable(cluster, read, s, true)
    ensures var h := HostOf(cluster, s, VarsIf(true));
            SOME_KEY in n.vars <==> SlotAt(1, n) == SlotAt(1, h) && SlotAt(2, n) == SlotAt(2, h)
    ensures SOME_KEY in n.vars ==> n.vars[SOME_KEY] == SOME_VALUE
  {
    var o := OneVariableOf(cluster, read, s, true, n);
    GroupsSame(cluster, o, s, n.vars, VarsIf(true));
  }

  /** The variable is put in the datacenter's file. */
  lemma {:induction false} DatacenterWalk(f: Files, cluster: string, read: seq<Site>, s: Site, w: Host)
    requires s in read && w in OneVariable(cluster, read, s, false) && SOME_KEY !in w.vars
    ensures var members := OneVariable(cluster, read, s, false);
            members != [] && Walk(f, SOME_KEY, 0, members) ==
                Put(f, InGroup(HostOf(cluster, s, VarsIf(true)).dcGroup), SOME_KEY, SOME_VALUE)
  {
    var members, h := OneVariable(cluster, read, s, false), HostOf(cluster, s, VarsIf(true));
    OneVariableAt(cluster, read, s, false, s);
    forall n | n in members ensures SOME_KEY in n.vars <==> SlotAt(1, n) == SlotAt(1, h) {
      HasByDatacenter(cluster, read, s, n);
    }
    WalkDownTo(f, SOME_KEY, 0, members, h);
    var part := Part(members, 1, SlotAt(1, h));
    forall n | n in part ensures SOME_KEY in n.vars && n.vars[SOME_KEY] == SOME_VALUE {
      HasByDatacenter(cluster, read, s, n);
    }
    WalkHere(f, SOME_KEY, 1, part, h, SOME_VALUE);
  }

  /** The variable is put in the rack's file, when the datacenter has another rack. */
  lemma {:induction false} RackWalk(f: Files, cluster: string, read: seq<Site>, s: Site, w: Host, q: Host)
    requires s in read && w in OneVariable(cluster, read, s, true) && SOME_KEY !in w.vars
    requires q in OneVariable(cluster, read, s, true) && SOME_KEY !in q.vars &&
        SlotAt(1, q) == SlotAt(1, HostOf(cluster, s, VarsIf(true)))
    ensures var members := OneVariable(cluster, read, s, true);
            members != [] && Walk(f, SOME_KEY, 0, members) ==
                Put(f, InGroup(HostOf(cluster, s, VarsIf(true)).rackGroup), SOME_KEY, SOME_VALUE)
  {
    var members, h := OneVariable(cluster, read, s, true), HostOf(cluster, s, VarsIf(true));
    OneVariableAt(cluster, read, s, true, s);
    forall n | n in members && SOME_KEY in n.vars ensures SlotAt(1, n) == SlotAt(1, h) && SlotAt(2, n) == SlotAt(2, h) {
      HasByRack(cluster, read, s, n);
    }
    WalkDownTo(f, SOME_KEY, 0, members, h);
    var part := Part(members, 1, SlotAt(1, h));
    assert q in part;
    WalkDownTo(f, SOME_KEY, 1, part, h);
    var rack := Part(part, 2, SlotAt(2, h));
    forall n | n in rack ensures SOME_KEY in n.vars && n.vars[SOME_KEY] == SOME_VALUE {
      HasByRack(cluster, read, s, n);
    }
    WalkHere(f, SOME_KEY, 2, rack, h, SOME_VALUE);
  }

  /** A datacenter named like another's rack: give its nodes alone a variable, and that
      rack's nodes get it too. */
  lemma {:induction false} DatacenterAsRack(cluster: string, sites: seq<Site>, read: seq<Site>, s: Site, t: Site)
    requires ReadOf(read, sites) && s in read && t in read && s.dcName == RackName(t)
    ensures !GivenBack(cluster, sites, [SOME_KEY], OneVariable(cluster, read, s, false))
  {
    var members, w := OneVariable(cluster, read, s, false), HostOf(cluster, t, VarsIf(false));
    assert |RackName(t)| > |t.dcName|;
    OneVariableAt(cluster, read, s, false, t);
    DatacenterWalk(StartFiles(cluster, sites), cluster, read, s, w);
    GroupsSame(cluster, s, t, VarsIf(true), w.vars);
    StrayValue(cluster, sites, read, members, SOME_KEY, w.rackGroup, SOME_VALUE, w);
  }

  /** Datacenters with a rack of one joined name, the first with another rack too: give the
      first one's nodes of that rack alone a variable, and the second's get it too. */
  lemma {:induction false} RackAsRack(cluster: string, sites: seq<Site>, read: seq<Site>, s: Site, o: Site, t: Site)
    requires ReadOf(read, sites) && s in read && o in read && t in read
    requires RackName(s) == RackName(t) && s.dcName != t.dcName && o.dcName == s.dcName && RackName(o) != RackName(s)
    ensures !GivenBack(cluster, sites, [SOME_KEY], OneVariable(cluster, read, s, true))
  {
    var members, w, q := OneVariable(cluster, read, s, true), HostOf(cluster, t, VarsIf(false)),
        HostOf(cluster, o, VarsIf(false));
    OneVariableAt(cluster, read, s, true, t);
    OneVariableAt(cluster, read, s, true, o);
    GroupsSame(cluster, o, s, q.vars, VarsIf(true));
    RackWalk(StartFiles(cluster, sites), cluster, read, s, w, q);
    GroupsSame(cluster, s, t, VarsIf(true), w.vars);
    StrayValue(cluster, sites, read, members, SOME_KEY, w.rackGroup, SOME_VALUE, w);
  }

  ghost predicate AsRack(read: seq<Site>, s: Site, t: Site) {
    s in read && t in read && s.dcName == RackName(t)
  }

  ghost predicate Alike(read: seq<Site>, s: Site, o: Site, t: Site) {
    && s in read && o in read && t in read
    && RackName(s) == RackName(t) && s.dcName != t.dcName && o.dcName == s.dcName && RackName(o) != RackName(s)
  }

  /** How names can clash. */
  lemma {:induction false} Clashes(read: seq<Site>)
    requires !NamesApart(read)
    ensures (exists s, t :: AsRack(read, s, t)) || exists s, o, t :: Alike(read, s, o, t)
  {
    if forall s, t :: s in read && t in read ==> s.dcName != RackName(t) {
      var s, t :| s in read && t in read && RackName(s) == RackName(t) && s.dcName != t.dcName
                  && !(OneRackName(read, s) && OneRackName(read, t));
      if !OneRackName(read, s) {
        var o :| o in read && o.dcName == s.dcName && RackName(o) != RackName(s);
        assert Alike(read, s, o, t);
      } else {
        var o :| o in read && o.dcName == t.dcName && RackName(o) != RackName(t);
        assert Alike(read, t, o, s);
      }
    } else {
      var s, t :| s in read && t in read && s.dcName == RackName(t);
      assert AsRack(read, s, t);
    }
  }

  lemma {:induction false} ClashFails(cluster: string, sites: seq<Site>, read: seq<Site>)
    requires ReadOf(read, sites) && !NamesApart(read)
    ensures !RoundTrips(cluster, sites, read)
  {
    Clashes(read);
    if s, t :| AsRack(read, s, t) {
      DatacenterAsRack(cluster, sites, read, s, t);
      OneKey(cluster, read, s, false);
    } else {
      var s, o, t :| Alike(read, s, o, t);
      RackAsRack(cluster, sites, read, s, o, t);
      OneKey(cluster, read, s, true);
    }
  }

  /** Factored into the levels and merged back, every node has exactly its variables,
      beside those fixed for its groups, whatever they are, exactly when no datacenter is named like another's rack and
      datacenters with a rack of one joined name have that rack only. */
  lemma {:induction false} RoundTripIsExact(cluster: string, sites: seq<Site>, read: seq<Site>)
    requires ReadOf(read, sites)
    ensures RoundTrips(cluster, sites, read) <==> NamesApart(read)
  {
    if NamesApart(read) {
      forall members, keys | Assigned(members, cluster, read) && KeysOf(keys, members)
          ensures GivenBack(cluster, sites, keys, members) {
        ApartRoundTrips(cluster, sites, read, members, keys);
      }
    } else {
      ClashFails(cluster, sites, read);
    }
  }

  // ----- the names of the failing inputs -----

  lemma {:induction false} LetterSlug(c: char)
    requires 'a' <= c <= 'z'
    ensures Slug([c]) == [c]
  {
    assert [c][..0] == "" && Squeezed("") == "" && Squeezed([c]) == [c];
  }

  /** Two letters with one other character between them. */
  lemma {:induction false} PairSlug(a: char, between: char, b: char)
    requires 'a' <= a <= 'z' && 'a' <= b <= 'z' && !Kept(Lower(between))
    ensures Slug([a, between, b]) == [a, '_', b]
  {
    var text := [a, between, b];
    assert text[..2] == [a, between] && text[..2][..1] == [a] && [a][..0] == "";
    assert Squeezed([a]) == [a];
    assert Squeezed([a, between]) == [a, '_'];
    assert Squeezed(text) == [a, '_', b];
  }

  /** Datacenter a with a rack b, and datacenter a-b. */
  function Pair(): seq<Site> {
    [Site(0, "a", "b", "a", "b"), Site(1, "a_b", "r", "a-b", "r")]
  }

  lemma {:induction false} PairNames()
    ensures Pair()[0] == SiteAt(0, "a", "b") && Pair()[1] == SiteAt(1, "a-b", "r")
  {
    LetterSlug('a');
    LetterSlug('b');
    LetterSlug('r');
    PairSlug('a', '-', 'b');
  }

  lemma {:induction false} PairNamed()
    ensures var pair := Pair(); pair[1].dcName == RackName(pair[0])
  {
    assert Joined("a", "b") == "a_b";
  }

  /** The datacenter is named like the other's rack: some variables are not given back. */
  lemma {:induction false} DatacenterNamedLikeRack(cluster: string)
    ensures Pair()[0] == SiteAt(0, "a", "b") && Pair()[1] == SiteAt(1, "a-b", "r")
    ensures ReadOf(Pair(), Pair()) && !RoundTrips(cluster, Pair(), Pair())
  {
    PairNames();
    PairFails(cluster);
  }

  lemma {:induction false} PairFails(cluster: string)
    ensures ReadOf(Pair(), Pair()) && !RoundTrips(cluster, Pair(), Pair())
  {
    var sites := Pair();
    PairNamed();
    assert AsRack(sites, sites[1], sites[0]);
    RoundTripIsExact(cluster, sites, sites);
  }

  /** Rack b-c of datacenter a, rack c of datacenter a-b, and another rack of a. */
  function Alikes(): seq<Site> {
    [Site(0, "a", "b_c", "a", "b-c"), Site(1, "a_b", "c", "a-b", "c"), Site(2, "a", "r", "a", "r")]
  }

  lemma {:induction false} AlikeFirst()
    ensures Alikes()[0] == SiteAt(0, "a", "b-c")
  {
    LetterSlug('a');
    PairSlug('b', '-', 'c');
  }

  lemma {:induction false} AlikeOthers()
    ensures Alikes()[1] == SiteAt(1, "a-b", "c") && Alikes()[2] == SiteAt(2, "a", "r")
  {
    LetterSlug('a');
    LetterSlug('c');
    LetterSlug('r');
    PairSlug('a', '-', 'b');
  }

  lemma {:induction false} AlikeNamed()
    ensures var sites := Alikes();
            RackName(sites[0]) == "a_b_c" && RackName(sites[1]) == "a_b_c" && RackName(sites[2]) == "a_r"
  {
    assert Joined("a", "b_c") == "a_b_c" && Joined("a_b", "c") == "a_b_c" && Joined("a", "r") == "a_r";
  }

  lemma {:induction false} AlikeClash()
    ensures Alike(Alikes(), Alikes()[0], Alikes()[2], Alikes()[1])
  {
    var sites := Alikes();
    AlikeNamed();
    assert sites[0] in sites && sites[1] in sites && sites[2] in sites;
  }

  /** The two racks have one group: some variables are not given back while a has another rack. */
  lemma {:induction false} RacksNamedAlike(cluster: string)
    ensures Alikes()[0] == SiteAt(0, "a", "b-c") && Alikes()[1] == SiteAt(1, "a-b", "c") &&
        Alikes()[2] == SiteAt(2, "a", "r")
    ensures ReadOf(Alikes(), Alikes()) && !RoundTrips(cluster, Alikes(), Alikes())
  {
    AlikeFirst();
    AlikeOthers();
    AlikeFails(cluster);
  }

  lemma {:induction false} AlikeIsClash(read: seq<Site>, s: Site, o: Site, t: Site)
    requires Alike(read, s, o, t)
    ensures !NamesApart(read)
  {
    assert !OneRackName(read, s);
  }

  lemma {:induction false} AlikeFails(cluster: string)
    ensures ReadOf(Alikes(), Alikes()) && !RoundTrips(cluster, Alikes(), Alikes())
  {
    var sites := Alikes();
    AlikeClash();
    AlikeIsClash(sites, sites[0], sites[2], sites[1]);
    RoundTripIsExact(cluster, sites, sites);
  }

  lemma {:induction false} AloneApart(read: seq<Site>)
    requires read == Alikes()[..2]
    ensures NamesApart(read)
  {
    AlikeNamed();
    var sites := Alikes();
    assert read == [sites[0], sites[1]];
    forall s, t | s in read && t in read ensures s.dcName != RackName(t) {
      assert |RackName(t)| == 5;
    }
  }

  /** And all are while neither datacenter has, but for those fixed for the groups. */
  lemma {:induction false} AlikeAlone(cluster: string)
    ensures ReadOf(Alikes()[..2], Alikes()) && RoundTrips(cluster, Alikes(), Alikes()[..2])
  {
    AloneApart(Alikes()[..2]);
    RoundTripIsExact(cluster, Alikes(), Alikes()[..2]);
  }
}
