/** The two variables the layout writes itself, a node's datacenter and its rack, and for
    which rings every node gets back these and all the others. */
module GroupTexts {
  import opened Options
  import opened Inventory
  import opened GroupNames

  // ----- what the files hold -----

  /** The name of a node's rack, or of its datacenter, in group names. */
  function NameIn(s: Site, rack: bool): string {
    if rack then RackName(s) else s.dcName
  }

  /** The last node whose rack, or datacenter, is so named: what it writes stays. */
  function LastNamed(sites: seq<Site>, rack: bool, name: string): (r: Option<Site>)
    ensures r.Some? ==> r.value in sites && NameIn(r.value, rack) == name
    ensures r.None? ==> forall s :: s in sites ==> NameIn(s, rack) != name
  {
    if sites == [] then None
    else
      var init, last := sites[..|sites| - 1], sites[|sites| - 1];
      assert sites == init + [last];
      if NameIn(last, rack) == name then Some(last) else LastNamed(init, rack, name)
  }

  function Text(s: Site, rack: bool): Value {
    Plain(if rack then s.rack else s.dc)
  }

  function TextKey(rack: bool): Key {
    if rack then CASSANDRA_RACK else CASSANDRA_DC
  }

  /** What the files of a group so named give at the start. */
  function Written(sites: seq<Site>, rack: bool, name: string): Option<Value> {
    match LastNamed(sites, rack, name)
    case Some(s) => Some(Text(s, rack))
    case None => None
  }

  lemma {:induction false} StartHolds(cluster: string, sites: seq<Site>, rack: bool, name: string)
    ensures Get(StartFiles(cluster, sites), InGroup(Joined(cluster, name)), TextKey(rack)) == Written(sites, rack, name)
  {
    if sites != [] {
      var init, last := sites[..|sites| - 1], sites[|sites| - 1];
      StartHolds(cluster, init, rack, name);
      GroupIs(cluster, last, map[]);
      JoinedSame(cluster, NameIn(last, rack), name);
    }
  }

  /** Nothing for the cluster, nor for a host. */
  lemma {:induction false} StartElsewhere(cluster: string, sites: seq<Site>, name: Name, key: Key)
    ensures Get(StartFiles(cluster, sites), InGroup(cluster), key) == None
    ensures Get(StartFiles(cluster, sites), OnHost(name), key) == None
  {
    if sites != [] {
      var init, last := sites[..|sites| - 1], sites[|sites| - 1];
      StartElsewhere(cluster, init, name, key);
      GroupIs(cluster, last, map[]);
      JoinedSame(cluster, last.dcName, "");
      JoinedSame(cluster, RackName(last), "");
    }
  }

  /** The files have what they had at the start for the datacenters and the racks. */
  ghost predicate TextsKept(f: Files, cluster: string, sites: seq<Site>) {
    forall s, key :: key in FIXED ==> Get(f, s, key) == Get(StartFiles(cluster, sites), s, key)
  }

  /** What a node gets back: its rack group's text, or else its datacenter group's. */
  function ReadText(sites: seq<Site>, s: Site, rack: bool): Option<Value> {
    var below := Written(sites, rack, RackName(s));
    if below.Some? then below else Written(sites, rack, s.dcName)
  }

  ghost function TextBack(f: Files, cluster: string, sites: seq<Site>, s: Site, rack: bool): Option<Value> {
    InVars(ReadBack(f, Hosts(cluster, sites), s.name), TextKey(rack))
  }

  lemma {:induction false} MergedText(f: Files, n: Host, key: Key)
    requires Get(f, InGroup(n.clusterGroup), key) == None && Get(f, OnHost(n.name), key) == None
    ensures var below := Get(f, InGroup(n.rackGroup), key);
            InVars(Merged(f, n), key) == if below.Some? then below else Get(f, InGroup(n.dcGroup), key)
  {
  }

  lemma {:induction false} TextBackIs(f: Files, cluster: string, sites: seq<Site>, s: Site, rack: bool)
    requires DistinctSites(sites) && s in sites && TextsKept(f, cluster, sites)
    ensures TextBack(f, cluster, sites, s, rack) == ReadText(sites, s, rack)
  {
    var n, key := HostOf(cluster, s, map[]), TextKey(rack);
    HostIsListed(cluster, sites, s, map[]);
    ReadBackMerges(f, Hosts(cluster, sites), n);
    GroupIs(cluster, s, map[]);
    StartHolds(cluster, sites, rack, s.dcName);
    StartHolds(cluster, sites, rack, RackName(s));
    StartElsewhere(cluster, sites, s.name, key);
    MergedText(f, n, key);
  }

  // ----- when every node gets back its own -----

  /** Every node of the ring gets back its own datacenter and its own rack. */
  ghost predicate OwnTexts(f: Files, cluster: string, sites: seq<Site>) {
    forall s, rack :: s in sites ==> TextBack(f, cluster, sites, s, rack) == Some(Text(s, rack))
  }

  /** Names are those of the texts. */
  ghost predicate Slugged(sites: seq<Site>) {
    forall s :: s in sites ==> s == SiteAt(s.name, s.dc, s.rack)
  }

  /** One text, one name. */
  ghost predicate OneNameEach(sites: seq<Site>) {
    forall s, t :: s in sites && t in sites ==>
      (s.dc == t.dc ==> s.dcName == t.dcName) && (s.rack == t.rack ==> s.rackName == t.rackName)
  }

  /** One name, one text: for datacenters as group names write them, and for racks with
      their datacenters; and no datacenter is named like a rack. */
  ghost predicate TextsApart(sites: seq<Site>) {
    forall s, t :: s in sites && t in sites ==>
      && (s.dcName == t.dcName ==> s.dc == t.dc)
      && (RackName(s) == RackName(t) ==> s.rack == t.rack)
      && s.dcName != RackName(t)
  }

  lemma {:induction false} SluggedOnce(sites: seq<Site>)
    requires Slugged(sites)
    ensures OneNameEach(sites)
  {
  }

  lemma {:induction false} ApartTexts(sites: seq<Site>, s: Site, rack: bool)
    requires TextsApart(sites) && s in sites
    ensures ReadText(sites, s, rack) == Some(Text(s, rack))
  {
    assert LastNamed(sites, rack, NameIn(s, rack)).Some?;
    if !rack { assert LastNamed(sites, rack, RackName(s)).None?; }
  }

  lemma {:induction false} OwnIsApart(sites: seq<Site>, s: Site, t: Site)
    requires OneNameEach(sites) && s in sites && t in sites
    requires forall o, rack :: o in sites ==> ReadText(sites, o, rack) == Some(Text(o, rack))
    ensures s.dcName != RackName(t)
    ensures s.dcName == t.dcName ==> s.dc == t.dc
    ensures RackName(s) == RackName(t) ==> s.rack == t.rack
  {
    NoDatacenterAsRack(sites, s, t);
    NoDatacenterAsRack(sites, s, s);
    assert ReadText(sites, s, true) == Some(Text(s, true)) && ReadText(sites, t, true) == Some(Text(t, true));
    if s.dcName == t.dcName {
      NoneAsRack(sites, s);
      NoneAsRack(sites, t);
      assert ReadText(sites, s, false) == Some(Text(s, false)) && ReadText(sites, t, false) == Some(Text(t, false));
    }
  }

  lemma {:induction false} NoneAsRack(sites: seq<Site>, t: Site)
    requires OneNameEach(sites) && t in sites
    requires forall o, rack :: o in sites ==> ReadText(sites, o, rack) == Some(Text(o, rack))
    ensures LastNamed(sites, false, RackName(t)).None?
  {
    var last := LastNamed(sites, false, RackName(t));
    if last.Some? { NoDatacenterAsRack(sites, last.value, t); }
  }

  lemma {:induction false} NoDatacenterAsRack(sites: seq<Site>, s: Site, t: Site)
    requires OneNameEach(sites) && s in sites && t in sites
    requires forall o, rack :: o in sites ==> ReadText(sites, o, rack) == Some(Text(o, rack))
    ensures s.dcName != RackName(t)
  {
    assert ReadText(sites, t, false) == Some(Text(t, false));
    assert |RackName(t)| > |t.dcName|;
    assert LastNamed(sites, false, RackName(t)).None?;
  }

  /** Texts apart are names apart. */
  lemma {:induction false} TextsApartNames(sites: seq<Site>, read: seq<Site>)
    requires ReadOf(read, sites) && OneNameEach(sites) && TextsApart(sites)
    ensures NamesApart(read)
  {
    forall s, t | s in read && t in read && RackName(s) == RackName(t) ensures s.dcName == t.dcName {
      assert s in sites && t in sites && s.rackName == t.rackName;
      assert RackName(s)[..|s.dcName|] == s.dcName && RackName(t)[..|t.dcName|] == t.dcName;
      assert |s.dcName| == |t.dcName|;
    }
    forall s, t | s in read && t in read ensures s.dcName != RackName(t) {
      assert s in sites && t in sites;
    }
  }

  lemma {:induction false} TextsStay(cluster: string, sites: seq<Site>, read: seq<Site>, members: seq<Host>,
        keys: seq<Key>)
    requires DistinctSites(read) && NamesApart(read) && Assigned(members, cluster, read) && KeysOf(keys, members)
    ensures TextsKept(FilesOf(cluster, sites, keys, members), cluster, sites)
  {
    if members != [] { ApartPlaces(cluster, sites, read, members, keys); }
  }

  /** Whatever the variables, every node read gets them back, and every node of the ring
      its own datacenter and its own rack. */
  ghost predicate AllBack(cluster: string, sites: seq<Site>, read: seq<Site>) {
    forall members, keys :: Assigned(members, cluster, read) && KeysOf(keys, members) ==>
      GivenBack(cluster, sites, keys, members) && OwnTexts(FilesOf(cluster, sites, keys, members), cluster, sites)
  }

  lemma {:induction false} TextsApartBack(cluster: string, sites: seq<Site>, read: seq<Site>, members: seq<Host>,
        keys: seq<Key>)
    requires ReadOf(read, sites) && OneNameEach(sites) && TextsApart(sites)
    requires Assigned(members, cluster, read) && KeysOf(keys, members)
    ensures GivenBack(cluster, sites, keys, members)
    ensures OwnTexts(FilesOf(cluster, sites, keys, members), cluster, sites)
  {
    var f := FilesOf(cluster, sites, keys, members);
    TextsApartNames(sites, read);
    ApartRoundTrips(cluster, sites, read, members, keys);
    TextsStay(cluster, sites, read, members, keys);
    forall s, rack | s in sites ensures TextBack(f, cluster, sites, s, rack) == Some(Text(s, rack)) {
      TextBackIs(f, cluster, sites, s, rack);
      ApartTexts(sites, s, rack);
    }
  }

  /** Without any variable the files are those of the start. */
  lemma {:induction false} NoVariables(cluster: string, sites: seq<Site>, read: seq<Site>)
    ensures Assigned(Bare(cluster, read), cluster, read) && KeysOf([], Bare(cluster, read))
    ensures FilesOf(cluster, sites, [], Bare(cluster, read)) == StartFiles(cluster, sites)
  {
    forall n | n in Bare(cluster, read) ensures n.vars == map[] {
      var i :| 0 <= i < |read| && Bare(cluster, read)[i] == n;
    }
  }

  lemma {:induction false} BackIsApart(cluster: string, sites: seq<Site>, read: seq<Site>)
    requires ReadOf(read, sites) && OneNameEach(sites) && AllBack(cluster, sites, read)
    ensures TextsApart(sites)
  {
    var start := StartFiles(cluster, sites);
    NoVariables(cluster, sites, read);
    assert OwnTexts(FilesOf(cluster, sites, [], Bare(cluster, read)), cluster, sites);
    forall o, rack | o in sites ensures ReadText(sites, o, rack) == Some(Text(o, rack)) {
      TextBackIs(start, cluster, sites, o, rack);
      assert TextBack(start, cluster, sites, o, rack) == Some(Text(o, rack));
    }
    forall s, t | s in sites && t in sites
      ensures s.dcName != RackName(t) && (s.dcName == t.dcName ==> s.dc == t.dc)
              && (RackName(s) == RackName(t) ==> s.rack == t.rack)
    {
      OwnIsApart(sites, s, t);
    }
  }

  /** Factored into the levels and merged back, every node has its own datacenter, its own
      rack and exactly its variables, whatever they are, exactly when datacenters of one
      slug are one, racks of one joined name are written alike, and no datacenter is named
      like a rack. */
  lemma {:induction false} AllBackIsExact(cluster: string, sites: seq<Site>, read: seq<Site>)
    requires ReadOf(read, sites) && Slugged(sites)
    ensures AllBack(cluster, sites, read) <==> TextsApart(sites)
  {
    SluggedOnce(sites);
    if TextsApart(sites) {
      forall members, keys | Assigned(members, cluster, read) && KeysOf(keys, members)
        ensures GivenBack(cluster, sites, keys, members)
        ensures OwnTexts(FilesOf(cluster, sites, keys, members), cluster, sites)
      {
        TextsApartBack(cluster, sites, read, members, keys);
      }
    } else if AllBack(cluster, sites, read) {
      BackIsApart(cluster, sites, read);
    }
  }

  // ----- the failing inputs -----

  /** Whatever the variables, the node gets back this text. */
  ghost predicate AlwaysReads(cluster: string, sites: seq<Site>, s: Site, rack: bool, text: string) {
    forall members, keys :: Assigned(members, cluster, sites) && KeysOf(keys, members) ==>
      TextBack(FilesOf(cluster, sites, keys, members), cluster, sites, s, rack) == Some(Plain(text))
  }

  lemma {:induction false} SecondWins(cluster: string, sites: seq<Site>, rack: bool)
    requires |sites| == 2 && DistinctSites(sites) && NamesApart(sites)
    requires NameIn(sites[0], rack) == NameIn(sites[1], rack)
    ensures AlwaysReads(cluster, sites, sites[0], rack, Text(sites[1], rack).text)
  {
    assert ReadText(sites, sites[0], rack) == Some(Text(sites[1], rack)) by {
      assert sites[0] in sites && sites[1] in sites;
      assert LastNamed(sites, rack, NameIn(sites[0], rack)) == Some(sites[1]);
    }
    forall members, keys | Assigned(members, cluster, sites) && KeysOf(keys, members)
      ensures TextBack(FilesOf(cluster, sites, keys, members), cluster, sites, sites[0], rack) ==
              Some(Text(sites[1], rack))
    {
      TextsStay(cluster, sites, sites, members, keys);
      TextBackIs(FilesOf(cluster, sites, keys, members), cluster, sites, sites[0], rack);
    }
  }

  /** Rack b-c of datacenter a and rack c of datacenter a-b, alone in theirs: their variables
      are given back, but the first node is said to be in rack c. */
  lemma {:induction false} AlikeAloneLosesRack(cluster: string)
    ensures var sites := Alikes()[..2];
            && sites == [SiteAt(0, "a", "b-c"), SiteAt(1, "a-b", "c")]
            && RoundTrips(cluster, sites, sites) && AlwaysReads(cluster, sites, sites[0], true, "c")
  {
    AlikeFirst();
    AlikeOthers();
    AlikeAloneReads(cluster);
  }

  lemma {:induction false} AlikeAloneReads(cluster: string)
    ensures var sites := Alikes()[..2];
            RoundTrips(cluster, sites, sites) && AlwaysReads(cluster, sites, sites[0], true, "c")
  {
    var sites := Alikes()[..2];
    AloneApart(sites);
    RoundTripIsExact(cluster, sites, sites);
    AlikeNamed();
    SecondWins(cluster, sites, true);
  }

  /** Two racks of one datacenter, written apart by one character that group names drop. */
  function Dashed(): seq<Site> {
    [Site(0, "a", "b_c", "a", "b-c"), Site(1, "a", "b_c", "a", "b_c")]
  }

  lemma {:induction false} DashedNames()
    ensures Dashed() == [SiteAt(0, "a", "b-c"), SiteAt(1, "a", "b_c")]
  {
    LetterSlug('a');
    PairSlug('b', '-', 'c');
    PairSlug('b', '_', 'c');
  }

  lemma {:induction false} OneDatacenterApart(sites: seq<Site>)
    requires forall s, t :: s in sites && t in sites ==> s.dcName == t.dcName
    ensures NamesApart(sites)
  {
    forall s, t | s in sites && t in sites ensures s.dcName != RackName(t) {
      assert |RackName(t)| > |t.dcName|;
    }
  }

  /** Racks b-c and b_c of datacenter a: the first node is said to be in rack b_c. */
  lemma {:induction false} DashedLosesRack(cluster: string)
    ensures var sites := Dashed();
            && sites == [SiteAt(0, "a", "b-c"), SiteAt(1, "a", "b_c")]
            && RoundTrips(cluster, sites, sites) && AlwaysReads(cluster, sites, sites[0], true, "b_c")
  {
    DashedNames();
    DashedApart(cluster);
  }

  lemma {:induction false} DashedApart(cluster: string)
    ensures var sites := Dashed();
            RoundTrips(cluster, sites, sites) && AlwaysReads(cluster, sites, sites[0], true, "b_c")
  {
    var sites := Dashed();
    OneDatacenterApart(sites);
    RoundTripIsExact(cluster, sites, sites);
    SecondWins(cluster, sites, true);
  }

  /** Two datacenters that only the case tells apart. */
  function Cased(): seq<Site> {
    [Site(0, "dc1", "r", "DC1", "r"), Site(1, "dc1", "r", "dc1", "r")]
  }

  lemma {:induction false} ThreeSlug(text: string)
    requires |text| == 3 && forall i :: 0 <= i < 3 ==> Kept(Lower(text[i]))
    requires !IsDigit(Lower(text[0]))
    ensures Slug(text) == [Lower(text[0]), Lower(text[1]), Lower(text[2])]
  {
    assert text[..2][..1] == [text[0]] && text[..2][..1][..0] == "";
    assert text[..2] == [text[0], text[1]] && text[..2][1] == text[1];
    assert Squeezed(text[..2][..1]) == [Lower(text[0])];
    assert Squeezed(text[..2]) == [Lower(text[0]), Lower(text[1])];
    assert Squeezed(text) == [Lower(text[0]), Lower(text[1]), Lower(text[2])];
  }

  lemma {:induction false} CasedNames()
    ensures Cased() == [SiteAt(0, "DC1", "r"), SiteAt(1, "dc1", "r")]
  {
    ThreeSlug("DC1");
    ThreeSlug("dc1");
    LetterSlug('r');
  }

  /** Datacenters DC1 and dc1: the first one's node is said to be in dc1. */
  lemma {:induction false} CasedLosesDatacenter(cluster: string)
    ensures var sites := Cased();
            && sites == [SiteAt(0, "DC1", "r"), SiteAt(1, "dc1", "r")]
            && RoundTrips(cluster, sites, sites) && AlwaysReads(cluster, sites, sites[0], false, "dc1")
  {
    CasedNames();
    CasedApart(cluster);
  }

  lemma {:induction false} CasedApart(cluster: string)
    ensures var sites := Cased();
            RoundTrips(cluster, sites, sites) && AlwaysReads(cluster, sites, sites[0], false, "dc1")
  {
    var sites := Cased();
    OneDatacenterApart(sites);
    RoundTripIsExact(cluster, sites, sites);
    SecondWins(cluster, sites, false);
  }
}
