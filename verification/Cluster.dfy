/** The nodes of a whole cluster and the replay of steps over it: where the planner
    believes every node is, and the tokens every node really has. */
module Cluster {
  import opened Lists
  import opened Ring
  import opened Shares
  import opened MoveOrder
  import opened MoveSafety
  import opened RebalanceOrder

  /** One datacenter of the running ring: a line per token (a node with several tokens
      has several), whether every node is normal, the replication factors, the offset. */
  datatype Datacenter = Datacenter(ring: seq<Node>, normal: bool, rf: nat, rfs: seq<nat>, offset: int)

  function Members(dc: Datacenter): set<Name> {
    SetOf(Names(dc.ring))
  }

  /** Every node has one token. */
  predicate Single(dc: Datacenter) {
    forall i, j :: 0 <= i < j < |dc.ring| ==> dc.ring[i].name != dc.ring[j].name
  }

  /** Every line of the cluster. */
  function Entries(dcs: seq<Datacenter>): seq<Node> {
    if dcs == [] then [] else Entries(dcs[..|dcs| - 1]) + dcs[|dcs| - 1].ring
  }

  /** Where the planner believes the nodes are: each on its last token. */
  function WhereOf(dcs: seq<Datacenter>): Places {
    PlacesOf(Entries(dcs))
  }

  /** Datacenters of one cluster: no node in two of them. */
  ghost predicate Separate(dcs: seq<Datacenter>) {
    forall i, j :: 0 <= i < j < |dcs| ==> Members(dcs[i]) !! Members(dcs[j])
  }

  /** A cluster no two of whose tokens are the same, each on the circle. */
  ghost predicate Running(dcs: seq<Datacenter>, size: nat) {
    && size > 0 && Separate(dcs)
    && Distinct(Positions(Entries(dcs))) && OnCircle(Positions(Entries(dcs)), size)
    && forall i :: 0 <= i < |dcs| ==> dcs[i].ring != [] && 2 * |dcs[i].ring| <= size
  }

  /** The datacenter's nodes have one token each and are where the planner believes them. */
  ghost predicate Standing(dc: Datacenter, where: Places, size: nat) {
    && dc.ring != [] && 2 * |dc.ring| <= size && Distinct(Names(dc.ring))
    && forall n :: n in dc.ring ==> n.name in where && where[n.name] == n.pos
  }

  /** Positions the planner knows are held outside a datacenter. */
  function Elsewhere(where: Places, members: set<Name>): set<int> {
    set n | n in where && n !in members :: where[n]
  }

  // ----- the cluster as it stands -----

  lemma {:induction false} EntryOf(dcs: seq<Datacenter>, n: Node)
    ensures n in Entries(dcs) <==> exists i :: 0 <= i < |dcs| && n in dcs[i].ring
  {
    if dcs != [] {
      var init, last := dcs[..|dcs| - 1], dcs[|dcs| - 1];
      EntryOf(init, n);
      if n in Entries(init) {
        var i :| 0 <= i < |init| && n in init[i].ring;
        assert n in dcs[i].ring;
      }
      if i :| 0 <= i < |dcs| && n in dcs[i].ring {
        if i < |init| { assert n in init[i].ring; }
      }
    }
  }

  /** The last line of a node. */
  lemma {:induction false} LastLine(ring: seq<Node>, name: Name) returns (n: Node)
    requires name in PlacesOf(ring)
    ensures n in ring && n.name == name && n.pos == PlacesOf(ring)[name]
  {
    var init, last := ring[..|ring| - 1], ring[|ring| - 1];
    assert ring == init + [last];
    if last.name == name { n := last; } else { n := LastLine(init, name); }
  }

  lemma {:induction false} EveryLine(ring: seq<Node>, n: Node)
    requires n in ring
    ensures n.name in PlacesOf(ring)
  {
    var init, last := ring[..|ring| - 1], ring[|ring| - 1];
    assert ring == init + [last];
    if n.name != last.name { EveryLine(init, n); }
  }

  lemma {:induction false} SamePosition(ring: seq<Node>, a: Node, b: Node)
    requires Distinct(Positions(ring)) && a in ring && b in ring && a.pos == b.pos
    ensures a == b
  {
    var i :| 0 <= i < |ring| && ring[i] == a;
    var j :| 0 <= j < |ring| && ring[j] == b;
    SamePlaceInList(Positions(ring), i, j);
  }

  lemma {:induction false} OnePosition(ring: seq<Node>, n: Node, size: nat)
    requires OnCircle(Positions(ring), size) && n in ring
    ensures 0 <= n.pos < size
  {
    var i :| 0 <= i < |ring| && ring[i] == n;
    assert Positions(ring)[i] == n.pos;
  }

  /** The lines of one cluster never put two nodes on one position. */
  lemma {:induction false} WhereApart(ring: seq<Node>, size: nat)
    requires Distinct(Positions(ring)) && OnCircle(Positions(ring), size)
    ensures Inside(PlacesOf(ring), size) && AllApart(PlacesOf(ring))
  {
    forall u | u in PlacesOf(ring) ensures 0 <= PlacesOf(ring)[u] < size {
      var n := LastLine(ring, u);
      OnePosition(ring, n, size);
    }
    forall u, v | u in PlacesOf(ring) && v in PlacesOf(ring) && u != v ensures PlacesOf(ring)[u] != PlacesOf(ring)[v] {
      var a := LastLine(ring, u);
      var b := LastLine(ring, v);
      if a.pos == b.pos { SamePosition(ring, a, b); }
    }
  }

  lemma {:induction false} SameDatacenter(dcs: seq<Datacenter>, i: nat, j: nat, name: Name)
    requires Separate(dcs) && i < |dcs| && j < |dcs| && name in Members(dcs[i]) && name in Members(dcs[j])
    ensures i == j
  {
  }

  /** A node of a datacenter with one token per node has one line in the whole cluster. */
  lemma {:induction false} SoleLine(dcs: seq<Datacenter>, i: nat, n: Node, o: Node)
    requires Separate(dcs) && i < |dcs| && Single(dcs[i]) && n in dcs[i].ring && o in Entries(dcs) && o.name == n.name
    ensures o == n
  {
    EntryOf(dcs, o);
    var j :| 0 <= j < |dcs| && o in dcs[j].ring;
    NamedIn(dcs[i].ring, n);
    NamedIn(dcs[j].ring, o);
    SameDatacenter(dcs, i, j, n.name);
    SingleNames(dcs[i]);
    var k :| 0 <= k < |dcs[i].ring| && dcs[i].ring[k] == n;
    var l :| 0 <= l < |dcs[i].ring| && dcs[i].ring[l] == o;
    SamePlaceInList(Names(dcs[i].ring), k, l);
  }

  /** Before any step, a datacenter with one token per node is where the planner believes it. */
  lemma {:induction false} SingleStands(dcs: seq<Datacenter>, i: nat, size: nat)
    requires Running(dcs, size) && i < |dcs| && Single(dcs[i])
    ensures Standing(dcs[i], WhereOf(dcs), size)
  {
    forall n | n in dcs[i].ring ensures n.name in WhereOf(dcs) && WhereOf(dcs)[n.name] == n.pos {
      EntryOf(dcs, n);
      EveryLine(Entries(dcs), n);
      var o := LastLine(Entries(dcs), n.name);
      SoleLine(dcs, i, n, o);
    }
    SingleNames(dcs[i]);
  }

  lemma {:induction false} SingleNames(dc: Datacenter)
    requires Single(dc)
    ensures Distinct(Names(dc.ring))
  {
  }

  // ----- replaying steps over the cluster as the planner believes it -----

  /** Every step moves a node from where it is to a token no node of the cluster
      holds; no two nodes share one before or after any step. */
  ghost predicate SafeReplay(where: Places, steps: seq<Move>, size: nat)
    requires size > 0
    decreases |steps|
  {
    && AllApart(where)
    && (steps == [] ||
        (&& steps[0].name in where && where[steps[0].name] == steps[0].src % size
         && Free(where, steps[0], size)
         && SafeReplay(Apply(where, steps[0], size), steps[1..], size)))
  }

  /** What the steps leave as it is. */
  ghost predicate OnlyMoves(where: Places, where': Places, members: set<Name>) {
    where'.Keys == where.Keys && forall n :: n in where && n !in members ==> where'[n] == where[n]
  }

  lemma {:induction false} ReplayAppend(where: Places, steps: seq<Move>, more: seq<Move>, size: nat)
    requires size > 0 && SafeReplay(where, steps, size) && SafeReplay(After(where, steps, size), more, size)
    ensures SafeReplay(where, steps + more, size)
    ensures After(where, steps + more, size) == After(After(where, steps, size), more, size)
    decreases |steps|
  {
    if steps == [] {
      assert steps + more == more;
    } else {
      ReplayAppend(Apply(where, steps[0], size), steps[1..], more, size);
      assert (steps + more)[1..] == steps[1..] + more;
    }
  }

  /** pos is a part of the cluster. */
  ghost predicate PartOf(pos: Places, where: Places) {
    forall n :: n in pos ==> n in where && where[n] == pos[n]
  }

  /** The members' own places, as a part of the cluster. */
  lemma {:induction false} RingIsPart(dc: Datacenter, where: Places, size: nat)
    requires Standing(dc, where, size)
    ensures PlacesOf(dc.ring).Keys == Members(dc) && PartOf(PlacesOf(dc.ring), where)
  {
    PlacesAre(dc.ring);
    forall n ensures n in PlacesOf(dc.ring) <==> n in Members(dc) {
      if n in PlacesOf(dc.ring) {
        var i :| 0 <= i < |dc.ring| && dc.ring[i].name == n;
        assert Names(dc.ring)[i] == n;
      }
      if n in Members(dc) {
        var i :| 0 <= i < |dc.ring| && Names(dc.ring)[i] == n;
      }
    }
    forall n | n in PlacesOf(dc.ring) ensures n in where && where[n] == PlacesOf(dc.ring)[n] {
      var i := NodeAt(dc.ring, n);
      assert dc.ring[i] in dc.ring;
    }
  }

  /** The moves go to no token held outside the part. */
  ghost predicate AvoidOthers(left: set<Move>, where: Places, members: set<Name>, size: nat)
    requires size > 0
  {
    forall mv :: mv in left ==> mv.dst % size !in Elsewhere(where, members)
  }

  lemma {:induction false} ClusterStep(pos: Places, where: Places, left: set<Move>, mv: Move, size: nat)
    requires size > 0 && PartOf(pos, where) && Inside(where, size) && AllApart(where)
    requires Pending(pos, left, size) && AvoidOthers(left, where, pos.Keys, size) && mv in left && Free(pos, mv, size)
    ensures Free(where, mv, size)
    ensures var where' := Apply(where, mv, size);
            PartOf(Apply(pos, mv, size), where') && Inside(where', size) && AllApart(where')
            && Pending(Apply(pos, mv, size), left - {mv}, size)
            && AvoidOthers(left - {mv}, where', pos.Keys, size) && OnlyMoves(where, where', pos.Keys)
  {
    forall n | n in where && n != mv.name ensures where[n] != mv.dst % size {
      if n !in pos { assert where[n] in Elsewhere(where, pos.Keys); }
    }
    assert Elsewhere(Apply(where, mv, size), pos.Keys) == Elsewhere(where, pos.Keys);
  }

  /** A datacenter's run is safe for the whole cluster as the planner believes it. */
  lemma {:induction false} ClusterRun(pos: Places, where: Places, left: set<Move>, run: seq<Move>, size: nat)
    requires size > 0 && PartOf(pos, where) && Inside(where, size) && AllApart(where)
    requires Pending(pos, left, size) && AvoidOthers(left, where, pos.Keys, size) && Runs(pos, left, run, size)
    ensures SafeReplay(where, run, size)
    ensures Inside(After(where, run, size), size) && AllApart(After(where, run, size))
    ensures OnlyMoves(where, After(where, run, size), pos.Keys)
    decreases |run|
  {
    if run != [] {
      ClusterStep(pos, where, left, run[0], size);
      ClusterRun(Apply(pos, run[0], size), Apply(where, run[0], size), left - {run[0]}, run[1..], size);
    }
  }

  // ----- the tokens the nodes really have -----

  type TokenSets = map<Name, set<int>>

  function TokensOf(ring: seq<Node>): TokenSets {
    map name | name in SetOf(Names(ring)) :: set n | n in ring && n.name == name :: n.pos
  }

  /** Tokens the planner does not see: those of a node other than its last one. */
  function Hidden(ring: seq<Node>): set<int> {
    set n | n in ring && n.name in PlacesOf(ring) && PlacesOf(ring)[n.name] != n.pos :: n.pos
  }

  ghost predicate NoneShared(tokens: TokenSets) {
    forall u, v :: u in tokens && v in tokens && u != v ==> tokens[u] !! tokens[v]
  }

  /** A node that moves has its new token only. */
  function Retoken(tokens: TokenSets, mv: Move, size: nat): TokenSets
    requires size > 0
  {
    tokens[mv.name := {mv.dst % size}]
  }

  function TokensAfter(tokens: TokenSets, steps: seq<Move>, size: nat): TokenSets
    requires size > 0
    decreases |steps|
  {
    if steps == [] then tokens else TokensAfter(Retoken(tokens, steps[0], size), steps[1..], size)
  }

  /** No two nodes share a token before the steps or after any of them. */
  ghost predicate NeverShared(tokens: TokenSets, steps: seq<Move>, size: nat)
    requires size > 0
  {
    forall k :: 0 <= k <= |steps| ==> NoneShared(TokensAfter(tokens, steps[..k], size))
  }

  lemma {:induction false} NeverSharedStep(tokens: TokenSets, steps: seq<Move>, size: nat)
    requires size > 0 && steps != [] && NoneShared(tokens)
    ensures NeverShared(tokens, steps, size) <==> NeverShared(Retoken(tokens, steps[0], size), steps[1..], size)
  {
    var next := Retoken(tokens, steps[0], size);
    forall k | 0 <= k < |steps|
      ensures TokensAfter(tokens, steps[..k + 1], size) == TokensAfter(next, steps[1..][..k], size)
    {
      assert steps[..k + 1][1..] == steps[1..][..k];
    }
    if NeverShared(tokens, steps, size) {
      forall k | 0 <= k <= |steps| - 1 ensures NoneShared(TokensAfter(next, steps[1..][..k], size)) {
        assert NoneShared(TokensAfter(tokens, steps[..k + 1], size));
      }
    }
    if NeverShared(next, steps[1..], size) {
      forall k | 0 <= k <= |steps| ensures NoneShared(TokensAfter(tokens, steps[..k], size)) {
        if k > 0 { assert NoneShared(TokensAfter(next, steps[1..][..k - 1], size)); }
      }
    }
  }

  /** What the planner believes and what is: the nodes that may move have the one token
      it believes, the others that one and hidden ones. */
  ghost predicate Tracks(where: Places, tokens: TokenSets, hidden: set<int>, movers: set<Name>) {
    && where.Keys == tokens.Keys
    && (forall n :: n in movers && n in where ==> tokens[n] == {where[n]})
    && (forall n, t :: n in where && t in tokens[n] ==> t == where[n] || t in hidden)
    && forall t :: t in hidden ==> exists n :: n in tokens && n !in movers && t in tokens[n]
  }

  lemma {:induction false} TracksStep(where: Places, tokens: TokenSets, hidden: set<int>, movers: set<Name>, mv: Move,
        size: nat)
    requires size > 0 && Tracks(where, tokens, hidden, movers) && mv.name in movers && mv.name in where
    requires Free(where, mv, size) && NoneShared(tokens)
    ensures Tracks(Apply(where, mv, size), Retoken(tokens, mv, size), hidden, movers)
    ensures NoneShared(Retoken(tokens, mv, size)) <==> mv.dst % size !in hidden
  {
    var next := Retoken(tokens, mv, size);
    forall t | t in hidden ensures exists n :: n in next && n !in movers && t in next[n] {
      var n :| n in tokens && n !in movers && t in tokens[n];
      assert n in next && next[n] == tokens[n];
    }
    if mv.dst % size in hidden {
      var n :| n in next && n !in movers && mv.dst % size in next[n];
      assert mv.dst % size in next[n] * next[mv.name];
    } else {
      forall u, v | u in next && v in next && u != v ensures next[u] !! next[v] {
        if u == mv.name { StaysApart(where, tokens, hidden, movers, mv, v, size); }
        if v == mv.name { StaysApart(where, tokens, hidden, movers, mv, u, size); }
      }
    }
  }

  lemma {:induction false} StaysApart(where: Places, tokens: TokenSets, hidden: set<int>, movers: set<Name>, mv: Move,
        v: Name, size: nat)
    requires size > 0 && Tracks(where, tokens, hidden, movers) && Free(where, mv, size)
    requires v in where && v != mv.name && mv.dst % size !in hidden
    ensures mv.dst % size !in tokens[v]
  {
  }

  /** Steps that are safe as the planner believes the cluster are safe as it is exactly
      when none lands on a hidden token. */
  lemma {:induction false} SafeUnlessHidden(where: Places, tokens: TokenSets, hidden: set<int>, movers: set<Name>,
        steps: seq<Move>, size: nat)
    requires size > 0 && Tracks(where, tokens, hidden, movers) && NoneShared(tokens) && SafeReplay(where, steps, size)
    requires forall mv :: mv in steps ==> mv.name in movers
    ensures NeverShared(tokens, steps, size) <==> forall mv :: mv in steps ==> mv.dst % size !in hidden
    decreases |steps|
  {
    if steps == [] {
      assert TokensAfter(tokens, steps[..0], size) == tokens;
    } else {
      var mv, next := steps[0], Retoken(tokens, steps[0], size);
      TracksStep(where, tokens, hidden, movers, mv, size);
      NeverSharedStep(tokens, steps, size);
      assert steps == [mv] + steps[1..];
      if NoneShared(next) {
        SafeUnlessHidden(Apply(where, mv, size), next, hidden, movers, steps[1..], size);
      } else {
        assert steps[1..][..0] == [] && TokensAfter(next, [], size) == next;
      }
    }
  }

  /** The nodes of the datacenters with one token per node. */
  ghost function Movers(dcs: seq<Datacenter>): set<Name> {
    set i, n | 0 <= i < |dcs| && Single(dcs[i]) && n in Members(dcs[i]) :: n
  }

  lemma {:induction false} TokensThere(ring: seq<Node>, name: Name, t: int)
    requires name in TokensOf(ring) && t in TokensOf(ring)[name]
    ensures exists n :: n in ring && n.name == name && n.pos == t
  {
  }

  /** Before any step. */
  lemma {:induction false} StartTracks(dcs: seq<Datacenter>, size: nat)
    requires Running(dcs, size)
    ensures Tracks(WhereOf(dcs), TokensOf(Entries(dcs)), Hidden(Entries(dcs)), Movers(dcs))
    ensures NoneShared(TokensOf(Entries(dcs)))
  {
    var ring := Entries(dcs);
    var where, tokens, hidden := PlacesOf(ring), TokensOf(ring), Hidden(ring);
    forall n: Name ensures n in where <==> n in tokens { SameNodes(ring, n); }
    forall n, t | n in where && t in tokens[n] ensures t == where[n] || t in hidden {
      var o :| o in ring && o.name == n && o.pos == t;
    }
    forall n | n in Movers(dcs) && n in where ensures tokens[n] == {where[n]} { MoverTokens(dcs, n); }
    forall t | t in hidden ensures exists n :: n in tokens && n !in Movers(dcs) && t in tokens[n] {
      HiddenHeld(dcs, size, t);
    }
    forall u, v | u in tokens && v in tokens && u != v ensures tokens[u] !! tokens[v] {
      forall t | t in tokens[u] ensures t !in tokens[v] {
        if t in tokens[v] {
          TokensThere(ring, u, t);
          TokensThere(ring, v, t);
          var a :| a in ring && a.name == u && a.pos == t;
          var b :| b in ring && b.name == v && b.pos == t;
          SamePosition(ring, a, b);
        }
      }
    }
  }

  lemma {:induction false} SameNodes(ring: seq<Node>, name: Name)
    ensures name in PlacesOf(ring) <==> name in TokensOf(ring)
  {
    if name in PlacesOf(ring) {
      var n := LastLine(ring, name);
      NamedIn(ring, n);
    }
    if name in TokensOf(ring) {
      var i :| 0 <= i < |ring| && Names(ring)[i] == name;
      EveryLine(ring, ring[i]);
    }
  }

  lemma {:induction false} MoverTokens(dcs: seq<Datacenter>, name: Name)
    requires Separate(dcs) && name in Movers(dcs) && name in WhereOf(dcs)
    ensures name in TokensOf(Entries(dcs)) && TokensOf(Entries(dcs))[name] == {WhereOf(dcs)[name]}
  {
    var ring := Entries(dcs);
    SameNodes(ring, name);
    var last := LastLine(ring, name);
    var i :| 0 <= i < |dcs| && Single(dcs[i]) && name in Members(dcs[i]);
    var k :| 0 <= k < |dcs[i].ring| && Names(dcs[i].ring)[k] == name;
    SoleLine(dcs, i, dcs[i].ring[k], last);
    OnlyToken(dcs, i, dcs[i].ring[k]);
  }

  lemma {:induction false} OnlyToken(dcs: seq<Datacenter>, i: nat, n: Node)
    requires Separate(dcs) && i < |dcs| && Single(dcs[i]) && n in dcs[i].ring && n.name in TokensOf(Entries(dcs))
    ensures TokensOf(Entries(dcs))[n.name] == {n.pos}
  {
    var ring := Entries(dcs);
    EntryOf(dcs, n);
    forall t | t in TokensOf(ring)[n.name] ensures t == n.pos {
      TokensThere(ring, n.name, t);
      var o :| o in ring && o.name == n.name && o.pos == t;
      SoleLine(dcs, i, n, o);
    }
    assert n.pos in TokensOf(ring)[n.name];
  }

  lemma {:induction false} HiddenHeld(dcs: seq<Datacenter>, size: nat, t: int)
    requires Running(dcs, size) && t in Hidden(Entries(dcs))
    ensures var tokens := TokensOf(Entries(dcs)); exists n :: n in tokens && n !in Movers(dcs) && t in tokens[n]
  {
    var ring := Entries(dcs);
    var n :| n in ring && n.name in PlacesOf(ring) && PlacesOf(ring)[n.name] != n.pos && n.pos == t;
    SameNodes(ring, n.name);
    assert t in TokensOf(ring)[n.name];
    if n.name in Movers(dcs) { MoverTokens(dcs, n.name); }
  }
}
