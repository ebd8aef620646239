/** The moves the operator asks for: which are taken on and which refused. */
module OperatorMoves {
  import opened Lists
  import opened Ring
  import opened MoveOrder

  /** The target is held by a node of another datacenter, or by one that is not asked to move. */
  predicate Taken(where: Places, members: set<Name>, targets: map<Name, Result<int>>, name: Name, dst: int) {
    exists n :: n in where && where[n] == dst && n != name && (n !in members || n !in targets)
  }

  ghost predicate IsWanted(mv: Move, where: Places, members: set<Name>, targets: map<Name, Result<int>>) {
    && mv.name in members && mv.name in targets && mv.name in where && targets[mv.name] == Ok(mv.dst)
    && mv.src == where[mv.name] != mv.dst && !Taken(where, members, targets, mv.name, mv.dst)
  }

  ghost predicate IsRefused(name: Name, where: Places, members: set<Name>, targets: map<Name, Result<int>>) {
    && name in members && name in targets
    && (targets[name].TokenError? || Taken(where, members, targets, name, targets[name].value))
  }

  /** The moves asked for that are not refused. */
  ghost function WantedSet(where: Places, members: set<Name>, targets: map<Name, Result<int>>): set<Move> {
    set n | n in members && n in targets && n in where && targets[n].Ok? && where[n] != targets[n].value
            && !Taken(where, members, targets, n, targets[n].value)
      :: Move(n, where[n], targets[n].value)
  }

  lemma {:induction false} WantedSetIs(where: Places, members: set<Name>, targets: map<Name, Result<int>>, mv: Move)
    ensures mv in WantedSet(where, members, targets) <==> IsWanted(mv, where, members, targets)
  {
  }

  /** The moves and the refusals among the first names. */
  ghost predicate WantedSoFar(moves: seq<Move>, refused: seq<Name>, names: seq<Name>, i: nat, where: Places,
                              members: set<Name>, targets: map<Name, Result<int>>)
    requires i <= |names|
  {
    && DistinctMovers(moves)
    && (forall mv :: mv in moves <==> mv.name in names[..i] && IsWanted(mv, where, members, targets))
    && (forall n :: n in refused <==> n in names[..i] && IsRefused(n, where, members, targets))
  }

  lemma {:induction false} WantedMove(moves: seq<Move>, refused: seq<Name>, names: seq<Name>, i: nat, where: Places,
                   members: set<Name>, targets: map<Name, Result<int>>, mv: Move)
    requires i < |names| && Distinct(names) && WantedSoFar(moves, refused, names, i, where, members, targets)
    requires mv.name == names[i] && IsWanted(mv, where, members, targets) &&
        !IsRefused(names[i], where, members, targets)
    ensures WantedSoFar(moves + [mv], refused, names, i + 1, where, members, targets)
  {
    assert names[..i + 1] == names[..i] + [names[i]];
    forall k | 0 <= k < |moves| ensures moves[k].name != mv.name {
      assert moves[k] in moves;
    }
    forall o: Move | o.name in names[..i + 1] && IsWanted(o, where, members, targets) ensures o in moves + [mv] {
      if o.name == mv.name { assert o == mv; }
    }
  }

  lemma {:induction false} WantedNot(moves: seq<Move>, refused: seq<Name>, names: seq<Name>, i: nat, where: Places,
                  members: set<Name>, targets: map<Name, Result<int>>)
    requires i < |names| && WantedSoFar(moves, refused, names, i, where, members, targets)
    requires forall mv: Move :: mv.name == names[i] ==> !IsWanted(mv, where, members, targets)
    ensures IsRefused(names[i], where, members, targets) ==>
              WantedSoFar(moves, refused + [names[i]], names, i + 1, where, members, targets)
    ensures !IsRefused(names[i], where, members, targets) ==>
              WantedSoFar(moves, refused, names, i + 1, where, members, targets)
  {
    assert names[..i + 1] == names[..i] + [names[i]];
  }

  /** The moves asked for in one datacenter, and the names refused: a token that
      cannot be read, or one held by a node that does not move away first. */
  method WantedMoves(names: seq<Name>, where: Places, targets: map<Name, Result<int>>)
    returns (moves: seq<Move>, refused: seq<Name>)
    requires Distinct(names) && forall n :: n in names ==> n in where
    ensures DistinctMovers(moves)
    ensures SetOf(moves) == WantedSet(where, SetOf(names), targets)
    ensures forall n :: n in refused <==> IsRefused(n, where, SetOf(names), targets)
  {
    var members := SetOf(names);
    moves, refused := [], [];
    var i := 0;
    while i < |names|
      invariant 0 <= i <= |names| && WantedSoFar(moves, refused, names, i, where, members, targets)
    {
      var step, no := WantedOne(names[i], where, members, targets);
      if step != [] {
        WantedMove(moves, refused, names, i, where, members, targets, step[0]);
      } else {
        WantedNot(moves, refused, names, i, where, members, targets);
      }
      moves, refused := moves + step, if no then refused + [names[i]] else refused;
      i := i + 1;
    }
    assert names[..i] == names;
    forall mv ensures mv in moves <==> mv in WantedSet(where, members, targets) {
      WantedSetIs(where, members, targets, mv);
    }
  }

  method WantedOne(name: Name, where: Places, members: set<Name>, targets: map<Name, Result<int>>)
    returns (step: seq<Move>, no: bool)
    requires name in where && name in members
    ensures no <==> IsRefused(name, where, members, targets)
    ensures no ==> step == []
    ensures |step| <= 1 && forall mv: Move :: mv.name == name ==>
        (IsWanted(mv, where, members, targets) <==> step == [mv])
    ensures step != [] ==> step[0].name == name
  {
    if name !in targets { return [], false; }
    match targets[name]
    case TokenError => return [], true;
    case Ok(dst) =>
      if Taken(where, members, targets, name, dst) { return [], true; }
      return if where[name] != dst then [Move(name, where[name], dst)] else [], false;
  }
}
