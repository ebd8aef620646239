/** Worked out positions moved on until no other node of the cluster holds them. */
module FreeSpots {
  import opened Lists
  import opened Arith
  import opened Ring
  import opened Balanced

  /** d positions on from a start, round the circle. */
  function On(start: int, d: nat, size: nat): int
    requires size > 0
  {
    (start + d) % size
  }

  lemma {:induction false} OnIs(start: int, d: nat, size: nat)
    requires 0 <= start < size && d <= size
    ensures On(start, d, size) == if start + d < size then start + d else start + d - size
    ensures 0 <= On(start, d, size) < size
  {
    if start + d < size { SmallMod(start + d, size); } else { ModIs(start + d, size, 1); }
  }

  lemma {:induction false} OneOn(start: int, d: nat, size: nat)
    requires 0 <= start < size && d < size
    ensures On(start, d + 1, size) == (On(start, d, size) + 1) % size
  {
    OnIs(start, d, size);
    OnIs(start, d + 1, size);
    OnIs(On(start, d, size), 1, size);
  }

  ghost predicate TakenUpTo(start: int, d: nat, taken: set<int>, size: nat)
    requires size > 0
  {
    forall e: nat :: e < d ==> On(start, e, size) in taken
  }

  /** p is the first position from a start on that is not taken. */
  ghost predicate FirstFree(p: int, start: int, taken: set<int>, size: nat)
    requires size > 0
  {
    p !in taken && exists d: nat :: d < size && p == On(start, d, size) && TakenUpTo(start, d, taken, size)
  }

  /** As many positions are taken as are passed. */
  lemma {:induction false} PassedAreTaken(start: int, d: nat, taken: set<int>, size: nat)
    requires 0 <= start < size && d <= size && TakenUpTo(start, d, taken, size)
    ensures d <= |taken|
  {
    if d > 0 {
      var last := On(start, d - 1, size);
      forall e: nat | e < d - 1 ensures On(start, e, size) in taken - {last} {
        OnIs(start, e, size);
        OnIs(start, d - 1, size);
      }
      assert last in taken && |taken - {last}| == |taken| - 1;
      PassedAreTaken(start, d - 1, taken - {last}, size);
    }
  }

  lemma {:induction false} TakenMore(start: int, d: nat, taken: set<int>, size: nat)
    requires 0 <= start < size && d < size && |taken| < size
    requires TakenUpTo(start, d, taken, size) && On(start, d, size) in taken
    ensures TakenUpTo(start, d + 1, taken, size) && d + 1 < size
  {
    if d + 1 == size { PassedAreTaken(start, size, taken, size); }
  }

  /** Every spot in turn on the first position free of the others and of the spots before it. */
  ghost predicate Nudged(out: seq<int>, spots: seq<int>, taken: set<int>, size: nat)
    requires size > 0
  {
    |out| == |spots| && forall i :: 0 <= i < |out| ==> FirstFree(out[i], spots[i], taken + SetOf(out[..i]), size)
  }

  /** One position moved on, while another node holds it. */
  method MoveOn(start: int, taken: set<int>, size: nat) returns (p: int)
    requires 0 <= start < size && |taken| < size
    ensures 0 <= p < size && FirstFree(p, start, taken, size)
  {
    p := start;
    ghost var d := 0;
    OnIs(start, 0, size);
    while p in taken
      invariant d < size && p == On(start, d, size) && TakenUpTo(start, d, taken, size)
      invariant 0 <= p < size
      decreases size - d
    {
      TakenMore(start, d, taken, size);
      OneOn(start, d, size);
      OnIs(start, d + 1, size);
      p := (p + 1) % size;
      d := d + 1;
    }
  }

  lemma {:induction false} NudgedMore(out: seq<int>, spots: seq<int>, taken: set<int>, size: nat, p: int)
    requires size > 0 && |out| < |spots| && Nudged(out, spots[..|out|], taken, size)
    requires FirstFree(p, spots[|out|], taken + SetOf(out), size)
    ensures Nudged(out + [p], spots[..|out| + 1], taken, size)
    ensures SetOf(out + [p]) == SetOf(out) + {p}
  {
    var more := out + [p];
    forall i | 0 <= i < |more| ensures FirstFree(more[i], spots[..|more|][i], taken + SetOf(more[..i]), size) {
      assert more[..i] == out[..i];
      if i == |out| { assert out[..i] == out; } else { assert spots[..|out|][i] == spots[i]; }
    }
  }

  /** The spots so far, and the positions taken with them. */
  ghost predicate NudgeState(out: seq<int>, taken': set<int>, spots: seq<int>, taken: set<int>, size: nat)
    requires size > 0 && |out| <= |spots|
  {
    && Nudged(out, spots[..|out|], taken, size) && OnCircle(out, size)
    && taken' == taken + SetOf(out) && |taken'| <= |taken| + |out|
  }

  lemma {:induction false} NudgeStep(out: seq<int>, taken': set<int>, spots: seq<int>, taken: set<int>, size: nat,
        p: int)
    requires size > 0 && |out| < |spots| && NudgeState(out, taken', spots, taken, size)
    requires 0 <= p < size && FirstFree(p, spots[|out|], taken', size)
    ensures NudgeState(out + [p], taken' + {p}, spots, taken, size)
  {
    NudgedMore(out, spots, taken, size, p);
  }

  /** The spots in turn, each moved on past the positions taken, those of the spots before it included. */
  method Nudge(spots: seq<int>, taken: set<int>, size: nat) returns (out: seq<int>, taken': set<int>)
    requires size > 0 && OnCircle(spots, size) && |taken| + |spots| <= size
    ensures Nudged(out, spots, taken, size) && OnCircle(out, size)
    ensures taken' == taken + SetOf(out)
  {
    out, taken' := [], taken;
    while |out| < |spots|
      invariant |out| <= |spots| && NudgeState(out, taken', spots, taken, size)
    {
      var p := MoveOn(spots[|out|], taken', size);
      NudgeStep(out, taken', spots, taken, size, p);
      out, taken' := out + [p], taken' + {p};
    }
    assert spots[..|out|] == spots;
  }

  /** Nudged spots are held by no other node and by no two of them. */
  lemma {:induction false} NudgedApart(out: seq<int>, spots: seq<int>, taken: set<int>, size: nat)
    requires size > 0 && Nudged(out, spots, taken, size)
    ensures Distinct(out) && forall p :: p in out ==> p !in taken
  {
    forall i, j | 0 <= i < j < |out| ensures out[i] != out[j] {
      assert out[i] in out[..j];
      assert FirstFree(out[j], spots[j], taken + SetOf(out[..j]), size);
    }
    forall p | p in out ensures p !in taken {
      var i :| 0 <= i < |out| && out[i] == p;
      assert FirstFree(out[i], spots[i], taken + SetOf(out[..i]), size);
    }
  }

  lemma {:induction false} SetOfAtMost(s: seq<int>)
    ensures |SetOf(s)| <= |s|
  {
    if s != [] {
      SetOfAtMost(s[..|s| - 1]);
      assert SetOf(s) == SetOf(s[..|s| - 1]) + {s[|s| - 1]};
    }
  }

  /** A spot is moved on past no more positions than are taken. */
  lemma {:induction false} NudgedNear(out: seq<int>, spots: seq<int>, taken: set<int>, size: nat, i: nat)
      returns (d: nat)
    requires size > 0 && OnCircle(spots, size) && Nudged(out, spots, taken, size) && i < |out|
    ensures d <= |taken| + i && d < size && out[i] == On(spots[i], d, size)
  {
    var held := taken + SetOf(out[..i]);
    assert FirstFree(out[i], spots[i], held, size);
    d :| d < size && out[i] == On(spots[i], d, size) && TakenUpTo(spots[i], d, held, size);
    PassedAreTaken(spots[i], d, held, size);
    SetOfAtMost(out[..i]);
  }

  /** Spots nobody holds stay where they are: exactly then nothing is moved on. */
  lemma {:induction false} NudgeKeepsFree(out: seq<int>, spots: seq<int>, taken: set<int>, size: nat)
    requires size > 0 && OnCircle(spots, size) && Nudged(out, spots, taken, size)
    ensures out == spots <==> Distinct(spots) && forall p :: p in spots ==> p !in taken
  {
    NudgedApart(out, spots, taken, size);
    if Distinct(spots) && forall p :: p in spots ==> p !in taken {
      FreeStays(out, spots, taken, size, |out|);
      assert out == spots;
    }
  }

  lemma {:induction false} FreeStays(out: seq<int>, spots: seq<int>, taken: set<int>, size: nat, k: nat)
    requires size > 0 && OnCircle(spots, size) && Nudged(out, spots, taken, size) && k <= |out|
    requires Distinct(spots) && forall p :: p in spots ==> p !in taken
    ensures forall i :: 0 <= i < k ==> out[i] == spots[i]
  {
    if k > 0 {
      FreeStays(out, spots, taken, size, k - 1);
      var before := taken + SetOf(out[..k - 1]);
      forall i | 0 <= i < k - 1 ensures out[i] != spots[k - 1] { }
      assert spots[k - 1] in spots && spots[k - 1] !in before;
      assert FirstFree(out[k - 1], spots[k - 1], before, size);
      StartsFree(out[k - 1], spots[k - 1], before, size);
    }
  }

  lemma {:induction false} StartsFree(p: int, start: int, taken: set<int>, size: nat)
    requires 0 <= start < size && FirstFree(p, start, taken, size) && start !in taken
    ensures p == start
  {
    var d: nat :| d < size && p == On(start, d, size) && TakenUpTo(start, d, taken, size);
    OnIs(start, 0, size);
    if d > 0 { FirstTaken(start, d, taken, size); }
  }

  lemma {:induction false} FirstTaken(start: int, d: nat, taken: set<int>, size: nat)
    requires size > 0 && d > 0 && TakenUpTo(start, d, taken, size)
    ensures On(start, 0, size) in taken
  {
  }

  // ----- a datacenter's own offset -----

  const OFFSET_TRIES := 1000

  ghost predicate OffsetFree(i: nat, count: nat, size: nat, taken: set<int>) {
    var spots := BalancedPositions(count, size, DcOffset(i));
    spots.Ok? && forall p :: p in spots.value ==> p !in taken
  }

  /** Offsets grow: once one is past the spacing, so are those after it. */
  lemma {:induction false} StillTooFar(i: nat, j: nat, count: nat, size: nat)
    requires i <= j && BalancedPositions(count, size, DcOffset(i)).TokenError?
    ensures BalancedPositions(count, size, DcOffset(j)).TokenError?
  {
  }

  /** The datacenter's offset, or the next one whose positions nobody holds; refused exactly
      when none of those tried is free. */
  method FreeOffset(index: nat, count: nat, size: nat, taken: set<int>) returns (r: Result<int>)
    ensures r.Ok? ==> exists i: nat :: index <= i < index + OFFSET_TRIES && r.value == DcOffset(i)
                        && OffsetFree(i, count, size, taken)
                        && forall j: nat :: index <= j < i ==> !OffsetFree(j, count, size, taken)
    ensures r.TokenError? <==> forall i: nat :: index <= i < index + OFFSET_TRIES ==> !OffsetFree(i, count, size, taken)
  {
    var i := index;
    while i < index + OFFSET_TRIES
      invariant index <= i <= index + OFFSET_TRIES
      invariant forall j: nat :: index <= j < i ==> !OffsetFree(j, count, size, taken)
    {
      var spots := BalancedPositions(count, size, DcOffset(i));
      if spots.TokenError? {
        forall j: nat | i <= j < index + OFFSET_TRIES ensures !OffsetFree(j, count, size, taken) {
          StillTooFar(i, j, count, size);
        }
        return TokenError;
      }
      if forall k :: 0 <= k < |spots.value| ==> spots.value[k] !in taken {
        assert OffsetFree(i, count, size, taken);
        return Ok(DcOffset(i));
      }
      i := i + 1;
    }
    return TokenError;
  }
}
