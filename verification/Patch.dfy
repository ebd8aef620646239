/** A unified diff applied to the lines of a live file. */
module Patch {
  import opened Options

  /** A line of text, without its newline. */
  type Text = string

  /** A line of a diff: the start of a hunk (the line it starts at in the live file, or
      after which it inserts when it has no live line), a marked line, an empty one. */
  datatype DiffLine = Hunk(start: nat, inserts: bool) | Marked(mark: char, body: Text) | Blank

  /** The lines of the new file so far, those the diff adds, the next live line, whether a hunk began. */
  datatype State = State(lines: seq<Text>, added: set<nat>, at: nat, hunk: bool)

  datatype Patched = Patched(lines: seq<Text>, added: set<nat>)

  const START := State([], {}, 0, false)

  function StripReturn(t: Text): Text {
    if t != [] && t[|t| - 1] == '\r' then StripReturn(t[..|t| - 1]) else t
  }

  /** The same line, a carriage return at its end aside. */
  predicate Fits(a: Text, b: Text) {
    StripReturn(a) == StripReturn(b)
  }

  predicate Readable(live: seq<Text>, st: State) {
    st.at <= |live|
  }

  function StartHunk(live: seq<Text>, st: State, start: nat, inserts: bool): Option<State>
    requires Readable(live, st)
  {
    var from := if inserts then start as int else start - 1;
    if from < st.at || from > |live| then None
    else Some(State(st.lines + live[st.at..from], st.added, from, true))
  }

  function ReadMarked(live: seq<Text>, st: State, mark: char, body: Text): Option<State>
    requires Readable(live, st)
  {
    if (mark == ' ' || mark == '-') && (st.at >= |live| || !Fits(live[st.at], body)) then None
    else if mark == ' ' then Some(st.(lines := st.lines + [live[st.at]], at := st.at + 1))
    else if mark == '-' then Some(st.(at := st.at + 1))
    else if mark == '+' then Some(st.(lines := st.lines + [body], added := st.added + {|st.lines|}))
    else Some(st)
  }

  /** One line of the diff; None when it does not fit the live file. */
  function Step(live: seq<Text>, st: State, line: DiffLine): (r: Option<State>)
    requires Readable(live, st)
    ensures r.Some? ==> Readable(live, r.value)
  {
    match line
    case Hunk(start, inserts) => StartHunk(live, st, start, inserts)
    case Blank => Some(st)
    case Marked(mark, body) => if st.hunk then ReadMarked(live, st, mark, body) else Some(st)
  }

  function Run(live: seq<Text>, st: State, diff: seq<DiffLine>): (r: Option<State>)
    requires Readable(live, st)
    ensures r.Some? ==> Readable(live, r.value)
    decreases |diff|
  {
    if diff == [] then Some(st)
    else
      var next := Step(live, st, diff[0]);
      if next.None? then None else Run(live, next.value, diff[1..])
  }

  function Finish(live: seq<Text>, st: State): Patched
    requires Readable(live, st)
  {
    Patched(st.lines + live[st.at..], st.added)
  }

  function Apply(live: seq<Text>, diff: seq<DiffLine>): Option<Patched> {
    var end := Run(live, START, diff);
    if end.None? then None else Some(Finish(live, end.value))
  }

  /** The new file's lines and which of them the diff adds, None when the diff does not fit. */
  method PatchLines(live: seq<Text>, diff: seq<DiffLine>) returns (r: Option<Patched>)
    ensures r == Apply(live, diff)
  {
    var lines: seq<Text>, added: set<nat>, at: nat, hunk := [], {}, 0, false;
    var i := 0;
    while i < |diff|
      invariant 0 <= i <= |diff| && at <= |live|
      invariant Run(live, START, diff) == Run(live, State(lines, added, at, hunk), diff[i..])
    {
      assert diff[i..][0] == diff[i] && diff[i..][1..] == diff[i + 1..];
      match diff[i] {
        case Hunk(start, inserts) =>
          var from := if inserts then start as int else start - 1;
          if from < at || from > |live| { return None; }
          lines := lines + live[at..from];
          at, hunk := from, true;
        case Blank =>
        case Marked(mark, body) =>
          if hunk {
            if (mark == ' ' || mark == '-') && (at >= |live| || !Fits(live[at], body)) { return None; }
            if mark == ' ' {
              lines, at := lines + [live[at]], at + 1;
            } else if mark == '-' {
              at := at + 1;
            } else if mark == '+' {
              added := added + {|lines|};
              lines := lines + [body];
            }
          }
      }
      i := i + 1;
    }
    return Some(Patched(lines + live[at..], added));
  }

  // ----- any diff: nothing but the deleted lines is lost, nothing but the added ones is new -----

  /** The elements whose place is in the set, or those whose place is not. */
  function Those<T>(s: seq<T>, places: set<nat>, there: bool): seq<T> {
    if s == [] then []
    else Those(s[..|s| - 1], places, there) + if (|s| - 1 in places) == there then [s[|s| - 1]] else []
  }

  lemma {:induction false} ThoseMore<T>(s: seq<T>, x: T, places: set<nat>, there: bool)
    ensures Those(s + [x], places, there) == Those(s, places, there) + if (|s| in places) == there then [x] else []
  {
    assert (s + [x])[..|s|] == s;
  }

  lemma {:induction false} ThoseSame<T>(s: seq<T>, a: set<nat>, b: set<nat>, there: bool)
    requires forall i :: 0 <= i < |s| ==> (i in a <==> i in b)
    ensures Those(s, a, there) == Those(s, b, there)
  {
    if s != [] { ThoseSame(s[..|s| - 1], a, b, there); }
  }

  lemma {:induction false} ThoseOutside<T>(s: seq<T>, more: seq<T>, places: set<nat>, there: bool)
    requires forall i :: |s| <= i < |s| + |more| ==> i !in places
    ensures Those(s + more, places, there) == Those(s, places, there) + if there then [] else more
    decreases |more|
  {
    if more == [] {
      assert s + more == s;
    } else {
      var init, last := more[..|more| - 1], more[|more| - 1];
      ThoseOutside(s, init, places, there);
      assert s + more == s + init + [last];
      ThoseMore(s + init, last, places, there);
      assert more == init + [last];
    }
  }

  lemma {:induction false} ThoseKept<T>(s: seq<T>, more: seq<T>, places: set<nat>)
    requires forall i :: |s| <= i < |s| + |more| ==> i !in places
    ensures Those(s + more, places, false) == Those(s, places, false) + more
    ensures Those(s + more, places, true) == Those(s, places, true)
  {
    ThoseOutside(s, more, places, false);
    ThoseOutside(s, more, places, true);
  }

  /** The body of a line of the diff, when it is of that mark and within a hunk. */
  function Body(line: DiffLine, mark: char, hunk: bool): seq<Text> {
    if hunk && line.Marked? && line.mark == mark then [line.body] else []
  }

  function Bodies(diff: seq<DiffLine>, mark: char, hunk: bool): seq<Text> {
    if diff == [] then []
    else Body(diff[0], mark, hunk) + Bodies(diff[1..], mark, hunk || diff[0].Hunk?)
  }

  ghost predicate AllFit(a: seq<Text>, b: seq<Text>) {
    |a| == |b| && forall i :: 0 <= i < |a| ==> Fits(a[i], b[i])
  }

  /** Where a run is: its lines, but the added ones, are the live lines read, but the deleted ones. */
  ghost predicate Accounted(live: seq<Text>, st: State, deleted: set<nat>, plus: seq<Text>, minus: seq<Text>) {
    && Readable(live, st)
    && (forall i :: i in st.added ==> i < |st.lines|)
    && (forall i :: i in deleted ==> i < st.at)
    && Those(st.lines, st.added, false) == Those(live[..st.at], deleted, false)
    && Those(st.lines, st.added, true) == plus
    && AllFit(Those(live[..st.at], deleted, true), minus)
  }

  lemma {:induction false} KeepLive(live: seq<Text>, st: State, deleted: set<nat>, plus: seq<Text>, minus: seq<Text>,
        to: nat, hunk: bool)
    requires Accounted(live, st, deleted, plus, minus) && st.at <= to <= |live|
    ensures Accounted(live, State(st.lines + live[st.at..to], st.added, to, hunk), deleted, plus, minus)
  {
    assert live[..to] == live[..st.at] + live[st.at..to];
    ThoseKept(st.lines, live[st.at..to], st.added);
    ThoseKept(live[..st.at], live[st.at..to], deleted);
  }

  lemma {:induction false} DeleteLive(live: seq<Text>, st: State, deleted: set<nat>, plus: seq<Text>, minus: seq<Text>,
        body: Text)
    requires Accounted(live, st, deleted, plus, minus) && st.at < |live| && Fits(live[st.at], body)
    ensures Accounted(live, st.(at := st.at + 1), deleted + {st.at}, plus, minus + [body])
  {
    var seen := live[..st.at];
    assert live[..st.at + 1] == seen + [live[st.at]];
    ThoseSame(seen, deleted, deleted + {st.at}, false);
    ThoseSame(seen, deleted, deleted + {st.at}, true);
    ThoseMore(seen, live[st.at], deleted + {st.at}, false);
    ThoseMore(seen, live[st.at], deleted + {st.at}, true);
  }

  lemma {:induction false} AddLine(live: seq<Text>, st: State, deleted: set<nat>, plus: seq<Text>, minus: seq<Text>,
        body: Text)
    requires Accounted(live, st, deleted, plus, minus)
    ensures Accounted(live, st.(lines := st.lines + [body], added := st.added + {|st.lines|}), deleted, plus + [body],
        minus)
  {
    var added := st.added + {|st.lines|};
    ThoseSame(st.lines, st.added, added, false);
    ThoseSame(st.lines, st.added, added, true);
    ThoseMore(st.lines, body, added, false);
    ThoseMore(st.lines, body, added, true);
  }

  lemma {:induction false} StepIsAccounted(live: seq<Text>, st: State, line: DiffLine, deleted: set<nat>,
        plus: seq<Text>, minus: seq<Text>)
    returns (more: set<nat>)
    requires Accounted(live, st, deleted, plus, minus) && Step(live, st, line).Some?
    ensures Accounted(live, Step(live, st, line).value, more, plus + Body(line, '+', st.hunk),
        minus + Body(line, '-', st.hunk))
    ensures Step(live, st, line).value.hunk == (st.hunk || line.Hunk?)
  {
    more := deleted;
    assert plus + [] == plus && minus + [] == minus;
    if line.Hunk? {
      KeepLive(live, st, deleted, plus, minus, Step(live, st, line).value.at, true);
    } else if line.Marked? && st.hunk {
      if line.mark == ' ' {
        KeepLive(live, st, deleted, plus, minus, st.at + 1, true);
        assert live[st.at..st.at + 1] == [live[st.at]];
      } else if line.mark == '-' {
        DeleteLive(live, st, deleted, plus, minus, line.body);
        more := deleted + {st.at};
      } else if line.mark == '+' {
        AddLine(live, st, deleted, plus, minus, line.body);
      }
    }
  }

  lemma {:induction false} RunIsAccounted(live: seq<Text>, st: State, diff: seq<DiffLine>, deleted: set<nat>,
        plus: seq<Text>, minus: seq<Text>)
    returns (all: set<nat>)
    requires Accounted(live, st, deleted, plus, minus) && Run(live, st, diff).Some?
    ensures Accounted(live, Run(live, st, diff).value, all, plus + Bodies(diff, '+', st.hunk),
        minus + Bodies(diff, '-', st.hunk))
    decreases |diff|
  {
    if diff == [] {
      all := deleted;
      assert plus + [] == plus && minus + [] == minus;
    } else {
      var line, rest := diff[0], diff[1..];
      var next := Step(live, st, line).value;
      var more := StepIsAccounted(live, st, line, deleted, plus, minus);
      all := RunIsAccounted(live, next, rest, more, plus + Body(line, '+', st.hunk), minus + Body(line, '-', st.hunk));
      assert plus + Body(line, '+', st.hunk) + Bodies(rest, '+', next.hunk) == plus + Bodies(diff, '+', st.hunk);
      assert minus + Body(line, '-', st.hunk) + Bodies(rest, '-', next.hunk) == minus + Bodies(diff, '-', st.hunk);
    }
  }

  /** For any diff that fits: the result without the added lines is the live file
      without the deleted ones, in order; the added lines are the diff's, in order,
      and the deleted ones are those it names. */
  lemma {:induction false} PatchedIsAccounted(live: seq<Text>, diff: seq<DiffLine>) returns (deleted: set<nat>)
    requires Apply(live, diff).Some?
    ensures var r := Apply(live, diff).value;
            && (forall i :: i in r.added ==> i < |r.lines|) && (forall i :: i in deleted ==> i < |live|)
            && Those(r.lines, r.added, false) == Those(live, deleted, false)
            && Those(r.lines, r.added, true) == Bodies(diff, '+', false)
            && AllFit(Those(live, deleted, true), Bodies(diff, '-', false))
  {
    assert Accounted(live, START, {}, [], []);
    deleted := RunIsAccounted(live, START, diff, {}, [], []);
    var end := Run(live, START, diff).value;
    var plus, minus := Bodies(diff, '+', false), Bodies(diff, '-', false);
    assert [] + plus == plus && [] + minus == minus;
    KeepLive(live, end, deleted, plus, minus, |live|, true);
    assert live[..|live|] == live && live[end.at..|live|] == live[end.at..];
  }

  // ----- a well-formed diff from one file to another -----

  /** A line of a hunk: kept or removed (as the old file has it and as the diff shows it),
      an empty line kept that the diff writes as an empty line, inserted, or a remark
      such as the one that there is no newline at the end. */
  datatype Edit = Context(line: Text, shown: Text) | Empty | Remove(line: Text,
      shown: Text) | Insert(line: Text) | Remark(text: Text)

  /** A stretch the diff does not show, or a hunk. */
  datatype Piece = Unshown(lines: seq<Text>) | Edits(edits: seq<Edit>)

  /** The old file's line of an edit. */
  function OldLine(e: Edit): (r: seq<Text>)
    ensures |r| <= 1
  {
    match e
    case Context(line, _) => [line]
    case Remove(line, _) => [line]
    case Empty => [""]
    case _ => []
  }

  /** The new file's. */
  function NewLine(e: Edit): (r: seq<Text>)
    ensures |r| <= 1
  {
    match e
    case Context(line, _) => [line]
    case Insert(line) => [line]
    case Empty => [""]
    case _ => []
  }

  function OldLines(edits: seq<Edit>): seq<Text> {
    if edits == [] then [] else OldLines(edits[..|edits| - 1]) + OldLine(edits[|edits| - 1])
  }

  function NewLines(edits: seq<Edit>): seq<Text> {
    if edits == [] then [] else NewLines(edits[..|edits| - 1]) + NewLine(edits[|edits| - 1])
  }

  function PieceOld(piece: Piece): seq<Text> {
    match piece case Unshown(lines) => lines case Edits(edits) => OldLines(edits)
  }

  function PieceNew(piece: Piece): seq<Text> {
    match piece case Unshown(lines) => lines case Edits(edits) => NewLines(edits)
  }

  /** The file before. */
  function Old(script: seq<Piece>): seq<Text> {
    if script == [] then [] else Old(script[..|script| - 1]) + PieceOld(script[|script| - 1])
  }

  /** The file after. */
  function New(script: seq<Piece>): seq<Text> {
    if script == [] then [] else New(script[..|script| - 1]) + PieceNew(script[|script| - 1])
  }

  function Shown(e: Edit): DiffLine {
    match e
    case Context(_, shown) => Marked(' ', shown)
    case Empty => Blank
    case Remove(_, shown) => Marked('-', shown)
    case Insert(line) => Marked('+', line)
    case Remark(text) => Marked('\\', text)
  }

  function ShownAll(edits: seq<Edit>): seq<DiffLine> {
    if edits == [] then [] else ShownAll(edits[..|edits| - 1]) + [Shown(edits[|edits| - 1])]
  }

  /** A hunk says the line of the old file it starts at; with no line of it, the one it inserts after. */
  function Header(edits: seq<Edit>, at: nat): DiffLine {
    if OldLines(edits) == [] then Hunk(at, true) else Hunk(at + 1, false)
  }

  /** The diff of a piece that starts at a line of the old file. */
  function RenderPiece(piece: Piece, at: nat): seq<DiffLine> {
    match piece
    case Unshown(_) => []
    case Edits(edits) => [Header(edits, at)] + ShownAll(edits)
  }

  /** The unified diff of a script. */
  function Render(script: seq<Piece>): seq<DiffLine> {
    if script == [] then []
    else
      var init := script[..|script| - 1];
      Render(init) + RenderPiece(script[|script| - 1], |Old(init)|)
  }

  /** The line is shown as it is, a carriage return at the end aside. */
  ghost predicate Faithful(e: Edit) {
    e.Context? || e.Remove? ==> Fits(e.line, e.shown)
  }

  ghost predicate FaithfulAll(script: seq<Piece>) {
    forall i :: 0 <= i < |script| && script[i].Edits? ==> forall j :: 0 <= j < |script[i].edits| ==>
        Faithful(script[i].edits[j])
  }

  /** An edit of an empty line, or of none. */
  predicate OnEmpty(e: Edit) {
    match e
    case Context(line, _) => line == ""
    case Remove(line, _) => line == ""
    case Insert(line) => line == ""
    case _ => true
  }

  /** In a hunk, nothing but empty lines comes after an empty line written as one. */
  ghost predicate EmptyLast(edits: seq<Edit>) {
    forall i, j :: 0 <= i < j < |edits| && edits[i].Empty? ==> OnEmpty(edits[j])
  }

  ghost predicate EmptyLastAll(script: seq<Piece>) {
    forall i :: 0 <= i < |script| && script[i].Edits? ==> EmptyLast(script[i].edits)
  }

  /** No line of the old file in it is carriage returns alone. */
  ghost predicate NoReturns(e: Edit) {
    forall line :: line in OldLine(e) && Fits(line, "") ==> line == ""
  }

  ghost predicate NoReturnsAll(script: seq<Piece>) {
    forall i :: 0 <= i < |script| && script[i].Edits? ==> forall j :: 0 <= j < |script[i].edits| ==>
        NoReturns(script[i].edits[j])
  }

  lemma {:induction false} RunAppend(live: seq<Text>, st: State, a: seq<DiffLine>, b: seq<DiffLine>)
    requires Readable(live, st)
    ensures Run(live, st, a).Some? ==> Run(live, st, a + b) == Run(live, Run(live, st, a).value, b)
    ensures Run(live, st, a).None? ==> Run(live, st, a + b).None?
    decreases |a|
  {
    if a == [] {
      assert a + b == b;
    } else {
      assert (a + b)[0] == a[0] && (a + b)[1..] == a[1..] + b;
      if Step(live, st, a[0]).Some? { RunAppend(live, Step(live, st, a[0]).value, a[1..], b); }
    }
  }

  lemma {:induction false} RunOne(live: seq<Text>, st: State, line: DiffLine)
    requires Readable(live, st)
    ensures Run(live, st, [line]) == Step(live, st, line)
  {
    assert [line][1..] == [];
  }

  /** Lines are only ever added. */
  lemma {:induction false} RunAdds(live: seq<Text>, st: State, diff: seq<DiffLine>)
    requires Readable(live, st) && Run(live, st, diff).Some?
    ensures st.lines <= Run(live, st, diff).value.lines
    decreases |diff|
  {
    if diff != [] { RunAdds(live, Step(live, st, diff[0]).value, diff[1..]); }
  }

  /** The live file goes on with these lines. */
  ghost predicate GoesOn(live: seq<Text>, at: nat, lines: seq<Text>) {
    at + |lines| <= |live| && live[at..at + |lines|] == lines
  }

  lemma {:induction false} GoesOnLess(live: seq<Text>, at: nat, lines: seq<Text>, last: seq<Text>)
    requires GoesOn(live, at, lines + last)
    ensures GoesOn(live, at, lines) && GoesOn(live, at + |lines|, last)
  {
    var all := live[at..at + |lines + last|];
    assert live[at..at + |lines|] == all[..|lines|] == lines;
    assert live[at + |lines|..at + |lines| + |last|] == all[|lines|..] == last;
  }

  lemma {:induction false} GoesOnMore(live: seq<Text>, at: nat, lines: seq<Text>, last: seq<Text>)
    requires GoesOn(live, at, lines) && GoesOn(live, at + |lines|, last)
    ensures GoesOn(live, at, lines + last)
  {
    assert live[at..at + |lines + last|] == live[at..at + |lines|] + live[at + |lines|..at + |lines| + |last|];
  }

  function Empties(n: nat): (r: seq<Text>)
    ensures |r| == n && forall i :: 0 <= i < n ==> r[i] == ""
  {
    seq(n, i requires 0 <= i < n => "")
  }

  lemma {:induction false} EmptiesMore(n: nat)
    ensures Empties(n) + [""] == Empties(n + 1) == [""] + Empties(n)
  {
  }

  /** How many empty lines of a hunk are written as such. */
  function Lag(edits: seq<Edit>): nat {
    if edits == [] then 0 else Lag(edits[..|edits| - 1]) + if edits[|edits| - 1].Empty? then 1 else 0
  }

  lemma {:induction false} LagCounts(edits: seq<Edit>)
    ensures Lag(edits) > 0 <==> exists i :: 0 <= i < |edits| && edits[i].Empty?
  {
    if edits != [] {
      var init, last := edits[..|edits| - 1], edits[|edits| - 1];
      LagCounts(init);
      if i :| 0 <= i < |edits| && edits[i].Empty? { assert i < |init| ==> init[i].Empty?; }
      if last.Empty? { assert edits[|edits| - 1].Empty?; }
    }
  }

  /** Some edits of a hunk into it: the cursor is behind by the empty lines written as such,
      as many left to copy. */
  ghost predicate Behind(live: seq<Text>, st: State, start: nat, base: seq<Text>, edits: seq<Edit>) {
    && Readable(live, st) && st.hunk && st.at + Lag(edits) == start + |OldLines(edits)|
    && GoesOn(live, st.at, Empties(Lag(edits))) && st.lines + Empties(Lag(edits)) == base + NewLines(edits)
  }

  lemma {:induction false} OneMoreEdit(init: seq<Edit>, e: Edit)
    ensures var all := init + [e];
            && OldLines(all) == OldLines(init) + OldLine(e) && NewLines(all) == NewLines(init) + NewLine(e)
            && Lag(all) == Lag(init) + (if e.Empty? then 1 else 0) && ShownAll(all) == ShownAll(init) + [Shown(e)]
  {
    assert (init + [e])[..|init|] == init;
  }

  /** The next line to read, and the empty lines after it. */
  lemma {:induction false} FirstOf(live: seq<Text>, at: nat, lag: nat, line: Text)
    requires GoesOn(live, at, Empties(lag) + [line])
    ensures at < |live| && live[at] == (if lag > 0 then "" else line)
    ensures line == "" || lag == 0 ==> GoesOn(live, at + 1, Empties(lag))
    ensures line == "" ==> GoesOn(live, at, Empties(lag + 1))
  {
    var all := Empties(lag) + [line];
    assert live[at] == live[at..at + |all|][0] == all[0];
    if line == "" || lag == 0 {
      assert live[at + 1..at + 1 + lag] == live[at..at + |all|][1..] == all[1..];
      assert all[1..] == Empties(lag);
    }
    if line == "" { EmptiesMore(lag); }
  }

  /** The lines of an edit more, with the empty ones left to copy. */
  lemma {:induction false} EditLines(lines: seq<Text>, e: Edit, lag: nat)
    requires lag > 0 ==> OnEmpty(e)
    ensures lines + Empties(lag) + NewLine(e) == lines + NewLine(e) + Empties(lag)
    ensures e.Empty? ==> lines + Empties(lag) + NewLine(e) == lines + Empties(lag + 1)
  {
    EmptiesMore(lag);
    if lag > 0 && NewLine(e) != [] { assert NewLine(e) == [""]; }
    if lag == 0 { assert Empties(0) == []; }
  }

  /** A line of the old file read. */
  lemma {:induction false} ReadRuns(live: seq<Text>, st: State, start: nat, base: seq<Text>, init: seq<Edit>, e: Edit)
    requires Behind(live, st, start, base, init) && Faithful(e) && (Lag(init) > 0 ==> OnEmpty(e))
    requires GoesOn(live, start + |OldLines(init)|, OldLine(e)) && (e.Context? || e.Remove?)
    ensures var r := Run(live, st, [Shown(e)]);
            && r.Some? && r.value.hunk && r.value.at == st.at + 1 && GoesOn(live, r.value.at, Empties(Lag(init)))
            && r.value.lines == st.lines + NewLine(e) && Readable(live, r.value)
  {
    RunOne(live, st, Shown(e));
    GoesOnMore(live, st.at, Empties(Lag(init)), OldLine(e));
    FirstOf(live, st.at, Lag(init), e.line);
  }

  /** A line skipped or inserted. */
  lemma {:induction false} OtherRuns(live: seq<Text>, st: State, start: nat, base: seq<Text>, init: seq<Edit>, e: Edit)
    requires Behind(live, st, start, base, init) && !e.Context? && !e.Remove?
    requires GoesOn(live, start + |OldLines(init)|, OldLine(e))
    ensures var r := Run(live, st, [Shown(e)]);
            && r.Some? && r.value.hunk && r.value.at == st.at
            && r.value.lines == (if e.Insert? then st.lines + NewLine(e) else st.lines)
    ensures e.Empty? ==> GoesOn(live, st.at, Empties(Lag(init) + 1))
  {
    RunOne(live, st, Shown(e));
    if e.Empty? {
      GoesOnMore(live, st.at, Empties(Lag(init)), OldLine(e));
      FirstOf(live, st.at, Lag(init), "");
    }
  }

  /** One more edit, when the cursor is behind only for empty lines to come. */
  lemma {:induction false} EditRuns(live: seq<Text>, st: State, start: nat, base: seq<Text>, init: seq<Edit>, e: Edit)
    requires Behind(live, st, start, base, init) && Faithful(e) && (Lag(init) > 0 ==> OnEmpty(e))
    requires GoesOn(live, start + |OldLines(init)|, OldLine(e))
    ensures var r := Run(live, st, [Shown(e)]); r.Some? && Behind(live, r.value, start, base, init + [e])
  {
    var lag := Lag(init);
    OneMoreEdit(init, e);
    EditLines(st.lines, e, lag);
    assert base + NewLines(init + [e]) == st.lines + Empties(lag) + NewLine(e);
    if e.Context? || e.Remove? {
      ReadRuns(live, st, start, base, init, e);
    } else {
      OtherRuns(live, st, start, base, init, e);
    }
  }

  lemma {:induction false} EmptyLastFront(edits: seq<Edit>)
    requires edits != []
    ensures EmptyLast(edits) <==>
        EmptyLast(edits[..|edits| - 1]) && (Lag(edits[..|edits| - 1]) > 0 ==> OnEmpty(edits[|edits| - 1]))
  {
    LagCounts(edits[..|edits| - 1]);
  }

  /** A hunk runs to its end, at most some empty lines behind. */
  lemma {:induction false} EditsRun(live: seq<Text>, st: State, edits: seq<Edit>)
    requires Readable(live, st) && st.hunk && GoesOn(live, st.at, OldLines(edits))
    requires EmptyLast(edits) && forall j :: 0 <= j < |edits| ==> Faithful(edits[j])
    ensures var r := Run(live, st, ShownAll(edits)); r.Some? && Behind(live, r.value, st.at, st.lines, edits)
    decreases |edits|
  {
    if edits == [] {
      assert Empties(0) == [];
    } else {
      var init, last := edits[..|edits| - 1], edits[|edits| - 1];
      assert edits == init + [last];
      GoesOnLess(live, st.at, OldLines(init), OldLine(last));
      EmptyLastFront(edits);
      EditsRun(live, st, init);
      EditRuns(live, Run(live, st, ShownAll(init)).value, st.at, st.lines, init, last);
      RunAppend(live, st, ShownAll(init), [Shown(last)]);
    }
  }

  /** After some pieces: what is not copied yet of the live lines they cover completes the new text. */
  ghost predicate Covered(live: seq<Text>, st: State, script: seq<Piece>) {
    && st.at <= |Old(script)| <= |live| && live[..|Old(script)|] == Old(script)
    && st.lines + live[st.at..|Old(script)|] == New(script)
  }

  lemma {:induction false} StartsWith(live: seq<Text>, front: seq<Text>, back: seq<Text>)
    requires |front + back| <= |live| && live[..|front + back|] == front + back
    ensures live[..|front|] == front && GoesOn(live, |front|, back)
  {
    assert live[..|front|] == live[..|front + back|][..|front|];
    assert live[|front|..|front| + |back|] == live[..|front + back|][|front|..];
  }

  /** A piece the cursor keeps in step with. */
  ghost predicate InStep(piece: Piece) {
    piece.Edits? ==> EmptyLast(piece.edits) && forall j :: 0 <= j < |piece.edits| ==> Faithful(piece.edits[j])
  }

  lemma {:induction false} ScriptFront(script: seq<Piece>)
    requires script != [] && FaithfulAll(script) && EmptyLastAll(script)
    ensures FaithfulAll(script[..|script| - 1]) && EmptyLastAll(script[..|script| - 1]) && InStep(script[|script| - 1])
  {
  }

  lemma {:induction false} ScriptRuns(live: seq<Text>, script: seq<Piece>)
    requires |Old(script)| <= |live| && live[..|Old(script)|] == Old(script) && FaithfulAll(script) &&
        EmptyLastAll(script)
    ensures Run(live, START, Render(script)).Some? && Covered(live, Run(live, START, Render(script)).value, script)
    decreases |script|
  {
    if script != [] {
      var init, last := script[..|script| - 1], script[|script| - 1];
      StartsWith(live, Old(init), PieceOld(last));
      ScriptFront(script);
      ScriptRuns(live, init);
      var mid := Run(live, START, Render(init)).value;
      PieceRuns(live, mid, init, last);
      RunAppend(live, START, Render(init), RenderPiece(last, |Old(init)|));
      assert Render(script) == Render(init) + RenderPiece(last, |Old(init)|);
    }
  }

  lemma {:induction false} PieceRuns(live: seq<Text>, st: State, init: seq<Piece>, last: Piece)
    requires Readable(live, st) && Covered(live, st, init) && GoesOn(live, |Old(init)|, PieceOld(last))
    requires InStep(last)
    ensures var r := Run(live, st, RenderPiece(last, |Old(init)|));
            var end := |Old(init)| + |PieceOld(last)|;
            r.Some? && r.value.at <= end && r.value.lines + live[r.value.at..end] == New(init) + PieceNew(last)
  {
    if last.Unshown? {
      UnshownRuns(live, st, last.lines, init);
    } else {
      HunkRuns(live, st, last.edits, init);
    }
  }

  lemma {:induction false} UnshownRuns(live: seq<Text>, st: State, lines: seq<Text>, init: seq<Piece>)
    requires Covered(live, st, init) && GoesOn(live, |Old(init)|, lines)
    ensures st.lines + live[st.at..|Old(init)| + |lines|] == New(init) + lines
  {
    var n, m := |Old(init)|, |Old(init)| + |lines|;
    assert live[st.at..m] == live[st.at..n] + live[n..m];
    assert st.lines + live[st.at..n] + live[n..m] == st.lines + (live[st.at..n] + live[n..m]);
  }

  /** The header copies what was left, and the hunk starts where the pieces before it end. */
  lemma {:induction false} HeaderRuns(live: seq<Text>, st: State, edits: seq<Edit>, init: seq<Piece>)
    requires Readable(live, st) && Covered(live, st, init) && GoesOn(live, |Old(init)|, OldLines(edits))
    ensures var next := Step(live, st, Header(edits, |Old(init)|));
            next.Some? && next.value.lines == New(init) && next.value.at == |Old(init)| && next.value.hunk
    ensures var next := Step(live, st, Header(edits, |Old(init)|));
            Run(live, st, RenderPiece(Edits(edits), |Old(init)|)) == Run(live, next.value, ShownAll(edits))
  {
    RunOne(live, st, Header(edits, |Old(init)|));
    RunAppend(live, st, [Header(edits, |Old(init)|)], ShownAll(edits));
  }

  lemma {:induction false} HunkRuns(live: seq<Text>, st: State, edits: seq<Edit>, init: seq<Piece>)
    requires Readable(live, st) && Covered(live, st, init) && GoesOn(live, |Old(init)|, OldLines(edits))
    requires EmptyLast(edits) && forall j :: 0 <= j < |edits| ==> Faithful(edits[j])
    ensures var r := Run(live, st, RenderPiece(Edits(edits), |Old(init)|));
            var end := |Old(init)| + |OldLines(edits)|;
            r.Some? && r.value.at <= end && r.value.lines + live[r.value.at..end] == New(init) + NewLines(edits)
  {
    HeaderRuns(live, st, edits, init);
    var next := Step(live, st, Header(edits, |Old(init)|)).value;
    EditsRun(live, next, edits);
  }

  // ----- an empty line written as one, before other lines of its hunk -----

  /** The lines differ at a place both have. */
  ghost predicate Apart(a: seq<Text>, b: seq<Text>) {
    exists k :: 0 <= k < |a| && k < |b| && a[k] != b[k]
  }

  lemma {:induction false} StillApart(a: seq<Text>, b: seq<Text>, a': seq<Text>, b': seq<Text>)
    requires Apart(a, b) && a <= a' && b <= b'
    ensures Apart(a', b')
  {
    var k :| 0 <= k < |a| && k < |b| && a[k] != b[k];
    assert a'[k] == a[k] && b'[k] == b[k];
  }

  /** The run does not fit, or has gone wrong for good. */
  ghost predicate Lost(r: Option<State>, wanted: seq<Text>) {
    r.None? || Apart(r.value.lines, wanted)
  }

  /** A line inserted before the empty ones left to copy. */
  lemma {:induction false} InsertLost(lines: seq<Text>, lag: nat, wanted: seq<Text>, x: Text)
    requires lag > 0 && lines + Empties(lag) == wanted && x != ""
    ensures Apart(lines + [x], wanted + [x])
  {
    var n := |lines|;
    assert (wanted + [x])[n] == wanted[n] == "" && (lines + [x])[n] == x;
  }

  /** The first line that is not empty while the cursor is behind: it does not fit, or is inserted too soon. */
  lemma {:induction false} EditLost(live: seq<Text>, st: State, start: nat, base: seq<Text>, init: seq<Edit>, e: Edit)
    requires Behind(live, st, start, base, init) && Lag(init) > 0 && Faithful(e) && NoReturns(e) && !OnEmpty(e)
    ensures Lost(Run(live, st, [Shown(e)]), base + NewLines(init) + NewLine(e))
  {
    RunOne(live, st, Shown(e));
    assert live[st.at] == live[st.at..st.at + Lag(init)][0] == "";
    if e.Insert? {
      InsertLost(st.lines, Lag(init), base + NewLines(init), e.line);
    } else {
      assert e.line in OldLine(e) && !Fits(e.line, "");
    }
  }

  lemma {:induction false} EditsLost(live: seq<Text>, st: State, edits: seq<Edit>)
    requires Readable(live, st) && st.hunk && GoesOn(live, st.at, OldLines(edits)) && !EmptyLast(edits)
    requires forall j :: 0 <= j < |edits| ==> Faithful(edits[j]) && NoReturns(edits[j])
    ensures Lost(Run(live, st, ShownAll(edits)), st.lines + NewLines(edits))
    decreases |edits|
  {
    var init, last := edits[..|edits| - 1], edits[|edits| - 1];
    assert edits == init + [last];
    GoesOnLess(live, st.at, OldLines(init), OldLine(last));
    OneMoreEdit(init, last);
    assert st.lines + NewLines(edits) == st.lines + NewLines(init) + NewLine(last);
    EmptyLastFront(edits);
    if EmptyLast(init) {
      EditsRun(live, st, init);
      EditLost(live, Run(live, st, ShownAll(init)).value, st.at, st.lines, init, last);
      RunAppend(live, st, ShownAll(init), [Shown(last)]);
    } else {
      EditsLost(live, st, init);
      StaysLost(live, st, ShownAll(init), [Shown(last)], st.lines + NewLines(init), st.lines + NewLines(edits));
    }
  }

  /** What is lost stays lost. */
  lemma {:induction false} StaysLost(live: seq<Text>, st: State, a: seq<DiffLine>, b: seq<DiffLine>, wanted: seq<Text>,
        more: seq<Text>)
    requires Readable(live, st) && Lost(Run(live, st, a), wanted) && wanted <= more
    ensures Lost(Run(live, st, a + b), more)
  {
    RunAppend(live, st, a, b);
    if Run(live, st, a + b).Some? {
      RunAdds(live, Run(live, st, a).value, b);
      StillApart(Run(live, st, a).value.lines, wanted, Run(live, st, a + b).value.lines, more);
    }
  }

  lemma {:induction false} ScriptLost(live: seq<Text>, script: seq<Piece>)
    requires |Old(script)| <= |live| && live[..|Old(script)|] == Old(script)
    requires FaithfulAll(script) && NoReturnsAll(script) && !EmptyLastAll(script)
    ensures Lost(Run(live, START, Render(script)), New(script))
    decreases |script|
  {
    var init, last := script[..|script| - 1], script[|script| - 1];
    StartsWith(live, Old(init), PieceOld(last));
    RunAppend(live, START, Render(init), RenderPiece(last, |Old(init)|));
    if EmptyLastAll(init) {
      ScriptRuns(live, init);
      var mid := Run(live, START, Render(init)).value;
      LastIsBad(script);
      HeaderRuns(live, mid, last.edits, init);
      EditsLost(live, Step(live, mid, Header(last.edits, |Old(init)|)).value, last.edits);
    } else {
      ScriptLost(live, init);
      StaysLost(live, START, Render(init), RenderPiece(last, |Old(init)|), New(init), New(script));
    }
  }

  lemma {:induction false} LastIsBad(script: seq<Piece>)
    requires script != [] && !EmptyLastAll(script) && EmptyLastAll(script[..|script| - 1])
    ensures var last := script[|script| - 1]; last.Edits? && !EmptyLast(last.edits)
  {
    var init := script[..|script| - 1];
    forall i | 0 <= i < |script| - 1 && script[i].Edits? ensures EmptyLast(script[i].edits) {
      assert init[i] == script[i];
    }
  }

  /** Lines before the first hunk: the names of the two files. */
  predicate Preamble(lines: seq<DiffLine>) {
    forall i :: 0 <= i < |lines| ==> !lines[i].Hunk?
  }

  lemma {:induction false} PreambleRuns(live: seq<Text>, lines: seq<DiffLine>)
    requires Preamble(lines)
    ensures Run(live, START, lines) == Some(START)
  {
    if lines != [] { PreambleRuns(live, lines[1..]); }
  }

  /** The diff, applied to the first file, gives the second. */
  ghost predicate GivesNew(script: seq<Piece>, preamble: seq<DiffLine>) {
    var r := Apply(Old(script), preamble + Render(script));
    r.Some? && r.value.lines == New(script)
  }

  lemma {:induction false} DiffRuns(script: seq<Piece>, preamble: seq<DiffLine>)
    requires Preamble(preamble)
    ensures Run(Old(script), START, preamble + Render(script)) == Run(Old(script), START, Render(script))
  {
    PreambleRuns(Old(script), preamble);
    RunAppend(Old(script), START, preamble, Render(script));
  }

  /** A well-formed diff from one file to another, applied to the first, gives the second,
      when nothing but empty lines comes after an empty line written as one in its hunk:
      always, when every kept line has its space. */
  lemma {:induction false} DiffGivesNew(script: seq<Piece>, preamble: seq<DiffLine>)
    requires FaithfulAll(script) && Preamble(preamble) && EmptyLastAll(script)
    ensures GivesNew(script, preamble)
  {
    var live := Old(script);
    assert live[..|live|] == live;
    DiffRuns(script, preamble);
    ScriptRuns(live, script);
    var end := Run(live, START, Render(script)).value;
    assert live[end.at..|live|] == live[end.at..];
  }

  /** And only then, for files with no line of carriage returns alone. */
  lemma {:induction false} GivesNewIsExact(script: seq<Piece>, preamble: seq<DiffLine>)
    requires FaithfulAll(script) && Preamble(preamble) && NoReturnsAll(script)
    ensures GivesNew(script, preamble) <==> EmptyLastAll(script)
  {
    if EmptyLastAll(script) {
      DiffGivesNew(script, preamble);
    } else {
      var live := Old(script);
      assert live[..|live|] == live;
      DiffRuns(script, preamble);
      ScriptLost(live, script);
      var r := Run(live, START, Render(script));
      if r.Some? { StillApart(r.value.lines, New(script), r.value.lines + live[r.value.at..], New(script)); }
    }
  }

  /** An empty line kept and written as one, and a line inserted after it. */
  const AFTER_EMPTY := [Edits([Empty, Insert("x")])]

  lemma {:induction false} AfterEmptyIs()
    ensures Old(AFTER_EMPTY) == [""] && New(AFTER_EMPTY) == ["", "x"]
    ensures Render(AFTER_EMPTY) == [Hunk(1, false), Blank, Marked('+', "x")]
  {
    OneMoreEdit([Empty], Insert("x"));
    OneMoreEdit([], Empty);
    assert [] + [Empty] == [Empty] && [Empty] + [Insert("x")] == [Empty, Insert("x")];
    assert AFTER_EMPTY[..0] == [];
  }

  /** The inserted line comes first instead. */
  lemma {:induction false} InsertedTooSoon()
    ensures Old(AFTER_EMPTY) == [""] && New(AFTER_EMPTY) == ["", "x"]
    ensures Render(AFTER_EMPTY) == [Hunk(1, false), Blank, Marked('+', "x")]
    ensures Apply([""], Render(AFTER_EMPTY)) == Some(Patched(["x", ""], {0}))
  {
    AfterEmptyIs();
    var live, st := [""], State([], {}, 0, true);
    assert Step(live, START, Hunk(1, false)) == Some(st) by { assert [] + live[0..0] == []; }
    assert Step(live, st, Blank) == Some(st);
    assert Step(live, st, Marked('+', "x")) == Some(State(["x"], {0}, 0, true)) by {
      assert st.lines + ["x"] == ["x"] && st.added + {0} == {0};
    }
    RunOne(live, st, Marked('+', "x"));
    RunAppend(live, st, [Blank], [Marked('+', "x")]);
    RunOne(live, st, Blank);
    RunOne(live, START, Hunk(1, false));
    RunAppend(live, START, [Hunk(1, false)], [Blank] + [Marked('+', "x")]);
    assert [Hunk(1, false)] + ([Blank] + [Marked('+', "x")]) == Render(AFTER_EMPTY);
    assert ["x"] + live[0..] == ["x", ""];
  }

  // ----- a line of carriage returns alone -----

  /** An empty line kept and written as one, then a line of one carriage return kept. */
  const THEN_RETURN := [Edits([Empty, Context("\r", "\r")])]

  lemma {:induction false} ThenReturnIs()
    ensures Old(THEN_RETURN) == ["", "\r"] == New(THEN_RETURN)
    ensures Render(THEN_RETURN) == [Hunk(1, false), Blank, Marked(' ', "\r")]
  {
    OneMoreEdit([Empty], Context("\r", "\r"));
    OneMoreEdit([], Empty);
    assert [] + [Empty] == [Empty] && [Empty] + [Context("\r", "\r")] == [Empty, Context("\r", "\r")];
    assert THEN_RETURN[..0] == [];
  }

  /** The second line is found where the first is, for the comparison takes one for the
      other, and all is well although a line that is not empty comes after an empty one. */
  lemma {:induction false} ReturnsStandIn()
    ensures Old(THEN_RETURN) == ["", "\r"] == New(THEN_RETURN) && FaithfulAll(THEN_RETURN)
    ensures GivesNew(THEN_RETURN, []) && !EmptyLastAll(THEN_RETURN)
  {
    ThenReturnIs();
    var live, st, mark := ["", "\r"], State([], {}, 0, true), Marked(' ', "\r");
    assert THEN_RETURN[0].edits[0].Empty? && !OnEmpty(THEN_RETURN[0].edits[1]);
    assert Step(live, START, Hunk(1, false)) == Some(st) by { assert [] + live[0..0] == []; }
    assert Step(live, st, Blank) == Some(st);
    assert Step(live, st, mark) == Some(State([""], {}, 1, true)) by { assert st.lines + [""] == [""]; }
    RunOne(live, st, mark);
    RunAppend(live, st, [Blank], [mark]);
    RunOne(live, st, Blank);
    RunOne(live, START, Hunk(1, false));
    RunAppend(live, START, [Hunk(1, false)], [Blank] + [mark]);
    assert [Hunk(1, false)] + ([Blank] + [mark]) == Render(THEN_RETURN);
    assert [""] + live[1..] == live && [] + Render(THEN_RETURN) == Render(THEN_RETURN);
  }
}
