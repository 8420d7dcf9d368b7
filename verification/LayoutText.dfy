/** The layout as a text: gluing an unfinished line that has to move is the only other way to lose a record. */
module LayoutText {
  import opened Collections
  import opened Text
  import opened CaptureTail
  import opened FinalLayout
  import TailLaws

  // -------------------------------------------------------------------- whole lines

  lemma RenamedWhole(l: string, tag: string, progress: string)
    requires WholeLine(l) && tag < l && Lacks(progress, '\n')
    ensures WholeLine(Renamed(l, tag, progress))
  {}

  /** What has to be whole for the lines written in place of `l` to be. */
  predicate Suits(l: string, moved: seq<string>, admission: string, out: seq<string>) {
    && WholeLine(l) && (IsCompletion(l) ==> WholeLines(moved))
    && (IsOwner(l) && admission !in out ==> WholeLine(admission))
  }

  lemma PlacedWhole(l: string, moved: seq<string>, admission: string, out: seq<string>)
    requires Suits(l, moved, admission, out)
    ensures WholeLines(Placed(l, moved, admission, out))
  {
    hide IsMoved, IsAdmission, IsCompletion, IsOwner, WholeLine;
    Kinds(l);
    Longer(l);
    if IsMoved(l) {
      RenamedWhole(l, LOAD_TAG, LOAD_PROGRESS);
    } else if IsAdmission(l) {
      RenamedWhole(l, OWNER_TAG, OWNER_PROGRESS);
    }
  }

  lemma Longer(l: string)
    ensures WholeLine(l) && LOAD_TAG <= l ==> LOAD_TAG < l
    ensures WholeLine(l) && OWNER_TAG <= l ==> OWNER_TAG < l
    ensures Lacks(LOAD_PROGRESS, '\n') && Lacks(OWNER_PROGRESS, '\n')
  {
    assert LOAD_TAG[8] == ':' && OWNER_TAG[8] == ':';
  }

  /** Lines that follow add whole lines, unless they make an unfinished one move. */
  lemma {:induction false} LaidRest(x: seq<string>, y: seq<string>, moved: seq<string>, admission: string)
    returns (r: seq<string>)
    requires WholeLines(y)
    requires WholeLines(moved) || forall l <- y :: !IsCompletion(l)
    requires WholeLine(admission) || admission in Laid(x, moved, admission) || forall l <- y :: !IsOwner(l)
    ensures Laid(x + y, moved, admission) == Laid(x, moved, admission) + r && WholeLines(r)
  {
    hide WholeLine, Placed, IsCompletion, IsOwner;
    if y == [] {
      assert x + y == x;
      return [];
    }
    var init, l := y[..|y| - 1], y[|y| - 1];
    assert y == init + [l] && (x + y)[..|x + y| - 1] == x + init;
    r := LaidRest(x, init, moved, admission);
    var out := Laid(x + init, moved, admission);
    assert l in y && Suits(l, moved, admission, out);
    PlacedWhole(l, moved, admission, out);
    r := r + Placed(l, moved, admission, out);
  }

  lemma WholeAreLines(ls: seq<string>)
    requires WholeLines(ls)
    ensures AreLines(ls)
  {
    hide IsLine, Terminated;
    forall k | 0 <= k < |ls| ensures WholeLine(ls[k]) { assert ls[k] in ls; }
  }

  /** No unfinished line has to move. */
  predicate Movable(ls: seq<string>) {
    forall x :: x in ls && Leaves(x) ==> Terminated(x)
  }

  lemma SomeLine(ls: seq<string>)
    requires Fit(ls)
    ensures ls != []
  {}

  /** Lines picked out of whole lines are whole. */
  lemma PickedWhole(ls: seq<string>, p: string -> bool)
    requires WholeLines(ls)
    ensures WholeLines(Select(ls, p))
  {
    hide WholeLine, Select;
    Selected(ls, p);
  }

  // ------------------------------------------------------------------ nothing is glued

  lemma LastRenamed(u: string)
    requires IsLine(u) && !Terminated(u)
    ensures IsMoved(u) ==> IsLine(Renamed(u, LOAD_TAG, LOAD_PROGRESS))
    ensures IsAdmission(u) ==> IsLine(Renamed(u, OWNER_TAG, OWNER_PROGRESS))
  {
    hide IsMoved, IsAdmission;
    Kinds(u);
    Longer(u);
    assert Lacks(u, '\n');
  }

  lemma OneIsLines(l: string)
    requires IsLine(l)
    ensures AreLines([l])
  {}

  lemma LastPlaced(l: string, moved: seq<string>, admission: string, out: seq<string>)
    requires IsLine(l) && (Terminated(l) ==> Suits(l, moved, admission, out))
    requires IsOwner(l) && admission !in out ==> WholeLine(admission)
    ensures AreLines(Placed(l, moved, admission, out))
  {
    hide IsMoved, IsAdmission, IsOwner, IsLine, Renamed;
    if Terminated(l) {
      PlacedWhole(l, moved, admission, out);
      WholeAreLines(Placed(l, moved, admission, out));
    } else {
      assert !IsCompletion(l);
      LastRenamed(l);
    }
  }

  /** The lines written are the lines of the text, unless an unfinished one is written before another. */
  lemma LaidLines(ls: seq<string>, moved: seq<string>, admission: string)
    requires AreLines(ls) && ls != [] && WholeLines(moved)
    requires WholeLine(admission) || !AnyOwner(ls)
    ensures AreLines(Laid(ls, moved, admission))
  {
    hide IsLine, Terminated, Placed, IsOwner, IsCompletion;
    var init, l := ls[..|ls| - 1], ls[|ls| - 1];
    WholeInit(ls);
    forall x <- init | AnyOwner(ls) == false
      ensures !IsOwner(x)
    {
      var k :| 0 <= k < |init| && init[k] == x;
      assert ls[k] == x;
    }
    assert [] + init == init && Laid([], moved, admission) == [] by { NothingLaid(moved, admission); }
    var r := LaidRest([], init, moved, admission);
    var out := Laid(init, moved, admission);
    assert out == r;
    LastPlaced(l, moved, admission, out);
    WholeThen(out, Placed(l, moved, admission, out));
  }

  // ----------------------------------------------------------------------- gluing

  lemma GluedIsLine(u: string, v: string)
    requires IsLine(u) && !Terminated(u) && WholeLine(v)
    ensures WholeLine(u + v)
  {
    assert Lacks(u, '\n');
  }

  lemma ConsLines(l: string, q: seq<string>)
    requires WholeLine(l) && AreLines(q)
    ensures AreLines([l] + q)
  {
    hide IsLine, Terminated;
  }

  lemma RecordSize(l: string)
    ensures |Record(l)| <= 1 && (Record(l) != multiset{} ==> |Record(l)| == 1)
  {}

  /** Two critical lines glued into one are one record less. */
  lemma GluedLoses(p: seq<string>, u: string, v: string, q: seq<string>)
    requires WholeLines(p) && IsLine(u) && !Terminated(u) && WholeLine(v) && AreLines(q)
    requires Record(u) != multiset{} && Record(v) != multiset{}
    ensures |CriticalRecords(Join(p + ([u, v] + q)))| < |CriticalLines(p + ([u, v] + q))|
  {
    hide Record, CriticalLines, WholeLine, IsLine, Terminated, AreLines, Join, Lines;
    JoinGlued(p, u, v, q);
    GluedIsLine(u, v);
    ConsLines(u + v, q);
    WholeThen(p, [u + v] + q);
    LinesJoin(p + ([u + v] + q));
    CriticalConcat(p, [u + v] + q);
    CriticalConcat(p, [u, v] + q);
    CriticalConcat([u + v], q);
    CriticalConcat([u, v], q);
    OneRecordOf(u);
    OneRecordOf(v);
    OneRecordOf(u + v);
    assert [u, v] == [u] + [v];
    CriticalConcat([u], [v]);
    RecordSize(u);
    RecordSize(v);
    RecordSize(u + v);
  }

  // ---------------------------------------------------------- where the unfinished line goes

  lemma ChompKeeps(tag: string, l: string)
    requires tag <= l && tag != "" && tag[|tag| - 1] != '\n'
    ensures tag <= Chomp(l)
  {
    if |l| == |tag| { assert l == tag; }
  }

  lemma MovedCritical(l: string)
    requires IsMoved(l)
    ensures Record(l) != multiset{}
  {
    hide Chomp, Critical;
    if IsBanner(l) {
      ChompKeeps(BANNER, l);
      TailLaws.StartsCritical(Chomp(l));
    } else {
      forall name | PhaseTag(name) <= l ensures PhaseTag(name) <= Chomp(l) { ChompKeeps(PhaseTag(name), l); }
      PhaseCritical(Chomp(l));
    }
  }

  lemma CompletionCritical()
    ensures WholeLine(COMPLETED) && Record(COMPLETED) != multiset{}
  {
    var c := "cpu-load: completed=yes";
    assert COMPLETED == c + "\n" && Lacks(c, '\n');
    assert "cpu-load: completed=" <= c && "cpu-load:" <= c;
    assert Chomp(COMPLETED) == c;
  }

  lemma OwnerCritical(l: string)
    requires IsOwner(l)
    ensures Record(l) != multiset{}
  {
    ChompKeeps(OWNER_CPU, l);
    assert ALWAYS[10] == OWNER_CPU;
    assert OWNER_CPU[0] == 'a';
    assert !("cpu-load:" <= Chomp(l));
  }

  lemma PhaseCritical(l: string)
    requires IsPhase(l)
    ensures Critical(l)
  {
    PhaseDone(l);
    PhaseStart(l);
    assert "cpu-load:" <= PHASE;
  }

  lemma PhaseDone(l: string)
    requires IsPhase(l)
    ensures Contains(l, " completed=yes")
  {
    hide Contains;
    forall name | PhaseTag(name) <= l ensures Contains(l, " completed=yes") { DoneAfter(PHASE + name, l); }
  }

  lemma DoneAfter(head: string, l: string)
    requires head + " completed=yes " <= l
    ensures Contains(l, " completed=yes")
  {
    var d := " completed=yes";
    assert " completed=yes " == d + " ";
    assert (head + (d + " "))[|head|..|head| + |d|] == d;
    assert l[|head|..|head| + |d|] == d;
    assert OccursAt(l, d, |head|);
  }

  lemma LaidSnoc(x: seq<string>, l: string, moved: seq<string>, admission: string)
    ensures var out := Laid(x, moved, admission);
      Laid(x + [l], moved, admission) == out + Placed(l, moved, admission, out)
  {
    assert (x + [l])[..|x|] == x;
  }

  /** A log whose banner or phase line is unfinished: the moved lines stand between whole ones. */
  lemma MovedLaid(ls: seq<string>, moved: seq<string>, admission: string) returns (head: seq<string>, r: seq<string>)
    requires AreLines(ls) && ls != [] && IsMoved(ls[|ls| - 1]) && !Terminated(ls[|ls| - 1])
    requires |Select(ls, IsCompletion)| == 1 && WholeLine(admission)
    ensures WholeLines(head) && WholeLines(r)
    ensures Laid(ls, moved, admission) ==
      head + moved + ([COMPLETED] + r + [Renamed(ls[|ls| - 1], LOAD_TAG, LOAD_PROGRESS)])
  {
    hide IsLine, Terminated, AreLines, IsMoved, IsAdmission, IsOwner, IsCompletion, Select, Renamed, Laid, WholeLine;
    var u := ls[|ls| - 1];
    Kinds(u);
    var x, y := AroundCompletion(ls);
    assert Laid([], moved, admission) == [] && [] + x == x by { NothingLaid(moved, admission); }
    head := LaidRest([], x, moved, admission);
    LaidSnoc(x, COMPLETED, moved, admission);
    r := LaidRest(x + [COMPLETED], y, moved, admission);
    LaidSnoc(x + [COMPLETED] + y, u, moved, admission);
    assert IsCompletion(COMPLETED) by { CompletionIs(); }
    Kinds(COMPLETED);
    Gather(head, moved, r, Renamed(u, LOAD_TAG, LOAD_PROGRESS));
  }

  lemma CompletionIs()
    ensures IsCompletion(COMPLETED)
  {}

  lemma AroundCompletion(ls: seq<string>) returns (x: seq<string>, y: seq<string>)
    requires AreLines(ls) && ls != [] && !IsCompletion(ls[|ls| - 1]) && |Select(ls, IsCompletion)| == 1
    ensures ls == x + [COMPLETED] + y + [ls[|ls| - 1]] && WholeLines(x) && WholeLines(y)
    ensures (forall l <- x :: !IsCompletion(l)) && (forall l <- y :: !IsCompletion(l))
  {
    hide IsLine, Terminated, Select, WholeLine, AreLines;
    var init := ls[..|ls| - 1];
    WholeInit(ls);
    var k := OnlyOne(ls, IsCompletion);
    x, y := init[..k], init[k + 1..];
    assert ls[..k] == x && init == x + [COMPLETED] + y && ls == init + [ls[|ls| - 1]];
    assert forall l <- y :: l in ls[k + 1..];
    WholeSplit(x, COMPLETED, y);
  }

  lemma Gather(head: seq<string>, moved: seq<string>, r: seq<string>, l: string)
    ensures head + (moved + [COMPLETED]) + r + [l] == head + moved + ([COMPLETED] + r + [l])
  {}

  lemma LastSelected(ls: seq<string>, p: string -> bool)
    requires ls != []
    ensures Select(ls, p) == Select(ls[..|ls| - 1], p) + if p(ls[|ls| - 1]) then [ls[|ls| - 1]] else []
  {}

  lemma RestLines(xs: seq<string>, l: string)
    requires WholeLines(xs) && IsLine(l)
    ensures AreLines(xs + [l])
  {
    hide IsLine, Terminated;
    OneIsLines(l);
    WholeThen(xs, [l]);
  }

  lemma WholeConcat(a: seq<string>, b: seq<string>)
    requires WholeLines(a) && WholeLines(b)
    ensures WholeLines(a + b)
  {
    hide WholeLine;
  }

  lemma WholePart(a: seq<string>, i: nat, j: nat)
    requires WholeLines(a) && i <= j <= |a|
    ensures WholeLines(a[i..j])
  {
    hide WholeLine;
    forall x | x in a[i..j] ensures x in a {}
  }

  lemma WholeOne(l: string)
    requires WholeLine(l)
    ensures WholeLines([l])
  {}

  lemma Fitting(ls: seq<string>)
    requires Fit(ls)
    ensures |Select(ls, IsBanner)| == 1 && |Select(ls, IsPhase)| == 3
    ensures |Select(ls, IsCompletion)| == 1 && |Select(ls, IsAdmission)| == 1
  {}

  /** What follows the first phase line when the banner is glued to it. */
  lemma AfterPhase(phases: seq<string>, r: seq<string>, l: string)
    requires WholeLines(phases) && |phases| == 3 && WholeLines(r) && IsLine(l)
    ensures AreLines(phases[1..3] + [COMPLETED] + r + [l])
  {
    hide WholeLine, IsLine, Terminated, AreLines;
    CompletionCritical();
    WholePart(phases, 1, 3);
    WholeOne(COMPLETED);
    WholeConcat(phases[1..3], [COMPLETED]);
    WholeConcat(phases[1..3] + [COMPLETED], r);
    RestLines(phases[1..3] + [COMPLETED] + r, l);
  }

  lemma FirstPhase(ls: seq<string>)
    requires |Select(ls, IsPhase)| == 3 && WholeLines(Select(ls, IsPhase))
    ensures var v := Select(ls, IsPhase)[0]; WholeLine(v) && Record(v) != multiset{}
  {
    hide Select, WholeLine, Record, IsPhase;
    var phases := Select(ls, IsPhase);
    assert phases[0] in phases;
    Selected(ls, IsPhase);
    PhaseMoves(phases[0]);
    MovedCritical(phases[0]);
  }

  /** The unfinished banner is glued to the first phase line. */
  lemma BannerGlued(ls: seq<string>, admission: string)
    requires AreLines(ls) && ls != [] && Fit(ls) && IsBanner(ls[|ls| - 1]) && !Terminated(ls[|ls| - 1])
    requires WholeLine(admission)
    ensures var out := Laid(ls, Moved(ls), admission); |CriticalRecords(Join(out))| < |CriticalLines(out)|
  {
    hide IsLine, Terminated, IsBanner, IsPhase, IsMoved, Select, Renamed, Laid, WholeLine, WholeLines, Record,
      CriticalLines, Join, CriticalRecords, Fit, AreLines;
    var init, u := ls[..|ls| - 1], ls[|ls| - 1];
    BannerMoves(u);
    WholeInit(ls);
    Fitting(ls);
    Kinds(u);
    LastSelected(ls, IsBanner);
    LastSelected(ls, IsPhase);
    var phases, l := Select(ls, IsPhase), Renamed(u, LOAD_TAG, LOAD_PROGRESS);
    PickedWhole(init, IsPhase);
    assert Select(ls, IsBanner) == [u] && phases == Select(init, IsPhase);
    var head, r := MovedLaid(ls, Moved(ls), admission);
    LastRenamed(u);
    FirstPhase(ls);
    MovedCritical(u);
    AfterPhase(phases, r, l);
    var q := phases[1..3] + [COMPLETED] + r + [l];
    GluedLoses(head, u, phases[0], q);
    BannerParts(head, u, phases, r, l);
  }

  lemma BannerParts(head: seq<string>, u: string, phases: seq<string>, r: seq<string>, l: string)
    requires |phases| == 3
    ensures head + ([u] + phases) + ([COMPLETED] + r + [l]) ==
      head + ([u, phases[0]] + (phases[1..3] + [COMPLETED] + r + [l]))
  {
    assert phases == [phases[0]] + phases[1..3];
  }

  lemma BannerMoves(l: string)
    requires IsBanner(l)
    ensures IsMoved(l)
  {}

  lemma PhaseMoves(l: string)
    requires IsPhase(l)
    ensures IsMoved(l)
  {}

  /** The unfinished recovery phase is glued to the completion line. */
  lemma PhaseGlued(ls: seq<string>, admission: string)
    requires AreLines(ls) && ls != [] && Fit(ls) && IsPhase(ls[|ls| - 1]) && !Terminated(ls[|ls| - 1])
    requires WholeLine(admission)
    ensures var out := Laid(ls, Moved(ls), admission); |CriticalRecords(Join(out))| < |CriticalLines(out)|
  {
    hide IsLine, Terminated, IsBanner, IsPhase, IsMoved, Select, Renamed, Laid, WholeLine, WholeLines, Record,
      CriticalLines, Join, CriticalRecords, Fit, AreLines, Moved;
    var u, l := ls[|ls| - 1], Renamed(ls[|ls| - 1], LOAD_TAG, LOAD_PROGRESS);
    PhaseMoves(u);
    WholeInit(ls);
    Fitting(ls);
    var before := BeforeLast(ls);
    var head, r := MovedLaid(ls, Moved(ls), admission);
    LastRenamed(u);
    CompletionCritical();
    MovedCritical(u);
    WholeConcat(head, before);
    RestLines(r, l);
    GluedLoses(head + before, u, COMPLETED, r + [l]);
    PhaseParts(head, before, u, r, l);
  }

  lemma BeforeLast(ls: seq<string>) returns (before: seq<string>)
    requires ls != [] && WholeLines(ls[..|ls| - 1]) && IsPhase(ls[|ls| - 1])
    ensures WholeLines(before) && Moved(ls) == before + [ls[|ls| - 1]]
  {
    hide IsBanner, IsPhase, Select, WholeLine;
    var init := ls[..|ls| - 1];
    Kinds(ls[|ls| - 1]);
    LastSelected(ls, IsBanner);
    LastSelected(ls, IsPhase);
    PickedWhole(init, IsPhase);
    PickedWhole(init, IsBanner);
    before := Select(ls, IsBanner) + Select(init, IsPhase);
  }

  lemma PhaseParts(head: seq<string>, before: seq<string>, u: string, r: seq<string>, l: string)
    ensures head + (before + [u]) + ([COMPLETED] + r + [l]) == head + before + ([u, COMPLETED] + (r + [l]))
  {}

  lemma {:induction false} FirstOwner(ls: seq<string>) returns (k: nat)
    requires AnyOwner(ls)
    ensures k < |ls| && IsOwner(ls[k]) && !AnyOwner(ls[..k])
  {
    hide IsOwner;
    var init := ls[..|ls| - 1];
    if AnyOwner(init) {
      k := FirstOwner(init);
      assert init[..k] == ls[..k];
    } else {
      k := |init|;
      assert ls == init + [ls[k]];
      AnyOwnerSnoc(init, ls[k]);
    }
  }

  lemma NoOwner(ls: seq<string>)
    requires !AnyOwner(ls)
    ensures forall l <- ls :: !IsOwner(l)
  {
    hide IsOwner;
    forall l <- ls ensures !IsOwner(l) { var k :| 0 <= k < |ls| && ls[k] == l; }
  }

  /** A log whose admission is unfinished: it stands before the first owner line, between whole ones. */
  lemma AdmissionLaid(init: seq<string>, moved: seq<string>, u: string)
    returns (head: seq<string>, o: string, r: seq<string>)
    requires WholeLines(init) && AnyOwner(init) && WholeLines(moved) && Movables(moved, u)
    ensures WholeLines(head) && WholeLines(r) && WholeLine(o) && IsOwner(o)
    ensures Laid(init, moved, u) == head + [u, o] + r
  {
    hide IsAdmission, IsOwner, IsCompletion, IsMoved, Laid, WholeLine, Movables, AnyOwner, Renamed;
    var k := FirstOwner(init);
    var x, y := init[..k], init[k + 1..];
    o := init[k];
    assert init == x + [o] + y && o in init;
    Kinds(o);
    WholeSplit(x, o, y);
    NoOwner(x);
    assert Laid([], moved, u) == [] && [] + x == x by { NothingLaid(moved, u); }
    head := LaidRest([], x, moved, u);
    AdmissionPlaced(x, moved, u);
    LaidSnoc(x, o, moved, u);
    assert u in Laid(x + [o], moved, u);
    r := LaidRest(x + [o], y, moved, u);
  }

  lemma WholeSplit(x: seq<string>, o: string, y: seq<string>)
    requires WholeLines(x + [o] + y)
    ensures WholeLines(x) && WholeLine(o) && WholeLines(y)
  {
    hide WholeLine;
    assert o in x + [o] + y;
    forall l | l in x || l in y ensures l in x + [o] + y {}
  }

  /** The unfinished admission is glued to the first owner line. */
  lemma AdmissionGlued(ls: seq<string>, moved: seq<string>, u: string)
    requires AreLines(ls) && ls != [] && u == ls[|ls| - 1] && IsAdmission(u) && !Terminated(u)
    requires AnyOwner(ls) && WholeLines(moved) && Movables(moved, u)
    ensures var out := Laid(ls, moved, u); |CriticalRecords(Join(out))| < |CriticalLines(out)|
  {
    hide IsLine, Terminated, IsAdmission, IsMoved, IsOwner, Renamed, Laid, WholeLine, WholeLines, Record,
      CriticalLines, Join, CriticalRecords, AreLines, Movables, AnyOwner;
    var init, l := ls[..|ls| - 1], Renamed(u, OWNER_TAG, OWNER_PROGRESS);
    WholeInit(ls);
    Kinds(u);
    assert ls == init + [u];
    AnyOwnerSnoc(init, u);
    var head, o, r := AdmissionLaid(init, moved, u);
    assert Laid(ls, moved, u) == head + [u, o] + r + [l] by { LaidSnoc(init, u, moved, u); }
    LastRenamed(u);
    AdmissionCritical(u);
    OwnerCritical(o);
    RestLines(r, l);
    GluedLoses(head, u, o, r + [l]);
    AdmissionParts(head, u, o, r, l);
  }

  lemma AdmissionParts(head: seq<string>, u: string, o: string, r: seq<string>, l: string)
    ensures head + [u, o] + r + [l] == head + ([u, o] + (r + [l]))
  {}

  // --------------------------------------------------------------------- the exact theorem

  lemma Stuck(ls: seq<string>)
    requires AreLines(ls) && !Movable(ls)
    ensures ls != [] && Leaves(ls[|ls| - 1]) && !Terminated(ls[|ls| - 1])
  {
    hide IsLine, Terminated, Leaves;
    var x :| x in ls && Leaves(x) && !Terminated(x);
    var k :| 0 <= k < |ls| && ls[k] == x;
  }

  lemma LeaverWhole(ls: seq<string>, x: string)
    requires AreLines(ls) && x in ls && Leaves(x) && (Movable(ls) || x != ls[|ls| - 1])
    ensures WholeLine(x)
  {
    hide IsLine, Terminated, Leaves;
    var k :| 0 <= k < |ls| && ls[k] == x;
  }

  lemma MovedWhole(ls: seq<string>)
    requires AreLines(ls) && ls != [] && (Movable(ls) || !IsMoved(ls[|ls| - 1]))
    ensures WholeLines(Moved(ls))
  {
    hide AreLines, Movable, Select, IsBanner, IsPhase, IsAdmission, WholeLine;
    Selected(ls, IsBanner);
    Selected(ls, IsPhase);
    forall x | x in Moved(ls) ensures WholeLine(x) { LeaverWhole(ls, x); }
  }

  lemma AdmissionWhole(ls: seq<string>)
    requires AreLines(ls) && Fit(ls) && ls != [] && (Movable(ls) || !IsAdmission(ls[|ls| - 1]))
    ensures WholeLine(Select(ls, IsAdmission)[0])
  {
    hide AreLines, Movable, Select, IsAdmission, IsMoved, WholeLine, Fit;
    Fitting(ls);
    var a := Select(ls, IsAdmission);
    Selected(ls, IsAdmission);
    assert a[0] in a;
    LeaverWhole(ls, a[0]);
  }

  lemma StuckLoses(ls: seq<string>)
    requires Fit(ls) && AreLines(ls) && !Movable(ls) && ls != [] && (AnyOwner(ls) || IsMoved(ls[|ls| - 1]))
    ensures |CriticalRecords(Join(Layout(ls).value))| < |CriticalLines(Layout(ls).value)|
  {
    hide Terminated, IsBanner, IsPhase, IsAdmission, Laid, CriticalLines, Join, CriticalRecords, Fit, AreLines,
      Movable, AnyOwner, Select, WholeLine, WholeLines, Moved;
    Stuck(ls);
    Fitting(ls);
    var u, a := ls[|ls| - 1], Select(ls, IsAdmission);
    Kinds(u);
    if IsMoved(u) {
      AdmissionWhole(ls);
      if IsBanner(u) { BannerGlued(ls, a[0]); } else { PhaseGlued(ls, a[0]); }
    } else {
      MovedWhole(ls);
      Picked(ls, u);
      Excluded(Moved(ls), a[0], ls);
      AdmissionGlued(ls, Moved(ls), u);
    }
  }

  /** Where nothing is glued the lines written are the lines of the text. */
  lemma FreeLines(ls: seq<string>)
    requires Fit(ls) && AreLines(ls) && ls != []
    requires Movable(ls) || (!AnyOwner(ls) && !IsMoved(ls[|ls| - 1]))
    ensures CriticalRecords(Join(Layout(ls).value)) == CriticalLines(Layout(ls).value)
  {
    hide IsMoved, IsAdmission, Laid, CriticalLines, Join, Lines, Fit, AreLines, Movable, AnyOwner, Select, WholeLine,
      WholeLines, Moved;
    Fitting(ls);
    MovedWhole(ls);
    if Movable(ls) { AdmissionWhole(ls); }
    LaidLines(ls, Moved(ls), Select(ls, IsAdmission)[0]);
    LinesJoin(Layout(ls).value);
  }

  lemma Smaller(a: multiset<string>, b: multiset<string>, x: multiset<string>)
    requires |a| < |b|
    ensures a != b + x
  {
    assert |b + x| == |b| + |x|;
  }

  /**
   * The text that is written has the critical records of the log if and only if the log has an owner line
   * and does not end in an unfinished banner, phase or admission line, which would be glued where it moves.
   */
  lemma TextKeepsRecords(text: string)
    requires Layout(Lines(text)).Some?
    ensures CriticalRecords(Join(Layout(Lines(text)).value)) == CriticalRecords(text) <==>
      AnyOwner(Lines(text)) && Movable(Lines(text))
  {
    hide Lines, Movable, AnyOwner, Laid, CriticalLines, Fit, AreLines, Moved, Select, IsMoved, IsAdmission, Join,
      Record;
    var ls := Lines(text);
    JoinLines(text);
    SomeLine(ls);
    Fitting(ls);
    LayoutKeepsRecords(ls);
    if Movable(ls) || (!AnyOwner(ls) && !IsMoved(ls[|ls| - 1])) {
      FreeLines(ls);
    } else {
      StuckLoses(ls);
      Smaller(CriticalRecords(Join(Layout(ls).value)), CriticalLines(Layout(ls).value),
              if AnyOwner(ls) then multiset{} else Record(Select(ls, IsAdmission)[0]));
    }
  }
}
