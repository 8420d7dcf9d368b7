/** The modelled final layout: banner, phase and admission lines move, and nothing else critical is lost. */
module FinalLayout {
  import opened Collections
  import opened Text
  import opened CaptureTail

  // ------------------------------------------------------------------------ line kinds

  const COMPLETED := "cpu-load: completed=yes\n"
  const PHASE := "cpu-load: phase="
  const OWNER_CPU := "ap-owner-cpu:"
  const ADMITTED := "ap-owner: v=1 admitted=1 "
  const LOAD_TAG := "cpu-load:"
  const OWNER_TAG := "ap-owner:"
  const LOAD_PROGRESS := "cpu-load-progress:"
  const OWNER_PROGRESS := "ap-owner-progress:"

  predicate IsBanner(l: string) { BANNER <= l }

  /** 0 for idle, 1 for load, 2 for recovery: a phase that was completed. */
  function PhaseOf(l: string): Option<nat> {
    if PhaseTag("idle") <= l then Some(0)
    else if PhaseTag("load") <= l then Some(1)
    else if PhaseTag("recovery") <= l then Some(2)
    else None
  }

  function PhaseTag(name: string): string { PHASE + name + " completed=yes " }

  predicate IsPhase(l: string) { PhaseOf(l).Some? }

  predicate IsAdmission(l: string) { ADMITTED <= l }

  predicate IsCompletion(l: string) { l == COMPLETED }

  predicate IsMoved(l: string) { IsBanner(l) || IsPhase(l) }

  predicate IsOwner(l: string) { OWNER_CPU <= l }

  /** The five kinds exclude each other. */
  lemma Kinds(l: string)
    ensures IsMoved(l) ==> LOAD_TAG <= l && !IsAdmission(l) && !IsCompletion(l) && !IsOwner(l)
    ensures IsBanner(l) ==> !IsPhase(l)
    ensures IsAdmission(l) ==> OWNER_TAG <= l && !IsCompletion(l) && !IsOwner(l)
    ensures IsCompletion(l) ==> !IsOwner(l)
  {
    assert BANNER[10] == 'v' && BANNER[..9] == LOAD_TAG && COMPLETED[10] == 'c' && COMPLETED[0] == 'c';
    var p := PHASE;
    assert p[10] == 'p' && p[..9] == LOAD_TAG;
    assert IsPhase(l) ==> p <= l by { if IsPhase(l) { PhaseStart(l); } }
    assert ADMITTED[..9] == OWNER_TAG && ADMITTED[8] == ':' && OWNER_CPU[8] == '-' && LOAD_TAG[0] == 'c';
    assert OWNER_CPU[0] == 'a' && ADMITTED[0] == 'a';
  }

  lemma PhaseStart(l: string)
    requires IsPhase(l)
    ensures PHASE <= l
  {
    forall name ensures PHASE <= PhaseTag(name) {}
  }

  // ---------------------------------------------------------------------- the layout

  /** One banner, one admission, one completion, and the three phases in order. */
  predicate Fit(ls: seq<string>) {
    var phases := Select(ls, IsPhase);
    && |Select(ls, IsBanner)| == 1 && |phases| == 3 && |Select(ls, IsAdmission)| == 1
    && |Select(ls, IsCompletion)| == 1
    && PhaseOf(phases[0]) == Some(0) && PhaseOf(phases[1]) == Some(1) && PhaseOf(phases[2]) == Some(2)
  }

  function Renamed(l: string, tag: string, progress: string): string {
    if tag <= l then progress + l[|tag|..] else l
  }

  /** What takes the place of `line`, after `out` has been written. */
  function Placed(line: string, moved: seq<string>, admission: string, out: seq<string>): seq<string> {
    if IsMoved(line) then [Renamed(line, LOAD_TAG, LOAD_PROGRESS)]
    else if IsAdmission(line) then [Renamed(line, OWNER_TAG, OWNER_PROGRESS)]
    else if IsCompletion(line) then moved + [line]
    else if IsOwner(line) && admission !in out then [admission, line]
    else [line]
  }

  function Laid(ls: seq<string>, moved: seq<string>, admission: string): seq<string> {
    if ls == [] then []
    else
      var out := Laid(ls[..|ls| - 1], moved, admission);
      out + Placed(ls[|ls| - 1], moved, admission, out)
  }

  function Moved(ls: seq<string>): seq<string> { Select(ls, IsBanner) + Select(ls, IsPhase) }

  function Layout(ls: seq<string>): Option<seq<string>> {
    if Fit(ls) then Some(Laid(ls, Moved(ls), Select(ls, IsAdmission)[0])) else None
  }

  lemma LaidStep(ls: seq<string>, k: nat, moved: seq<string>, admission: string)
    requires k < |ls|
    ensures var out := Laid(ls[..k], moved, admission);
      Laid(ls[..k + 1], moved, admission) == out + Placed(ls[k], moved, admission, out)
  {
    assert ls[..k + 1][..k] == ls[..k];
  }

  /** What the lists that were picked out say about a line of the log. */
  lemma Picked(ls: seq<string>, line: string)
    requires Fit(ls) && line in ls
    ensures line in Moved(ls) <==> IsMoved(line)
    ensures line == Select(ls, IsAdmission)[0] <==> IsAdmission(line)
  {
    hide Select;
    Selected(ls, IsBanner);
    Selected(ls, IsPhase);
    Selected(ls, IsAdmission);
    var a := Select(ls, IsAdmission);
    assert a == [a[0]];
    assert a[0] in a;
  }

  /** `final_layout`. */
  method LayOut(text: string) returns (r: Option<string>)
    ensures r == var out := Layout(Lines(text)); if out.Some? then Some(Join(out.value)) else None
  {
    hide Lines, Select, Laid, IsMoved, IsAdmission, IsCompletion, IsOwner;
    var ls := Lines(text);
    if !Fit(ls) { return None; }
    var moved, admission := Moved(ls), Select(ls, IsAdmission)[0];
    var out, k := [], 0;
    assert ls[..0] == [] && Laid([], moved, admission) == [] by { NothingLaid(moved, admission); }
    while k < |ls|
      invariant k <= |ls| && out == Laid(ls[..k], moved, admission)
    {
      var line := ls[k];
      LaidStep(ls, k, moved, admission);
      Picked(ls, line);
      Kinds(line);
      Excluded(moved, admission, ls);
      if line in moved {
        out := out + [Renamed(line, LOAD_TAG, LOAD_PROGRESS)];
      } else if line == admission {
        out := out + [Renamed(line, OWNER_TAG, OWNER_PROGRESS)];
      } else {
        ghost var before := out;
        if IsCompletion(line) { out := out + moved; }
        if IsOwner(line) && admission !in out { out := out + [admission]; }
        out := out + [line];
        Appended(before, moved, admission, line);
      }
      k := k + 1;
    }
    assert ls[..k] == ls;
    return Some(Join(out));
  }

  lemma NothingLaid(moved: seq<string>, admission: string)
    ensures Laid([], moved, admission) == []
  {}

  lemma Appended(out: seq<string>, moved: seq<string>, admission: string, line: string)
    ensures out + moved + [line] == out + (moved + [line]) && out + [admission] + [line] == out + [admission, line]
  {}

  lemma Excluded(moved: seq<string>, admission: string, ls: seq<string>)
    requires Fit(ls) && moved == Moved(ls) && admission == Select(ls, IsAdmission)[0]
    ensures forall x :: x in moved ==> IsMoved(x)
    ensures IsAdmission(admission)
  {
    hide Select;
    Selected(ls, IsBanner);
    Selected(ls, IsPhase);
    Selected(ls, IsAdmission);
    assert admission in Select(ls, IsAdmission);
  }

  // -------------------------------------------------------------- renamed lines are inert

  lemma NotPrefix(a: string, t: string, rest: string, j: nat)
    requires j < |a| && j < |t| && a[j] != t[j]
    ensures !(a <= t + rest)
  {}

  lemma LoadProgressInert(rest: string)
    ensures !Critical(LOAD_PROGRESS + rest)
  {
    var t := LOAD_PROGRESS;
    NotPrefix("cpu-load:", t, rest, 8);
    NotPrefix("laptop-capture: completed=", t, rest, 0);
    assert t == "cpu-load-progress:";
    forall i | 0 <= i < |ALWAYS| ensures !(ALWAYS[i] <= t + rest) { LoadProgressApart(rest, i); }
  }

  lemma LoadProgressApart(rest: string, i: nat)
    requires i < |ALWAYS|
    ensures !(ALWAYS[i] <= LOAD_PROGRESS + rest)
  {
    var t := LOAD_PROGRESS;
    NotPrefix("cpu-load-capture:", t, rest, 9);
    NotPrefix("cpu-load-power:", t, rest, 10);
    NotPrefix("cpu-load-idle:", t, rest, 9);
    NotPrefix("cpu-capture-", t, rest, 4);
    NotPrefix("cpu-p2:", t, rest, 4);
    NotPrefix("cpu-i2:", t, rest, 4);
    NotPrefix("cpu-e2:", t, rest, 4);
    NotPrefix("cpu-idle-", t, rest, 4);
    NotPrefix("cpu-mwait", t, rest, 4);
    assert i >= 9 ==> ALWAYS[i][0] == 'a';
    if i >= 9 { NotPrefix(ALWAYS[i], t, rest, 0); }
  }

  lemma OwnerProgressInert(rest: string)
    ensures !Critical(OWNER_PROGRESS + rest)
  {
    var t := OWNER_PROGRESS;
    NotPrefix("cpu-load:", t, rest, 0);
    NotPrefix("laptop-capture: completed=", t, rest, 0);
    forall i | 0 <= i < |ALWAYS| ensures !(ALWAYS[i] <= t + rest) { OwnerProgressApart(rest, i); }
  }

  lemma OwnerProgressApart(rest: string, i: nat)
    requires i < |ALWAYS|
    ensures !(ALWAYS[i] <= OWNER_PROGRESS + rest)
  {
    var t := OWNER_PROGRESS;
    NotPrefix("ap-owner:", t, rest, 8);
    NotPrefix("ap-owner-cpu:", t, rest, 9);
    NotPrefix("ap-c3:", t, rest, 3);
    NotPrefix("ap-c3-peer:", t, rest, 3);
    NotPrefix("ap-c3-round:", t, rest, 3);
    NotPrefix("ap-package", t, rest, 3);
    NotPrefix("ap-platform", t, rest, 3);
    assert i < 9 ==> ALWAYS[i][0] == 'c';
    if i < 9 { NotPrefix(ALWAYS[i], t, rest, 0); }
  }

  /** The record of a whole line. */
  function Record(l: string): multiset<string> { RecordOf(Chomp(l)) }

  lemma ChompTagged(tag: string, rest: string)
    requires tag != "" && tag[|tag| - 1] == ':'
    ensures exists r :: Chomp(tag + rest) == tag + r
  {
    var l := tag + rest;
    if Terminated(l) {
      assert rest != "";
      assert Chomp(l) == tag + rest[..|rest| - 1];
    } else {
      assert Chomp(l) == tag + rest;
    }
  }

  lemma RenamedInert(l: string)
    ensures IsMoved(l) ==> Record(Renamed(l, LOAD_TAG, LOAD_PROGRESS)) == multiset{}
    ensures IsAdmission(l) ==> Record(Renamed(l, OWNER_TAG, OWNER_PROGRESS)) == multiset{}
  {
    hide Critical, Chomp;
    Kinds(l);
    if IsMoved(l) {
      ChompTagged(LOAD_PROGRESS, l[|LOAD_TAG|..]);
      var r :| Chomp(LOAD_PROGRESS + l[|LOAD_TAG|..]) == LOAD_PROGRESS + r;
      LoadProgressInert(r);
    }
    if IsAdmission(l) {
      ChompTagged(OWNER_PROGRESS, l[|OWNER_TAG|..]);
      var r :| Chomp(OWNER_PROGRESS + l[|OWNER_TAG|..]) == OWNER_PROGRESS + r;
      OwnerProgressInert(r);
    }
  }

  // --------------------------------------------------------------------- conservation

  lemma RecordsSnoc(ls: seq<string>, l: string)
    ensures CriticalLines(ls + [l]) == CriticalLines(ls) + Record(l)
  {
    assert (ls + [l])[..|ls|] == ls;
  }

  lemma OneRecordOf(l: string)
    ensures CriticalLines([l]) == Record(l)
  {
    var none: seq<string> := [];
    assert none + [l] == [l];
    RecordsSnoc(none, l);
  }

  predicate AnyOwner(ls: seq<string>) { exists k :: 0 <= k < |ls| && IsOwner(ls[k]) }

  lemma AnyOwnerSnoc(ls: seq<string>, l: string)
    ensures AnyOwner(ls + [l]) <==> AnyOwner(ls) || IsOwner(l)
  {
    hide IsOwner;
    var all := ls + [l];
    if AnyOwner(ls) { var k :| 0 <= k < |ls| && IsOwner(ls[k]); assert all[k] == ls[k]; }
    if IsOwner(l) { assert all[|ls|] == l; }
    if AnyOwner(all) { var k :| 0 <= k < |all| && IsOwner(all[k]); assert k < |ls| ==> all[k] == ls[k]; }
  }

  predicate Movables(moved: seq<string>, admission: string) {
    IsAdmission(admission) && forall x :: x in moved ==> IsMoved(x)
  }

  lemma RenamedApart(l: string)
    ensures IsMoved(l) ==> !IsAdmission(Renamed(l, LOAD_TAG, LOAD_PROGRESS))
    ensures IsAdmission(l) ==> !IsAdmission(Renamed(l, OWNER_TAG, OWNER_PROGRESS))
  {
    Kinds(l);
    NotPrefix(ADMITTED, LOAD_PROGRESS, l[if LOAD_TAG <= l then |LOAD_TAG| else 0..], 0);
    NotPrefix(ADMITTED, OWNER_PROGRESS, l[if OWNER_TAG <= l then |OWNER_TAG| else 0..], 8);
  }

  /** The admission line is written with the first owner line, and not before. */
  lemma {:induction false} AdmissionPlaced(ls: seq<string>, moved: seq<string>, admission: string)
    requires Movables(moved, admission)
    ensures admission in Laid(ls, moved, admission) <==> AnyOwner(ls)
  {
    hide IsMoved, IsAdmission, IsCompletion, IsOwner, Renamed;
    if ls != [] {
      var init, l := ls[..|ls| - 1], ls[|ls| - 1];
      AdmissionPlaced(init, moved, admission);
      assert ls == init + [l];
      AnyOwnerSnoc(init, l);
      Kinds(l);
      RenamedApart(l);
      forall x | x in moved ensures x != admission { Kinds(x); }
      var out := Laid(init, moved, admission);
      assert admission in Placed(l, moved, admission, out) <==> IsOwner(l) && admission !in out by {
        PlacedAdmission(l, moved, admission, out);
      }
    }
  }

  lemma PlacedAdmission(l: string, moved: seq<string>, admission: string, out: seq<string>)
    requires IsAdmission(admission) && forall x :: x in moved ==> x != admission
    ensures admission in Placed(l, moved, admission, out) <==> IsOwner(l) && admission !in out
  {
    hide IsMoved, IsAdmission, IsCompletion, IsOwner, Renamed;
    Kinds(l);
    RenamedApart(l);
  }

  /** Lines taken away from where they stood. */
  predicate Leaves(l: string) { IsMoved(l) || IsAdmission(l) }

  function When(c: bool, m: multiset<string>): multiset<string> { if c then m else multiset{} }

  predicate Done(ls: seq<string>) { Select(ls, IsCompletion) != [] }

  /** Every record is where it was, or was taken away and is due at the completion or at the first owner line. */
  predicate Level(ls: seq<string>, moved: seq<string>, admission: string) {
    CriticalLines(Laid(ls, moved, admission)) + CriticalLines(Select(ls, Leaves)) ==
    CriticalLines(ls) + When(Done(ls), CriticalLines(moved)) + When(AnyOwner(ls), Record(admission))
  }

  lemma {:induction false} Balanced(ls: seq<string>, moved: seq<string>, admission: string)
    requires Movables(moved, admission) && |Select(ls, IsCompletion)| <= 1
    ensures Level(ls, moved, admission)
  {
    hide Movables, Level, IsCompletion;
    if ls == [] {
      NoneYet(moved, admission);
    } else {
      var init, l := ls[..|ls| - 1], ls[|ls| - 1];
      Balanced(init, moved, admission);
      assert ls == init + [l];
      LevelStep(init, l, moved, admission);
    }
  }

  lemma SelectedRecords(ls: seq<string>, l: string, p: string -> bool)
    ensures CriticalLines(Select(ls + [l], p)) == CriticalLines(Select(ls, p)) + When(p(l), Record(l))
  {
    hide CriticalLines, Select, Record;
    SelectSnoc(ls, l, p);
    RecordsSnoc(Select(ls, p), l);
  }

  lemma LaidRecords(init: seq<string>, l: string, moved: seq<string>, admission: string)
    requires Movables(moved, admission)
    ensures CriticalLines(Laid(init + [l], moved, admission)) == CriticalLines(Laid(init, moved, admission)) +
      (When(!Leaves(l), Record(l)) + When(IsCompletion(l), CriticalLines(moved))
       + When(IsOwner(l) && !AnyOwner(init), Record(admission)))
  {
    hide CriticalLines, Leaves, IsCompletion, IsOwner, Record, AnyOwner, Placed, Movables;
    assert (init + [l])[..|init|] == init;
    var out := Laid(init, moved, admission);
    AdmissionPlaced(init, moved, admission);
    CriticalConcat(out, Placed(l, moved, admission, out));
    PlacedRecords(l, moved, admission, out);
  }

  lemma Once(m: multiset<string>, a: bool, b: bool)
    requires !(a && b)
    ensures When(a, m) + When(b, m) == When(a || b, m)
  {}

  lemma LevelStep(init: seq<string>, l: string, moved: seq<string>, admission: string)
    requires Movables(moved, admission) && |Select(init + [l], IsCompletion)| <= 1 && Level(init, moved, admission)
    ensures Level(init + [l], moved, admission)
  {
    hide CriticalLines, Leaves, IsCompletion, IsOwner, Record, AnyOwner, Movables, Laid, Select, When;
    var ls, m, a, due := init + [l], CriticalLines(moved), Record(admission), IsOwner(l) && !AnyOwner(init);
    LaidRecords(init, l, moved, admission);
    SelectedRecords(init, l, Leaves);
    SelectSnoc(init, l, IsCompletion);
    RecordsSnoc(init, l);
    AnyOwnerSnoc(init, l);
    Once(m, Done(init), IsCompletion(l));
    Once(a, AnyOwner(init), due);
    Once(Record(l), Leaves(l), !Leaves(l));
    assert When(true, Record(l)) == Record(l) by { Always(Record(l)); }
    Rebalance(CriticalLines(Laid(init, moved, admission)), CriticalLines(Select(init, Leaves)), CriticalLines(init),
              When(!Leaves(l), Record(l)), When(Leaves(l), Record(l)),
              When(Done(init), m), When(AnyOwner(init), a), When(IsCompletion(l), m), When(due, a));
  }

  lemma Always(m: multiset<string>)
    ensures When(true, m) == m
  {}

  lemma Rebalance(out: multiset<string>, left: multiset<string>, before: multiset<string>, stays: multiset<string>,
                  leaves: multiset<string>, d: multiset<string>, e: multiset<string>, d': multiset<string>,
                    e': multiset<string>)
    requires out + left == before + d + e
    ensures out + (stays + d' + e') + (left + leaves) == before + (leaves + stays) + (d + d') + (e + e')
  {
    assert out + (stays + d' + e') + (left + leaves) == (out + left) + leaves + stays + d' + e';
  }

  lemma NoneYet(moved: seq<string>, admission: string)
    ensures Level([], moved, admission)
  {}

  lemma PlacedRecords(l: string, moved: seq<string>, admission: string, out: seq<string>)
    ensures CriticalLines(Placed(l, moved, admission, out)) ==
      When(!Leaves(l), Record(l)) + When(IsCompletion(l), CriticalLines(moved))
      + When(IsOwner(l) && admission !in out, Record(admission))
  {
    hide CriticalLines, IsMoved, IsAdmission, IsCompletion, IsOwner, Record, Renamed;
    Kinds(l);
    RenamedInert(l);
    OneRecordOf(l);
    OneRecordOf(admission);
    OneRecordOf(Renamed(l, LOAD_TAG, LOAD_PROGRESS));
    OneRecordOf(Renamed(l, OWNER_TAG, OWNER_PROGRESS));
    RecordsSnoc(moved, l);
    RecordsSnoc([admission], l);
    assert [admission] + [l] == [admission, l];
  }

  function Picks(ls: seq<string>, p: string -> bool): multiset<string> { CriticalLines(Select(ls, p)) }

  lemma {:induction false} LeavingRecords(ls: seq<string>)
    ensures Picks(ls, Leaves) == Picks(ls, IsBanner) + Picks(ls, IsPhase) + Picks(ls, IsAdmission)
  {
    if ls != [] {
      var init, l := ls[..|ls| - 1], ls[|ls| - 1];
      LeavingRecords(init);
      assert ls == init + [l];
      LeavingStep(init, l);
    }
  }

  lemma LeavingStep(init: seq<string>, l: string)
    requires Picks(init, Leaves) == Picks(init, IsBanner) + Picks(init, IsPhase) + Picks(init, IsAdmission)
    ensures var ls := init + [l]; Picks(ls, Leaves) == Picks(ls, IsBanner) + Picks(ls, IsPhase) + Picks(ls, IsAdmission)
  {
    hide CriticalLines, IsBanner, IsPhase, IsAdmission, Record, Select, When;
    Kinds(l);
    SelectedRecords(init, l, Leaves);
    SelectedRecords(init, l, IsBanner);
    SelectedRecords(init, l, IsPhase);
    SelectedRecords(init, l, IsAdmission);
    OneOfThree(Record(l), IsBanner(l), IsPhase(l), IsAdmission(l));
    Pairwise(Picks(init, IsBanner), Picks(init, IsPhase), Picks(init, IsAdmission),
             When(IsBanner(l), Record(l)), When(IsPhase(l), Record(l)), When(IsAdmission(l), Record(l)));
  }

  lemma OneOfThree(m: multiset<string>, a: bool, b: bool, c: bool)
    requires !(a && b) && !(a && c) && !(b && c)
    ensures When(a || b || c, m) == When(a, m) + When(b, m) + When(c, m)
  {}

  lemma Pairwise(a: multiset<string>, b: multiset<string>, c: multiset<string>, x: multiset<string>,
                 y: multiset<string>, z: multiset<string>)
    ensures a + b + c + (x + y + z) == (a + x) + (b + y) + (c + z)
  {}

  /**
   * The layout only moves records: the critical lines stay the same bag exactly when some owner line
   * follows for the admission to be written with; otherwise the admission is the one record lost.
   */
  lemma LayoutKeepsRecords(ls: seq<string>)
    requires Layout(ls).Some?
    ensures var admission := Select(ls, IsAdmission)[0];
      && CriticalLines(Layout(ls).value) + (if AnyOwner(ls) then multiset{} else Record(admission)) == CriticalLines(ls)
      && Record(admission) != multiset{}
    ensures CriticalLines(Layout(ls).value) == CriticalLines(ls) <==> AnyOwner(ls)
  {
    hide CriticalLines, IsMoved, IsAdmission, IsCompletion, IsOwner, Record, AnyOwner, Laid, Select, PhaseOf;
    var a := Select(ls, IsAdmission);
    var moved, admission := Moved(ls), a[0];
    Excluded(moved, admission, ls);
    Balanced(ls, moved, admission);
    LeavingRecords(ls);
    CriticalConcat(Select(ls, IsBanner), Select(ls, IsPhase));
    assert a == [admission];
    OneRecordOf(admission);
    AdmissionCritical(admission);
    Conserved(CriticalLines(Layout(ls).value), CriticalLines(moved), Record(admission), CriticalLines(ls),
      AnyOwner(ls));
  }

  lemma Conserved(out: multiset<string>, moved: multiset<string>, admission: multiset<string>,
                  before: multiset<string>, placed: bool)
    requires out + (moved + admission) == before + moved + (if placed then admission else multiset{})
    requires admission != multiset{}
    ensures out + (if placed then multiset{} else admission) == before
    ensures out == before <==> placed
  {
    assert out + (moved + admission) - moved == out + admission;
    assert before + moved + (if placed then admission else multiset{}) - moved ==
      before + (if placed then admission else multiset{});
    if placed {
      assert out + admission - admission == out && before + admission - admission == before;
    } else {
      assert before + multiset{} == before;
      var x :| x in admission;
      assert before[x] == out[x] + admission[x];
    }
  }

  lemma AdmissionCritical(l: string)
    requires IsAdmission(l)
    ensures Record(l) != multiset{}
  {
    var c := Chomp(l);
    assert |ADMITTED| == 25 && ADMITTED[24] == ' ' && ADMITTED[..9] == "ap-owner:";
    assert |l| == 25 ==> l[24] == ' ';
    assert "ap-owner:" <= c;
    assert ALWAYS[9] == "ap-owner:";
    assert c[0] == 'a' && !("cpu-load:" <= c);
  }

  // ------------------------------------------------------------------------ other lines

  /** A line the layout has no business with. */
  predicate Stays(l: string) { !Leaves(l) && !(LOAD_PROGRESS <= l) && !(OWNER_PROGRESS <= l) }

  lemma RenamedGoes(l: string)
    ensures IsMoved(l) ==> !Stays(Renamed(l, LOAD_TAG, LOAD_PROGRESS))
    ensures IsAdmission(l) ==> !Stays(Renamed(l, OWNER_TAG, OWNER_PROGRESS))
  {
    hide IsMoved, IsAdmission;
    Kinds(l);
  }

  lemma PlacedStays(l: string, moved: seq<string>, admission: string, out: seq<string>)
    requires Movables(moved, admission)
    ensures Select(Placed(l, moved, admission, out), Stays) == if Stays(l) then [l] else []
  {
    hide IsMoved, IsAdmission, IsCompletion, IsOwner, Renamed, Select;
    RenamedGoes(l);
    Kinds(l);
    OneStays(l);
    OneStays(Renamed(l, LOAD_TAG, LOAD_PROGRESS));
    OneStays(Renamed(l, OWNER_TAG, OWNER_PROGRESS));
    OneStays(admission);
    NoneSelected(moved, Stays);
    SelectSnoc(moved, l, Stays);
    SelectSnoc([admission], l, Stays);
    assert [admission] + [l] == [admission, l];
  }

  lemma OneStays(l: string)
    ensures Select([l], Stays) == if Stays(l) then [l] else []
  {
    assert [l][..0] == [];
  }

  /** All other lines stay as they are, in their order. */
  lemma {:induction false} OthersInPlace(ls: seq<string>, moved: seq<string>, admission: string)
    requires Movables(moved, admission)
    ensures Select(Laid(ls, moved, admission), Stays) == Select(ls, Stays)
  {
    if ls != [] {
      hide Movables, Stays, Placed;
      var init, l := ls[..|ls| - 1], ls[|ls| - 1];
      var out := Laid(init, moved, admission);
      OthersInPlace(init, moved, admission);
      PlacedStays(l, moved, admission, out);
      SelectConcat(out, Placed(l, moved, admission, out), Stays);
    }
  }
}
