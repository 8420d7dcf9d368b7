/** Concrete logs on which the layout loses a record. */
module LayoutSamples {
  import opened Collections
  import opened Text
  import opened CaptureTail
  import opened FinalLayout
  import opened LayoutText
  import TailLaws

  /** A small log: the three phases, the admission, `owners`, the completion, the banner `b`. */
  function Sample(owners: seq<string>, b: string): seq<string> {
    [PhaseTag("idle") + "\n", PhaseTag("load") + "\n", PhaseTag("recovery") + "\n", ADMITTED + "\n"] + owners
      + [COMPLETED, b]
  }

  predicate Sampled(owners: seq<string>, b: string) {
    (owners == [] || owners == [OWNER_CPU + "\n"]) && (b == BANNER || b == BANNER + "\n")
  }

  lemma TagPhase(name: string, n: nat)
    requires (name == "idle" && n == 0) || (name == "load" && n == 1) || (name == "recovery" && n == 2)
    ensures PhaseOf(PhaseTag(name) + "\n") == Some(n)
  {
    var t := PhaseTag(name);
    assert t <= t + "\n" && t[..16] == PHASE;
    assert t[16] == name[0] && PhaseTag("idle")[16] == 'i' && PhaseTag("load")[16] == 'l';
    assert PhaseTag("recovery")[16] == 'r';
  }

  lemma KindsOfSample(l: string)
    ensures l == PhaseTag("idle") + "\n" || l == PhaseTag("load") + "\n" || l == PhaseTag("recovery") + "\n" ==>
      IsPhase(l) && !IsBanner(l) && !IsAdmission(l) && !IsCompletion(l) && !IsOwner(l)
    ensures l == ADMITTED + "\n" ==> IsAdmission(l) && !IsBanner(l) && !IsPhase(l) && !IsCompletion(l) && !IsOwner(l)
    ensures l == OWNER_CPU + "\n" ==> IsOwner(l) && !IsAdmission(l) && !IsBanner(l) && !IsPhase(l) && !IsCompletion(l)
    ensures l == COMPLETED ==> IsCompletion(l) && !IsAdmission(l) && !IsBanner(l) && !IsPhase(l) && !IsOwner(l)
    ensures l == BANNER || l == BANNER + "\n" ==>
      IsBanner(l) && !IsAdmission(l) && !IsPhase(l) && !IsCompletion(l) && !IsOwner(l)
  {
    hide PhaseOf;
    Kinds(l);
    TagPhase("idle", 0);
    TagPhase("load", 1);
    TagPhase("recovery", 2);
    assert ADMITTED <= ADMITTED + "\n" && OWNER_CPU <= OWNER_CPU + "\n" && BANNER <= BANNER + "\n";
  }

  function If(c: bool, l: string): seq<string> { if c then [l] else [] }

  lemma SelectOne(a: string, p: string -> bool)
    ensures Select([a], p) == If(p(a), a)
  {
    assert [a][..0] == [];
  }

  lemma SelectTwo(a: string, b: string, p: string -> bool)
    ensures Select([a, b], p) == If(p(a), a) + If(p(b), b)
  {
    hide Select;
    SelectOne(a, p);
    SelectSnoc([a], b, p);
    assert [a] + [b] == [a, b];
  }

  lemma SelectSample(a: string, b: string, c: string, d: string, o: seq<string>, e: string, f: string,
                     p: string -> bool)
    ensures Select([a, b, c, d] + o + [e, f], p) ==
      If(p(a), a) + If(p(b), b) + (If(p(c), c) + If(p(d), d)) + Select(o, p) + (If(p(e), e) + If(p(f), f))
  {
    hide Select, If;
    SelectConcat([a, b, c, d] + o, [e, f], p);
    SelectConcat([a, b, c, d], o, p);
    assert [a, b] + [c, d] == [a, b, c, d];
    SelectConcat([a, b], [c, d], p);
    SelectTwo(a, b, p);
    SelectTwo(c, d, p);
    SelectTwo(e, f, p);
  }

  lemma SampleBanner(owners: seq<string>, b: string)
    requires Sampled(owners, b)
    ensures Select(Sample(owners, b), IsBanner) == [b]
  {
    hide Select, Sample, IsBanner, IsPhase, IsAdmission, IsCompletion, IsOwner, PhaseTag;
    KindsOfSample(OWNER_CPU + "\n");
    PickSample(owners, b, IsBanner);
    KindsOfSample(PhaseTag("idle") + "\n");
    KindsOfSample(PhaseTag("load") + "\n");
    KindsOfSample(PhaseTag("recovery") + "\n");
    KindsOfSample(ADMITTED + "\n");
    KindsOfSample(COMPLETED);
    KindsOfSample(b);
  }

  lemma SampleAdmission(owners: seq<string>, b: string)
    requires Sampled(owners, b)
    ensures Select(Sample(owners, b), IsAdmission) == [ADMITTED + "\n"]
  {
    hide Select, Sample, IsBanner, IsPhase, IsAdmission, IsCompletion, IsOwner, PhaseTag;
    KindsOfSample(OWNER_CPU + "\n");
    PickSample(owners, b, IsAdmission);
    KindsOfSample(PhaseTag("idle") + "\n");
    KindsOfSample(PhaseTag("load") + "\n");
    KindsOfSample(PhaseTag("recovery") + "\n");
    KindsOfSample(ADMITTED + "\n");
    KindsOfSample(COMPLETED);
    KindsOfSample(b);
  }

  lemma SampleCompletion(owners: seq<string>, b: string)
    requires Sampled(owners, b)
    ensures Select(Sample(owners, b), IsCompletion) == [COMPLETED]
  {
    hide Select, Sample, IsBanner, IsPhase, IsAdmission, IsCompletion, IsOwner, PhaseTag;
    KindsOfSample(OWNER_CPU + "\n");
    PickSample(owners, b, IsCompletion);
    KindsOfSample(PhaseTag("idle") + "\n");
    KindsOfSample(PhaseTag("load") + "\n");
    KindsOfSample(PhaseTag("recovery") + "\n");
    KindsOfSample(ADMITTED + "\n");
    KindsOfSample(COMPLETED);
    KindsOfSample(b);
  }

  lemma SamplePhases(owners: seq<string>, b: string)
    requires Sampled(owners, b)
    ensures Select(Sample(owners, b), IsPhase) ==
      [PhaseTag("idle") + "\n", PhaseTag("load") + "\n", PhaseTag("recovery") + "\n"]
  {
    hide Select, Sample, IsBanner, IsPhase, IsAdmission, IsCompletion, IsOwner, PhaseTag;
    KindsOfSample(OWNER_CPU + "\n");
    PickSample(owners, b, IsPhase);
    KindsOfSample(PhaseTag("idle") + "\n");
    KindsOfSample(PhaseTag("load") + "\n");
    KindsOfSample(PhaseTag("recovery") + "\n");
    KindsOfSample(ADMITTED + "\n");
    KindsOfSample(COMPLETED);
    KindsOfSample(b);
  }

  lemma PickSample(owners: seq<string>, b: string, p: string -> bool)
    requires Sampled(owners, b) && !p(OWNER_CPU + "\n")
    ensures var i, l, r := PhaseTag("idle") + "\n", PhaseTag("load") + "\n", PhaseTag("recovery") + "\n";
      Select(Sample(owners, b), p) == If(p(i), i) + If(p(l), l) + If(p(r), r)
        + If(p(ADMITTED + "\n"), ADMITTED + "\n") + If(p(COMPLETED), COMPLETED) + If(p(b), b)
  {
    hide Select, PhaseTag, If;
    var i, l, r, a := PhaseTag("idle") + "\n", PhaseTag("load") + "\n", PhaseTag("recovery") + "\n", ADMITTED + "\n";
    NoneSelected(owners, p);
    SelectSample(i, l, r, a, owners, COMPLETED, b, p);
    Flat(If(p(i), i), If(p(l), l), If(p(r), r), If(p(a), a), If(p(COMPLETED), COMPLETED), If(p(b), b));
  }

  lemma Flat(a: seq<string>, b: seq<string>, c: seq<string>, d: seq<string>, e: seq<string>, f: seq<string>)
    ensures a + b + (c + d) + [] + (e + f) == a + b + c + d + e + f
  {}

  lemma SampleFits(owners: seq<string>, b: string)
    requires Sampled(owners, b)
    ensures Layout(Sample(owners, b)).Some?
  {
    hide Select, PhaseOf, PhaseTag, Sample, Laid;
    SampleBanner(owners, b);
    SampleAdmission(owners, b);
    SampleCompletion(owners, b);
    SamplePhases(owners, b);
    TagPhase("idle", 0);
    TagPhase("load", 1);
    TagPhase("recovery", 2);
  }

  lemma SampleOwners(owners: seq<string>, b: string)
    requires Sampled(owners, b)
    ensures AnyOwner(Sample(owners, b)) <==> owners != []
  {
    hide IsOwner, PhaseTag;
    var ls := Sample(owners, b);
    if owners != [] {
      KindsOfSample(OWNER_CPU + "\n");
      assert ls[4] == OWNER_CPU + "\n";
    } else {
      forall k | 0 <= k < |ls| ensures !IsOwner(ls[k]) { KindsOfSample(ls[k]); }
    }
  }

  lemma TagWhole(t: string)
    requires Lacks(t, '\n')
    ensures WholeLine(t + "\n")
  {}

  lemma SampleLines(owners: seq<string>, b: string)
    requires Sampled(owners, b)
    ensures AreLines(Sample(owners, b))
  {
    hide PhaseTag, WholeLine, Lacks;
    var ls := Sample(owners, b);
    NamesPlain();
    TagWhole(PhaseTag("idle"));
    TagWhole(PhaseTag("load"));
    TagWhole(PhaseTag("recovery"));
    TagWhole(ADMITTED);
    TagWhole(OWNER_CPU);
    CompletionCritical();
    assert ls == ls[..|ls| - 1] + [b];
    assert WholeLines(ls[..|ls| - 1]);
    assert IsLine(b) by { BannerIsLine(b); }
    RestLines(ls[..|ls| - 1], b);
  }

  lemma BannerIsLine(b: string)
    requires b == BANNER || b == BANNER + "\n"
    ensures IsLine(b)
  {
    assert Lacks(BANNER, '\n');
  }

  lemma NamesPlain()
    ensures Lacks(PhaseTag("idle"), '\n') && Lacks(PhaseTag("load"), '\n') && Lacks(PhaseTag("recovery"), '\n')
    ensures Lacks(ADMITTED, '\n') && Lacks(OWNER_CPU, '\n')
  {
    assert Lacks(PHASE, '\n') && Lacks(" completed=yes ", '\n');
    assert Lacks("idle", '\n') && Lacks("load", '\n') && Lacks("recovery", '\n');
    TailLaws.LacksBoth(PHASE, "idle", '\n');
    TailLaws.LacksBoth(PHASE, "load", '\n');
    TailLaws.LacksBoth(PHASE, "recovery", '\n');
    TailLaws.LacksBoth(PHASE + "idle", " completed=yes ", '\n');
    TailLaws.LacksBoth(PHASE + "load", " completed=yes ", '\n');
    TailLaws.LacksBoth(PHASE + "recovery", " completed=yes ", '\n');
  }

  /** A log that is laid out and loses its admission: it has no owner line. */
  lemma AdmissionIsLost()
    ensures var text := Join(Sample([], BANNER + "\n"));
      Layout(Lines(text)).Some? && CriticalRecords(Join(Layout(Lines(text)).value)) != CriticalRecords(text)
  {
    hide Sample, Layout, CriticalRecords, AnyOwner, Movable;
    SampleFits([], BANNER + "\n");
    SampleOwners([], BANNER + "\n");
    SampleLines([], BANNER + "\n");
    LinesJoin(Sample([], BANNER + "\n"));
    TextKeepsRecords(Join(Sample([], BANNER + "\n")));
  }

  /** A log with an owner line that loses a record: its banner is the last line and has no LF. */
  lemma UnfinishedIsGlued()
    ensures var ls := Sample([OWNER_CPU + "\n"], BANNER); var text := Join(ls);
      && AnyOwner(ls) && Layout(Lines(text)).Some?
      && CriticalRecords(Join(Layout(Lines(text)).value)) != CriticalRecords(text)
  {
    hide Sample, Layout, CriticalRecords, AnyOwner;
    var ls := Sample([OWNER_CPU + "\n"], BANNER);
    SampleFits([OWNER_CPU + "\n"], BANNER);
    SampleOwners([OWNER_CPU + "\n"], BANNER);
    SampleLines([OWNER_CPU + "\n"], BANNER);
    LinesJoin(ls);
    assert BANNER in ls && Leaves(BANNER) && !Terminated(BANNER) by { BannerStuck([OWNER_CPU + "\n"]); }
    TextKeepsRecords(Join(ls));
  }

  lemma BannerStuck(owners: seq<string>)
    ensures BANNER in Sample(owners, BANNER) && Leaves(BANNER) && !Terminated(BANNER)
  {
    hide PhaseTag;
    KindsOfSample(BANNER);
    assert Lacks(BANNER, '\n');
  }
}
