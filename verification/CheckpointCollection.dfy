/** The collection loop: retained evidence can acknowledge further evidence until nothing more can be kept. */
module CheckpointCollection {
  import opened Collections
  import opened Text
  import opened CheckpointRetention

  // ------------------------------------------------------- newest generation per slot

  /** Assignment to an ordered dictionary: a known name keeps its place. */
  function Replace(ms: seq<Mark>, m: Mark): seq<Mark> {
    if ms == [] then [m]
    else if ms[0].key.name == m.key.name then [m] + ms[1..]
    else [ms[0]] + Replace(ms[1..], m)
  }

  /** `{mark[0]: mark for mark in marks}`, as the list of its values. */
  function Latest(marks: seq<Mark>): seq<Mark> {
    if marks == [] then [] else Replace(Latest(marks[..|marks| - 1]), marks[|marks| - 1])
  }

  predicate DistinctNames(ms: seq<Mark>) {
    forall i, j :: 0 <= i < j < |ms| ==> ms[i].key.name != ms[j].key.name
  }

  lemma {:induction false} ReplaceMembers(ms: seq<Mark>, m: Mark)
    requires DistinctNames(ms)
    ensures DistinctNames(Replace(ms, m))
    ensures forall x :: x in Replace(ms, m) <==> x == m || (x in ms && x.key.name != m.key.name)
  {
    if ms != [] {
      var rest := ms[1..];
      assert ms == [ms[0]] + rest;
      if ms[0].key.name != m.key.name {
        ReplaceMembers(rest, m);
        var r := Replace(rest, m);
        forall j | 0 <= j < |r| ensures r[j].key.name != ms[0].key.name { assert r[j] in r; }
      }
    }
  }

  /** `m` is in the list and no later entry names the same slot. */
  predicate Newest(marks: seq<Mark>, m: Mark) {
    exists i :: 0 <= i < |marks| && marks[i] == m && forall j :: i < j < |marks| ==> marks[j].key.name != m.key.name
  }

  /** Only the newest generation of each slot is considered, once: older bytes are already overwritten. */
  lemma {:induction false} LatestIsNewest(marks: seq<Mark>)
    ensures DistinctNames(Latest(marks))
    ensures forall m :: m in Latest(marks) <==> Newest(marks, m)
  {
    hide Newest, Replace;
    if marks == [] {
      forall m ensures !Newest(marks, m) { NoneNewest(m); }
    } else {
      var init, last := marks[..|marks| - 1], marks[|marks| - 1];
      LatestIsNewest(init);
      ReplaceMembers(Latest(init), last);
      assert marks == init + [last];
      forall m ensures m in Latest(marks) <==> Newest(marks, m) { NewestSnoc(init, last, m); }
    }
  }

  lemma NoneNewest(m: Mark)
    ensures !Newest([], m)
  {}

  lemma NewestSnoc(init: seq<Mark>, last: Mark, m: Mark)
    ensures Newest(init + [last], m) <==> m == last || (Newest(init, m) && m.key.name != last.key.name)
  {
    var marks := init + [last];
    assert marks[|init|] == last;
    if Newest(init, m) && m.key.name != last.key.name {
      var i :| 0 <= i < |init| && init[i] == m && forall j :: i < j < |init| ==> init[j].key.name != m.key.name;
      assert marks[i] == m;
    }
    if Newest(marks, m) && m != last {
      var i :| 0 <= i < |marks| && marks[i] == m && forall j :: i < j < |marks| ==> marks[j].key.name != m.key.name;
      assert init[i] == m && forall j :: i < j < |init| ==> init[j] == marks[j];
    }
  }

  // --------------------------------------------------------------------- evidence

  /** Why a checkpoint was kept: its generation, and the serial log and position it was judged against. */
  datatype Reason = Reason(mark: Mark, output: string)

  /** Checkpoint `j` holds its own receipt, and was acknowledged by the serial rule or by an earlier checkpoint. */
  predicate Justified(cs: seq<string>, rs: seq<Reason>, j: nat)
    requires j < |cs| && |rs| == |cs|
  {
    && Contains(cs[j], Receipt(rs[j].mark.key))
    && (UartDurable(rs[j].output, rs[j].mark.after, rs[j].mark.key) || AnyDurableLine(cs[..j], rs[j].mark.key))
  }

  predicate AllJustified(cs: seq<string>, rs: seq<Reason>) {
    && |rs| == |cs|
    && (forall j :: 0 <= j < |cs| ==> Justified(cs, rs, j))
    && (forall i, j :: 0 <= i < j < |rs| ==> rs[i].mark.key != rs[j].mark.key)
  }

  lemma JustifiedSnoc(cs: seq<string>, rs: seq<Reason>, raw: string, r: Reason)
    requires AllJustified(cs, rs) && Contains(raw, Receipt(r.mark.key)) && Durable(r.output, r.mark, cs)
    requires forall i :: 0 <= i < |rs| ==> rs[i].mark.key != r.mark.key
    ensures AllJustified(cs + [raw], rs + [r])
  {
    hide Contains, UartDurable, HasDurableLine, AnyDurableLine;
    var cs', rs' := cs + [raw], rs + [r];
    forall j | 0 <= j < |cs'| ensures Justified(cs', rs', j) {
      if j < |cs| {
        assert Justified(cs, rs, j);
        assert cs'[..j] == cs[..j];
      } else {
        assert cs'[..j] == cs;
      }
    }
  }

  /** Whatever was kept since was judged against this very log, and is one of these marks. */
  predicate Grounded(was: seq<Reason>, now: seq<Reason>, output: string, latest: seq<Mark>) {
    was <= now && forall j :: |was| <= j < |now| ==> now[j].output == output && now[j].mark in latest
  }

  lemma GroundedSnoc(was: seq<Reason>, now: seq<Reason>, output: string, latest: seq<Mark>, m: Mark)
    requires Grounded(was, now, output, latest) && m in latest
    ensures Grounded(was, now + [Reason(m, output)], output, latest)
  {}

  lemma GroundedBoth(was: seq<Reason>, mid: seq<Reason>, now: seq<Reason>, output: string, latest: seq<Mark>)
    requires Grounded(was, mid, output, latest) && Grounded(mid, now, output, latest)
    ensures Grounded(was, now, output, latest)
  {
    forall j | |was| <= j < |now| ensures now[j].output == output && now[j].mark in latest {
      if j < |mid| { assert now[j] == mid[j]; }
    }
  }

  function Keys(rs: seq<Reason>): (ks: set<Key>)
    ensures forall k :: k in ks <==> exists i :: 0 <= i < |rs| && rs[i].mark.key == k
  {
    set i | 0 <= i < |rs| :: rs[i].mark.key
  }

  lemma KeysSnoc(rs: seq<Reason>, r: Reason)
    ensures Keys(rs + [r]) == Keys(rs) + {r.mark.key}
  {
    forall k ensures k in Keys(rs + [r]) <==> k in Keys(rs) || k == r.mark.key {
      if i :| 0 <= i < |rs| && rs[i].mark.key == k { assert (rs + [r])[i].mark.key == k; }
      assert (rs + [r])[|rs|] == r;
    }
  }

  // ------------------------------------------------------------------------- reads

  /** The n-th read of a slot's file; a read that fails ends the run. */
  type Disk = (nat, string) -> Option<string>

  datatype Outcome = Finished | Broken

  /** One read that was made: of which slot, and what came back. */
  datatype Read = Read(name: string, data: Option<string>)

  /** Reads `t` and `t + 1` gave the same bytes of the slot. */
  predicate ReadTwice(history: seq<Read>, t: nat, name: string, raw: string) {
    t + 1 < |history| && history[t] == history[t + 1] == Read(name, Some(raw))
  }

  /** The generation's own slot was read twice alike, and its receipt was not there. */
  predicate Missing(history: seq<Read>, t: nat, k: Key) {
    && t + 1 < |history| && history[t] == history[t + 1] && history[t].name == k.name
    && history[t].data.Some? && !Contains(history[t].data.value, Receipt(k))
  }

  predicate FromDisk(disk: Disk, history: seq<Read>, from: nat) {
    forall t :: from <= t < |history| ==> history[t].data == disk(t, history[t].name)
  }

  /** The last of the reads since `from` failed, or gave other bytes of the slot than the one before it. */
  predicate BadRead(history: seq<Read>, from: nat) {
    var n := |history|;
    && n > from
    && (history[n - 1].data.None?
        || (n >= from + 2 && history[n - 2].name == history[n - 1].name && history[n - 2] != history[n - 1]))
  }

  /** The last two reads since `from` succeeded and agree. */
  predicate PairAtEnd(history: seq<Read>, from: nat) {
    var n := |history|;
    n >= from + 2 && history[n - 2] == history[n - 1] && history[n - 1].data.Some?
  }

  /** Each checkpoint is what two reads of its own slot gave, right before it was kept, in the order of keeping. */
  predicate Sourced(cs: seq<string>, rs: seq<Reason>, history: seq<Read>, keptAt: seq<nat>) {
    && |cs| == |rs| == |keptAt|
    && (forall j :: 0 <= j < |cs| ==>
         2 <= keptAt[j] <= |history| && ReadTwice(history, keptAt[j] - 2, rs[j].mark.key.name, cs[j]))
    && (forall i, j :: 0 <= i < j < |keptAt| ==> keptAt[i] < keptAt[j])
  }

  /** How many reads had been made when the last checkpoint was kept. */
  function LastKept(keptAt: seq<nat>): nat { if keptAt == [] then 0 else keptAt[|keptAt| - 1] }

  lemma SourcedGrows(cs: seq<string>, rs: seq<Reason>, history: seq<Read>, more: seq<Read>, keptAt: seq<nat>)
    requires Sourced(cs, rs, history, keptAt) && history <= more
    ensures Sourced(cs, rs, more, keptAt)
  {
    forall j | 0 <= j < |cs| ensures ReadTwice(more, keptAt[j] - 2, rs[j].mark.key.name, cs[j]) {
      assert ReadTwice(history, keptAt[j] - 2, rs[j].mark.key.name, cs[j]);
    }
  }

  lemma SourcedSnoc(cs: seq<string>, rs: seq<Reason>, history: seq<Read>, keptAt: seq<nat>, raw: string, r: Reason)
    requires Sourced(cs, rs, history, keptAt) && |history| >= 2
    requires ReadTwice(history, |history| - 2, r.mark.key.name, raw)
    requires LastKept(keptAt) < |history|
    ensures Sourced(cs + [raw], rs + [r], history, keptAt + [|history|])
  {
    hide ReadTwice;
    forall i | 0 <= i < |keptAt|
      ensures keptAt[i] < |history|
    {
      assert i < |keptAt| - 1 ==> keptAt[i] < keptAt[|keptAt| - 1];
    }
  }

  /**
   * Nothing more to gain from `m`: kept, not acknowledged, or its own slot read twice alike
   * without the receipt, no earlier than the read numbered `since`.
   */
  ghost predicate Settled(output: string, m: Mark, cs: seq<string>, collected: set<Key>, history: seq<Read>,
                          since: nat) {
    m.key in collected || !Durable(output, m, cs) || exists t :: since <= t && Missing(history, t, m.key)
  }

  lemma SettledGrows(output: string, m: Mark, cs: seq<string>, collected: set<Key>, history: seq<Read>,
                     more: seq<Read>, since: nat, earlier: nat)
    requires Settled(output, m, cs, collected, history, since) && history <= more && earlier <= since
    ensures Settled(output, m, cs, collected, more, earlier)
  {
    hide Durable, Receipt, Contains;
    if t :| since <= t && Missing(history, t, m.key) { assert Missing(more, t, m.key); }
  }

  function KeySet(ms: seq<Mark>): set<Key> { set m <- ms :: m.key }

  function Later(a: nat, b: nat): nat { if a < b then b else a }

  class Collector {
    var checkpoints: seq<string>
    var collected: set<Key>
    var ticks: nat
    ghost var reasons: seq<Reason>
    /** Every read made, and how many had been made when each checkpoint was kept. */
    ghost var history: seq<Read>
    ghost var keptAt: seq<nat>

    ghost predicate Valid()
      reads this
    {
      && AllJustified(checkpoints, reasons) && collected == Keys(reasons)
      && ticks == |history| && Sourced(checkpoints, reasons, history, keptAt)
    }

    constructor ()
      ensures Valid() && checkpoints == [] && ticks == 0
    {
      checkpoints, collected, ticks := [], {}, 0;
      reasons, history, keptAt := [], [], [];
    }

    /** `read_snapshot`. */
    method ReadSlot(name: string, disk: Disk) returns (data: Option<string>)
      requires Valid()
      modifies this`ticks, this`history
      ensures Valid() && data == disk(old(ticks), name) && history == old(history) + [Read(name, data)]
    {
      hide AllJustified, Keys, Sourced;
      data := disk(ticks, name);
      SourcedGrows(checkpoints, reasons, history, history + [Read(name, data)], keptAt);
      ticks, history := ticks + 1, history + [Read(name, data)];
    }

    method Keep(output: string, m: Mark, raw: string)
      requires Valid() && m.key !in collected && Durable(output, m, checkpoints) && Contains(raw, Receipt(m.key))
      requires |history| >= 2 && ReadTwice(history, |history| - 2, m.key.name, raw) && LastKept(keptAt) < |history|
      modifies this`checkpoints, this`collected, this`reasons, this`keptAt
      ensures Valid() && checkpoints == old(checkpoints) + [raw] && collected == old(collected) + {m.key}
      ensures keptAt == old(keptAt) + [|history|] && reasons == old(reasons) + [Reason(m, output)]
    {
      hide Durable, Receipt, Contains, ReadTwice, Sourced;
      JustifiedSnoc(checkpoints, reasons, raw, Reason(m, output));
      KeysSnoc(reasons, Reason(m, output));
      SourcedSnoc(checkpoints, reasons, history, keptAt, raw, Reason(m, output));
      checkpoints, collected := checkpoints + [raw], collected + {m.key};
      reasons, keptAt := reasons + [Reason(m, output)], keptAt + [|history|];
    }

    lemma KeptBefore()
      requires Valid()
      ensures LastKept(keptAt) <= |history|
    {}

    /** One candidate: two equal reads that hold the receipt make it a checkpoint. */
    method Consider(output: string, m: Mark, disk: Disk) returns (o: Outcome, kept: bool)
      requires Valid() && m.key !in collected && Durable(output, m, checkpoints)
      modifies this
      ensures Valid() && old(history) <= history && FromDisk(disk, history, old(ticks))
      ensures var raw, again := disk(old(ticks), m.key.name), disk(old(ticks) + 1, m.key.name);
        && (o == Finished <==> raw.Some? && again == raw)
        && (kept <==> o == Finished && Contains(raw.value, Receipt(m.key)))
        && checkpoints == (if kept then old(checkpoints) + [raw.value] else old(checkpoints))
      ensures collected == if kept then old(collected) + {m.key} else old(collected)
      ensures keptAt == if kept then old(keptAt) + [|history|] else old(keptAt)
      ensures reasons == if kept then old(reasons) + [Reason(m, output)] else old(reasons)
      ensures o == Finished && !kept ==> Missing(history, old(ticks), m.key)
      ensures o == Broken <==> BadRead(history, old(ticks))
      ensures o == Finished ==> |history| == old(ticks) + 2 && history[old(ticks)] == history[old(ticks) + 1]
    {
      hide Durable, Receipt, Contains, AllJustified, Keys, Sourced;
      kept := false;
      KeptBefore();
      var raw := ReadSlot(m.key.name, disk);
      if raw.None? { return Broken, false; }
      var again := ReadSlot(m.key.name, disk);
      if again != raw { return Broken, false; }
      if !Contains(raw.value, Receipt(m.key)) { return Finished, false; }
      Keep(output, m, raw.value);
      return Finished, true;
    }

    /** `retain_checkpoint`; `ready` says that one log directory was announced and no staged image is under test. */
    method RetainCheckpoint(output: string, ready: bool, disk: Disk) returns (o: Outcome)
      requires Valid()
      modifies this
      ensures Valid() && old(checkpoints) <= checkpoints && old(collected) <= collected
      ensures Grounded(old(reasons), reasons, output, Latest(MarksOf(Hits(output))))
      ensures old(history) <= history && FromDisk(disk, history, old(ticks))
      ensures o == Finished && ready ==> forall m <- Latest(MarksOf(Hits(output))) ::
        Settled(output, m, checkpoints, collected, history, Later(old(ticks), LastKept(keptAt)))
      ensures !ready ==> o == Finished && checkpoints == old(checkpoints) && history == old(history)
      ensures o == Broken <==> BadRead(history, old(ticks))
    {
      hide Hits, Durable, Latest, AllJustified, Keys, Sourced, Missing, Settled, Grounded;
      assert Grounded(reasons, reasons, output, Latest(MarksOf(Hits(output)))) by {
        NothingKept(reasons, output, Latest(MarksOf(Hits(output))));
      }
      if !ready { return Finished; }
      var marks := CheckpointCandidates(output);
      var latest := Latest(marks);
      var progress := true;
      while progress
        invariant Valid() && old(checkpoints) <= checkpoints && old(collected) <= collected
        invariant Grounded(old(reasons), reasons, output, latest)
        invariant old(history) <= history && FromDisk(disk, history, old(ticks)) && !BadRead(history, old(ticks))
        invariant !progress ==>
          forall m <- latest :: Settled(output, m, checkpoints, collected, history, Later(old(ticks), LastKept(keptAt)))
        decreases KeySet(latest) - collected, progress
      {
        ghost var start, was := ticks, reasons;
        o, progress := Pass(output, latest, disk);
        GroundedBoth(old(reasons), was, reasons, output, latest);
        if o == Broken { return; }
        forall m <- latest | !progress
          ensures Settled(output, m, checkpoints, collected, history, Later(old(ticks), LastKept(keptAt)))
        {
          SettledGrows(output, m, checkpoints, collected, history, history,
                       Later(start, LastKept(keptAt)), Later(old(ticks), LastKept(keptAt)));
        }
      }
      o := Finished;
    }

    /** One pass over the newest marks, from the last to the first. */
    method Pass(output: string, latest: seq<Mark>, disk: Disk) returns (o: Outcome, progress: bool)
      requires Valid()
      modifies this
      ensures Valid() && old(checkpoints) <= checkpoints && old(collected) <= collected
      ensures Grounded(old(reasons), reasons, output, latest)
      ensures old(history) <= history && FromDisk(disk, history, old(ticks))
      ensures progress ==> KeySet(latest) - collected < KeySet(latest) - old(collected)
      ensures o == Finished && !progress ==>
        && checkpoints == old(checkpoints) && collected == old(collected) && keptAt == old(keptAt)
        && forall m <- latest ::
             Settled(output, m, checkpoints, collected, history, Later(old(ticks), LastKept(keptAt)))
      ensures o == Broken <==> BadRead(history, old(ticks))
      ensures o == Finished && |history| > old(ticks) ==> PairAtEnd(history, old(ticks))
    {
      hide Durable, AllJustified, Keys, Sourced, Missing, Settled, LastKept, Grounded;
      progress := false;
      KeptBefore();
      NothingKept(reasons, output, latest);
      ghost var since := ticks;
      var k := |latest|;
      while k > 0
        invariant 0 <= k <= |latest| && Valid() && old(checkpoints) <= checkpoints && old(collected) <= collected
        invariant Grounded(old(reasons), reasons, output, latest)
        invariant old(history) <= history && FromDisk(disk, history, since)
        invariant |history| > since ==> PairAtEnd(history, since)
        invariant progress ==> KeySet(latest) - collected < KeySet(latest) - old(collected)
        invariant !progress ==> checkpoints == old(checkpoints) && collected == old(collected) && keptAt == old(keptAt)
        invariant !progress ==>
          forall i :: k <= i < |latest| ==> Settled(output, latest[i], checkpoints, collected, history, since)
      {
        k := k - 1;
        ghost var was, start := history, ticks;
        assert latest[k].key in KeySet(latest);
        GroundedSnoc(old(reasons), reasons, output, latest, latest[k]);
        var kept;
        o, kept := Visit(output, latest[k], disk);
        if o == Broken { return; }
        if !kept && !progress {
          forall i | k <= i < |latest| ensures Settled(output, latest[i], checkpoints, collected, history, since) {
            if i == k { SettledGrows(output, latest[k], checkpoints, collected, history, history, start, since); }
            else { SettledGrows(output, latest[i], checkpoints, collected, was, history, since, since); }
          }
        }
        progress := progress || kept;
      }
      o := Finished;
    }

    /** One mark of a pass: passed over when already kept or not acknowledged, else read. */
    method Visit(output: string, m: Mark, disk: Disk) returns (o: Outcome, kept: bool)
      requires Valid()
      modifies this
      ensures Valid() && old(history) <= history && FromDisk(disk, history, old(ticks))
      ensures kept ==> o == Finished && m.key !in old(collected) && old(Durable(output, m, checkpoints))
      ensures collected == if kept then old(collected) + {m.key} else old(collected)
      ensures reasons == if kept then old(reasons) + [Reason(m, output)] else old(reasons)
      ensures old(checkpoints) <= checkpoints
      ensures !kept ==> checkpoints == old(checkpoints) && keptAt == old(keptAt)
      ensures o == Finished && !kept ==> Settled(output, m, checkpoints, collected, history, old(ticks))
      ensures o == Broken <==> BadRead(history, old(ticks))
      ensures o == Finished && |history| > old(ticks) ==> PairAtEnd(history, old(ticks))
    {
      hide Durable, AllJustified, Keys, Sourced, Missing, Settled, Receipt, Contains;
      if m.key in collected || !Durable(output, m, checkpoints) {
        NothingToGain(output, m, checkpoints, collected, history, ticks);
        return Finished, false;
      }
      o, kept := Consider(output, m, disk);
      if o == Finished && !kept {
        NowMissing(output, m, checkpoints, collected, history, old(ticks), old(ticks));
      }
    }
  }

  lemma NothingKept(rs: seq<Reason>, output: string, latest: seq<Mark>)
    ensures Grounded(rs, rs, output, latest)
  {}

  lemma NowMissing(output: string, m: Mark, cs: seq<string>, collected: set<Key>, history: seq<Read>, t: nat,
                   since: nat)
    requires since <= t && Missing(history, t, m.key)
    ensures Settled(output, m, cs, collected, history, since)
  {}

  lemma NothingToGain(output: string, m: Mark, cs: seq<string>, collected: set<Key>, history: seq<Read>, since: nat)
    requires m.key in collected || !Durable(output, m, cs)
    ensures Settled(output, m, cs, collected, history, since)
  {}
}
