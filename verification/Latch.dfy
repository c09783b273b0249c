/** The interrupt latch (substrate/substrate_n.c:628-647, 708-729) as atomic steps
    of one thread and any number of interrupters, in any interleaving. */
module Latch {
  import opened Basics

  /** Where the thread is: in user code, in the gate, or between the two exchanges of the gate's exit. */
  datatype Target = Outside | Inside | Leaving

  /** An interrupter: at rest, or past its look at the flag with a store or a suspend to do. */
  datatype Hand = Storing | Stopping

  datatype Gate = Gate(interruptible: bool, pending: bool, target: Target, hands: map<nat, Hand>)

  /** The atomic steps: gate_enter's exchange, gate_exit's two, and an
      interrupter's look, its store of the latch and its suspend. */
  datatype Event = Enter | Open | Take | Look(who: nat) | Store(who: nat) | Suspend(who: nat)

  const START := Gate(true, false, Outside, map[])

  /** The gate after a step, if that step can come next. */
  function Step(g: Gate, e: Event): Opt<Gate> {
    match e
    case Enter => if g.target.Outside? then Some(g.(interruptible := false, target := Inside)) else None
    case Open => if g.target.Inside? then Some(g.(interruptible := true, target := Leaving)) else None
    case Take => if g.target.Leaving? then Some(g.(pending := false, target := Outside)) else None
    case Look(who) =>
      if who in g.hands then None
      else Some(g.(hands := g.hands[who := if g.interruptible then Stopping else Storing]))
    case Store(who) =>
      if who in g.hands && g.hands[who].Storing? then Some(g.(pending := true, hands := g.hands - {who})) else None
    case Suspend(who) =>
      if who in g.hands && g.hands[who].Stopping? then Some(g.(hands := g.hands - {who})) else None
  }

  /** The gate after a run of steps. */
  function After(run: seq<Event>): Opt<Gate> {
    if run == [] then Some(START)
    else
      match After(run[..|run| - 1])
      case None => None
      case Some(g) => Step(g, run[|run| - 1])
  }

  lemma {:induction false} Prefixes(run: seq<Event>, n: nat)
    requires After(run).Some? && n <= |run|
    ensures After(run[..n]).Some?
    decreases |run|
  {
    if n < |run| {
      Prefixes(run[..|run| - 1], n);
      assert run[..|run| - 1][..n] == run[..n];
    } else {
      assert run[..n] == run;
    }
  }

  /** What the exit's exchange at step `i` reports: the word it took. */
  function Reported(run: seq<Event>, i: nat): bool
    requires After(run).Some? && i < |run| && run[i] == Take
  {
    Prefixes(run, i);
    After(run[..i]).value.pending
  }

  /** A latch was stored in the first `n` steps and no exit has taken it since. */
  ghost predicate Latched(run: seq<Event>, n: nat)
    requires n <= |run|
  {
    exists j :: 0 <= j < n && run[j].Store? && forall k :: j < k < n ==> run[k] != Take
  }

  /** The word is set exactly while a latch is stored and not taken. */
  lemma {:induction false} PendingIsLatched(run: seq<Event>)
    requires After(run).Some?
    ensures After(run).value.pending <==> Latched(run, |run|)
  {
    if run != [] {
      var n := |run| - 1;
      var front, e := run[..n], run[n];
      PendingIsLatched(front);
      assert forall j :: 0 <= j < n ==> run[j] == front[j];
      if e.Store? {
        assert Latched(run, |run|) by { assert run[n].Store?; }
      } else if e != Take {
        if Latched(front, n) {
          var j :| 0 <= j < n && front[j].Store? && forall k :: j < k < n ==> front[k] != Take;
          assert run[j].Store? && forall k :: j < k < |run| ==> run[k] != Take;
        }
        if Latched(run, |run|) {
          var j :| 0 <= j < |run| && run[j].Store? && forall k :: j < k < |run| ==> run[k] != Take;
          assert front[j].Store? && forall k :: j < k < n ==> front[k] != Take;
        }
      }
    }
  }

  /** An exit reports 1 exactly when a latch was stored since the exit before it. */
  lemma ReportsExactly(run: seq<Event>, i: nat)
    requires After(run).Some? && i < |run| && run[i] == Take
    ensures Reported(run, i) <==> Latched(run, i)
  {
    Prefixes(run, i);
    PendingIsLatched(run[..i]);
    assert forall j :: 0 <= j < i ==> run[j] == run[..i][j];
    if Latched(run, i) {
      var j :| 0 <= j < i && run[j].Store? && forall k :: j < k < i ==> run[k] != Take;
      assert run[..i][j].Store? && forall k :: j < k < i ==> run[..i][k] != Take;
    }
    if Latched(run[..i], i) {
      var j :| 0 <= j < i && run[..i][j].Store? && forall k :: j < k < i ==> run[..i][k] != Take;
      assert run[j].Store? && forall k :: j < k < i ==> run[k] != Take;
    }
  }

  /** Every latch is taken by the first exit after its store. */
  lemma FirstExitTakes(run: seq<Event>, j: nat, i: nat)
    requires After(run).Some? && j < i < |run| && run[j].Store? && run[i] == Take
    requires forall k :: j < k < i ==> run[k] != Take
    ensures Reported(run, i)
    ensures forall i' :: i < i' < |run| && run[i'] == Take && !(exists m :: i < m < i' && run[m].Store?) ==> !Reported(run, i')
  {
    ReportsExactly(run, i);
    forall i' | i < i' < |run| && run[i'] == Take && !(exists m :: i < m < i' && run[m].Store?)
      ensures !Reported(run, i')
    {
      ReportsExactly(run, i');
    }
  }

  function Stores(run: seq<Event>): nat {
    if run == [] then 0 else Stores(run[..|run| - 1]) + if run[|run| - 1].Store? then 1 else 0
  }

  /** How many exits reported 1. */
  function Taken(run: seq<Event>): nat
    requires After(run).Some?
  {
    if run == [] then 0
    else
      Prefixes(run, |run| - 1);
      Taken(run[..|run| - 1]) + if run[|run| - 1] == Take && Reported(run, |run| - 1) then 1 else 0
  }

  /** No interrupt is made up: the exits that report one never outnumber the stores. */
  lemma {:induction false} TakenAtMostStores(run: seq<Event>)
    requires After(run).Some?
    ensures Taken(run) + (if After(run).value.pending then 1 else 0) <= Stores(run)
  {
    if run != [] {
      Prefixes(run, |run| - 1);
      TakenAtMostStores(run[..|run| - 1]);
    }
  }

  // ---- the rest of the state ----

  /** The flag is down exactly while the target is inside. */
  lemma {:induction false} FlagIsInside(run: seq<Event>)
    requires After(run).Some?
    ensures After(run).value.interruptible <==> !After(run).value.target.Inside?
  {
    if run != [] { FlagIsInside(run[..|run| - 1]); }
  }

  /** The interrupter looked and has done nothing since. */
  ghost predicate Waiting(run: seq<Event>, who: nat, j: nat) {
    j < |run| && run[j] == Look(who) && forall k :: j < k < |run| ==> run[k] !in {Look(who), Store(who), Suspend(who)}
  }

  /** The thread entered the gate and has not opened it since. */
  ghost predicate InGate(run: seq<Event>) {
    exists j :: 0 <= j < |run| && run[j] == Enter && forall k :: j < k < |run| ==> run[k] != Open
  }

  /** The flag is down exactly while the thread is in the gate. */
  lemma {:induction false} FlagTells(run: seq<Event>)
    requires After(run).Some?
    ensures After(run).value.interruptible <==> !InGate(run)
  {
    if run != [] {
      var n := |run| - 1;
      var front := run[..n];
      FlagTells(front);
      FlagIsInside(front);
      if InGate(front) && run[n] != Open {
        var j :| 0 <= j < n && front[j] == Enter && forall k :: j < k < n ==> front[k] != Open;
        assert run[j] == Enter && forall k :: j < k < |run| ==> run[k] != Open;
      }
      if InGate(run) && run[n] != Enter {
        var j :| 0 <= j < |run| && run[j] == Enter && forall k :: j < k < |run| ==> run[k] != Open;
        assert front[j] == Enter && forall k :: j < k < n ==> front[k] != Open;
      }
    }
  }

  lemma WaitingStep(run: seq<Event>, who: nat, j: nat)
    requires run != []
    ensures var n := |run| - 1;
            Waiting(run, who, j) <==> if j == n then run[n] == Look(who)
                                      else Waiting(run[..n], who, j) && run[n] !in {Look(who), Store(who), Suspend(who)}
  {
    assert forall k :: 0 <= k < |run| - 1 ==> run[k] == run[..|run| - 1][k];
  }

  /** An interrupter has something to do exactly while it has looked and done nothing since: a latch to
      store if it looked at a thread in the gate, else a thread to suspend. */
  lemma {:induction false} HandsTell(run: seq<Event>, who: nat)
    requires After(run).Some?
    ensures who in After(run).value.hands <==> exists j: nat :: Waiting(run, who, j)
    ensures forall j: nat :: Waiting(run, who, j) ==> (After(run).value.hands[who] == Storing <==> InGate(run[..j]))
  {
    if run != [] {
      var n := |run| - 1;
      HandsTell(run[..n], who);
      FlagTells(run[..n]);
      forall j: nat ensures Waiting(run, who, j) <==> if j == n then run[n] == Look(who)
                                                      else Waiting(run[..n], who, j) && run[n] !in {Look(who), Store(who), Suspend(who)} {
        WaitingStep(run, who, j);
      }
      forall j: nat | j < n ensures run[..n][..j] == run[..j] {
      }
      hide Waiting, InGate;
      if run[n] == Look(who) { assert Waiting(run, who, n); }
    }
  }

  // ---- a latch that comes late ----

  ghost predicate Someone(g: Gate, h: Hand) {
    exists who :: who in g.hands && g.hands[who] == h
  }

  /** In user code the word stays clear, unless an interrupter that looked before
      the exit has its store still to do. */
  lemma {:induction false} QuietOutside(run: seq<Event>, t: nat)
    requires After(run).Some? && t < |run| && run[t] == Take
    requires forall k :: t < k < |run| ==> run[k] != Enter
    requires After(run[..t + 1]).Some? && !Someone(After(run[..t + 1]).value, Storing)
    ensures var g := After(run).value;
            g.target.Outside? && !g.pending && !Someone(g, Storing)
    decreases |run|
  {
    var n := |run| - 1;
    if t == n {
      assert run[..t + 1] == run;
    } else {
      Prefixes(run, n);
      assert run[..n][..t + 1] == run[..t + 1];
      assert forall k :: t < k < n ==> run[..n][k] == run[k];
      QuietOutside(run[..n], t);
      FlagIsInside(run[..n]);
      var g, e := After(run[..n]).value, run[n];
      if e.Look? {
        assert g.interruptible;
      }
    }
  }

  /** One that still has its store to do can make it after the exit, in user code. */
  lemma StoreComesLate(run: seq<Event>, who: nat)
    requires After(run).Some? && run != [] && run[|run| - 1] == Take
    requires who in After(run).value.hands && After(run).value.hands[who] == Storing
    ensures var g := After(run + [Store(who)]); g.Some? && g.value.target.Outside? && g.value.pending
  {
    assert (run + [Store(who)])[..|run|] == run;
    Prefixes(run, |run| - 1);
  }

  /** Until the thread enters the gate again no latch is set. */
  ghost predicate StaysQuiet(run: seq<Event>) {
    forall more: seq<Event> :: After(run + more).Some? && Enter !in more ==> !After(run + more).value.pending
  }

  /** So after an exit user code runs without a latch, whatever comes, exactly when no
      interrupter that looked before it has its store still to do. */
  lemma QuietExactly(run: seq<Event>)
    requires After(run).Some? && run != [] && run[|run| - 1] == Take
    ensures StaysQuiet(run) <==> !Someone(After(run).value, Storing)
  {
    var t := |run| - 1;
    if Someone(After(run).value, Storing) {
      var who :| who in After(run).value.hands && After(run).value.hands[who] == Storing;
      StoreComesLate(run, who);
    } else {
      forall more: seq<Event> | After(run + more).Some? && Enter !in more
        ensures !After(run + more).value.pending
      {
        assert (run + more)[..t + 1] == run && (run + more)[t] == Take;
        assert forall k :: t < k < |run + more| ==> (run + more)[k] in more;
        QuietOutside(run + more, t);
      }
    }
  }

  /** That exception happens: a look inside the gate, the exit, and only then the
      store leaves the thread in user code with the latch set. */
  lemma LateLatch()
    ensures var run := [Enter, Look(0), Open, Take, Store(0)];
            && After(run).Some? && After(run).value.target.Outside? && After(run).value.pending
            && !Reported(run, 3)
  {
    var run := [Enter, Look(0), Open, Take, Store(0)];
    assert run[..4] == [Enter, Look(0), Open, Take];
    assert run[..4][..3] == [Enter, Look(0), Open] == run[..3];
    assert run[..3][..2] == [Enter, Look(0)];
    assert run[..3][..2][..1] == [Enter];
    assert run[..3][..2][..1][..0] == [];
    var g1 := START.(interruptible := false, target := Inside);
    assert After([Enter]) == Some(g1);
    assert After([Enter, Look(0)]) == Some(g1.(hands := map[0 := Storing]));
  }
}
