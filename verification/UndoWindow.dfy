/**
 Undo logs always suffice: over runs of consecutive blocks and of reorganisations
 onto forks that are not shorter than the chain they replace, pruning never
 removes a log that a rollback within the finality depth needs.
 */
module UndoWindow {
  import opened Basics
  import opened Hashing
  import opened Ledger
  import opened Sorting
  import opened Chain

  /** All logs above `floor` that pruning at height `high` would keep are there. */
  ghost predicate Suffices(s: State, floor: nat, high: nat) {
    forall h | floor < h <= s.index && h + UNDO_WINDOW >= high :: h in s.logs
  }

  function Max(a: nat, b: nat): nat { if a < b then b else a }

  lemma {:induction false} RunSuffices(s: State, blocks: seq<Crystal>, envs: seq<Env>, n: nat, floor: nat, high: nat)
    requires n <= |blocks| == |envs| && Contiguous(blocks, s.index)
    requires AllFinalized(s, blocks, envs, n).1.None?
    requires floor <= s.index && Suffices(s, floor, high)
    ensures AllFinalized(s, blocks, envs, n).0.index == s.index + n
    ensures n > 0 ==> Suffices(AllFinalized(s, blocks, envs, n).0, floor, Max(high, s.index + n))
  {
    if n > 0 {
      LastBlock(s, blocks, envs, n);
      RunSuffices(s, blocks, envs, n - 1, floor, high);
    }
  }

  lemma {:induction false} EnoughLogs(s: State, floor: nat, a: nat)
    requires Suffices(s, floor, s.index) && floor <= a && s.index <= a + FINALITY_DEPTH
    ensures LogsFrom(s.logs, a, s.index)
  {
  }

  // ------------------------------------------------------------------ runs

  datatype Event = Block(block: Crystal, env: Env) | Fork(chain: seq<Crystal>, envs: seq<Env>)

  ghost predicate WellSized(e: Event) {
    e.Fork? ==> |e.chain| == |e.envs| && e.chain != []
  }

  /** The next block in sequence, or a fork that is contiguous from an ancestor within reach and not shorter than the tip. */
  ghost predicate Legal(density: Crystal -> Hash32, s: State, e: Event, floor: nat)
    requires WellSized(e)
  {
    match e
    case Block(block, _) => block.index == s.index + 1
    case Fork(chain, _) =>
      var a := AncestorOf(density, s, ByIndex(chain)[0]);
      && floor <= a <= s.index <= a + FINALITY_DEPTH
      && Contiguous(ByIndex(chain), a) && s.index <= a + |chain|
  }

  function Next(density: Crystal -> Hash32, s: State, e: Event): State
    requires WellSized(e)
  {
    match e
    case Block(block, env) => Finalized(s, block, env).0
    case Fork(chain, envs) => Reorged(density, s, chain, envs).0
  }

  /** The event was carried out: the block finalized, or every block of the fork. */
  predicate Carried(density: Crystal -> Hash32, s: State, e: Event)
    requires WellSized(e)
  {
    match e
    case Block(block, env) => Finalized(s, block, env).1.None?
    case Fork(chain, envs) => Reorged(density, s, chain, envs).1 == Done
  }

  /** One legal event, carried out. */
  ghost predicate Step(density: Crystal -> Hash32, s: State, e: Event, s': State, floor: nat) {
    WellSized(e) && Legal(density, s, e, floor) && Carried(density, s, e) && s' == Next(density, s, e)
  }

  /** The states before, between and after the events of a run. */
  ghost predicate GoodRun(density: Crystal -> Hash32, states: seq<State>, events: seq<Event>, floor: nat) {
    && |states| == |events| + 1 && states[0].index == floor
    && forall i {:trigger events[i]} | 0 <= i < |events| :: Step(density, states[i], events[i], states[i + 1], floor)
  }

  lemma {:induction false} ForkSuffices(density: Crystal -> Hash32, s: State, e: Event, floor: nat)
    requires e.Fork? && WellSized(e) && Legal(density, s, e, floor) && Carried(density, s, e)
    requires Suffices(s, floor, s.index)
    ensures Suffices(Next(density, s, e), floor, Next(density, s, e).index)
    ensures Next(density, s, e).index == AncestorOf(density, s, ByIndex(e.chain)[0]) + |e.chain|
  {
    var a := AncestorOf(density, s, ByIndex(e.chain)[0]);
    RunSuffices(Rewound(s, a), ByIndex(e.chain), e.envs, |e.chain|, floor, s.index);
  }

  lemma {:induction false} StepSuffices(density: Crystal -> Hash32, s: State, e: Event, floor: nat)
    requires WellSized(e) && Legal(density, s, e, floor) && Carried(density, s, e)
    requires floor <= s.index && Suffices(s, floor, s.index)
    ensures floor <= Next(density, s, e).index && Suffices(Next(density, s, e), floor, Next(density, s, e).index)
  {
    if e.Fork? { ForkSuffices(density, s, e, floor); }
  }

  lemma {:induction false} AlwaysSuffices(density: Crystal -> Hash32, states: seq<State>, events: seq<Event>, floor: nat, n: nat)
    requires n <= |events| && GoodRun(density, states, events, floor)
    ensures floor <= states[n].index && Suffices(states[n], floor, states[n].index)
  {
    if n > 0 {
      AlwaysSuffices(density, states, events, floor, n - 1);
      var e := events[n - 1];
      StepSuffices(density, states[n - 1], e, floor);
    }
  }

  /**
   Main result: at every point of such a run, a fork whose ancestor is at most FINALITY_DEPTH blocks
   down is never refused for depth or for a missing undo log.
   */
  lemma {:induction false} NeverLogMissing(density: Crystal -> Hash32, states: seq<State>, events: seq<Event>, floor: nat, n: nat,
                                           chain: seq<Crystal>, envs: seq<Env>)
    requires GoodRun(density, states, events, floor) && n <= |events|
    requires |chain| == |envs| && chain != [] && Legal(density, states[n], Fork(chain, envs), floor)
    ensures Reorged(density, states[n], chain, envs).1 == Done || Reorged(density, states[n], chain, envs).1.BlockFailed?
  {
    AlwaysSuffices(density, states, events, floor, n);
    EnoughLogs(states[n], floor, AncestorOf(density, states[n], ByIndex(chain)[0]));
  }

  /** The logs are exactly the window pruning leaves at the tip. */
  ghost predicate ExactWindow(s: State, floor: nat) {
    forall h :: h in s.logs <==> floor < h <= s.index && h + UNDO_WINDOW >= s.index
  }

  lemma {:induction false} RunLogs(s: State, blocks: seq<Crystal>, envs: seq<Env>, n: nat, h: nat)
    requires n <= |blocks| == |envs| && Contiguous(blocks, s.index)
    requires AllFinalized(s, blocks, envs, n).1.None?
    ensures AllFinalized(s, blocks, envs, n).0.index == s.index + n
    ensures n > 0 ==> (h in AllFinalized(s, blocks, envs, n).0.logs <==>
      (h in s.logs || s.index < h <= s.index + n) && h + UNDO_WINDOW >= s.index + n)
  {
    if n > 0 {
      LastBlock(s, blocks, envs, n);
      RunLogs(s, blocks, envs, n - 1, h);
    }
  }

  /**
   How short a fork may be: a chain replaced by a fork with tip `t` keeps the logs for a full FINALITY_DEPTH
   rollback exactly when `t` is at most three blocks below the old tip, or the whole rollback stays in the fork.
   */
  lemma {:induction false} ShorterForks(s: State, a: nat, blocks: seq<Crystal>, envs: seq<Env>, floor: nat)
    requires |blocks| == |envs| > 0 && ExactWindow(s, floor) && a <= s.index && LogsFrom(s.logs, a, s.index)
    requires Contiguous(blocks, a) && floor <= a && floor + FINALITY_DEPTH <= a + |blocks|
    requires AllFinalized(Rewound(s, a), blocks, envs, |blocks|).1.None?
    requires s.index > floor + UNDO_WINDOW
    ensures var s' := AllFinalized(Rewound(s, a), blocks, envs, |blocks|).0;
      s'.index == a + |blocks|
      && (LogsFrom(s'.logs, s'.index - FINALITY_DEPTH, s'.index)
          <==> s.index <= s'.index + 3 || a + FINALITY_DEPTH <= s'.index)
  {
    ForkWindow(s, a, blocks, envs, floor);
    WindowReaches(s, a, AllFinalized(Rewound(s, a), blocks, envs, |blocks|).0.logs, floor, a + |blocks|);
  }

  /** The logs after a fork: what is left of the old ones up to the ancestor, and those of the fork, within the window. */
  ghost predicate ForkLogs(s: State, a: nat, logs: map<nat, UndoLog>, t: nat) {
    forall h: nat :: h in logs <==> ((h in s.logs && h <= a) || a < h <= t) && h + UNDO_WINDOW >= t
  }

  lemma {:induction false} ForkWindow(s: State, a: nat, blocks: seq<Crystal>, envs: seq<Env>, floor: nat)
    requires |blocks| == |envs| > 0 && a <= s.index && LogsFrom(s.logs, a, s.index) && Contiguous(blocks, a) && ExactWindow(s, floor)
    requires AllFinalized(Rewound(s, a), blocks, envs, |blocks|).1.None?
    ensures AllFinalized(Rewound(s, a), blocks, envs, |blocks|).0.index == a + |blocks|
    ensures ForkLogs(s, a, AllFinalized(Rewound(s, a), blocks, envs, |blocks|).0.logs, a + |blocks|)
  {
    var logs, t := AllFinalized(Rewound(s, a), blocks, envs, |blocks|).0.logs, a + |blocks|;
    forall h: nat ensures h in logs <==> ((h in s.logs && h <= a) || a < h <= t) && h + UNDO_WINDOW >= t {
      RunLogs(Rewound(s, a), blocks, envs, |blocks|, h);
    }
    RunLogs(Rewound(s, a), blocks, envs, |blocks|, 0);
  }

  lemma {:induction false} WindowReaches(s: State, a: nat, logs: map<nat, UndoLog>, floor: nat, t: nat)
    requires ExactWindow(s, floor) && floor <= a <= s.index && floor + FINALITY_DEPTH <= t && a < t
    requires s.index > floor + UNDO_WINDOW && ForkLogs(s, a, logs, t)
    ensures LogsFrom(logs, t - FINALITY_DEPTH, t) <==> s.index <= t + 3 || a + FINALITY_DEPTH <= t
  {
    assert t - 5 in logs || t - 5 !in logs;
  }

  /** A run of blocks from a state without logs leaves exactly the window. */
  lemma {:induction false} WindowAfterRun(s: State, blocks: seq<Crystal>, envs: seq<Env>)
    requires |blocks| == |envs| > 0 && Contiguous(blocks, s.index) && s.logs == map[]
    requires AllFinalized(s, blocks, envs, |blocks|).1.None?
    ensures ExactWindow(AllFinalized(s, blocks, envs, |blocks|).0, s.index)
  {
    var s' := AllFinalized(s, blocks, envs, |blocks|).0;
    forall h: nat ensures h in s'.logs <==> s.index < h <= s'.index && h + UNDO_WINDOW >= s'.index {
      RunLogs(s, blocks, envs, |blocks|, h);
    }
    RunLogs(s, blocks, envs, |blocks|, 0);
  }

  /**
   How deep a rollback can really go: with the logs of the window a fork that passes the depth check is rolled
   back to its ancestor exactly when that is at most nine blocks down.
   */
  lemma {:induction false} RollbackReach(density: Crystal -> Hash32, s: State, chain: seq<Crystal>, envs: seq<Env>, floor: nat)
    requires |chain| == |envs| && chain != [] && ExactWindow(s, floor)
    requires DepthOf(s.index, ByIndex(chain)[0]) <= FINALITY_DEPTH && floor <= AncestorOf(density, s, ByIndex(chain)[0])
    ensures Reorged(density, s, chain, envs).1 !in {EmptyChain, TooDeep, LogMissing}
       <==> s.index <= AncestorOf(density, s, ByIndex(chain)[0]) + UNDO_WINDOW + 1
  {
    var a := AncestorOf(density, s, ByIndex(chain)[0]);
    if s.index > a + UNDO_WINDOW + 1 { assert a + 1 !in s.logs; }
  }

  /**
   A fork based on the current tip's number whose parent is nine blocks down passes the check that is to
   refuse more than six, and nine blocks are rolled back.
   */
  lemma {:induction false} NineBlocksUndone(density: Crystal -> Hash32, s: State, base: Crystal, env: Env)
    requires Valid(s) && ExactWindow(s, 0) && s.index == 10 && base.index == 10
    requires 1 in s.crystals && density(s.crystals[1]) == base.prevHash
    requires forall h | 1 < h <= 9 && h in s.crystals :: density(s.crystals[h]) != base.prevHash
    ensures Reorged(density, s, [base], [env]).1 !in {EmptyChain, TooDeep, LogMissing}
    ensures LogsFrom(s.logs, 1, 10) && Rewound(s, 1).index == 1 && 1 in s.past && Rewound(s, 1).atoms == s.past[1]
    ensures Reorged(density, s, [base], [env]).0 == AllFinalized(Rewound(s, 1), [base], [env], 1).0
  {
    SingleSorted(base);
    DepthCheckMisses(density, s, base);
    RollbackReach(density, s, [base], [env], 0);
    RewoundValid(s, 1);
  }

  lemma {:induction false} SingleSorted(c: Crystal)
    ensures ByIndex([c]) == [c]
  {
    assert [c][..0] == [] && [c][1..] == [];
  }
}
