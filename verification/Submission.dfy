/** Multi-flag submission of one owner on one challenge with a fixed flag set: which finds and
    Solves rows exist, sequentially and with requests interleaved statement by statement. */
module Submission {
  import opened Base

  type FlagId = nat
  type Request = nat

  // ----- the rows, and the routes run one after the other

  datatype SubmitReply =
    | Incorrect | AttemptsExhausted | EmptySubmission
    | AlreadyFound(complete: bool) | Recorded(complete: bool)

  /** The rows of one (challenge, owner). `flags` are the challenge's flags. */
  class Progress {
    const flags: set<FlagId>
    var found: set<FlagId>
    var solves: nat
    var fails: nat

    /** At most one Solves row, there exactly when every flag is found; a challenge without flags never has one. */
    ghost predicate Valid()
      reads this
    {
      found <= flags && solves == if flags != {} && found == flags then 1 else 0
    }

    constructor (flags: set<FlagId>)
      ensures Valid() && this.flags == flags && found == {} && solves == 0 && fails == 0
    {
      this.flags, found, solves, fails := flags, {}, 0, 0;
    }

    /** `record_flag_find`: idempotent per (owner, flag). */
    method RecordFlagFind(flag: FlagId)
      modifies this`found
      ensures found == old(found) + {flag}
    {
      if flag !in found {
        found := found + {flag};
      }
    }

    /** `_insert_ctfd_solve`: idempotent per (owner, challenge). */
    method InsertSolve()
      modifies this`solves
      ensures solves == if old(solves) == 0 then 1 else old(solves)
    {
      if solves == 0 {
        solves := 1;
      }
    }

    /** `submit_flag` behind the rate limiter. `matched` is the first flag the text matches, if any;
        `maxAttempts` of zero means no limit. */
    method SubmitFlag(empty: bool, matched: Option<FlagId>, maxAttempts: nat) returns (r: SubmitReply)
      requires Valid() && (matched.Some? ==> matched.value in flags)
      modifies this
      ensures Valid()
      ensures r == if maxAttempts > 0 && old(fails) >= maxAttempts then AttemptsExhausted
                   else if empty then EmptySubmission
                   else if matched.None? then Incorrect
                   else if matched.value in old(found) then AlreadyFound(old(found) == flags)
                   else Recorded(old(found) + {matched.value} == flags)
      ensures found == old(found) + if r.Recorded? then {matched.value} else {}
      ensures fails == old(fails) + if r.Incorrect? then 1 else 0
    {
      if maxAttempts > 0 && fails >= maxAttempts {
        return AttemptsExhausted;
      }
      if empty {
        return EmptySubmission;
      }
      if matched.None? {
        fails := fails + 1;
        return Incorrect;
      }
      SubsetSizes(found, flags);
      if matched.value in found {
        return AlreadyFound(|found| >= |flags|);
      }
      RecordFlagFind(matched.value);
      SubsetSizes(found, flags);
      var complete := |found| >= |flags|;
      if complete {
        InsertSolve();
      }
      r := Recorded(complete);
    }

    /** CTFd's native route: `attempt` is asked only while no Solves row exists, then `solve` or `fail` runs.
        A find that does not complete the set is answered "correct" in words but recorded as a fail. */
    method NativeAttempt(empty: bool, matched: Option<FlagId>) returns (solved: bool)
      requires Valid() && (matched.Some? ==> matched.value in flags)
      modifies this
      ensures Valid()
      ensures solved <==> !empty && matched.Some? && old(solves) == 0 && old(found) + {matched.value} == flags
      ensures found == if solved then flags else old(found)
      ensures fails == old(fails) + if old(solves) == 0 && !solved then 1 else 0
    {
      if solves > 0 {
        return false;
      }
      solved := false;
      SubsetSizes(found, flags);
      if !empty && matched.Some? && matched.value !in found {
        SubsetSizes(found + {matched.value}, flags);
        solved := |found| + 1 >= |flags|;
      }
      if solved {
        RecordFlagFind(matched.value);
        InsertSolve();
      } else {
        fails := fails + 1;
      }
    }

    /** `reset_owner_progress`: both tables in one transaction; logged fails stay. */
    method Reset()
      requires Valid()
      modifies this`found, this`solves
      ensures Valid() && found == {} && solves == 0
    {
      found, solves := {}, 0;
    }
  }

  lemma SubsetSizes<T>(a: set<T>, b: set<T>)
    requires a <= b
    ensures |a| <= |b| && (|a| >= |b| <==> a == b)
  {
    assert b == a + (b - a);
    assert |b| == |a| + |b - a|;
  }

  // ----- requests interleaved

  /** The next statement of a request. `Attempt` phases belong to the native route. */
  datatype Phase =
    | Done
    | Lookup(flag: FlagId)            // submit: is the flag already found?
    | Check(flag: FlagId)             // record_flag_find: the same question again
    | Commit(flag: FlagId)            // record_flag_find: INSERT of the find
    | Count                           // owner_progress after the commit
    | CheckSolve                      // _insert_ctfd_solve: is there a row?
    | InsertSolve                     // _insert_ctfd_solve: INSERT
    | AttemptLookup(flag: FlagId)     // attempt: is the flag already found?
    | AttemptCount(flag: FlagId)      // attempt: count the finds and decide
    | SolveCheck(flag: FlagId)        // solve: record_flag_find's question
    | SolveCommit(flag: FlagId)       // solve: record_flag_find's INSERT

  datatype State = State(found: set<FlagId>, solves: nat, phases: map<Request, Phase>) {
    function PhaseOf(t: Request): Phase { if t in phases then phases[t] else Done }
    function Goto(t: Request, p: Phase): State { this.(phases := phases[t := p]) }
    ghost predicate Quiet() { forall t :: t in phases ==> phases[t].Done? }
    ghost predicate Undecided(flags: set<FlagId>) { forall t :: t in phases ==> !Decided(flags, phases[t]) }
  }

  /** Bound to award whatever is found: past `owner_progress`, or in the native `solve`, which brings along
      the only flag of a single-flag challenge but not all of several. */
  predicate Decided(flags: set<FlagId>, p: Phase) {
    p.CheckSolve? || p.InsertSolve? || (|flags| > 1 && (p.SolveCheck? || p.SolveCommit?))
  }

  const START := State({}, 0, map[])

  datatype Action =
    | Submit(request: Request, flag: FlagId)
    | Native(request: Request, flag: FlagId)
    | Advance(request: Request)
    | ResetAll

  /** One statement of one request. The find table's UNIQUE constraint makes a second INSERT of a flag
      fail, which ends that request; Solves rows are counted, since the source relies on no constraint there. */
  function Step(flags: set<FlagId>, s: State, a: Action): State {
    match a
    case Submit(t, flag) => if s.PhaseOf(t).Done? && flag in flags then s.Goto(t, Lookup(flag)) else s
    case Native(t, flag) => if s.PhaseOf(t).Done? && flag in flags && s.solves == 0 then s.Goto(t, AttemptLookup(flag)) else s
    case ResetAll => State({}, 0, s.phases)
    case Advance(t) =>
      match s.PhaseOf(t)
      case Done => s
      case Lookup(f) => s.Goto(t, if f in s.found then Done else Check(f))
      case Check(f) => s.Goto(t, if f in s.found then Count else Commit(f))
      case Commit(f) => if f in s.found then s.Goto(t, Done) else s.Goto(t, Count).(found := s.found + {f})
      case Count => s.Goto(t, if |s.found| >= |flags| then CheckSolve else Done)
      case CheckSolve => s.Goto(t, if s.solves > 0 then Done else InsertSolve)
      case InsertSolve => s.Goto(t, Done).(solves := s.solves + 1)
      case AttemptLookup(f) => s.Goto(t, if f in s.found then Done else AttemptCount(f))
      case AttemptCount(f) => s.Goto(t, if |s.found| + 1 >= |flags| then SolveCheck(f) else Done)
      case SolveCheck(f) => s.Goto(t, if f in s.found then CheckSolve else SolveCommit(f))
      case SolveCommit(f) => if f in s.found then s.Goto(t, Done) else s.Goto(t, CheckSolve).(found := s.found + {f})
  }

  function Run(flags: set<FlagId>, s: State, actions: seq<Action>): State
    decreases |actions|
  {
    if actions == [] then s else Run(flags, Step(flags, s, actions[0]), actions[1..])
  }

  /** A decision of the native route is about to be made while the same flag was found meanwhile and
      exactly one other flag is missing. */
  ghost predicate Overtaken(flags: set<FlagId>, s: State, a: Action) {
    a.Advance? && s.PhaseOf(a.request).AttemptCount? &&
    s.PhaseOf(a.request).flag in s.found && |s.found| + 1 == |flags|
  }

  /** No reset while a request has decided to award, and no overtaken native decision. */
  ghost predicate Orderly(flags: set<FlagId>, s: State, actions: seq<Action>)
    decreases |actions|
  {
    actions == [] ||
    ((actions[0].ResetAll? ==> s.Undecided(flags)) && !Overtaken(flags, s, actions[0]) &&
     Orderly(flags, Step(flags, s, actions[0]), actions[1..]))
  }

  /** Past its commit, a request still has to look at the whole set. */
  predicate WillCheck(p: Phase) { p.Count? || p.CheckSolve? || p.InsertSolve? }

  /** What a phase knows of the finds. */
  ghost predicate Justified(flags: set<FlagId>, found: set<FlagId>, p: Phase) {
    match p
    case Done => true
    case Count => true
    case CheckSolve => found == flags
    case InsertSolve => found == flags
    case SolveCheck(f) => f in flags && found + {f} == flags
    case SolveCommit(f) => f in flags && found + {f} == flags
    case Lookup(f) => f in flags
    case Check(f) => f in flags
    case Commit(f) => f in flags
    case AttemptLookup(f) => f in flags
    case AttemptCount(f) => f in flags
  }

  /** No early award, and no lost one: a complete set has its row or a request that will check for it. */
  ghost predicate Inv(flags: set<FlagId>, s: State) {
    && s.found <= flags
    && (s.solves > 0 ==> s.found == flags)
    && (forall t :: t in s.phases ==> Justified(flags, s.found, s.phases[t]))
    && (s.found == flags && s.solves == 0 ==> exists t :: t in s.phases && WillCheck(s.phases[t]))
  }

  /** What one statement leaves its own request knowing, and that finds only grow. */
  lemma AdvanceJustifies(flags: set<FlagId>, s: State, t: Request)
    requires s.found <= flags && t in s.phases && Justified(flags, s.found, s.phases[t])
    requires !Overtaken(flags, s, Advance(t))
    ensures var s' := Step(flags, s, Advance(t));
            s.found <= s'.found <= flags && Justified(flags, s'.found, s'.PhaseOf(t))
  {
    var p := s.phases[t];
    SubsetSizes(s.found, flags);
    if p.AttemptCount? {
      SubsetSizes(s.found + {p.flag}, flags);
    }
  }

  lemma JustifiedStays(flags: set<FlagId>, found: set<FlagId>, more: set<FlagId>, p: Phase)
    requires found <= more <= flags && Justified(flags, found, p)
    ensures Justified(flags, more, p)
  {}

  lemma AdvanceKeepsInv(flags: set<FlagId>, s: State, t: Request)
    requires flags != {} && Inv(flags, s) && !Overtaken(flags, s, Advance(t))
    ensures Inv(flags, Step(flags, s, Advance(t)))
  {
    var s' := Step(flags, s, Advance(t));
    if t in s.phases {
      AdvanceJustifies(flags, s, t);
      AdvanceKeepsChecker(flags, s, t);
      forall u | u in s'.phases && u != t
        ensures Justified(flags, s'.found, s'.phases[u])
      {
        assert s'.phases[u] == s.phases[u];
        JustifiedStays(flags, s.found, s'.found, s.phases[u]);
      }
    }
  }

  /** A complete set without a row keeps a request that will check. */
  lemma AdvanceKeepsChecker(flags: set<FlagId>, s: State, t: Request)
    requires Inv(flags, s) && t in s.phases
    ensures var s' := Step(flags, s, Advance(t));
            s'.found == flags && s'.solves == 0 ==> exists u :: u in s'.phases && WillCheck(s'.phases[u])
  {
    var s' := Step(flags, s, Advance(t));
    if s'.found == flags && s'.solves == 0 {
      if s.found == flags {
        var u :| u in s.phases && WillCheck(s.phases[u]);
        SubsetSizes(s.found, flags);
        var w := if u == t then t else u;
        assert w in s'.phases && WillCheck(s'.phases[w]);
      } else {
        assert t in s'.phases && WillCheck(s'.phases[t]);
      }
    }
  }

  lemma StepKeepsInv(flags: set<FlagId>, s: State, a: Action)
    requires flags != {} && Inv(flags, s) && !Overtaken(flags, s, a) && (a.ResetAll? ==> s.Undecided(flags))
    ensures Inv(flags, Step(flags, s, a))
  {
    match a
    case Advance(t) => AdvanceKeepsInv(flags, s, t);
    case ResetAll => ResetKeepsInv(flags, s);
    case Submit(t, flag) =>
      if s.PhaseOf(t).Done? {
        NewRequestKeepsInv(flags, s, t, Lookup(flag));
      }
    case Native(t, flag) =>
      if s.PhaseOf(t).Done? {
        NewRequestKeepsInv(flags, s, t, AttemptLookup(flag));
      }
  }

  lemma ResetKeepsInv(flags: set<FlagId>, s: State)
    requires flags != {} && Inv(flags, s) && s.Undecided(flags)
    ensures Inv(flags, Step(flags, s, ResetAll))
  {
    forall t | t in s.phases
      ensures Justified(flags, {}, s.phases[t])
    {
      var p := s.phases[t];
      if p.SolveCheck? || p.SolveCommit? {
        SubsetSizes({p.flag}, flags);
        assert {} + {p.flag} == {p.flag};
      }
    }
  }

  lemma NewRequestKeepsInv(flags: set<FlagId>, s: State, t: Request, p: Phase)
    requires Inv(flags, s) && s.PhaseOf(t).Done?
    ensures Justified(flags, s.found, p) ==> Inv(flags, s.Goto(t, p))
  {
    if s.found == flags && s.solves == 0 {
      var u :| u in s.phases && WillCheck(s.phases[u]);
      assert u != t && u in s.Goto(t, p).phases && s.Goto(t, p).phases[u] == s.phases[u];
    }
  }

  lemma {:induction false} OrderlyRunKeepsInv(flags: set<FlagId>, s: State, actions: seq<Action>)
    requires flags != {} && Inv(flags, s) && Orderly(flags, s, actions)
    ensures Inv(flags, Run(flags, s, actions))
    decreases |actions|
  {
    if actions != [] {
      StepKeepsInv(flags, s, actions[0]);
      OrderlyRunKeepsInv(flags, Step(flags, s, actions[0]), actions[1..]);
    }
  }

  predicate NativePhase(p: Phase) { p.AttemptLookup? || p.AttemptCount? || p.SolveCheck? || p.SolveCommit? }

  ghost predicate NoneNative(s: State) { forall t :: t in s.phases ==> !NativePhase(s.phases[t]) }

  /** With submissions through the plugin's route only, every interleaving is orderly. */
  lemma {:induction false} SubmitOnlyIsOrderly(flags: set<FlagId>, s: State, actions: seq<Action>)
    requires NoneNative(s) && forall i :: 0 <= i < |actions| ==> actions[i].Submit? || actions[i].Advance?
    ensures Orderly(flags, s, actions)
    decreases |actions|
  {
    if actions != [] {
      var s' := Step(flags, s, actions[0]);
      assert NoneNative(s');
      SubmitOnlyIsOrderly(flags, s', actions[1..]);
    }
  }

  /** When all requests have finished, a Solves row exists if and only if every flag is found: for any
      interleaving of submissions, and with native attempts and resets for any orderly one. */
  lemma AwardedIffComplete(flags: set<FlagId>, actions: seq<Action>)
    requires flags != {} && Run(flags, START, actions).Quiet()
    requires Orderly(flags, START, actions) ||
             forall i :: 0 <= i < |actions| ==> actions[i].Submit? || actions[i].Advance?
    ensures var s := Run(flags, START, actions); s.solves > 0 <==> s.found == flags
  {
    if forall i :: 0 <= i < |actions| ==> actions[i].Submit? || actions[i].Advance? {
      SubmitOnlyIsOrderly(flags, START, actions);
    }
    OrderlyRunKeepsInv(flags, START, actions);
  }

  // ----- where the promise ends

  /** The native decision is right if and only if it is not overtaken. */
  lemma NativeDecisionIsRightIff(flags: set<FlagId>, s: State, t: Request)
    requires s.found <= flags && s.PhaseOf(t).AttemptCount? && s.PhaseOf(t).flag in flags
    ensures var f := s.PhaseOf(t).flag;
            var awards := Step(flags, s, Advance(t)).PhaseOf(t).SolveCheck?;
            (awards <==> s.found + {f} == flags) <==> !Overtaken(flags, s, Advance(t))
  {
    var f := s.PhaseOf(t).flag;
    SubsetSizes(s.found, flags);
    SubsetSizes(s.found + {f}, flags);
    if f in s.found {
      assert s.found + {f} == s.found;
    }
  }

  lemma RunStep(flags: set<FlagId>, s: State, a: Action, more: seq<Action>)
    ensures Run(flags, s, [a] + more) == Run(flags, Step(flags, s, a), more)
  {
    assert ([a] + more)[1..] == more;
  }

  /** `n` statements of one request and of no other. */
  function Advances(t: Request, n: nat): seq<Action> { seq(n, _ => Advance(t)) }

  function Advanced(flags: set<FlagId>, s: State, t: Request, n: nat): State
    decreases n
  {
    if n == 0 then s else Advanced(flags, Step(flags, s, Advance(t)), t, n - 1)
  }

  lemma {:induction false} RunIsAdvanced(flags: set<FlagId>, s: State, t: Request, n: nat)
    ensures Run(flags, s, Advances(t, n)) == Advanced(flags, s, t, n)
    decreases n
  {
    if n > 0 {
      assert Advances(t, n) == [Advance(t)] + Advances(t, n - 1);
      RunStep(flags, s, Advance(t), Advances(t, n - 1));
      RunIsAdvanced(flags, Step(flags, s, Advance(t)), t, n - 1);
    }
  }

  lemma {:induction false} DoneRests(flags: set<FlagId>, s: State, t: Request, n: nat)
    requires s.PhaseOf(t).Done?
    ensures Advanced(flags, s, t, n) == s
    decreases n
  {
    if n > 0 {
      DoneRests(flags, s, t, n - 1);
    }
  }

  /** `_insert_ctfd_solve` left alone. */
  lemma UndisturbedInsert(flags: set<FlagId>, s: State, t: Request, n: nat)
    requires s.PhaseOf(t).CheckSolve? && n >= 2
    ensures var s' := Advanced(flags, s, t, n);
            s'.PhaseOf(t).Done? && s'.found == s.found && s'.solves == if s.solves == 0 then 1 else s.solves
  {
    var s1 := Step(flags, s, Advance(t));
    if s.solves > 0 {
      DoneRests(flags, s1, t, n - 1);
    } else {
      var s2 := Step(flags, s1, Advance(t));
      assert Advanced(flags, s1, t, n - 1) == Advanced(flags, s2, t, n - 2);
      DoneRests(flags, s2, t, n - 2);
    }
  }

  /** Left alone, the six statements of a submission do what `SubmitFlag` promises in one piece. */
  lemma UndisturbedSubmit(flags: set<FlagId>, s: State, t: Request, flag: FlagId)
    requires s.found <= flags && s.PhaseOf(t) == Lookup(flag) && flag in flags
    ensures var s' := Run(flags, s, Advances(t, 6));
            && s'.PhaseOf(t).Done? && s'.found == s.found + {flag}
            && s'.solves == if flag !in s.found && s.found + {flag} == flags && s.solves == 0 then 1 else s.solves
  {
    RunIsAdvanced(flags, s, t, 6);
    var s1 := Step(flags, s, Advance(t));
    if flag in s.found {
      DoneRests(flags, s1, t, 5);
    } else {
      SubsetSizes(s.found + {flag}, flags);
      var s2 := Step(flags, s1, Advance(t));
      var s3 := Step(flags, s2, Advance(t));
      assert s3 == State(s.found + {flag}, s.solves, s.phases[t := Count]);
      var s4 := Step(flags, s3, Advance(t));
      assert Advanced(flags, s1, t, 5) == Advanced(flags, s2, t, 4) == Advanced(flags, s3, t, 3) == Advanced(flags, s4, t, 2);
      if s4.PhaseOf(t).Done? {
        DoneRests(flags, s4, t, 2);
      } else {
        UndisturbedInsert(flags, s4, t, 2);
      }
    }
  }

  /** And the six of a native attempt do what `NativeAttempt` promises. */
  lemma UndisturbedNative(flags: set<FlagId>, s: State, t: Request, flag: FlagId)
    requires s.found < flags && s.PhaseOf(t) == AttemptLookup(flag) && flag in flags && s.solves == 0
    ensures var s' := Run(flags, s, Advances(t, 6)); var solved := s.found + {flag} == flags;
            && s'.PhaseOf(t).Done? && s'.found == (if solved then flags else s.found)
            && s'.solves == if solved then 1 else 0
  {
    RunIsAdvanced(flags, s, t, 6);
    var s1 := Step(flags, s, Advance(t));
    if flag in s.found {
      assert s.found + {flag} == s.found;
      DoneRests(flags, s1, t, 5);
    } else {
      SubsetSizes(s.found + {flag}, flags);
      var s2 := Step(flags, s1, Advance(t));
      assert Advanced(flags, s1, t, 5) == Advanced(flags, s2, t, 4);
      if s2.PhaseOf(t).Done? {
        DoneRests(flags, s2, t, 4);
      } else {
        var s3 := Step(flags, s2, Advance(t));
        var s4 := Step(flags, s3, Advance(t));
        assert s4 == State(s.found + {flag}, s.solves, s.phases[t := CheckSolve]);
        assert Advanced(flags, s2, t, 4) == Advanced(flags, s3, t, 3) == Advanced(flags, s4, t, 2);
        UndisturbedInsert(flags, s4, t, 2);
      }
    }
  }

  /** An overtaken decision awards early: four more statements of that request insert a Solves row
      while a flag is still missing. */
  lemma OvertakenAwardsEarly(flags: set<FlagId>, s: State, t: Request)
    requires s.found <= flags && s.solves == 0 && Overtaken(flags, s, Advance(t))
    ensures var s' := Run(flags, s, Advances(t, 4)); s'.solves > 0 && s'.found < flags
  {
    SubsetSizes(s.found, flags);
    RunIsAdvanced(flags, s, t, 4);
    var s1 := Step(flags, s, Advance(t));
    var s2 := Step(flags, s1, Advance(t));
    assert Advanced(flags, s, t, 4) == Advanced(flags, s2, t, 2);
  }

  /** Such a state is reachable: request 1 tries flag 1 natively while request 0 submits it. */
  lemma OvertakingHappens()
    ensures exists actions :: Overtaken({1, 2}, Run({1, 2}, START, actions), Advance(1))
  {
    var flags: set<FlagId> := {1, 2};
    var rest := [Advance(0), Advance(0), Advance(0)];
    var actions := [Native(1, 1)] + ([Advance(1)] + ([Submit(0, 1)] + rest));
    RunStep(flags, START, Native(1, 1), [Advance(1)] + ([Submit(0, 1)] + rest));
    var s1 := Step(flags, START, Native(1, 1));
    RunStep(flags, s1, Advance(1), [Submit(0, 1)] + rest);
    var s2 := Step(flags, s1, Advance(1));
    RunStep(flags, s2, Submit(0, 1), rest);
    var s3 := Step(flags, s2, Submit(0, 1));
    assert s3 == State({}, 0, map[1 := AttemptCount(1), 0 := Lookup(1)]);
    ThreeAdvances(flags, s3);
    assert Overtaken(flags, Run(flags, START, actions), Advance(1));
  }

  lemma ThreeAdvances(flags: set<FlagId>, s: State)
    requires s == State({}, 0, map[1 := AttemptCount(1), 0 := Lookup(1)])
    ensures Run(flags, s, [Advance(0), Advance(0), Advance(0)]) == State({1}, 0, map[1 := AttemptCount(1), 0 := Count])
  {
    RunStep(flags, s, Advance(0), [Advance(0), Advance(0)]);
    var s1 := Step(flags, s, Advance(0));
    RunStep(flags, s1, Advance(0), [Advance(0)]);
    var s2 := Step(flags, s1, Advance(0));
    RunStep(flags, s2, Advance(0), []);
    assert [Advance(0)] + [Advance(0), Advance(0)] == [Advance(0), Advance(0), Advance(0)];
    assert [Advance(0)] + [] == [Advance(0)];
  }

  /** A reset that meets no decided request keeps the invariant, and that is exact: one that meets a
      decided request is undone by four more statements of it, which award a solve while flags are missing. */
  lemma ResetIsUndoneIff(flags: set<FlagId>, s: State)
    requires flags != {} && Inv(flags, s)
    ensures var s' := Step(flags, s, ResetAll);
            if s.Undecided(flags) then Inv(flags, s') && s'.found == {} && s'.solves == 0
            else exists t :: t in s.phases && EarlyAward(flags, Run(flags, s', Advances(t, 4)))
  {
    if s.Undecided(flags) {
      ResetKeepsInv(flags, s);
    } else {
      var t :| t in s.phases && Decided(flags, s.phases[t]);
      DecidedSurvivesReset(flags, s, t);
    }
  }

  ghost predicate EarlyAward(flags: set<FlagId>, s: State) { s.solves > 0 && s.found < flags }

  lemma DecidedSurvivesReset(flags: set<FlagId>, s: State, t: Request)
    requires flags != {} && Inv(flags, s) && t in s.phases && Decided(flags, s.phases[t])
    ensures EarlyAward(flags, Run(flags, Step(flags, s, ResetAll), Advances(t, 4)))
  {
    var s0 := Step(flags, s, ResetAll);
    RunIsAdvanced(flags, s0, t, 4);
    if s.phases[t].InsertSolve? {
      DoneRests(flags, Step(flags, s0, Advance(t)), t, 3);
    } else if s.phases[t].CheckSolve? {
      UndisturbedInsert(flags, s0, t, 4);
    } else {
      DecidedSolve(flags, s0, t, s.phases[t].flag);
    }
  }

  /** The native `solve` on emptied tables records its one flag and awards. */
  lemma DecidedSolve(flags: set<FlagId>, s: State, t: Request, f: FlagId)
    requires |flags| > 1 && f in flags && s.found == {} && s.solves == 0
    requires s.PhaseOf(t) == SolveCheck(f) || s.PhaseOf(t) == SolveCommit(f)
    ensures EarlyAward(flags, Advanced(flags, s, t, 4))
  {
    SubsetSizes({f}, flags);
    var s1 := Step(flags, s, Advance(t));
    if s.PhaseOf(t).SolveCommit? {
      assert s1.found == {f};
      UndisturbedInsert(flags, s1, t, 3);
    } else {
      var s2 := Step(flags, s1, Advance(t));
      assert s2.found == {f};
      assert Advanced(flags, s1, t, 3) == Advanced(flags, s2, t, 2);
      UndisturbedInsert(flags, s2, t, 2);
    }
  }
}
