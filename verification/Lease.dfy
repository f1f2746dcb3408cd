/** Leader election over one lease row: `_try_acquire_lease` run by any number of workers whose
    database statements interleave freely. Each statement is atomic; times are whole numbers. */
module Lease {
  import opened Base

  type Worker = nat

  datatype Row = Row(holder: Worker, expires: int)

  /** Where a worker stands in its attempt, with the clock it read and the expiry it would write. */
  datatype Phase =
    | Idle
    | ClockRead(now: int, expiry: int)
    | UpdateMissed(now: int, expiry: int)
    | RowAbsent(now: int, expiry: int)

  /** A successful attempt: it runs under the lease from `now` to `expiry`. */
  datatype Grant = Grant(worker: Worker, now: int, expiry: int, inserted: bool)

  datatype State = State(row: Option<Row>, phases: map<Worker, Phase>, clocks: map<Worker, int>, grants: seq<Grant>) {
    function PhaseOf(w: Worker): Phase { if w in phases then phases[w] else Idle }

    /** No clock reading of `w` so far exceeds `t`. */
    predicate ClockAtMost(w: Worker, t: int) { w in clocks ==> clocks[w] <= t }

    function Finish(w: Worker): State { this.(phases := phases[w := Idle]) }

    function Win(w: Worker, now: int, expiry: int, inserted: bool): State {
      Finish(w).(row := Some(Row(w, expiry)), grants := grants + [Grant(w, now, expiry, inserted)])
    }
  }

  const START := State(None, map[], map[], [])

  datatype Action =
    | ReadClock(worker: Worker, now: int)
    | Update(worker: Worker)
    | Select(worker: Worker)
    | Insert(worker: Worker)

  /** `timedelta(seconds=max(lease_seconds, 10))`; each worker computes its own once, at start. */
  function Duration(lease: Worker -> int, w: Worker): int { if lease(w) < 10 then 10 else lease(w) }

  /** The conditional UPDATE's WHERE clause. */
  predicate Matches(row: Option<Row>, w: Worker, now: int) {
    row.Some? && (row.value.expires < now || row.value.holder == w)
  }

  /** One statement of one worker. A step that is not enabled leaves the state alone. */
  function Step(lease: Worker -> int, s: State, a: Action): State {
    var w := a.worker;
    var phase := s.PhaseOf(w);
    match a
    case ReadClock(_, now) =>
      if phase.Idle? && s.ClockAtMost(w, now) then
        s.(phases := s.phases[w := ClockRead(now, now + Duration(lease, w))], clocks := s.clocks[w := now])
      else s
    case Update(_) =>
      if !phase.ClockRead? then s
      else if Matches(s.row, w, phase.now) then s.Win(w, phase.now, phase.expiry, false)
      else s.(phases := s.phases[w := UpdateMissed(phase.now, phase.expiry)])
    case Select(_) =>
      if !phase.UpdateMissed? then s
      else if s.row.Some? then s.Finish(w)
      else s.(phases := s.phases[w := RowAbsent(phase.now, phase.expiry)])
    case Insert(_) =>
      if !phase.RowAbsent? then s
      else if s.row.Some? then s.Finish(w)
      else s.Win(w, phase.now, phase.expiry, true)
  }

  function Run(lease: Worker -> int, s: State, actions: seq<Action>): State {
    if actions == [] then s else Step(lease, Run(lease, s, actions[..|actions| - 1]), actions[|actions| - 1])
  }

  // ----- safety

  /** Successive grants: expiries never fall, and different holders' intervals do not touch. */
  ghost predicate Ordered(g: Grant, h: Grant) {
    g.expiry <= h.expiry && (g.worker != h.worker ==> g.expiry < h.now)
  }

  ghost predicate InFlight(lease: Worker -> int, s: State, w: Worker) {
    var p := s.PhaseOf(w);
    p.Idle? || (w in s.clocks && p.now == s.clocks[w] && p.expiry == p.now + Duration(lease, w))
  }

  ghost predicate Inv(lease: Worker -> int, s: State) {
    && (s.row.None? <==> s.grants == [])
    && (s.row.Some? ==> var last := s.grants[|s.grants| - 1]; s.row.value == Row(last.worker, last.expiry))
    && (forall i, j :: 0 <= i < j < |s.grants| ==> Ordered(s.grants[i], s.grants[j]))
    && (forall i :: 0 <= i < |s.grants| ==>
          var g := s.grants[i];
          g.expiry == g.now + Duration(lease, g.worker) && (g.inserted <==> i == 0) &&
          g.worker in s.clocks && g.now <= s.clocks[g.worker])
    && (forall w :: InFlight(lease, s, w))
  }

  lemma WinKeepsInv(lease: Worker -> int, s: State, w: Worker, inserted: bool)
    requires Inv(lease, s) && !s.PhaseOf(w).Idle?
    requires if inserted then s.row.None? else Matches(s.row, w, s.PhaseOf(w).now)
    ensures Inv(lease, s.Win(w, s.PhaseOf(w).now, s.PhaseOf(w).expiry, inserted))
  {
    var p := s.PhaseOf(w);
    var s' := s.Win(w, p.now, p.expiry, inserted);
    var n := |s.grants|;
    assert InFlight(lease, s, w);
    forall i | 0 <= i < n
      ensures Ordered(s'.grants[i], s'.grants[n])
    {
      assert i < n - 1 ==> Ordered(s.grants[i], s.grants[n - 1]);
    }
    forall v
      ensures InFlight(lease, s', v)
    {
      assert InFlight(lease, s, v);
    }
  }

  lemma StepKeepsInv(lease: Worker -> int, s: State, a: Action)
    requires Inv(lease, s)
    ensures Inv(lease, Step(lease, s, a))
  {
    var s' := Step(lease, s, a);
    if s'.grants != s.grants {
      WinKeepsInv(lease, s, a.worker, a.Insert?);
    } else {
      forall v
        ensures InFlight(lease, s', v)
      {
        assert InFlight(lease, s, v);
      }
    }
  }

  /** Over every interleaving: grants to different holders have disjoint closed intervals, expiries
      never fall, the row always carries the last grant, and the only successful INSERT is the first grant. */
  lemma {:induction false} LeaseSafety(lease: Worker -> int, actions: seq<Action>)
    ensures Inv(lease, Run(lease, START, actions))
  {
    if actions != [] {
      LeaseSafety(lease, actions[..|actions| - 1]);
      StepKeepsInv(lease, Run(lease, START, actions[..|actions| - 1]), actions[|actions| - 1]);
    }
  }

  /** Every grant, taken or renewed, lasts the seconds asked for, or ten if those are fewer. */
  lemma GrantLasts(lease: Worker -> int, actions: seq<Action>, i: nat)
    requires i < |Run(lease, START, actions).grants|
    ensures var g := Run(lease, START, actions).grants[i];
            g.expiry - g.now == if lease(g.worker) <= 10 then 10 else lease(g.worker)
  {
    LeaseSafety(lease, actions);
  }

  lemma DisjointGrants(lease: Worker -> int, actions: seq<Action>, i: nat, j: nat, t: int)
    requires var g := Run(lease, START, actions).grants;
             i < j < |g| && g[i].worker != g[j].worker && g[i].now <= t <= g[i].expiry
    ensures var g := Run(lease, START, actions).grants; t < g[j].now
    ensures !Run(lease, START, actions).grants[j].inserted
  {
    LeaseSafety(lease, actions);
    assert Ordered(Run(lease, START, actions).grants[i], Run(lease, START, actions).grants[j]);
  }

  lemma StepKeepsExpiry(lease: Worker -> int, s: State, a: Action)
    requires Inv(lease, s) && s.row.Some?
    ensures var t := Step(lease, s, a); t.row.Some? && s.row.value.expires <= t.row.value.expires
  {
    StepKeepsInv(lease, s, a);
    var t := Step(lease, s, a);
    if t.grants != s.grants {
      assert Ordered(t.grants[|s.grants| - 1], t.grants[|s.grants|]);
    }
  }

  /** Along any continuation the row stays, and its expiry never falls. */
  lemma {:induction false} ExpiryNeverFalls(lease: Worker -> int, s: State, more: seq<Action>)
    requires Inv(lease, s) && s.row.Some?
    ensures var t := Run(lease, s, more); Inv(lease, t) && t.row.Some? && s.row.value.expires <= t.row.value.expires
  {
    if more != [] {
      var init, last := more[..|more| - 1], more[|more| - 1];
      ExpiryNeverFalls(lease, s, init);
      StepKeepsInv(lease, Run(lease, s, init), last);
      StepKeepsExpiry(lease, Run(lease, s, init), last);
    }
  }

  // ----- stability and takeover

  function GrantsOf(grants: seq<Grant>, w: Worker): nat {
    if grants == [] then 0
    else GrantsOf(grants[..|grants| - 1], w) + if grants[|grants| - 1].worker == w then 1 else 0
  }

  /** Worker `w` does not hold the row, and has no attempt under way but one that read its clock within the lease. */
  ghost predicate Outlasted(s: State, w: Worker) {
    s.row.Some? && s.row.value.holder != w && (s.PhaseOf(w).Idle? || s.PhaseOf(w).now <= s.row.value.expires)
  }

  lemma OutlastedStep(lease: Worker -> int, s: State, w: Worker, a: Action)
    requires Inv(lease, s) && Outlasted(s, w) && !(a.ReadClock? && a.worker == w)
    ensures var t := Step(lease, s, a); Outlasted(t, w) && GrantsOf(t.grants, w) == GrantsOf(s.grants, w)
  {
    StepKeepsExpiry(lease, s, a);
    var t := Step(lease, s, a);
    if t.grants != s.grants {
      assert t.grants[..|t.grants| - 1] == s.grants;
    }
  }

  /** An attempt of another worker that read its clock within the lease can no longer win,
      whatever all the workers do meanwhile. */
  lemma {:induction false} AttemptWithinLeaseLoses(lease: Worker -> int, s: State, w: Worker, more: seq<Action>)
    requires Inv(lease, s) && Outlasted(s, w)
    requires forall i :: 0 <= i < |more| ==> !(more[i].ReadClock? && more[i].worker == w)
    ensures var t := Run(lease, s, more); Outlasted(t, w) && GrantsOf(t.grants, w) == GrantsOf(s.grants, w)
  {
    if more != [] {
      var init := more[..|more| - 1];
      AttemptWithinLeaseLoses(lease, s, w, init);
      ExpiryNeverFalls(lease, s, init);
      OutlastedStep(lease, Run(lease, s, init), w, more[|more| - 1]);
    }
  }

  /** Worker `h` holds the row, and no other worker has an attempt under way that read past its expiry. */
  ghost predicate Settled(s: State, h: Worker) {
    && s.row.Some? && s.row.value.holder == h
    && forall w :: w != h ==> Outlasted(s, w)
  }

  /** Along `more`, whenever another worker reads its clock, the lease of that moment has not expired. */
  ghost predicate ReadsWithinLease(lease: Worker -> int, s: State, h: Worker, more: seq<Action>) {
    more == [] ||
    (var init, last := more[..|more| - 1], more[|more| - 1];
     var t := Run(lease, s, init);
     && ReadsWithinLease(lease, s, h, init)
     && (last.ReadClock? && last.worker != h ==> t.row.Some? && last.now <= t.row.value.expires))
  }

  /** Nothing was granted since but to `h`. */
  ghost predicate GrantedOnlyTo(before: seq<Grant>, after: seq<Grant>, h: Worker) {
    before <= after && forall i :: |before| <= i < |after| ==> after[i].worker == h
  }

  lemma SettledStep(lease: Worker -> int, s: State, h: Worker, a: Action)
    requires Inv(lease, s) && Settled(s, h)
    requires a.ReadClock? && a.worker != h ==> a.now <= s.row.value.expires
    ensures Settled(Step(lease, s, a), h) && GrantedOnlyTo(s.grants, Step(lease, s, a).grants, h)
  {
    StepKeepsExpiry(lease, s, a);
    assert a.worker != h ==> Outlasted(s, a.worker);
    var t := Step(lease, s, a);
    forall w | w != h
      ensures Outlasted(t, w)
    {
      assert Outlasted(s, w);
    }
  }

  /** Stability: while every other worker's readings fall within the lease, whatever the interleaving,
      the holder stays and every grant is its own. */
  lemma {:induction false} HolderStays(lease: Worker -> int, s: State, h: Worker, more: seq<Action>)
    requires Inv(lease, s) && Settled(s, h) && ReadsWithinLease(lease, s, h, more)
    ensures var t := Run(lease, s, more); Inv(lease, t) && Settled(t, h) && GrantedOnlyTo(s.grants, t.grants, h)
  {
    if more != [] {
      var init := more[..|more| - 1];
      HolderStays(lease, s, h, init);
      StepKeepsInv(lease, Run(lease, s, init), more[|more| - 1]);
      SettledStep(lease, Run(lease, s, init), h, more[|more| - 1]);
    }
  }

  /** The holder's clock was read, or no attempt of it is under way. */
  ghost predicate Ready(s: State, h: Worker) { s.PhaseOf(h).Idle? || s.PhaseOf(h).ClockRead? }

  /** The holder's UPDATE renews, expired or not. */
  lemma UpdateRenews(lease: Worker -> int, s: State, h: Worker)
    requires Inv(lease, s) && s.row.Some? && s.row.value.holder == h && s.PhaseOf(h).ClockRead?
    ensures var u := Step(lease, s, Update(h));
            && u.row == Some(Row(h, s.PhaseOf(h).now + Duration(lease, h)))
            && s.row.value.expires <= u.row.value.expires && |u.grants| == |s.grants| + 1
  {
    assert InFlight(lease, s, h);
    StepKeepsExpiry(lease, s, Update(h));
  }

  lemma {:induction false} HolderStaysReady(lease: Worker -> int, s: State, h: Worker, more: seq<Action>)
    requires Inv(lease, s) && Settled(s, h) && Ready(s, h) && ReadsWithinLease(lease, s, h, more)
    ensures Ready(Run(lease, s, more), h)
  {
    if more != [] {
      var init := more[..|more| - 1];
      HolderStays(lease, s, h, init);
      HolderStaysReady(lease, s, h, init);
    }
  }

  /** Renewal: in such a run no attempt of the holder ever fails, and each of its UPDATEs, wherever the
      interleaving puts it, extends the lease to its own reading plus its duration. */
  lemma HolderRenews(lease: Worker -> int, s: State, h: Worker, more: seq<Action>)
    requires Inv(lease, s) && Settled(s, h) && Ready(s, h) && ReadsWithinLease(lease, s, h, more)
    ensures var t := Run(lease, s, more);
            && Ready(t, h)
            && (t.PhaseOf(h).ClockRead? ==>
                  var u := Step(lease, t, Update(h));
                  && u.row == Some(Row(h, t.PhaseOf(h).now + Duration(lease, h)))
                  && t.row.Some? && t.row.value.expires <= u.row.value.expires && |u.grants| == |t.grants| + 1)
  {
    HolderStays(lease, s, h, more);
    HolderStaysReady(lease, s, h, more);
    if Run(lease, s, more).PhaseOf(h).ClockRead? {
      UpdateRenews(lease, Run(lease, s, more), h);
    }
  }

  /** A worker that read its clock keeps that reading until its own UPDATE, and the grants only grow. */
  lemma {:induction false} ReadingStays(lease: Worker -> int, s: State, w: Worker, more: seq<Action>)
    requires Inv(lease, s) && s.row.Some? && s.PhaseOf(w).ClockRead? && Update(w) !in more
    ensures var t := Run(lease, s, more);
            t.PhaseOf(w) == s.PhaseOf(w) && s.grants <= t.grants &&
            forall i :: |s.grants| <= i < |t.grants| ==> t.grants[i].worker != w
  {
    if more != [] {
      var init, last := more[..|more| - 1], more[|more| - 1];
      assert last in more && forall a :: a in init ==> a in more;
      ReadingStays(lease, s, w, init);
    }
  }

  /** Takeover: a worker has read its clock past the expiry. Whatever runs before its UPDATE, after it
      the lease has been granted anew; and the UPDATE wins, for at least ten seconds, if and only if
      no lease granted meanwhile reaches its reading. */
  lemma ExpiredLeaseIsTakenOver(lease: Worker -> int, s: State, w: Worker, more: seq<Action>)
    requires Inv(lease, s) && s.row.Some? && s.PhaseOf(w).ClockRead? && s.row.value.expires < s.PhaseOf(w).now
    requires Update(w) !in more
    ensures var now, t := s.PhaseOf(w).now, Run(lease, s, more);
            var u := Step(lease, t, Update(w));
            && s.grants <= t.grants <= u.grants && |s.grants| < |u.grants|
            && (|u.grants| == |t.grants| + 1 <==> forall i :: |s.grants| <= i < |t.grants| ==> t.grants[i].expiry < now)
            && (|u.grants| == |t.grants| + 1 ==>
                  now + 10 <= s.PhaseOf(w).expiry && u.row == Some(Row(w, s.PhaseOf(w).expiry)))
  {
    ReadingStays(lease, s, w, more);
    ExpiryNeverFalls(lease, s, more);
    var t := Run(lease, s, more);
    assert |t.grants| == |s.grants| ==> t.grants == s.grants;
    UpdateAfterGrants(lease, t, w, |s.grants|);
  }

  /** An UPDATE after the grants from the `n`-th on, none of them its own. */
  lemma UpdateAfterGrants(lease: Worker -> int, s: State, w: Worker, n: nat)
    requires Inv(lease, s) && s.row.Some? && s.PhaseOf(w).ClockRead? && n <= |s.grants|
    requires forall i :: n <= i < |s.grants| ==> s.grants[i].worker != w
    requires n == |s.grants| ==> s.row.value.expires < s.PhaseOf(w).now
    ensures var u := Step(lease, s, Update(w));
            var won := |u.grants| == |s.grants| + 1;
            && s.grants <= u.grants && (won || |u.grants| == |s.grants|)
            && (won <==> forall i :: n <= i < |s.grants| ==> s.grants[i].expiry < s.PhaseOf(w).now)
            && (won ==> s.PhaseOf(w).now + 10 <= s.PhaseOf(w).expiry && u.row == Some(Row(w, s.PhaseOf(w).expiry)))
  {
    assert InFlight(lease, s, w);
    var last := |s.grants| - 1;
    assert forall i :: n <= i < last ==> Ordered(s.grants[i], s.grants[last]);
  }

  // ----- the attempt as one worker runs it

  class LeaseTable {
    var row: Option<Row>

    constructor ()
      ensures row.None?
    {
      row := None;
    }

    /** `_try_acquire_lease` without interference. */
    method TryAcquire(w: Worker, now: int, leaseSeconds: int) returns (won: bool)
      modifies this
      ensures won <==> old(row).None? || Matches(old(row), w, now)
      ensures row == if won then Some(Row(w, now + if leaseSeconds <= 10 then 10 else leaseSeconds)) else old(row)
    {
      var expiry := now + (if leaseSeconds < 10 then 10 else leaseSeconds);
      if Matches(row, w, now) {
        row := Some(Row(w, expiry));
        return true;
      }
      if row.Some? {
        return false;
      }
      row := Some(Row(w, expiry));
      return true;
    }
  }

  /** Run without interference, the four statements have exactly the effect `TryAcquire` promises. */
  lemma UndisturbedAttempt(lease: Worker -> int, s: State, w: Worker, now: int)
    requires s.PhaseOf(w).Idle? && s.ClockAtMost(w, now)
    ensures var t := Run(lease, s, [ReadClock(w, now), Update(w), Select(w), Insert(w)]);
            var won := s.row.None? || Matches(s.row, w, now);
            && t.PhaseOf(w).Idle?
            && t.row == (if won then Some(Row(w, now + Duration(lease, w))) else s.row)
            && |t.grants| == |s.grants| + if won then 1 else 0
  {
    var a := [ReadClock(w, now), Update(w), Select(w), Insert(w)];
    assert a[..3] == [ReadClock(w, now), Update(w), Select(w)];
    assert a[..3][..2] == [ReadClock(w, now), Update(w)];
    assert a[..3][..2][..1] == [ReadClock(w, now)];
    assert a[..3][..2][..1][..0] == [];
    var s0 := Run(lease, s, []);
    var s1 := Run(lease, s, [ReadClock(w, now)]);
    assert s1 == Step(lease, s, ReadClock(w, now));
    var s2 := Run(lease, s, [ReadClock(w, now), Update(w)]);
    assert s2 == Step(lease, s1, Update(w));
    var s3 := Run(lease, s, [ReadClock(w, now), Update(w), Select(w)]);
    assert s3 == Step(lease, s2, Select(w));
    assert Run(lease, s, a) == Step(lease, s3, Insert(w));
  }
}
