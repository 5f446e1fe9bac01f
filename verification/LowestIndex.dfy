/**
 The "lowest index to decide" and "lowest index to fill" markers of LlrState
 (gossip/c_llr_callbacks.go, gossip/store_llr_state.go).  The decide markers change
 together with the results; the fill markers are advanced some time after the record is
 written, by several goroutines at once.
 */
module LowestIndex {

  /** The marker is the first index, counting from the initial one, that is not there. */
  ghost predicate LeastMissing(has: set<nat>, from: nat, marker: nat) {
    from <= marker && marker !in has && forall i | from <= i < marker :: i in has
  }

  lemma LeastMissingIsUnique(has: set<nat>, from: nat, a: nat, b: nat)
    requires LeastMissing(has, from, a) && LeastMissing(has, from, b)
    ensures a == b
  {
    assert !(a < b) && !(b < a);
  }

  // ---------- one update ----------

  ghost predicate Advances(current: nat, upd: nat, has: set<nat>, r: nat) {
    if current == upd then r > current && r !in has && forall i | current < i < r :: i in has
    else r == current
  }

  method Actualize(current: nat, upd: nat, has: set<nat>) returns (r: nat)
    ensures Advances(current, upd, has, r)
  {
    r := current;
    if current == upd {
      r := r + 1;
      ghost var above := set i | i in has && i > current;
      while r in has
        invariant r > current && forall i | current < i < r :: i in has
        invariant above == set i | i in has && i >= r
        decreases above
      {
        assert r in above;
        above := above - {r};
        r := r + 1;
      }
    }
  }

  /** A result and its update in one step keep the decide marker at the least undecided index. */
  lemma DecidingKeepsMarker(has: set<nat>, from: nat, marker: nat, n: nat, r: nat)
    requires LeastMissing(has, from, marker) && Advances(marker, n, has + {n}, r)
    ensures LeastMissing(has + {n}, from, r)
  {
  }

  // ---------- updates that come later than the records ----------

  /**
   Where a goroutine stands: outside; its record is written but the update is not done;
   inside ModifyLlrState, looking whether a record exists; about to store the marker.
   */
  datatype Pc = Idle | Written(n: nat) | Scanning(c: nat) | Found(c: nat)

  datatype Holder = Free | By(t: nat)

  datatype State = State(present: set<nat>, marker: nat, pcs: seq<Pc>, holder: Holder)

  ghost predicate Writes(s: State, s': State, t: nat, n: nat)
    requires t < |s.pcs|
  {
    s.pcs[t].Idle? && s' == s.(present := s.present + {n}, pcs := s.pcs[t := Written(n)])
  }

  ghost predicate Moves(s: State, s': State, t: nat)
    requires t < |s.pcs|
  {
    match s.pcs[t]
    case Idle => false
    case Written(n) =>
      && s.holder.Free?
      && (if s.marker == n
          then s' == s.(holder := By(t), pcs := s.pcs[t := Scanning(n + 1)])
          else s' == s.(pcs := s.pcs[t := Idle]))
    case Scanning(c) =>
      s' == s.(pcs := s.pcs[t := if c in s.present then Scanning(c + 1) else Found(c)])
    case Found(c) =>
      s' == s.(marker := c, holder := Free, pcs := s.pcs[t := Idle])
  }

  ghost predicate Steps(s: State, s': State, t: nat) {
    t < |s.pcs| && (Moves(s, s', t) || exists n: nat :: Writes(s, s', t, n))
  }

  ghost predicate Next(s: State, s': State) {
    exists t: nat :: Steps(s, s', t)
  }

  ghost predicate StepAt(run: seq<State>, i: nat)
    requires i < |run| - 1
  {
    Next(run[i], run[i + 1])
  }

  ghost predicate IsRun(run: seq<State>) {
    |run| > 0 && forall i: nat | i < |run| - 1 :: StepAt(run, i)
  }

  ghost predicate Start(s: State, from: nat) {
    LeastMissing(s.present, from, s.marker) && s.holder.Free? && forall t | 0 <= t < |s.pcs| :: s.pcs[t].Idle?
  }

  ghost predicate Quiet(s: State) {
    forall t | 0 <= t < |s.pcs| :: s.pcs[t].Idle?
  }

  /** If the record is there, some goroutine has still to report it. */
  ghost predicate Due(s: State, m: nat) {
    m in s.present ==> exists t :: 0 <= t < |s.pcs| && s.pcs[t] == Written(m)
  }

  ghost predicate Inside(p: Pc) {
    p.Scanning? || p.Found?
  }

  ghost predicate Filled(s: State, from: nat, m: nat) {
    from <= m && forall i | from <= i < m :: i in s.present
  }

  ghost predicate Inv(s: State, from: nat) {
    && Filled(s, from, s.marker)
    && (forall t | 0 <= t < |s.pcs| :: Inside(s.pcs[t]) <==> s.holder == By(t))
    && (forall t | 0 <= t < |s.pcs| && s.pcs[t].Written? :: s.pcs[t].n in s.present)
    && (match s.holder
        case Free => Due(s, s.marker)
        case By(t) =>
          && t < |s.pcs| && Inside(s.pcs[t]) && Filled(s, from, s.pcs[t].c)
          && (s.pcs[t].Found? ==> Due(s, s.pcs[t].c)))
  }

  lemma WriteKeepsInv(s: State, s': State, from: nat, t: nat, n: nat)
    requires Inv(s, from) && t < |s.pcs| && Writes(s, s', t, n)
    ensures Inv(s', from)
  {
    forall m: nat | Due(s, m)
      ensures Due(s', m)
    {
      if m in s.present {
        var u :| 0 <= u < |s.pcs| && s.pcs[u] == Written(m);
        assert s'.pcs[u] == Written(m);
      } else if m == n {
        assert s'.pcs[t] == Written(m);
      }
    }
  }

  lemma MoveKeepsDue(s: State, s': State, t: nat, m: nat)
    requires t < |s.pcs| && Moves(s, s', t) && Due(s, m) && s.pcs[t] != Written(m)
    ensures Due(s', m)
  {
    if m in s.present {
      var u :| 0 <= u < |s.pcs| && s.pcs[u] == Written(m);
      assert s'.pcs[u] == Written(m);
    }
  }

  lemma MoveKeepsInv(s: State, s': State, from: nat, t: nat)
    requires Inv(s, from) && t < |s.pcs| && Moves(s, s', t)
    ensures Inv(s', from)
  {
    match s.pcs[t]
    case Written(n) =>
      if s.marker != n {
        MoveKeepsDue(s, s', t, s.marker);
      }
    case Scanning(c) =>
      assert s.holder == By(t);
    case Found(c) =>
      assert s.holder == By(t);
      MoveKeepsDue(s, s', t, c);
  }

  lemma {:induction false} RunKeepsInv(run: seq<State>, from: nat)
    requires IsRun(run) && Start(run[0], from)
    ensures Inv(run[|run| - 1], from)
    decreases |run|
  {
    if |run| > 1 {
      var last := |run| - 2;
      var front := run[..last + 1];
      assert IsRun(front) by {
        forall i: nat | i < last
          ensures StepAt(front, i)
        {
          assert StepAt(run, i);
        }
      }
      RunKeepsInv(front, from);
      assert StepAt(run, last);
      var s, s' := run[last], run[last + 1];
      var t: nat :| Steps(s, s', t);
      if Moves(s, s', t) {
        MoveKeepsInv(s, s', from, t);
      } else {
        var n: nat :| Writes(s, s', t, n);
        WriteKeepsInv(s, s', from, t, n);
      }
    }
  }

  /**
   In every reachable state all records below the marker are present, and a record at the
   marker means that an update is still to come.
   */
  lemma MarkerIsSafe(run: seq<State>, from: nat)
    requires IsRun(run) && Start(run[0], from)
    ensures var s := run[|run| - 1];
      && Filled(s, from, s.marker)
      && (s.marker in s.present ==> exists t :: 0 <= t < |s.pcs| && (s.pcs[t] == Written(s.marker) || Inside(s.pcs[t])))
  {
    RunKeepsInv(run, from);
  }

  /** Once all goroutines are outside, the marker is the least missing index. */
  lemma QuietMarkerIsExact(run: seq<State>, from: nat)
    requires IsRun(run) && Start(run[0], from) && Quiet(run[|run| - 1])
    ensures LeastMissing(run[|run| - 1].present, from, run[|run| - 1].marker)
  {
    RunKeepsInv(run, from);
  }

  ghost predicate CanMove(s: State, t: nat) {
    t < |s.pcs| && exists s' :: Moves(s, s', t)
  }

  ghost predicate SomeoneCanMove(s: State) {
    exists t: nat :: CanMove(s, t)
  }

  /** Goroutines that are not outside can always go on. */
  lemma SomeoneMoves(run: seq<State>, from: nat)
    requires IsRun(run) && Start(run[0], from) && !Quiet(run[|run| - 1])
    ensures SomeoneCanMove(run[|run| - 1])
  {
    RunKeepsInv(run, from);
    var s := run[|run| - 1];
    var t := if s.holder.By? then s.holder.t else var u :| 0 <= u < |s.pcs| && !s.pcs[u].Idle?; u;
    var s' := match s.pcs[t]
      case Written(n) =>
        if s.marker == n then s.(holder := By(t), pcs := s.pcs[t := Scanning(n + 1)]) else s.(pcs := s.pcs[t := Idle])
      case Scanning(c) => s.(pcs := s.pcs[t := if c in s.present then Scanning(c + 1) else Found(c)])
      case Found(c) => s.(marker := c, holder := Free, pcs := s.pcs[t := Idle])
      case Idle => s;
    assert Moves(s, s', t);
    assert CanMove(s, t);
  }

  // ---------- without further writes the updates come to an end ----------

  /** How far a goroutine is from being outside, given a bound on the records. */
  ghost function Distance(p: Pc, top: nat): nat {
    match p
    case Idle => 0
    case Written(_) => 2 * top + 5
    case Scanning(c) => if c > top then 2 else 2 * (top - c) + 4
    case Found(_) => 1
  }

  ghost function Distances(pcs: seq<Pc>, top: nat): nat {
    if pcs == [] then 0 else Distance(pcs[0], top) + Distances(pcs[1..], top)
  }

  lemma {:induction false} DistancesUpdate(pcs: seq<Pc>, top: nat, t: nat, p: Pc)
    requires t < |pcs|
    ensures Distances(pcs[t := p], top) == Distances(pcs, top) - Distance(pcs[t], top) + Distance(p, top)
  {
    if t > 0 {
      DistancesUpdate(pcs[1..], top, t - 1, p);
      assert pcs[t := p][1..] == pcs[1..][t - 1 := p];
    } else {
      assert pcs[t := p][1..] == pcs[1..];
    }
  }

  lemma MovesApproachQuiet(s: State, s': State, t: nat, top: nat)
    requires t < |s.pcs| && Moves(s, s', t) && forall i | i in s.present :: i <= top
    ensures Distances(s'.pcs, top) < Distances(s.pcs, top) && s'.present == s.present
  {
    DistancesUpdate(s.pcs, top, t, s'.pcs[t]);
    assert s'.pcs == s.pcs[t := s'.pcs[t]];
  }
}
