/**
 Max-min fair truncation: what truncatePending (evmcore/tx_pool.go) computes, stated
 without its loops.  A level L caps every non-local account at L transactions.
 */
module FairShare {
  import opened Common
  import opened NonceList

  type Lists = map<Addr, Txs>

  ghost function Sum(m: Lists, s: set<Addr>): nat
    requires s <= m.Keys
  {
    if s == {} then 0 else
      var a :| a in s;
      |m[a]| + Sum(m, s - {a})
  }

  lemma SumOfNone(m: Lists)
    ensures Sum(m, {}) == 0
  {
  }

  /** The number of transactions in all lists. */
  ghost function Total(m: Lists): nat {
    Sum(m, m.Keys)
  }

  lemma {:induction false} SumWithout(m: Lists, s: set<Addr>, a: Addr)
    requires a in s && s <= m.Keys
    ensures Sum(m, s) == |m[a]| + Sum(m, s - {a})
    decreases |s|
  {
    var c :| c in s && Sum(m, s) == |m[c]| + Sum(m, s - {c});
    if c != a {
      SumWithout(m, s - {c}, a);
      SumWithout(m, s - {a}, c);
      assert s - {c} - {a} == s - {a} - {c};
    }
  }

  lemma {:induction false} SumMonotone(m: Lists, m': Lists, s: set<Addr>)
    requires s <= m.Keys && s <= m'.Keys && forall a | a in s :: |m[a]| <= |m'[a]|
    ensures Sum(m, s) <= Sum(m', s)
    decreases |s|
  {
    if s != {} {
      var a :| a in s;
      SumWithout(m, s, a);
      SumWithout(m', s, a);
      SumMonotone(m, m', s - {a});
    }
  }

  lemma TotalUpdate(m: Lists, a: Addr, l: Txs)
    requires a in m
    ensures Total(m[a := l]) + |m[a]| == Total(m) + |l|
  {
    var m' := m[a := l];
    assert m'.Keys == m.Keys;
    SumWithout(m, m.Keys, a);
    SumWithout(m', m.Keys, a);
    SumMonotone(m, m', m.Keys - {a});
    SumMonotone(m', m, m.Keys - {a});
  }

  lemma {:induction false} CapCap(l: Txs, k: nat, j: nat)
    requires j <= k
    ensures Cap(Cap(l, k), j) == Cap(l, j)
    decreases |l|
  {
    if |l| > k {
      assert |l.Keys| == |l|;
      var m := Max(l.Keys);
      assert (l - {m}).Keys == l.Keys - {m};
      CapCap(l - {m}, k, j);
    }
  }

  /** Every non-local account keeps its `level` lowest nonces. */
  function Shape(lists: Lists, locals: set<Addr>, level: nat): Lists {
    map a | a in lists :: if a in locals then lists[a] else Cap(lists[a], level)
  }

  ghost predicate NothingDropped(lists: Lists, locals: set<Addr>, level: nat) {
    forall a | a in lists && a !in locals :: |lists[a]| <= level
  }

  /**
   The level is at least the guaranteed allowance; the rest fits, or nobody is above the
   allowance; and one more transaction per account would not have fitted.
   */
  ghost predicate IsFair(lists: Lists, locals: set<Addr>, allowance: nat, limit: nat, level: nat) {
    && level >= allowance
    && (Total(Shape(lists, locals, level)) <= limit || NothingDropped(Shape(lists, locals, level), locals, allowance))
    && Tight(lists, locals, limit, level)
  }

  lemma ShapeSame(lists: Lists, locals: set<Addr>, level: nat, level': nat)
    requires NothingDropped(lists, locals, level) && level <= level'
    ensures Shape(lists, locals, level) == lists && Shape(lists, locals, level') == lists
  {
  }

  lemma ShapeMonotone(lists: Lists, locals: set<Addr>, level: nat, level': nat)
    requires level <= level'
    ensures Total(Shape(lists, locals, level)) <= Total(Shape(lists, locals, level'))
  {
    hide Cap, Sum;
    assert Shape(lists, locals, level).Keys == lists.Keys == Shape(lists, locals, level').Keys;
    forall a | a in lists
      ensures |Shape(lists, locals, level)[a]| <= |Shape(lists, locals, level')[a]|
    {
      CapIsPrefix(lists[a], level);
      CapIsPrefix(lists[a], level');
    }
    SumMonotone(Shape(lists, locals, level), Shape(lists, locals, level'), lists.Keys);
  }

  /** Fairness determines the outcome: two fair levels leave every account with the same list. */
  lemma FairIsUnique(lists: Lists, locals: set<Addr>, allowance: nat, limit: nat, level: nat, level': nat)
    requires IsFair(lists, locals, allowance, limit, level) && IsFair(lists, locals, allowance, limit, level')
    requires level <= level'
    ensures Shape(lists, locals, level) == Shape(lists, locals, level')
  {
    if NothingDropped(lists, locals, level) {
      ShapeSame(lists, locals, level, level');
    } else if level < level' {
      ShapeMonotone(lists, locals, level + 1, level');
      forall a | a in lists && a !in locals
        ensures |lists[a]| <= level
      {
        CapIsPrefix(lists[a], level');
        assert |Shape(lists, locals, level')[a]| <= allowance;
      }
    }
  }

  // ---------- rounds: one transaction off each of the largest accounts ----------

  /** Halfway through a round that takes the accounts `done` from c down to c - 1. */
  function Halfway(lists: Lists, locals: set<Addr>, c: nat, done: set<Addr>): Lists
    requires c > 0
  {
    map a | a in lists ::
      if a in locals then lists[a] else if a in done then Cap(lists[a], c - 1) else Cap(lists[a], c)
  }

  lemma HalfwayAt(lists: Lists, locals: set<Addr>, c: nat, done: set<Addr>, a: Addr)
    requires c > 0 && a in lists && a !in locals && a !in done && |lists[a]| >= c
    ensures var now := Halfway(lists, locals, c, done);
      |now[a]| == c && Cap(now[a], c - 1) == Cap(lists[a], c - 1) && |Cap(now[a], c - 1)| == c - 1
  {
    hide Cap;
    CapIsPrefix(lists[a], c);
    CapIsPrefix(Cap(lists[a], c), c - 1);
    CapCap(lists[a], c, c - 1);
  }

  lemma HalfwayStep(lists: Lists, locals: set<Addr>, c: nat, done: set<Addr>, a: Addr)
    requires c > 0 && a in lists && a !in locals && a !in done && |lists[a]| >= c
    ensures var now := Halfway(lists, locals, c, done);
      && |now[a]| == c
      && now[a := Cap(now[a], c - 1)] == Halfway(lists, locals, c, done + {a})
      && Total(Halfway(lists, locals, c, done + {a})) + 1 == Total(now)
  {
    hide Cap, Sum;
    var now := Halfway(lists, locals, c, done);
    HalfwayAt(lists, locals, c, done, a);
    assert now[a := Cap(now[a], c - 1)] == Halfway(lists, locals, c, done + {a});
    TotalUpdate(now, a, Cap(now[a], c - 1));
  }

  lemma RoundStarts(lists: Lists, locals: set<Addr>, c: nat)
    requires c > 0
    ensures Halfway(lists, locals, c, {}) == Shape(lists, locals, c)
  {
  }

  lemma RoundEnds(lists: Lists, locals: set<Addr>, c: nat, done: set<Addr>)
    requires c > 0
    requires forall a | a in lists && a !in locals && a !in done :: |lists[a]| < c
    ensures Halfway(lists, locals, c, done) == Shape(lists, locals, c - 1)
  {
  }

  lemma {:induction false} EachFits(m: Lists, a: Addr)
    requires a in m
    ensures |m[a]| <= Total(m)
  {
    SumWithout(m, m.Keys, a);
  }

  // ---------- the order in which truncatePending works ----------

  ghost predicate Spammer(lists: Lists, locals: set<Addr>, allowance: nat, a: Addr) {
    a in lists && a !in locals && |lists[a]| > allowance
  }

  /** Offenders have been taken from the spammers largest first; nobody else is above the allowance. */
  ghost predicate Popped(lists: Lists, locals: set<Addr>, allowance: nat, spammers: set<Addr>, offenders: seq<Addr>) {
    && (forall i, j | 0 <= i < j < |offenders| ::
          offenders[i] != offenders[j] && |ListOr(lists, offenders[i])| >= |ListOr(lists, offenders[j])|)
    && (forall a | a in offenders :: a !in spammers)
    && (forall a :: a in spammers || a in offenders <==> Spammer(lists, locals, allowance, a))
    && (forall a, b | a in offenders && b in spammers :: |ListOr(lists, a)| >= |ListOr(lists, b)|)
  }

  function ListOr(lists: Lists, a: Addr): Txs {
    if a in lists then lists[a] else map[]
  }

  /** Nothing was cut, or one more transaction per account would not have fitted. */
  ghost predicate Tight(lists: Lists, locals: set<Addr>, limit: nat, level: nat) {
    NothingDropped(lists, locals, level) || Total(Shape(lists, locals, level + 1)) > limit
  }

  /** Exactly the accounts `top` reach the level; the other non-local ones stay at or below the floor. */
  ghost predicate OnTop(lists: Lists, locals: set<Addr>, top: seq<Addr>, floor: nat, level: nat) {
    && (forall i, j | 0 <= i < j < |top| :: top[i] != top[j])
    && (forall a | a in top :: a in lists && a !in locals && |lists[a]| >= level)
    && (forall a | a in lists && a !in locals && a !in top :: |lists[a]| <= floor)
    && floor <= level
  }

  lemma {:induction false} Largest(lists: Lists, s: set<Addr>) returns (m: Addr)
    requires s != {}
    ensures m in s && forall a | a in s :: |ListOr(lists, a)| <= |ListOr(lists, m)|
    decreases |s|
  {
    m :| m in s;
    if s - {m} != {} {
      var n := Largest(lists, s - {m});
      if |ListOr(lists, m)| < |ListOr(lists, n)| { m := n; }
    }
  }

  lemma LargestExists(lists: Lists, s: set<Addr>)
    requires s != {}
    ensures exists m :: m in s && forall a | a in s :: |ListOr(lists, a)| <= |ListOr(lists, m)|
  {
    var m := Largest(lists, s);
  }

  lemma PopStarts(lists: Lists, locals: set<Addr>, allowance: nat)
    ensures Popped(lists, locals, allowance, set a | a in lists && a !in locals && |lists[a]| > allowance, [])
  {
  }

  lemma PopNext(lists: Lists, locals: set<Addr>, allowance: nat, spammers: set<Addr>, offenders: seq<Addr>, m: Addr)
    requires Popped(lists, locals, allowance, spammers, offenders)
    requires m in spammers && forall a | a in spammers :: |ListOr(lists, a)| <= |ListOr(lists, m)|
    ensures Popped(lists, locals, allowance, spammers - {m}, offenders + [m])
  {
    var next := offenders + [m];
    forall a: Addr
      ensures a in spammers - {m} || a in next <==> Spammer(lists, locals, allowance, a)
    {
      assert a in spammers || a in offenders <==> Spammer(lists, locals, allowance, a);
    }
  }

  /** The first offender is the largest account of all that may be cut, so the level can start there. */
  lemma FirstLevel(lists: Lists, locals: set<Addr>, allowance: nat, spammers: set<Addr>, m: Addr, level: nat)
    requires Popped(lists, locals, allowance, spammers, [m]) && m in lists && NothingDropped(lists, locals, level)
    ensures |lists[m]| > allowance && NothingDropped(lists, locals, |lists[m]|)
    ensures Shape(lists, locals, |lists[m]|) == Shape(lists, locals, level)
    ensures OnTop(lists, locals, [m], |lists[m]|, |lists[m]|)
  {
    assert m in [m];
    assert Spammer(lists, locals, allowance, m);
    forall a | a in lists && a !in locals
      ensures |lists[a]| <= |lists[m]|
    {
      if |lists[a]| > allowance { assert Spammer(lists, locals, allowance, a); }
    }
    ShapeSame(lists, locals, level, level);
    ShapeSame(lists, locals, |lists[m]|, |lists[m]|);
  }

  lemma ShapeLength(lists: Lists, locals: set<Addr>, level: nat, a: Addr)
    requires a in lists && a !in locals
    ensures a in Shape(lists, locals, level)
    ensures |Shape(lists, locals, level)[a]| == if |lists[a]| <= level then |lists[a]| else level
  {
    CapIsPrefix(lists[a], level);
  }

  lemma AllFit(lists: Lists, locals: set<Addr>, level: nat)
    requires Total(lists) <= level
    ensures NothingDropped(lists, locals, level) && Shape(lists, locals, level) == lists
  {
    forall a | a in lists
      ensures |lists[a]| <= level
    {
      EachFits(lists, a);
    }
    ShapeSame(lists, locals, level, level);
  }

  /** While accounts are still to be popped, they are uncut. */
  lemma Uncut(lists: Lists, locals: set<Addr>, allowance: nat, spammers: set<Addr>, offenders: seq<Addr>, level: nat, a: Addr)
    requires Popped(lists, locals, allowance, spammers, offenders) && a in spammers
    requires if offenders == [] then NothingDropped(lists, locals, level) else OnTop(lists, locals, offenders, level, level)
    ensures a in lists && |lists[a]| <= level && a in Shape(lists, locals, level) && Shape(lists, locals, level)[a] == lists[a]
  {
    assert Spammer(lists, locals, allowance, a);
  }

  /** The next offender is the new floor for the ones before it. */
  lemma NextFloor(lists: Lists, locals: set<Addr>, allowance: nat, spammers: set<Addr>, offenders: seq<Addr>, m: Addr, level: nat)
    requires Popped(lists, locals, allowance, spammers, offenders) && OnTop(lists, locals, offenders, level, level)
    requires m in spammers && forall a | a in spammers :: |ListOr(lists, a)| <= |ListOr(lists, m)|
    ensures m in lists && m !in locals && m !in offenders && allowance < |lists[m]| <= level
    ensures OnTop(lists, locals, offenders, |lists[m]|, level)
  {
    assert Spammer(lists, locals, allowance, m);
    forall a | a in lists && a !in locals && a !in offenders
      ensures |lists[a]| <= |lists[m]|
    {
      if |lists[a]| > allowance { assert Spammer(lists, locals, allowance, a); }
    }
  }

  lemma JoinTop(lists: Lists, locals: set<Addr>, top: seq<Addr>, m: Addr, level: nat)
    requires m in lists && m !in locals && m !in top && |lists[m]| <= level
    requires OnTop(lists, locals, top, |lists[m]|, level)
    ensures OnTop(lists, locals, top + [m], |lists[m]|, |lists[m]|)
  {
  }

  lemma LastFloor(lists: Lists, locals: set<Addr>, allowance: nat, offenders: seq<Addr>, level: nat)
    requires Popped(lists, locals, allowance, {}, offenders)
    requires offenders != [] ==> OnTop(lists, locals, offenders, level, level) && level >= allowance
    ensures if offenders == [] then NothingDropped(lists, locals, allowance)
            else OnTop(lists, locals, offenders, allowance, level)
  {
    forall a | a in lists && a !in locals && a !in offenders
      ensures |lists[a]| <= allowance
    {
      assert Spammer(lists, locals, allowance, a) <==> |lists[a]| > allowance;
    }
  }

  lemma Allowed(lists: Lists, locals: set<Addr>, allowance: nat, level: nat)
    requires level == allowance || NothingDropped(lists, locals, allowance)
    ensures NothingDropped(Shape(lists, locals, level), locals, allowance)
  {
    forall a | a in lists && a !in locals
      ensures |Shape(lists, locals, level)[a]| <= allowance
    {
      CapIsPrefix(lists[a], level);
    }
  }
}
