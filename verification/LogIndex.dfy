/**
 What the topic index holds, how a search pattern is normalised, and the promise of
 the search: the parallel search reports what a filter over all logs accepts
 (topicsdb/topicsdb.go, topicsdb/search_parallel.go).
 */
module LogIndex {
  import opened Words
  import S = ParallelSearch

  type Hash = S.Hash
  type Id = S.Id

  const MAX_TOPICS_COUNT := 5

  datatype Log = Log(id: Id, address: Hash, topics: seq<Hash>) {
    /** Position 0 is the address, position p > 0 the p-th topic. */
    function Words(): seq<Hash> {
      [address] + topics
    }
  }

  datatype Key = Key(word: Hash, pos: nat, id: Id)

  type Pattern = seq<seq<Hash>>

  // ---------- the index ----------

  ghost predicate DistinctLogs(logs: seq<Log>) {
    forall i, j | 0 <= i < j < |logs| :: logs[i].id != logs[j].id
  }

  ghost predicate Indexes(l: Log, key: Key, count: nat) {
    key.id == l.id && key.pos < |l.Words()| && l.Words()[key.pos] == key.word && count == |l.topics|
  }

  /** The table has exactly the entries of the logs. */
  ghost predicate Holds(table: map<Key, nat>, logs: seq<Log>) {
    && (forall i, p | 0 <= i < |logs| && 0 <= p < |logs[i].Words()| ::
          var key := Key(logs[i].Words()[p], p, logs[i].id); key in table && table[key] == |logs[i].topics|)
    && (forall key | key in table :: exists i :: 0 <= i < |logs| && Indexes(logs[i], key, table[key]))
  }

  /** The entries of the first `done` words of the log have been added, and no others. */
  ghost predicate Added(before: map<Key, nat>, after: map<Key, nat>, l: Log, done: nat)
    requires done <= |l.Words()|
  {
    && (forall key :: key in after <==>
          key in before || (key.id == l.id && key.pos < done && l.Words()[key.pos] == key.word))
    && (forall key | key in after && key.id == l.id :: after[key] == |l.topics|)
    && (forall key | key in before && key.id != l.id :: after[key] == before[key])
  }

  lemma NoKeysOf(table: map<Key, nat>, logs: seq<Log>, l: Log)
    requires Holds(table, logs) && DistinctLogs(logs + [l])
    ensures forall key | key in table :: key.id != l.id
  {
    forall key | key in table
      ensures key.id != l.id
    {
      var i :| 0 <= i < |logs| && Indexes(logs[i], key, table[key]);
      assert (logs + [l])[i] == logs[i] && (logs + [l])[|logs|] == l;
    }
  }

  class Index {
    var topic: map<Key, nat>

    constructor ()
      ensures Holds(topic, [])
    {
      topic := map[];
    }

    method PushIndex(word: Hash, pos: nat, id: Id, count: nat)
      modifies this
      ensures topic == old(topic)[Key(word, pos, id) := count]
    {
      topic := topic[Key(word, pos, id) := count];
    }

    method PushLog(l: Log, ghost logs: seq<Log>)
      requires Holds(topic, logs) && DistinctLogs(logs + [l])
      modifies this
      ensures Holds(topic, logs + [l])
    {
      var words := l.Words();
      var pos := 0;
      NoKeysOf(topic, logs, l);
      while pos < |words|
        invariant 0 <= pos <= |words|
        invariant Added(old(topic), topic, l, pos)
      {
        PushIndex(words[pos], pos, l.id, |l.topics|);
        pos := pos + 1;
      }
      ExtendHolds(old(topic), topic, logs, l);
    }

    /** Stops at the first log with too many topics; the logs before it stay indexed. */
    method Push(recs: seq<Log>, ghost logs: seq<Log>) returns (ok: bool, n: nat)
      requires Holds(topic, logs) && DistinctLogs(logs + recs)
      modifies this
      ensures ok <==> forall i | 0 <= i < |recs| :: |recs[i].topics| <= MAX_TOPICS_COUNT
      ensures n <= |recs| && (ok ==> n == |recs|)
      ensures !ok ==> n < |recs| && |recs[n].topics| > MAX_TOPICS_COUNT
      ensures Holds(topic, logs + recs[..n])
    {
      n := 0;
      assert logs + recs[..0] == logs;
      while n < |recs|
        invariant 0 <= n <= |recs|
        invariant forall i | 0 <= i < n :: |recs[i].topics| <= MAX_TOPICS_COUNT
        invariant Holds(topic, logs + recs[..n])
      {
        if |recs[n].topics| > MAX_TOPICS_COUNT {
          return false, n;
        }
        assert logs + recs[..n] + [recs[n]] == (logs + recs)[..|logs| + n + 1];
        PushLog(recs[n], logs + recs[..n]);
        assert logs + recs[..n] + [recs[n]] == logs + recs[..n + 1];
        n := n + 1;
      }
      return true, n;
    }
  }

  lemma ExtendHolds(before: map<Key, nat>, after: map<Key, nat>, logs: seq<Log>, l: Log)
    requires Holds(before, logs) && DistinctLogs(logs + [l])
    requires Added(before, after, l, |l.Words()|)
    ensures Holds(after, logs + [l])
  {
    var all := logs + [l];
    forall i, p | 0 <= i < |all| && 0 <= p < |all[i].Words()|
      ensures var key := Key(all[i].Words()[p], p, all[i].id); key in after && after[key] == |all[i].topics|
    {
      if i < |logs| {
        assert all[i] == logs[i] && all[|logs|] == l;
        assert Key(logs[i].Words()[p], p, logs[i].id) in before;
      }
    }
    forall key | key in after
      ensures exists i :: 0 <= i < |all| && Indexes(all[i], key, after[key])
    {
      if key in before {
        var i :| 0 <= i < |logs| && Indexes(logs[i], key, before[key]);
        assert all[i] == logs[i] && all[|logs|] == l && Indexes(all[i], key, after[key]);
      } else {
        assert Indexes(all[|logs|], key, after[key]);
      }
    }
  }

  // ---------- the pattern ----------

  ghost predicate Distinct(hs: seq<Hash>) {
    forall i, j | 0 <= i < j < |hs| :: hs[i] != hs[j]
  }

  /** The order of the result is the order in which the hash map is walked. */
  method UniqOnly(hs: seq<Hash>) returns (uniq: seq<Hash>)
    ensures Distinct(uniq)
    ensures forall h :: h in uniq <==> h in hs
  {
    var index: set<Hash> := {};
    for i := 0 to |hs|
      invariant forall h :: h in index <==> h in hs[..i]
    {
      index := index + {hs[i]};
    }
    uniq := [];
    while index != {}
      invariant Distinct(uniq)
      invariant forall h :: h in uniq || h in index <==> h in hs
      invariant forall h :: !(h in uniq && h in index)
      decreases |index|
    {
      var h :| h in index;
      uniq := uniq + [h];
      index := index - {h};
    }
  }

  /** The first six positions, with the same variants, each once. */
  ghost predicate Limits(limited: Pattern, pattern: Pattern) {
    && |limited| == (if |pattern| > MAX_TOPICS_COUNT + 1 then MAX_TOPICS_COUNT + 1 else |pattern|)
    && forall i | 0 <= i < |limited| ::
         Distinct(limited[i]) && (forall h :: h in limited[i] <==> h in pattern[i])
         && (limited[i] == [] <==> pattern[i] == [])
  }

  /** The pattern to search with, or the error when no position has variants. */
  datatype Limited = ErrEmptyTopics | Ok(pattern: Pattern)

  method LimitPattern(pattern: Pattern) returns (r: Limited)
    ensures r.ErrEmptyTopics? <==>
      forall i | 0 <= i < |pattern| && i <= MAX_TOPICS_COUNT :: pattern[i] == []
    ensures r.Ok? ==> Limits(r.pattern, pattern) && Searchable(r.pattern)
  {
    var size := if |pattern| > MAX_TOPICS_COUNT + 1 then MAX_TOPICS_COUNT + 1 else |pattern|;
    var limited := pattern[..size];
    var ok := false;
    for i := 0 to size
      invariant |limited| == size
      invariant forall j | i <= j < size :: limited[j] == pattern[j]
      invariant forall j | 0 <= j < i ::
        Distinct(limited[j]) && (forall h :: h in limited[j] <==> h in pattern[j])
        && (limited[j] == [] <==> pattern[j] == [])
      invariant ok <==> exists j :: 0 <= j < i && limited[j] != []
    {
      ok := ok || |limited[i]| > 0;
      if |limited[i]| > 1 {
        var uniq := UniqOnly(limited[i]);
        assert limited[i][0] in uniq;
        limited := limited[i := uniq];
      }
    }
    r := if ok then Ok(limited) else ErrEmptyTopics;
  }

  /** What searchParallel is called with. */
  ghost predicate Searchable(pattern: Pattern) {
    && 0 < |pattern| <= MAX_TOPICS_COUNT + 1
    && (forall i | 0 <= i < |pattern| :: Distinct(pattern[i]))
    && (exists i :: 0 <= i < |pattern| && pattern[i] != [])
  }

  // ---------- the promise ----------

  /** What the code accepts: blockEnd zero means no upper bound. */
  ghost predicate Accepts(l: Log, pattern: Pattern, start: uint64, blockEnd: uint64) {
    && start <= l.id.block && (blockEnd == 0 || l.id.block <= blockEnd)
    && Matches(l, pattern)
  }

  ghost predicate Matches(l: Log, pattern: Pattern) {
    && |l.topics| >= |pattern| - 1
    && forall p | 0 <= p < |pattern| && pattern[p] != [] :: p < |l.Words()| && l.Words()[p] in pattern[p]
  }

  /** One scanner per position and variant, in the order they are started. */
  function Threads(pattern: Pattern): seq<(nat, Hash)> {
    if pattern == [] then [] else
      var p := |pattern| - 1;
      Threads(pattern[..p]) + seq(|pattern[p]|, v requires 0 <= v < |pattern[p]| => (p, pattern[p][v]))
  }

  /** What the iterator over the key prefix (word, pos), started at a block, yields. */
  ghost predicate IsScan(recs: seq<S.Record>, table: map<Key, nat>, word: Hash, pos: nat, start: uint64) {
    && S.Sorted(recs) && S.DistinctIds(recs)
    && (forall j | 0 <= j < |recs| :: recs[j].id.block >= start &&
          Key(word, pos, recs[j].id) in table && recs[j].topicsCount == table[Key(word, pos, recs[j].id)])
    && (forall id: Id | Key(word, pos, id) in table && id.block >= start ::
          exists j :: 0 <= j < |recs| && recs[j].id == id)
  }

  ghost predicate IsQuery(q: S.Query, table: map<Key, nat>, pattern: Pattern, start: uint64, blockEnd: uint64) {
    && |pattern| > 0
    && q.need == |pattern| - 1 && q.blockEnd == blockEnd
    && |q.scans| == |Threads(pattern)|
    && forall i | 0 <= i < |q.scans| ::
         q.scans[i].pos == Threads(pattern)[i].0
         && IsScan(q.scans[i].recs, table, Threads(pattern)[i].1, Threads(pattern)[i].0, start)
  }

  lemma {:induction false} ThreadsOf(pattern: Pattern, i: nat)
    requires i < |Threads(pattern)|
    ensures var (p, h) := Threads(pattern)[i]; p < |pattern| && h in pattern[p]
  {
    var p := |pattern| - 1;
    if i < |Threads(pattern[..p])| {
      ThreadsOf(pattern[..p], i);
      assert Threads(pattern)[i] == Threads(pattern[..p])[i];
    } else {
      assert Threads(pattern)[i] == (p, pattern[p][i - |Threads(pattern[..p])|]);
    }
  }

  lemma {:induction false} ThreadFor(pattern: Pattern, p: nat, h: Hash) returns (i: nat)
    requires p < |pattern| && h in pattern[p]
    ensures i < |Threads(pattern)| && Threads(pattern)[i] == (p, h)
  {
    var n := |pattern| - 1;
    if p < n {
      i := ThreadFor(pattern[..n], p, h);
    } else {
      var v :| 0 <= v < |pattern[n]| && pattern[n][v] == h;
      i := |Threads(pattern[..n])| + v;
    }
  }

  lemma {:induction false} ThreadsDistinct(pattern: Pattern, i: nat, j: nat)
    requires forall k | 0 <= k < |pattern| :: Distinct(pattern[k])
    requires i < j < |Threads(pattern)|
    ensures Threads(pattern)[i] != Threads(pattern)[j]
  {
    var n := |pattern| - 1;
    var t := |Threads(pattern[..n])|;
    if j < t {
      ThreadsDistinct(pattern[..n], i, j);
    } else if i < t {
      ThreadsOf(pattern[..n], i);
      assert Threads(pattern)[i] == Threads(pattern[..n])[i];
      assert Threads(pattern)[j] == (n, pattern[n][j - t]);
    } else {
      assert Threads(pattern)[i] == (n, pattern[n][i - t]) && Threads(pattern)[j] == (n, pattern[n][j - t]);
    }
  }

  /** The word of a log at a position is unique, so one entry per (position, record). */
  lemma WordIsUnique(table: map<Key, nat>, logs: seq<Log>, pos: nat, id: Id, w: Hash, w': Hash)
    requires Holds(table, logs) && DistinctLogs(logs)
    requires Key(w, pos, id) in table && Key(w', pos, id) in table
    ensures w == w'
  {
    var i :| 0 <= i < |logs| && Indexes(logs[i], Key(w, pos, id), table[Key(w, pos, id)]);
    var j :| 0 <= j < |logs| && Indexes(logs[j], Key(w', pos, id), table[Key(w', pos, id)]);
    assert i == j;
  }

  lemma QueryIsValid(q: S.Query, table: map<Key, nat>, logs: seq<Log>, pattern: Pattern, start: uint64, blockEnd: uint64)
    requires Holds(table, logs) && DistinctLogs(logs) && Searchable(pattern)
    requires IsQuery(q, table, pattern, start, blockEnd)
    ensures S.ValidQuery(q)
  {
    forall i, j, a, b | 0 <= i < |q.scans| && 0 <= j < |q.scans|
        && 0 <= a < |q.scans[i].recs| && 0 <= b < |q.scans[j].recs|
        && q.scans[i].pos == q.scans[j].pos && q.scans[i].recs[a].id == q.scans[j].recs[b].id
      ensures i == j
    {
      WordIsUnique(table, logs, q.scans[i].pos, q.scans[i].recs[a].id, Threads(pattern)[i].1, Threads(pattern)[j].1);
      if i < j { ThreadsDistinct(pattern, i, j); }
      if j < i { ThreadsDistinct(pattern, j, i); }
    }
  }

  // ---------- the parallel search is the filter ----------

  lemma EntryOfLog(table: map<Key, nat>, logs: seq<Log>, l: Log, w: Hash, p: nat)
    requires Holds(table, logs) && DistinctLogs(logs) && l in logs
    ensures Key(w, p, l.id) in table <==> p < |l.Words()| && l.Words()[p] == w
    ensures Key(w, p, l.id) in table ==> table[Key(w, p, l.id)] == |l.topics|
  {
    var n :| 0 <= n < |logs| && logs[n] == l;
    if Key(w, p, l.id) in table {
      var m :| 0 <= m < |logs| && Indexes(logs[m], Key(w, p, l.id), table[Key(w, p, l.id)]);
      assert m == n;
    }
  }

  lemma CarriedByScan(q: S.Query, i: nat, table: map<Key, nat>, w: Hash, p: nat, start: uint64, id: Id)
    requires i < |q.scans| && IsScan(q.scans[i].recs, table, w, p, start)
    ensures S.Carries(q, i, id) <==>
      && start <= id.block && Key(w, p, id) in table
      && S.Relevant(q, S.Record(id, table[Key(w, p, id)]))
  {
    var recs := q.scans[i].recs;
    if start <= id.block && Key(w, p, id) in table {
      var j :| 0 <= j < |recs| && recs[j].id == id;
      assert recs[j] == S.Record(id, table[Key(w, p, id)]);
    }
  }

  lemma CarriedByLog(q: S.Query, table: map<Key, nat>, logs: seq<Log>, pattern: Pattern,
                     start: uint64, blockEnd: uint64, l: Log, i: nat)
    requires Holds(table, logs) && DistinctLogs(logs) && l in logs
    requires IsQuery(q, table, pattern, start, blockEnd) && i < |q.scans|
    ensures S.Carries(q, i, l.id) <==>
      && start <= l.id.block && (blockEnd == 0 || l.id.block <= blockEnd) && |l.topics| >= |pattern| - 1
      && Threads(pattern)[i].0 < |l.Words()| && l.Words()[Threads(pattern)[i].0] == Threads(pattern)[i].1
  {
    var (p, w) := Threads(pattern)[i];
    EntryOfLog(table, logs, l, w, p);
    CarriedByScan(q, i, table, w, p, start, l.id);
  }

  lemma CarriedIsLogged(q: S.Query, table: map<Key, nat>, logs: seq<Log>, pattern: Pattern,
                        start: uint64, blockEnd: uint64, id: Id, i: nat) returns (l: Log)
    requires Holds(table, logs) && IsQuery(q, table, pattern, start, blockEnd)
    requires i < |q.scans| && S.Carries(q, i, id)
    ensures l in logs && l.id == id
  {
    var recs := q.scans[i].recs;
    var j :| 0 <= j < |recs| && recs[j].id == id && S.Relevant(q, recs[j]);
    var key := Key(Threads(pattern)[i].1, Threads(pattern)[i].0, id);
    var m :| 0 <= m < |logs| && Indexes(logs[m], key, table[key]);
    l := logs[m];
  }

  lemma AcceptedIsWanted(q: S.Query, table: map<Key, nat>, logs: seq<Log>, pattern: Pattern,
                         start: uint64, blockEnd: uint64, l: Log)
    requires Holds(table, logs) && DistinctLogs(logs) && l in logs
    requires IsQuery(q, table, pattern, start, blockEnd) && Accepts(l, pattern, start, blockEnd)
    ensures S.Wanted(q, l.id)
  {
    forall p | p in S.Positions(q)
      ensures exists i :: 0 <= i < |q.scans| && q.scans[i].pos == p && S.Carries(q, i, l.id)
    {
      var k :| 0 <= k < |q.scans| && q.scans[k].pos == p;
      ThreadsOf(pattern, k);
      var i := ThreadFor(pattern, p, l.Words()[p]);
      CarriedByLog(q, table, logs, pattern, start, blockEnd, l, i);
    }
  }

  lemma WantedIsAccepted(q: S.Query, table: map<Key, nat>, logs: seq<Log>, pattern: Pattern,
                         start: uint64, blockEnd: uint64, id: Id) returns (l: Log)
    requires Holds(table, logs) && DistinctLogs(logs) && Searchable(pattern)
    requires IsQuery(q, table, pattern, start, blockEnd) && S.Wanted(q, id)
    ensures l in logs && l.id == id && Accepts(l, pattern, start, blockEnd)
  {
    var p0 :| 0 <= p0 < |pattern| && pattern[p0] != [];
    var i0 := CarrierAt(q, table, pattern, start, blockEnd, id, p0);
    l := CarriedIsLogged(q, table, logs, pattern, start, blockEnd, id, i0);
    CarriedByLog(q, table, logs, pattern, start, blockEnd, l, i0);
    forall p | 0 <= p < |pattern| && pattern[p] != []
      ensures p < |l.Words()| && l.Words()[p] in pattern[p]
    {
      var i := CarrierAt(q, table, pattern, start, blockEnd, id, p);
      CarriedByLog(q, table, logs, pattern, start, blockEnd, l, i);
      ThreadsOf(pattern, i);
    }
  }

  lemma CarrierAt(q: S.Query, table: map<Key, nat>, pattern: Pattern,
                  start: uint64, blockEnd: uint64, id: Id, p: nat) returns (i: nat)
    requires IsQuery(q, table, pattern, start, blockEnd) && S.Wanted(q, id)
    requires p < |pattern| && pattern[p] != []
    ensures i < |q.scans| && q.scans[i].pos == p && S.Carries(q, i, id)
  {
    var k := ThreadFor(pattern, p, pattern[p][0]);
    assert q.scans[k].pos == p;
    assert p in S.Positions(q);
    i :| 0 <= i < |q.scans| && q.scans[i].pos == p && S.Carries(q, i, id);
  }

  /**
   Every interleaving of the scanners, once all of them have left their loops, has
   reported exactly the logs the filter accepts, each once, in block order.
   */
  lemma SearchIsFilter(q: S.Query, table: map<Key, nat>, logs: seq<Log>, pattern: Pattern,
                       start: uint64, blockEnd: uint64, run: seq<S.State>, id: Id)
    requires Holds(table, logs) && DistinctLogs(logs) && Searchable(pattern)
    requires IsQuery(q, table, pattern, start, blockEnd)
    requires S.IsRun(q, run) && S.AllThrough(run[|run| - 1])
    ensures var reported := run[|run| - 1].reported;
      && (id in reported <==> exists l :: l in logs && l.id == id && Accepts(l, pattern, start, blockEnd))
      && (forall i, j | 0 <= i < j < |reported| :: reported[i] != reported[j] && reported[i].block <= reported[j].block)
  {
    var s := run[|run| - 1];
    QueryIsValid(q, table, logs, pattern, start, blockEnd);
    S.RunKeepsInv(q, run, |run| - 1);
    var p :| 0 <= p < |pattern| && pattern[p] != [];
    var k := ThreadFor(pattern, p, pattern[p][0]);
    S.ReportedIsWanted(q, s, id);
    if S.Wanted(q, id) {
      var l := WantedIsAccepted(q, table, logs, pattern, start, blockEnd, id);
    }
    if l :| l in logs && l.id == id && Accepts(l, pattern, start, blockEnd) {
      AcceptedIsWanted(q, table, logs, pattern, start, blockEnd, l);
    }
  }

  // ---------- the documented block range ----------

  /** The documented meaning of ForEachInBlocks: the blocks from..to, both included. */
  ghost predicate InBlocks(l: Log, pattern: Pattern, from: uint64, to: uint64) {
    from <= l.id.block <= to && Matches(l, pattern)
  }

  ghost function SomeMatch(pattern: Pattern, block: uint64): (l: Log)
    requires |pattern| > 0
    ensures l.id.block == block && Matches(l, pattern)
  {
    var word := (p: int) => if 0 <= p < |pattern| && pattern[p] != [] then pattern[p][0] else 0;
    var l := Log(S.Id(block, 0, 0), word(0), seq(|pattern| - 1, p => word(p + 1)));
    assert forall p | 0 <= p < |pattern| :: l.Words()[p] == word(p);
    l
  }

  /** The search honours the documented range for every log exactly when `to` is not zero. */
  lemma RangeIsHonouredIff(pattern: Pattern, from: uint64, to: uint64)
    requires Searchable(pattern) && from <= to
    ensures (forall l: Log :: Accepts(l, pattern, from, to) <==> InBlocks(l, pattern, from, to)) <==> to != 0
  {
    if to == 0 {
      var l := SomeMatch(pattern, 1);
      assert Accepts(l, pattern, from, to) && !InBlocks(l, pattern, from, to);
    }
  }
}
