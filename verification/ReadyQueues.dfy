/** The three ready queues with their quotas, as values (`kernel/scheduler/scheduler.c`): which thread a pick takes,
and how long a ready thread can wait for its turn. */
module ReadyQueues {
  import opened Common

  const PRIORITIES: nat := 3

  /** `thread_ready_queues`, `pri_counters` and `curr_pri`.  Threads enter at index 0 and leave at the back. */
  datatype Queues = Queues(qs: seq<seq<nat>>, counters: seq<nat>, pri: nat)

  /** `MAX_PRI_CNTRS`; a queue gives up its turn when the counter exceeds this. */
  function MaxCounter(p: nat): nat
    requires p < PRIORITIES
  {
    if p == 0 then 9 else if p == 1 then 6 else 4
  }

  /** The picks of a turn. */
  ghost function Quota(p: nat): nat
    requires p < PRIORITIES
  {
    if p == 0 then 10 else if p == 1 then 7 else 5
  }

  ghost predicate WellFormed(s: Queues) {
    && |s.qs| == PRIORITIES && |s.counters| == PRIORITIES && s.pri < PRIORITIES
    && forall p :: 0 <= p < PRIORITIES ==> s.counters[p] < Quota(p)
  }

  function Next(p: nat): nat
    requires p < PRIORITIES
  {
    if p == 2 then 0 else p + 1
  }

  // ---------------------------------------------------------------------------
  // What a pick takes
  // ---------------------------------------------------------------------------

  ghost predicate NoneReady(q: seq<nat>, ready: set<nat>) {
    forall i :: 0 <= i < |q| ==> q[i] !in ready
  }

  /** `k` is the position of the ready thread nearest the back. */
  ghost predicate LastReady(q: seq<nat>, ready: set<nat>, k: nat) {
    k < |q| && q[k] in ready && forall j :: k < j < |q| ==> q[j] !in ready
  }

  /** The queue whose turn it is: the first, from `pri` on, with a ready thread. */
  ghost function Turn(s: Queues, ready: set<nat>): nat
    requires WellFormed(s)
  {
    if !NoneReady(s.qs[s.pri], ready) then s.pri
    else if !NoneReady(s.qs[Next(s.pri)], ready) then Next(s.pri)
    else Next(Next(s.pri))
  }

  /** A pick that finds nothing: no queue has a ready thread; the stale entries are gone. */
  ghost predicate PicksNone(s: Queues, ready: set<nat>, s': Queues)
    requires WellFormed(s)
  {
    && (forall p :: 0 <= p < PRIORITIES ==> NoneReady(s.qs[p], ready))
    && s' == s.(qs := [[], [], []])
  }

  /** A pick of thread `t`: the ready thread nearest the back of the queue whose turn it is.  It leaves with the stale
      entries behind it; the queues passed over are emptied; the counter moves on. */
  ghost predicate PicksThread(s: Queues, ready: set<nat>, s': Queues, t: nat)
    requires WellFormed(s)
  {
    var p := Turn(s, ready);
    && !NoneReady(s.qs[p], ready)
    && (exists k: nat {:trigger LastReady(s.qs[p], ready, k)} :: LastReady(s.qs[p], ready, k) && t == s.qs[p][k] && s'.qs == Taken(s, p, k))
    && (if s.counters[p] + 1 == Quota(p) then s'.counters == s.counters[p := 0] && s'.pri == (p + 1) % 3
        else s'.counters == s.counters[p := s.counters[p] + 1] && s'.pri == p)
  }

  /** The queues after a pick from position `k` of queue `p`. */
  ghost function Taken(s: Queues, p: nat, k: nat): (r: seq<seq<nat>>)
    requires WellFormed(s) && p < PRIORITIES && k < |s.qs[p]|
    ensures |r| == PRIORITIES
  {
    seq(PRIORITIES, j requires 0 <= j < PRIORITIES => if j == p then s.qs[p][..k] else if Passed(s.pri, p, j) then [] else s.qs[j])
  }

  /** Going round from `pri` to `p`, queue `j` is passed over. */
  ghost predicate Passed(pri: nat, p: nat, j: nat)
    requires pri < PRIORITIES && p < PRIORITIES
  {
    j != p && p != pri && (j == pri || p == Next(Next(pri)))
  }

  ghost predicate Picks(s: Queues, ready: set<nat>, s': Queues, r: Option<nat>)
    requires WellFormed(s)
  {
    if r.None? then PicksNone(s, ready, s') else PicksThread(s, ready, s', r.value)
  }

  lemma PicksWellFormed(s: Queues, ready: set<nat>, s': Queues, r: Option<nat>)
    requires WellFormed(s) && Picks(s, ready, s', r)
    ensures WellFormed(s')
  {
  }

  /** A pick finds nothing exactly when nothing that is queued is ready. */
  lemma NoneIffNotReady(s: Queues, ready: set<nat>, s': Queues, r: Option<nat>)
    requires WellFormed(s) && Picks(s, ready, s', r)
    ensures r.None? <==> forall p :: 0 <= p < PRIORITIES ==> NoneReady(s.qs[p], ready)
  {
  }

  // ---------------------------------------------------------------------------
  // Entries
  // ---------------------------------------------------------------------------

  /** All entries of the queues. */
  ghost function All(qs: seq<seq<nat>>): multiset<nat>
    requires |qs| == PRIORITIES
  {
    multiset(qs[0]) + multiset(qs[1]) + multiset(qs[2])
  }

  /** The number of entries of thread `t`. */
  ghost function Entries(s: Queues, t: nat): nat {
    if |s.qs| == PRIORITIES then All(s.qs)[t] else 0
  }

  lemma CutEntries(q: seq<nat>, ready: set<nat>, k: nat)
    requires LastReady(q, ready, k)
    ensures multiset(q[..k]) <= multiset(q)
    ensures forall x :: x in ready ==> multiset(q[..k])[x] == multiset(q)[x] - (if x == q[k] then 1 else 0)
  {
    assert q == q[..k] + [q[k]] + q[k + 1..];
    assert multiset(q) == multiset(q[..k]) + multiset{q[k]} + multiset(q[k + 1..]);
    assert forall x :: x in q[k + 1..] ==> x !in ready;
  }

  lemma StaleEntries(q: seq<nat>, ready: set<nat>)
    requires NoneReady(q, ready)
    ensures forall x :: x in ready ==> multiset(q)[x] == 0
  {
    assert forall x :: x in q ==> x !in ready;
  }

  /** A pick takes one entry of the thread it returns, and keeps every other ready entry. */
  lemma PickEntries(s: Queues, ready: set<nat>, s': Queues, r: Option<nat>)
    requires WellFormed(s) && Picks(s, ready, s', r)
    ensures WellFormed(s') && forall x :: Entries(s', x) <= Entries(s, x)
    ensures r.Some? ==> r.value in ready && 0 < Entries(s, r.value)
    ensures forall x :: x in ready ==> Entries(s', x) == Entries(s, x) - (if r == Some(x) then 1 else 0)
  {
    PicksWellFormed(s, ready, s', r);
    if r.Some? {
      PickThreadEntries(s, ready, s', r.value);
    } else {
      forall j | 0 <= j < PRIORITIES { StaleEntries(s.qs[j], ready); }
    }
  }

  lemma PickThreadEntries(s: Queues, ready: set<nat>, s': Queues, t: nat)
    requires WellFormed(s) && PicksThread(s, ready, s', t)
    ensures |s'.qs| == PRIORITIES && All(s'.qs) <= All(s.qs) && t in ready && t in All(s.qs)
    ensures forall x :: x in ready ==> All(s'.qs)[x] == All(s.qs)[x] - (if t == x then 1 else 0)
  {
    hide Quota, NoneReady, Turn, Taken;
    var p := Turn(s, ready);
    TurnIs(s, ready);
    var k: nat :| LastReady(s.qs[p], ready, k) && t == s.qs[p][k] && s'.qs == Taken(s, p, k);
    TakenEntries(s, ready, p, k, 0);
    TakenEntries(s, ready, p, k, 1);
    TakenEntries(s, ready, p, k, 2);
  }

  /** What the turn passes over has no ready thread. */
  lemma TurnIs(s: Queues, ready: set<nat>)
    requires WellFormed(s)
    ensures var p := Turn(s, ready); p < PRIORITIES && forall j :: 0 <= j < PRIORITIES && Passed(s.pri, p, j) ==> NoneReady(s.qs[j], ready)
  {
    hide NoneReady;
  }

  /** One queue, after a pick from position `k` of queue `p`. */
  lemma TakenEntries(s: Queues, ready: set<nat>, p: nat, k: nat, j: nat)
    requires WellFormed(s) && p < PRIORITIES && LastReady(s.qs[p], ready, k) && j < PRIORITIES
    requires Passed(s.pri, p, j) ==> NoneReady(s.qs[j], ready)
    ensures multiset(Taken(s, p, k)[j]) <= multiset(s.qs[j])
    ensures forall x :: x in ready ==> multiset(Taken(s, p, k)[j])[x] == multiset(s.qs[j])[x] - (if x == s.qs[p][k] && j == p then 1 else 0)
    ensures s.qs[p][k] in ready && s.qs[p][k] in multiset(s.qs[p])
  {
    hide NoneReady;
    CutEntries(s.qs[p], ready, k);
    assert s.qs[p][k] in s.qs[p];
    if Passed(s.pri, p, j) {
      StaleEntries(s.qs[j], ready);
    }
  }

  // ---------------------------------------------------------------------------
  // Waiting
  // ---------------------------------------------------------------------------

  /** Thread `t` waits in queue `p` with `k` entries ahead of it. */
  ghost predicate Waits(s: Queues, t: nat, p: nat, k: nat) {
    WellFormed(s) && p < PRIORITIES && k < |s.qs[p]| && s.qs[p][|s.qs[p]| - 1 - k] == t
  }

  /** The picks that the two other queues can take in turn. */
  ghost function Others(p: nat): nat
    requires p < PRIORITIES
  {
    Quota(Next(p)) + Quota(Next(Next(p)))
  }

  /** An upper bound on the picks from other queues before queue `p` has its turn. */
  ghost function Before(s: Queues, p: nat): nat
    requires WellFormed(s) && p < PRIORITIES
  {
    if s.pri == p then 0
    else if s.pri == Next(Next(p)) then Quota(s.pri) - s.counters[s.pri]
    else Quota(s.pri) - s.counters[s.pri] + Quota(Next(s.pri)) - s.counters[Next(s.pri)]
  }

  /** An upper bound on the picks that a thread in queue `p` waits with `k` entries ahead of it. */
  ghost function Patience(s: Queues, p: nat, k: nat): nat
    requires WellFormed(s) && p < PRIORITIES
  {
    k * (Others(p) + 1) + Before(s, p)
  }

  lemma PatienceBound(s: Queues, p: nat, k: nat)
    requires WellFormed(s) && p < PRIORITIES
    ensures Patience(s, p, k) < (k + 1) * (if p == 0 then 13 else if p == 1 then 16 else 18)
  {
    assert (k + 1) * (Others(p) + 1) == k * (Others(p) + 1) + Others(p) + 1;
  }

  /** A pick of another thread brings a ready thread closer. */
  lemma PickCloser(s: Queues, ready: set<nat>, s': Queues, r: Option<nat>, t: nat, p: nat, k: nat) returns (k': nat)
    requires Waits(s, t, p, k) && t in ready && Picks(s, ready, s', r) && r != Some(t)
    ensures r.Some? && Waits(s', t, p, k') && Patience(s', p, k') < Patience(s, p, k)
  {
    hide Before, Patience;
    var i := |s.qs[p]| - 1 - k;
    assert !NoneReady(s.qs[p], ready);
    var u := Turn(s, ready);
    var j: nat :| LastReady(s.qs[u], ready, j) && r.value == s.qs[u][j] && s'.qs == Taken(s, u, j);
    PicksWellFormed(s, ready, s', r);
    assert !Passed(s.pri, u, p);
    if u == p {
      k' := j - 1 - i;
      CloserInTurn(s, s', p, k, k');
    } else {
      assert s'.qs[p] == s.qs[p];
      k' := k;
      CloserOutOfTurn(s, s', p, u, k);
    }
  }

  /** A pick from a queue that comes before `p`. */
  lemma CloserOutOfTurn(s: Queues, s': Queues, p: nat, u: nat, k: nat)
    requires WellFormed(s) && WellFormed(s') && p < PRIORITIES && u < PRIORITIES && u != p && !Passed(s.pri, u, p)
    requires if s.counters[u] + 1 == Quota(u) then s'.counters == s.counters[u := 0] && s'.pri == (u + 1) % 3
             else s'.counters == s.counters[u := s.counters[u] + 1] && s'.pri == u
    ensures Patience(s', p, k) < Patience(s, p, k)
  {
  }

  lemma CloserInTurn(s: Queues, s': Queues, p: nat, k: nat, k': nat)
    requires WellFormed(s) && WellFormed(s') && p < PRIORITIES && k' < k
    ensures Before(s', p) <= Others(p) && Patience(s', p, k') <= Patience(s, p, k) - (Others(p) + 1) + Before(s', p)
  {
    var w := Others(p) + 1;
    assert (k' + 1) * w <= k * w;
    assert (k' + 1) * w == k' * w + w;
  }

  /** Fewer entries ahead, and the turns as they were. */
  lemma NoFurther(s: Queues, s': Queues, p: nat, k: nat, k': nat)
    requires WellFormed(s) && WellFormed(s') && p < PRIORITIES && k' <= k && s'.counters == s.counters && s'.pri == s.pri
    ensures Patience(s', p, k') <= Patience(s, p, k)
  {
    var w := Others(p) + 1;
    assert k' * w <= k * w;
  }

  // ---------------------------------------------------------------------------
  // Entering and leaving
  // ---------------------------------------------------------------------------

  /** Thread `t` at the front of queue `p`. */
  ghost function Entered(s: Queues, t: nat, p: nat): Queues
    requires WellFormed(s) && p < PRIORITIES
  {
    s.(qs := s.qs[p := [t] + s.qs[p]])
  }

  /** Thread `t` enters unless it has an entry. */
  ghost function Admitted(s: Queues, t: nat, p: nat): Queues
    requires WellFormed(s) && p < PRIORITIES
  {
    if 0 < Entries(s, t) then s else Entered(s, t, p)
  }

  /** At most one thread has entered a queue. */
  ghost predicate Joins(s: Queues, s': Queues)
    requires WellFormed(s)
  {
    s' == s || exists t: nat, p: nat :: p < PRIORITIES && s' == Entered(s, t, p)
  }

  lemma EnteredEntries(s: Queues, t: nat, p: nat)
    requires WellFormed(s) && p < PRIORITIES
    ensures WellFormed(Entered(s, t, p))
    ensures forall x :: Entries(Entered(s, t, p), x) == Entries(s, x) + (if x == t then 1 else 0)
    ensures forall u, j, k :: Waits(s, u, j, k) ==> Waits(Entered(s, t, p), u, j, k)
  {
  }

  lemma AdmittedEntries(q: Queues, t: nat, p: nat)
    requires WellFormed(q) && p < PRIORITIES
    ensures var q' := Admitted(q, t, p); WellFormed(q') && 0 < Entries(q', t) && forall x :: x != t ==> Entries(q', x) == Entries(q, x)
  {
    hide Entries;
    if Entries(q, t) == 0 {
      EnteredEntries(q, t, p);
    }
  }

  ghost function Without(q: seq<nat>, t: nat): seq<nat> {
    if q == [] then [] else Without(q[..|q| - 1], t) + (if q[|q| - 1] == t then [] else [q[|q| - 1]])
  }

  ghost function Left(s: Queues, t: nat): Queues
    requires WellFormed(s)
  {
    s.(qs := [Without(s.qs[0], t), Without(s.qs[1], t), Without(s.qs[2], t)])
  }

  lemma {:induction false} WithoutEntries(q: seq<nat>, t: nat)
    ensures multiset(Without(q, t)) == multiset(q)[t := 0]
  {
    if q != [] {
      WithoutEntries(q[..|q| - 1], t);
      assert q == q[..|q| - 1] + [q[|q| - 1]];
    }
  }

  lemma LeftEntries(s: Queues, t: nat)
    requires WellFormed(s)
    ensures WellFormed(Left(s, t)) && forall x :: Entries(Left(s, t), x) == if x == t then 0 else Entries(s, x)
  {
    WithoutEntries(s.qs[0], t);
    WithoutEntries(s.qs[1], t);
    WithoutEntries(s.qs[2], t);
  }

  /** When another thread leaves, those behind it move up. */
  lemma {:induction false} MoveUp(q: seq<nat>, t: nat, u: nat, k: nat) returns (k': nat)
    requires k < |q| && q[|q| - 1 - k] == u && u != t
    ensures k' <= k && k' < |Without(q, t)| && Without(q, t)[|Without(q, t)| - 1 - k'] == u
  {
    var rest := q[..|q| - 1];
    if k == 0 {
      k' := 0;
    } else {
      k' := MoveUp(rest, t, u, k - 1);
      if q[|q| - 1] != t {
        k' := k' + 1;
      }
    }
  }

  lemma LeftCloser(s: Queues, t: nat, u: nat, p: nat, k: nat) returns (k': nat)
    requires Waits(s, u, p, k) && u != t
    ensures k' <= k && Waits(Left(s, t), u, p, k')
  {
    k' := MoveUp(s.qs[p], t, u, k);
    assert Left(s, t).qs[p] == Without(s.qs[p], t);
  }
}
