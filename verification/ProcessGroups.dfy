/** Process groups (`kernel/scheduler/process.c`): an index from group number to members, kept beside the `pgid` of each
process. */
module ProcessGroups {
  import opened Common
  import opened HashMaps

  /** `refcount` counts the members. */
  datatype Group = Group(pgid: int, pids: seq<int>, refcount: int)

  // ---------------------------------------------------------------------------
  // Group numbers as keys
  // ---------------------------------------------------------------------------

  const HALF: int := 0x8000_0000

  /** The values of `pid_t`. */
  predicate Fits32(n: int) {
    -HALF <= n < HALF
  }

  /** `HASHMAP_KEY_FROM_INT`: the four bytes of the number, in two's complement. */
  function KeyOf(n: int): Key {
    Key(IntKey, [n % 256, n / 256 % 256, n / 65536 % 256, n / 16777216 % 256])
  }

  ghost function NumberOf(bytes: seq<int>): int
    requires |bytes| == 4
  {
    var w := bytes[0] + 256 * bytes[1] + 65536 * bytes[2] + 16777216 * bytes[3];
    if w < HALF then w else w - 2 * HALF
  }

  /** The bytes of a number give it back, so that different groups have different keys. */
  lemma KeyBack(n: int)
    requires Fits32(n)
    ensures NumberOf(KeyOf(n).bytes) == n
  {
    var w := n % 256 + 256 * (n / 256 % 256) + 65536 * (n / 65536 % 256) + 16777216 * (n / 16777216 % 256);
    assert n == n % 256 + 256 * (n / 256);
    assert n / 256 == n / 256 % 256 + 256 * (n / 65536);
    assert n / 65536 == n / 65536 % 256 + 256 * (n / 16777216);
    assert -128 <= n / 16777216 < 128;
    assert w == if 0 <= n then n else n + 2 * HALF;
  }

  lemma KeysDiffer(m: int, n: int)
    requires Fits32(m) && Fits32(n)
    ensures KeyOf(m) == KeyOf(n) <==> m == n
  {
    KeyBack(m);
    KeyBack(n);
  }

  // ---------------------------------------------------------------------------
  // The index
  // ---------------------------------------------------------------------------

  /** A group is not empty and counts its members, which are the processes of its number. */
  ghost predicate GroupOk(g: Group, members: map<int, int>) {
    && Fits32(g.pgid) && g.pids != [] && NoDup(g.pids) && g.refcount == |g.pids|
    && forall p :: p in g.pids <==> p in members && members[p] == g.pgid
  }

  /** The index is the inverse of `members`. */
  ghost predicate Indexed(model: map<Key, Group>, members: map<int, int>) {
    && (forall k :: k in model ==> k == KeyOf(model[k].pgid) && GroupOk(model[k], members))
    && (forall p :: p in members ==> Fits32(members[p]) && KeyOf(members[p]) in model && model[KeyOf(members[p])].pgid == members[p])
  }

  datatype Err = Success | NoSuchProcess | Again

  /** The processes, with the `pgid` of each.  Those in `stray` are in no group: memory ran out when they should have
      joined one. */
  class Groups {
    const index: HashMap<Group>
    var pgids: map<int, int>
    ghost var stray: set<int>

    ghost predicate Valid()
      reads this, index
    {
      && index.Valid() && Indexed(index.model, pgids - stray) && stray <= pgids.Keys
      && forall p :: p in pgids ==> Fits32(p) && Fits32(pgids[p])
    }

    /** `processes_init`, before init itself is created. */
    constructor ()
      ensures Valid() && fresh(index) && pgids == map[] && stray == {}
    {
      index := new HashMap<Group>(16);
      pgids, stray := map[], {};
    }

    /** `add_to_pgrp`: fails iff there is no such process, or its group is new and there is no room for it. */
    method Join(pid: int, room: bool) returns (ok: bool)
      requires Valid()
      modifies this`stray, index
      ensures Valid() && ok == (pid in pgids && (room || KeyOf(pgids[pid]) in old(index.model)))
      ensures stray == if ok then old(stray) - {pid} else old(stray)
      ensures !ok ==> index.model == old(index.model)
    {
      hide KeyOf, GroupOk, Indexed, HashMap.Valid, Fits32;
      if pid !in pgids {
        return false;
      }
      var pgid := pgids[pid];
      var found, g := index.Get(KeyOf(pgid), Group(pgid, [], 0));
      MemberFacts(index.model, pgids - stray, pid, pgid);
      if !found {
        ok := index.Put(KeyOf(pgid), g, room);
        if !ok {
          return;
        }
      }
      for i := 0 to |g.pids|
        invariant pid !in g.pids[..i]
      {
        if g.pids[i] == pid {
          return true;
        }
      }
      var g' := g.(pids := g.pids + [pid], refcount := g.refcount + 1);
      Joined(old(index.model), pgids - stray, pid, pgid, g');
      index.Change(KeyOf(pgid), g');
      assert old(index.model)[KeyOf(pgid) := g][KeyOf(pgid) := g'] == old(index.model)[KeyOf(pgid) := g'];
      assert (pgids - stray)[pid := pgid] == pgids - (stray - {pid});
      stray := stray - {pid};
      ok := true;
    }

    /** `remove_from_pgrp`: an empty group goes. */
    method Quit(pid: int)
      requires Valid()
      modifies this`stray, index
      ensures Valid() && stray == if pid in pgids then old(stray) + {pid} else old(stray)
      ensures forall n :: Fits32(n) ==> (KeyOf(n) in index.model <==> exists p :: p in pgids - old(stray) && p != pid && pgids[p] == n)
    {
      hide KeyOf, GroupOk, Indexed, HashMap.Valid, Fits32;
      Groupless(pid);
      if pid in pgids {
        var pgid := pgids[pid];
        var found, g := index.Get(KeyOf(pgid), Group(pgid, [], 0));
        if found {
          GroupFacts(index.model, pgids - stray, pid, pgid);
          var i := 0;
          while i < |g.pids| && g.pids[i] != pid
            invariant i <= |g.pids| && pid !in g.pids[..i]
          {
            i := i + 1;
          }
          var g' := g;
          if i < |g.pids| {
            g' := g.(pids := g.pids[..i] + g.pids[i + 1..], refcount := g.refcount - 1);
            Left(index.model, pgids - stray, pid, i, g');
            index.Change(KeyOf(pgid), g');
          }
          if g'.refcount <= 0 {
            assert old(index.model)[KeyOf(pgid) := g'] - {KeyOf(pgid)} == old(index.model) - {KeyOf(pgid)};
            var gone := index.Remove(KeyOf(pgid));
          }
        }
        assert (pgids - stray) - {pid} == pgids - (stray + {pid});
        stray := stray + {pid};
      }
      Inhabited(index.model, pgids - stray);
      assert forall p :: p in pgids - stray <==> p in pgids - old(stray) && p != pid;
    }

    /** A process that no group lists is stray. */
    lemma Groupless(pid: int)
      requires Valid()
      ensures pid in pgids && KeyOf(pgids[pid]) !in index.model ==> pid in stray && (pgids - stray) - {pid} == pgids - stray
      ensures pid in pgids && pid in stray ==> (pgids - stray) - {pid} == pgids - stray
    {
      hide KeyOf, GroupOk, HashMap.Valid;
      assert pid in pgids && pid !in stray ==> pid in pgids - stray && (pgids - stray)[pid] == pgids[pid];
    }

    /** The end of `proc_create`, in free slot `pid`: the group is that of the parent, or else a new one. */
    method Create(pid: int, ppid: int, room: bool) returns (ok: bool)
      requires Valid() && pid !in pgids && Fits32(pid)
      modifies this, index
      ensures Valid()
      ensures pgids == old(pgids)[pid := if ppid in old(pgids) then old(pgids)[ppid] else pid]
      ensures stray == if ok then old(stray) else old(stray) + {pid}
      ensures ok <==> room || old(OthersIn(if ppid in pgids then pgids[ppid] else pid, pid))
    {
      hide KeyOf, GroupOk, Indexed, HashMap.Valid;
      var pgid := if ppid in pgids then pgids[ppid] else pid;
      Inhabited(index.model, pgids - stray);
      assert pgids[pid := pgid] - (stray + {pid}) == pgids - stray;
      pgids, stray := pgids[pid := pgid], stray + {pid};
      ok := Join(pid, room);
    }

    /** `proc_destroy`, for the groups. */
    method Destroy(pid: int)
      requires Valid() && pid in pgids
      modifies this, index
      ensures Valid() && pgids == old(pgids) - {pid} && stray == old(stray) - {pid}
    {
      hide KeyOf, GroupOk, Indexed, HashMap.Valid, Fits32;
      Quit(pid);
      assert (pgids - {pid}) - (stray - {pid}) == pgids - stray;
      assert old(stray) - {pid} == stray - {pid};
      pgids, stray := pgids - {pid}, stray - {pid};
    }

    /** Some other process is in group `n`. */
    ghost predicate OthersIn(n: int, pid: int)
      reads this
    {
      exists p :: p in pgids - stray && p != pid && pgids[p] == n
    }

    /** `setpgrp` by process `self`: leave one group and join another; on failure, back to the old one.  Fails iff there
        is no such process, or the group is new and there is no room for it.  If there is no room for the old group
        either, and it was empty, the process is in no group. */
    method SetGroup(self: int, pid: int, pgid: int, room: bool, roomBack: bool) returns (err: Err)
      requires Valid() && Fits32(pgid)
      modifies this, index
      ensures Valid()
      ensures var who := if pid == 0 then self else pid;
              var to := if pgid == 0 then who else pgid;
              && (err == NoSuchProcess <==> who !in old(pgids))
              && (err == Again <==> who in old(pgids) && old(pgids)[who] != to && !room && !old(OthersIn(to, who)))
              && (err == Success ==> pgids == old(pgids)[who := to])
              && (err != Success ==> pgids == old(pgids))
              && (err == Success && old(pgids)[who] != to ==> stray == old(stray) - {who})
              && (err == NoSuchProcess || (err == Success && old(pgids)[who] == to) ==> stray == old(stray))
              && (err == Again ==> stray == if roomBack || old(OthersIn(pgids[who], who)) then old(stray) - {who} else old(stray) + {who})
    {
      hide KeyOf, GroupOk, Indexed, HashMap.Valid;
      var who := if pid == 0 then self else pid;
      if who !in pgids {
        return NoSuchProcess;
      }
      var to := if pgid == 0 then who else pgid;
      if pgids[who] == to {
        assert pgids[who := to] == pgids;
        return Success;
      }
      var before := pgids[who];
      Quit(who);
      Moved(pgids, stray, who, to);
      pgids := pgids[who := to];
      var ok := Join(who, room);
      err := Success;
      if !ok {
        Moved(pgids, stray, who, before);
        pgids := pgids[who := before];
        assert pgids == old(pgids);
        ok := Join(who, roomBack);
        err := Again;
      }
    }
  }

  /** The number of a stray process does not matter. */
  lemma Moved(pgids: map<int, int>, stray: set<int>, p: int, n: int)
    requires p in stray
    ensures pgids[p := n] - stray == pgids - stray
  {
  }

  lemma MemberFacts(model: map<Key, Group>, members: map<int, int>, pid: int, pgid: int)
    requires Indexed(model, members) && Fits32(pgid) && (pid in members ==> members[pid] == pgid)
    ensures KeyOf(pgid) in model ==> model[KeyOf(pgid)].pgid == pgid && (pid in model[KeyOf(pgid)].pids <==> pid in members)
    ensures KeyOf(pgid) !in model ==> pid !in members
  {
    if KeyOf(pgid) in model {
      KeysDiffer(pgid, model[KeyOf(pgid)].pgid);
    }
  }

  lemma GroupFacts(model: map<Key, Group>, members: map<int, int>, pid: int, pgid: int)
    requires Indexed(model, members) && KeyOf(pgid) in model && Fits32(pgid) && (pid in members ==> members[pid] == pgid)
    ensures var g := model[KeyOf(pgid)]; g.pgid == pgid && 0 < g.refcount == |g.pids| && (pid in g.pids <==> pid in members)
    ensures pid !in members ==> members - {pid} == members
  {
    hide KeyOf;
    MemberFacts(model, members, pid, pgid);
  }

  /** The groups are those that some member is in. */
  lemma Inhabited(model: map<Key, Group>, members: map<int, int>)
    requires Indexed(model, members)
    ensures forall n :: Fits32(n) ==> (KeyOf(n) in model <==> exists p :: p in members && members[p] == n)
  {
    hide KeyOf;
    forall n | Fits32(n) && KeyOf(n) in model
      ensures exists p :: p in members && members[p] == n
    {
      var g := model[KeyOf(n)];
      KeysDiffer(n, g.pgid);
      var p := g.pids[0];
      assert p in g.pids && members[p] == n;
    }
  }

  lemma Joined(model: map<Key, Group>, members: map<int, int>, pid: int, pgid: int, g': Group)
    requires Indexed(model, members) && pid !in members && Fits32(pgid)
    requires var k := KeyOf(pgid);
             if k in model then g' == Group(pgid, model[k].pids + [pid], model[k].refcount + 1) else g' == Group(pgid, [pid], 1)
    ensures Indexed(model[KeyOf(pgid) := g'], members[pid := pgid])
  {
    hide KeyOf, Fits32;
    var k := KeyOf(pgid);
    MemberFacts(model, members, pid, pgid);
    forall q | q in members ensures KeyOf(members[q]) == k <==> members[q] == pgid { KeysDiffer(members[q], pgid); }
    assert forall j :: j in model && j != k ==> model[j].pgid != pgid;
    var model', members' := model[k := g'], members[pid := pgid];
    assert GroupOk(g', members') by {
      if k !in model {
        assert forall q :: q in members ==> members[q] != pgid;
      }
    }
    forall j | j in model && j != k ensures GroupOk(model[j], members') {}
  }

  lemma Left(model: map<Key, Group>, members: map<int, int>, pid: int, i: nat, g': Group)
    requires Indexed(model, members) && pid in members && KeyOf(members[pid]) in model
    requires var g := model[KeyOf(members[pid])];
             i < |g.pids| && g.pids[i] == pid && g' == Group(g.pgid, g.pids[..i] + g.pids[i + 1..], g.refcount - 1)
    ensures if g'.refcount <= 0 then Indexed(model - {KeyOf(members[pid])}, members - {pid})
            else Indexed(model[KeyOf(members[pid]) := g'], members - {pid})
  {
    hide KeyOf, Fits32;
    var k, pgid := KeyOf(members[pid]), members[pid];
    var g := model[k];
    forall q | q in members ensures KeyOf(members[q]) == k <==> members[q] == pgid { KeysDiffer(members[q], pgid); }
    assert forall j :: j in model && j != k ==> model[j].pgid != pgid;
    Shorter(g.pids, pid, i, g'.pids);
    var members' := members - {pid};
    assert forall j :: j in model && j != k ==> GroupOk(model[j], members');
    assert 0 < g'.refcount ==> GroupOk(g', members');
    assert g'.refcount <= 0 ==> forall q :: q in members' ==> members'[q] != pgid;
  }

  lemma Shorter(pids: seq<int>, pid: int, i: nat, pids': seq<int>)
    requires NoDup(pids) && i < |pids| && pids[i] == pid && pids' == pids[..i] + pids[i + 1..]
    ensures NoDup(pids') && forall p :: p in pids' <==> p in pids && p != pid
  {
    forall p ensures p in pids' <==> p in pids && p != pid {
      if p in pids && p != pid {
        var x :| 0 <= x < |pids| && pids[x] == p;
        assert pids'[if x < i then x else x - 1] == p;
      }
    }
  }

  // ---------------------------------------------------------------------------
  // Runs
  // ---------------------------------------------------------------------------

  /** `room` says for each attempt to make a group whether memory can be had. */
  datatype Op =
    | Spawn(pid: int, ppid: int, room: bool)
    | Reap(pid: int)
    | Regroup(self: int, pid: int, pgid: int, room: bool, roomBack: bool)

  datatype Snap = Snap(pgids: map<int, int>, stray: set<int>)

  /** Some process other than `pid` is in group `n`. */
  ghost predicate Peopled(s: Snap, n: int, pid: int) {
    exists p :: p in s.pgids - s.stray && p != pid && s.pgids[p] == n
  }

  /** What an operation does; where it does not apply, nothing. */
  ghost predicate Step(s: Snap, op: Op, t: Snap) {
    match op
    case Spawn(pid, ppid, room) =>
      if pid !in s.pgids && Fits32(pid) then
        var n := if ppid in s.pgids then s.pgids[ppid] else pid;
        t == Snap(s.pgids[pid := n], if room || Peopled(s, n, pid) then s.stray else s.stray + {pid})
      else t == s
    case Reap(pid) => t == Snap(s.pgids - {pid}, s.stray - {pid})
    case Regroup(self, pid, pgid, room, roomBack) =>
      var who := if pid == 0 then self else pid;
      var to := if pgid == 0 then who else pgid;
      if !Fits32(pgid) || who !in s.pgids || s.pgids[who] == to then t == s
      else if room || Peopled(s, to, who) then t == Snap(s.pgids[who := to], s.stray - {who})
      else t == Snap(s.pgids, if roomBack || Peopled(s, s.pgids[who], who) then s.stray - {who} else s.stray + {who})
  }

  /** The index is the inverse of `pgid`, the strays aside. */
  ghost predicate Sound(s: Snap, model: map<Key, Group>) {
    Indexed(model, s.pgids - s.stray) && s.stray <= s.pgids.Keys
  }

  ghost predicate Trace(states: seq<Snap>, models: seq<map<Key, Group>>, ops: seq<Op>) {
    && |states| == |models| == |ops| + 1
    && (forall i :: 0 <= i <= |ops| ==> Sound(states[i], models[i]))
    && (forall i :: 0 <= i < |ops| ==> Step(states[i], ops[i], states[i + 1]))
  }

  ghost function Now(gs: Groups): Snap
    reads gs
  {
    Snap(gs.pgids, gs.stray)
  }

  /** Any operation, where it applies. */
  method Perform(gs: Groups, op: Op)
    requires gs.Valid()
    modifies gs, gs.index
    ensures gs.Valid() && Step(old(Now(gs)), op, Now(gs))
  {
    hide KeyOf, GroupOk, Indexed, HashMap.Valid;
    match op
    case Spawn(pid, ppid, room) =>
      if pid !in gs.pgids && Fits32(pid) {
        var ok := gs.Create(pid, ppid, room);
      }
    case Reap(pid) =>
      if pid in gs.pgids {
        gs.Destroy(pid);
      }
    case Regroup(self, pid, pgid, room, roomBack) =>
      if Fits32(pgid) {
        var err := gs.SetGroup(self, pid, pgid, room, roomBack);
      }
  }

  /** After every step of every run the index is the exact inverse of `pgid`, the strays aside. */
  method RunAll(gs: Groups, ops: seq<Op>) returns (ghost states: seq<Snap>, ghost models: seq<map<Key, Group>>)
    requires gs.Valid()
    modifies gs, gs.index
    ensures gs.Valid() && Trace(states, models, ops)
    ensures states[0] == old(Now(gs)) && states[|ops|] == Now(gs) && models[|ops|] == gs.index.model
  {
    hide KeyOf, Indexed, HashMap.Valid, Step;
    states, models := [Now(gs)], [gs.index.model];
    for k := 0 to |ops|
      invariant gs.Valid() && Trace(states, models, ops[..k])
      invariant states[0] == old(Now(gs)) && states[k] == Now(gs) && models[k] == gs.index.model
    {
      Perform(gs, ops[k]);
      states, models := states + [Now(gs)], models + [gs.index.model];
    }
    assert ops[..|ops|] == ops;
  }

  /** Memory can be had whenever a new group is to be made. */
  ghost predicate Roomy(ops: seq<Op>) {
    forall i :: 0 <= i < |ops| ==> ops[i].Reap? || ops[i].room
  }

  /** While memory can be had, no process is stray. */
  lemma {:induction false} NoneStray(states: seq<Snap>, models: seq<map<Key, Group>>, ops: seq<Op>, n: nat)
    requires Trace(states, models, ops) && Roomy(ops) && states[0].stray == {} && n <= |ops|
    ensures states[n].stray == {} && Indexed(models[n], states[n].pgids)
  {
    hide Indexed;
    if n > 0 {
      NoneStray(states, models, ops, n - 1);
      assert Step(states[n - 1], ops[n - 1], states[n]);
    }
    assert Sound(states[n], models[n]);
    assert states[n].pgids - {} == states[n].pgids;
  }

  /** When memory runs out: a process alone in its group asks for a new one, and ends up in none. */
  method Stranded() returns (gs: Groups)
    ensures gs.Valid() && gs.pgids == map[5 := 5] && gs.stray == {5} && gs.index.model == map[]
  {
    hide KeyOf, GroupOk, Indexed, HashMap.Valid;
    gs := new Groups();
    var ok := gs.Create(5, 0, true);
    var err := gs.SetGroup(5, 5, 6, false, false);
    assert gs.pgids - gs.stray == map[];
    Unpeopled(gs.index.model, gs.pgids - gs.stray);
  }

  lemma Unpeopled(model: map<Key, Group>, members: map<int, int>)
    requires Indexed(model, members)
    ensures members == map[] ==> model == map[]
  {
    hide KeyOf;
    forall k | k in model ensures model[k].pids[0] in members {
      var g := model[k];
      var p := g.pids[0];
      assert p in g.pids && p in members;
    }
  }

  /** A process is in the group of its number and in no other, once, unless it is stray; and no group is empty. */
  lemma InOneGroup(gs: Groups, p: int, k: Key)
    requires gs.Valid() && p in gs.pgids && k in gs.index.model
    ensures p in gs.index.model[k].pids <==> k == KeyOf(gs.pgids[p]) && p !in gs.stray
    ensures gs.index.model[k].pids != [] && NoDup(gs.index.model[k].pids) && gs.index.model[k].refcount == |gs.index.model[k].pids|
    ensures p !in gs.stray ==> KeyOf(gs.pgids[p]) in gs.index.model
  {
    hide HashMap.Valid, KeyOf, Fits32;
    KeysDiffer(gs.pgids[p], gs.index.model[k].pgid);
  }
}
