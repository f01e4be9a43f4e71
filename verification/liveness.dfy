/** The second half of one polling iteration: the liveness sweep. Each type's
    id set is visited through a snapshot taken when the sweep reaches it; an id
    whose heartbeat is too old is reported failed, unregistered and dropped,
    and if it was its type's main the next id of the snapshot takes over. */
module Liveness {
  import opened Wrappers
  import opened ParticipantTypes
  import opened ManagerState

  /** The snapshot of one type's id set, in the order the sweep visits it. The
      source iterates a hash set, whose order is unspecified, so the order is
      an input. */
  datatype Snapshot = Snapshot(t: ParticipantType, ids: seq<int>)

  /** The tables after a sweep, the failure events it fired and the ids it
      unregistered from the bus, in order. */
  datatype Swept = Swept(state: State, failures: seq<Failure>, unregistered: seq<int>)

  /** The last heartbeat of `id` is strictly more than `ExpireTime` before `now`. */
  predicate Expired(beats: map<int, int>, id: int, now: int) {
    id in beats && now - beats[id] > ExpireTime
  }

  ghost predicate Distinct(ids: seq<int>) {
    forall i, j :: 0 <= i < j < |ids| ==> ids[i] != ids[j]
  }

  /** `ids` lists the elements of `members`, each once. */
  ghost predicate Enumerates(ids: seq<int>, members: set<int>) {
    Distinct(ids) && forall x :: x in ids <==> x in members
  }

  /** Sweeps the snapshot `ids` of type `t` from position `i` on. */
  function SweepType(s: State, t: ParticipantType, ids: seq<int>, i: nat, now: int): (r: Result<Swept, Fault>)
    requires t in s.members && i <= |ids|
    ensures r.Ok? ==> && r.value.state.members.Keys == s.members.Keys
                      && r.value.state.mains.Keys == s.mains.Keys
                      && r.value.state.ready == s.ready
    decreases |ids| - i
  {
    if i == |ids| then Ok(Swept(s, [], []))
    else
      var id := ids[i];
      if id !in s.lastBeat then Err(NoHeartbeatFor(id))
      else if now - s.lastBeat[id] <= ExpireTime then SweepType(s, t, ids, i + 1, now)
      else if t !in s.mains then Err(NoMainFor(t))
      else
        var failure := Failure(t, id, |s.members[t]| <= 1);
        var rest :- SweepType(Evict(s, t, ids, i), t, ids, i + 1, now);
        Ok(Swept(rest.state, [failure] + rest.failures, [id] + rest.unregistered))
  }

  /** Drops the id at snapshot position `i` from its type's set and from the
      heartbeat table; if it was the type's main and is not the last of the
      snapshot, the next id of the snapshot becomes main. */
  function Evict(s: State, t: ParticipantType, ids: seq<int>, i: nat): (r: State)
    requires t in s.members && t in s.mains && i < |ids|
    ensures r.members.Keys == s.members.Keys && r.mains.Keys == s.mains.Keys && r.ready == s.ready
    ensures r.members[t] == s.members[t] - {ids[i]} && ids[i] !in r.lastBeat
    ensures forall u :: u in s.members && u != t ==> r.members[u] == s.members[u]
    ensures r.mains[t] == if s.mains[t] == ids[i] && i + 1 < |ids| then ids[i + 1] else s.mains[t]
    ensures forall u :: u in s.mains && u != t ==> r.mains[u] == s.mains[u]
  {
    var id := ids[i];
    var mains := if s.mains[t] == id && i < |ids| - 1 then s.mains[t := ids[i + 1]] else s.mains;
    s.(members := s.members[t := s.members[t] - {id}],
       lastBeat := s.lastBeat - {id},
       mains := mains)
  }

  /** Sweeps the types in the order of `plan`. */
  function SweepAll(s: State, plan: seq<Snapshot>, now: int): (r: Result<Swept, Fault>)
    requires forall k :: 0 <= k < |plan| ==> plan[k].t in s.members
    ensures r.Ok? ==> && r.value.state.members.Keys == s.members.Keys
                      && r.value.state.mains.Keys == s.mains.Keys
                      && r.value.state.ready == s.ready
    decreases |plan|
  {
    if plan == [] then Ok(Swept(s, [], []))
    else
      var first :- SweepType(s, plan[0].t, plan[0].ids, 0, now);
      var rest :- SweepAll(first.state, plan[1..], now);
      Ok(Swept(rest.state, first.failures + rest.failures, first.unregistered + rest.unregistered))
  }

  // ---------------------------------------------------------------------------
  // Reference definitions

  /** The expired ids of `ids`, in order. */
  function ExpiredOf(ids: seq<int>, beats: map<int, int>, now: int): (r: seq<int>)
    ensures forall x :: x in r <==> x in ids && Expired(beats, x, now)
    ensures |r| <= |ids|
  {
    if ids == [] then []
    else (if Expired(beats, ids[0], now) then [ids[0]] else []) + ExpiredOf(ids[1..], beats, now)
  }

  /** The failure events of a type with `size` members whose ids `gone` expire
      in that order: the k-th reports being the last iff at most one member is
      left when it goes. */
  ghost function ExpectedFailures(t: ParticipantType, gone: seq<int>, size: int): seq<Failure> {
    seq(|gone|, k requires 0 <= k < |gone| => Failure(t, gone[k], size - k <= 1))
  }

  /** The failure events of a whole sweep, type after type. */
  ghost function PlanFailures(plan: seq<Snapshot>, members: map<ParticipantType, set<int>>, beats: map<int, int>, now: int): seq<Failure>
    requires forall k :: 0 <= k < |plan| ==> plan[k].t in members
    decreases |plan|
  {
    if plan == [] then []
    else ExpectedFailures(plan[0].t, ExpiredOf(plan[0].ids, beats, now), |members[plan[0].t]|)
         + PlanFailures(plan[1..], members, beats, now)
  }

  /** Where a main at position `p` of the snapshot ends up: the first position
      from `p` on whose id survives, or the last position if none does. */
  function Successor(ids: seq<int>, p: nat, beats: map<int, int>, now: int): (q: nat)
    requires p < |ids|
    ensures p <= q < |ids|
    ensures forall j :: p <= j < q ==> Expired(beats, ids[j], now)
    ensures q == |ids| - 1 || !Expired(beats, ids[q], now)
    decreases |ids| - p
  {
    if p == |ids| - 1 || !Expired(beats, ids[p], now) then p
    else Successor(ids, p + 1, beats, now)
  }

  /** Peeling the first expired id off the expected events. */
  lemma ExpectedFailuresCons(t: ParticipantType, id: int, rest: seq<int>, size: int)
    ensures ExpectedFailures(t, [id] + rest, size)
         == [Failure(t, id, size <= 1)] + ExpectedFailures(t, rest, size - 1)
  {
    var e := ExpectedFailures(t, [id] + rest, size);
    var e1 := ExpectedFailures(t, rest, size - 1);
    forall k | 1 <= k < |e|
      ensures e[k] == e1[k - 1]
    {
    }
  }

  // ---------------------------------------------------------------------------
  // One type

  /** What the sweep of one type needs from the state at position `i`: the
      remaining snapshot ids are distinct members with the heartbeats `beats`,
      and the type has a main if anything is left to visit. */
  ghost predicate SweepPre(s: State, t: ParticipantType, ids: seq<int>, i: nat, beats: map<int, int>) {
    && t in s.members && i <= |ids| && Distinct(ids)
    && (forall j :: i <= j < |ids| ==> && ids[j] in s.members[t]
                                       && ids[j] in s.lastBeat && ids[j] in beats
                                       && s.lastBeat[ids[j]] == beats[ids[j]])
    && (i < |ids| ==> t in s.mains)
  }

  /** Evicting the id at position `i` keeps the sweep's precondition for the
      rest of the snapshot and shrinks the type's set by exactly that id. */
  lemma EvictPre(s: State, t: ParticipantType, ids: seq<int>, i: nat, beats: map<int, int>)
    requires SweepPre(s, t, ids, i, beats) && i < |ids|
    ensures SweepPre(Evict(s, t, ids, i), t, ids, i + 1, beats)
    ensures Evict(s, t, ids, i).members[t] == s.members[t] - {ids[i]}
    ensures |Evict(s, t, ids, i).members[t]| == |s.members[t]| - 1
  {
  }

  /** The sweep of one type cannot fault. */
  lemma {:induction false} SweepTypeOk(s: State, t: ParticipantType, ids: seq<int>, i: nat, beats: map<int, int>, now: int)
    requires SweepPre(s, t, ids, i, beats)
    ensures SweepType(s, t, ids, i, now).Ok?
    decreases |ids| - i
  {
    if i < |ids| {
      if now - s.lastBeat[ids[i]] <= ExpireTime {
        SweepTypeOk(s, t, ids, i + 1, beats, now);
      } else {
        EvictPre(s, t, ids, i, beats);
        SweepTypeOk(Evict(s, t, ids, i), t, ids, i + 1, beats, now);
      }
    }
  }

  /** One visit of the sweep of a type, live case: the id is skipped. */
  lemma SweepTypeSkip(s: State, t: ParticipantType, ids: seq<int>, i: nat, beats: map<int, int>, now: int)
    requires SweepPre(s, t, ids, i, beats) && i < |ids| && !Expired(beats, ids[i], now)
    ensures SweepPre(s, t, ids, i + 1, beats)
    ensures ExpiredOf(ids[i..], beats, now) == ExpiredOf(ids[i + 1..], beats, now)
    ensures SweepType(s, t, ids, i, now) == SweepType(s, t, ids, i + 1, now)
  {
    assert ids[i..] == [ids[i]] + ids[i + 1..];
    assert ids[i..][1..] == ids[i + 1..];
  }

  /** One visit of the sweep of a type, expired case: the id yields its
      failure event and its unregistration ahead of the rest of the sweep,
      which runs on the state with the id removed from its set. */
  lemma SweepTypeEvict(s: State, t: ParticipantType, ids: seq<int>, i: nat, beats: map<int, int>, now: int)
    requires SweepPre(s, t, ids, i, beats) && i < |ids| && Expired(beats, ids[i], now)
    ensures SweepPre(Evict(s, t, ids, i), t, ids, i + 1, beats)
    ensures Evict(s, t, ids, i).members[t] == s.members[t] - {ids[i]}
    ensures |Evict(s, t, ids, i).members[t]| == |s.members[t]| - 1
    ensures forall u :: u in s.members && u != t ==> Evict(s, t, ids, i).members[u] == s.members[u]
    ensures forall u :: u in s.mains && u != t ==> Evict(s, t, ids, i).mains[u] == s.mains[u]
    ensures ExpiredOf(ids[i..], beats, now) == [ids[i]] + ExpiredOf(ids[i + 1..], beats, now)
    ensures SweepType(Evict(s, t, ids, i), t, ids, i + 1, now).Ok? ==>
      var rest := SweepType(Evict(s, t, ids, i), t, ids, i + 1, now).value;
      SweepType(s, t, ids, i, now)
        == Ok(Swept(rest.state, [Failure(t, ids[i], |s.members[t]| <= 1)] + rest.failures, [ids[i]] + rest.unregistered))
  {
    assert ids[i..] == [ids[i]] + ids[i + 1..];
    assert ids[i..][1..] == ids[i + 1..];
    EvictPre(s, t, ids, i, beats);
  }

  /** The sweep of one type removes exactly the expired ids
      from the type's set, unregisters them in snapshot order, and leaves the
      other types' sets and mains alone. */
  lemma {:induction false} SweepTypeFrame(s: State, t: ParticipantType, ids: seq<int>, i: nat, beats: map<int, int>, now: int)
    requires SweepPre(s, t, ids, i, beats)
    ensures SweepType(s, t, ids, i, now).Ok?
    ensures var out := SweepType(s, t, ids, i, now).value;
      var gone := ExpiredOf(ids[i..], beats, now);
      && (forall u :: u in s.members && u != t ==> out.state.members[u] == s.members[u])
      && (forall x :: x in out.state.members[t] <==> x in s.members[t] && x !in gone)
      && (forall u :: u in s.mains && u != t ==> out.state.mains[u] == s.mains[u])
      && out.unregistered == gone
    decreases |ids| - i
  {
    if i < |ids| {
      if !Expired(beats, ids[i], now) {
        SweepTypeSkip(s, t, ids, i, beats, now);
        SweepTypeFrame(s, t, ids, i + 1, beats, now);
      } else {
        SweepTypeEvict(s, t, ids, i, beats, now);
        SweepTypeFrame(Evict(s, t, ids, i), t, ids, i + 1, beats, now);
      }
    } else {
      assert ids[i..] == [];
    }
  }

  /** The sweep of one type removes exactly the expired ids from the heartbeat
      table and leaves every other entry as it was. */
  lemma {:induction false} SweepTypeBeats(s: State, t: ParticipantType, ids: seq<int>, i: nat, beats: map<int, int>, now: int)
    requires SweepPre(s, t, ids, i, beats)
    ensures SweepType(s, t, ids, i, now).Ok?
    ensures var out := SweepType(s, t, ids, i, now).value;
      var gone := ExpiredOf(ids[i..], beats, now);
      && (forall x :: x in out.state.lastBeat <==> x in s.lastBeat && x !in gone)
      && (forall x :: x in out.state.lastBeat ==> out.state.lastBeat[x] == s.lastBeat[x])
    decreases |ids| - i
  {
    if i < |ids| {
      if !Expired(beats, ids[i], now) {
        SweepTypeSkip(s, t, ids, i, beats, now);
        SweepTypeBeats(s, t, ids, i + 1, beats, now);
      } else {
        SweepTypeEvict(s, t, ids, i, beats, now);
        SweepTypeBeats(Evict(s, t, ids, i), t, ids, i + 1, beats, now);
      }
    } else {
      assert ids[i..] == [];
    }
  }

  /** The failure events of one type are its expired ids in snapshot order,
      and the k-th reports being the last iff fewer than two members remain
      when it goes. */
  lemma {:induction false} SweepTypeFailures(s: State, t: ParticipantType, ids: seq<int>, i: nat, beats: map<int, int>, now: int)
    requires SweepPre(s, t, ids, i, beats)
    ensures SweepType(s, t, ids, i, now).Ok?
    ensures SweepType(s, t, ids, i, now).value.failures
         == ExpectedFailures(t, ExpiredOf(ids[i..], beats, now), |s.members[t]|)
    decreases |ids| - i
  {
    if i < |ids| {
      if !Expired(beats, ids[i], now) {
        SweepTypeSkip(s, t, ids, i, beats, now);
        SweepTypeFailures(s, t, ids, i + 1, beats, now);
      } else {
        SweepTypeEvict(s, t, ids, i, beats, now);
        SweepTypeFailures(Evict(s, t, ids, i), t, ids, i + 1, beats, now);
        ExpectedFailuresCons(t, ids[i], ExpiredOf(ids[i + 1..], beats, now), |s.members[t]|);
      }
    } else {
      assert ids[i..] == [];
    }
  }

  /** Main reassignment: a main at snapshot position `p` ends at the first
      surviving position from `p` on, or stays on the last position (even when
      that id was just evicted); a main outside the rest of the snapshot stays. */
  lemma {:induction false} SweepTypeMain(s: State, t: ParticipantType, ids: seq<int>, i: nat, beats: map<int, int>, now: int)
    requires SweepPre(s, t, ids, i, beats) && t in s.mains
    ensures SweepType(s, t, ids, i, now).Ok?
    ensures var main := SweepType(s, t, ids, i, now).value.state.mains[t];
      && (forall p :: i <= p < |ids| && ids[p] == s.mains[t] ==> main == ids[Successor(ids, p, beats, now)])
      && (s.mains[t] !in ids[i..] ==> main == s.mains[t])
    decreases |ids| - i
  {
    if i < |ids| {
      if !Expired(beats, ids[i], now) {
        SweepTypeSkip(s, t, ids, i, beats, now);
        SweepTypeMain(s, t, ids, i + 1, beats, now);
      } else {
        SweepTypeEvict(s, t, ids, i, beats, now);
        SweepTypeMain(Evict(s, t, ids, i), t, ids, i + 1, beats, now);
        if s.mains[t] == ids[i] && i < |ids| - 1 {
          assert Successor(ids, i, beats, now) == Successor(ids, i + 1, beats, now);
        }
      }
    }
  }

  // ---------------------------------------------------------------------------
  // All types

  /** What the whole sweep needs: no id in two sets, each type visited at most
      once, and each snapshot listing its type's set, whose members all carry
      the heartbeats `beats`. */
  ghost predicate PlanPre(s: State, plan: seq<Snapshot>, beats: map<int, int>) {
    && Disjoint(s.members)
    && (forall k, k' :: 0 <= k < k' < |plan| ==> plan[k].t != plan[k'].t)
    && (forall k :: 0 <= k < |plan| ==> && SweepPre(s, plan[k].t, plan[k].ids, 0, beats)
                                         && Enumerates(plan[k].ids, s.members[plan[k].t]))
  }

  /** The plan visits type `u`. */
  ghost predicate Visits(plan: seq<Snapshot>, u: ParticipantType) {
    exists k :: 0 <= k < |plan| && plan[k].t == u
  }

  /** Some snapshot of the plan lists `x`. */
  ghost predicate Lists(plan: seq<Snapshot>, x: int) {
    exists k :: 0 <= k < |plan| && x in plan[k].ids
  }

  /** After the first type is swept, the rest of the plan still meets `PlanPre`
      and still sees the sets it would have seen before. */
  lemma SweepFirst(s: State, plan: seq<Snapshot>, beats: map<int, int>, now: int)
    requires PlanPre(s, plan, beats) && plan != []
    ensures SweepType(s, plan[0].t, plan[0].ids, 0, now).Ok?
    ensures var s1 := SweepType(s, plan[0].t, plan[0].ids, 0, now).value.state;
      && PlanPre(s1, plan[1..], beats)
      && (forall k :: 1 <= k < |plan| ==> s1.members[plan[k].t] == s.members[plan[k].t])
      && (forall k :: 1 <= k < |plan| && plan[k].t in s.mains ==> s1.mains[plan[k].t] == s.mains[plan[k].t])
  {
    var t := plan[0].t;
    var ids := plan[0].ids;
    SweepTypeFrame(s, t, ids, 0, beats, now);
    SweepTypeBeats(s, t, ids, 0, beats, now);
    var s1 := SweepType(s, t, ids, 0, now).value.state;
    assert ids[0..] == ids;
    forall k | 0 <= k < |plan| - 1
      ensures SweepPre(s1, plan[1..][k].t, plan[1..][k].ids, 0, beats)
    {
      var u := plan[k + 1].t;
      assert u != t;
      forall x | x in plan[k + 1].ids
        ensures x in s1.lastBeat && s1.lastBeat[x] == s.lastBeat[x]
      {
        assert x in s.members[u];
        assert x !in s.members[t];
      }
    }
  }

  /** The sweep cannot fault. */
  lemma {:induction false} SweepAllOk(s: State, plan: seq<Snapshot>, beats: map<int, int>, now: int)
    requires PlanPre(s, plan, beats)
    ensures SweepAll(s, plan, now).Ok?
    decreases |plan|
  {
    if plan != [] {
      SweepFirst(s, plan, beats, now);
      SweepAllOk(SweepType(s, plan[0].t, plan[0].ids, 0, now).value.state, plan[1..], beats, now);
    }
  }

  /** Type `t`'s set in `after` is its set in `before` minus the ids expired
      by `beats` at `now`. */
  ghost predicate KeepsLive(before: map<ParticipantType, set<int>>, after: map<ParticipantType, set<int>>,
                            t: ParticipantType, beats: map<int, int>, now: int)
  {
    t in before && t in after && forall x :: x in after[t] <==> x in before[t] && !Expired(beats, x, now)
  }

  /** A visited type keeps exactly its members that have not expired; a type
      the plan does not visit keeps its set. */
  lemma {:induction false} SweepAllMembers(s: State, plan: seq<Snapshot>, beats: map<int, int>, now: int)
    requires PlanPre(s, plan, beats)
    ensures SweepAll(s, plan, now).Ok?
    ensures var members := SweepAll(s, plan, now).value.state.members;
      && (forall k :: 0 <= k < |plan| ==> KeepsLive(s.members, members, plan[k].t, beats, now))
      && (forall u :: u in s.members && !Visits(plan, u) ==> members[u] == s.members[u])
    decreases |plan|
  {
    SweepAllOk(s, plan, beats, now);
    if plan != [] {
      SweepFirst(s, plan, beats, now);
      var t := plan[0].t;
      SweepTypeFrame(s, t, plan[0].ids, 0, beats, now);
      assert plan[0].ids[0..] == plan[0].ids;
      var s1 := SweepType(s, t, plan[0].ids, 0, now).value.state;
      SweepAllMembers(s1, plan[1..], beats, now);
      var out := SweepAll(s, plan, now).value.state;
      assert out == SweepAll(s1, plan[1..], now).value.state;
      assert !Visits(plan[1..], t);
      forall k | 0 <= k < |plan|
        ensures KeepsLive(s.members, out.members, plan[k].t, beats, now)
      {
        if k == 0 {
          assert out.members[t] == s1.members[t];
          forall x
            ensures x in out.members[t] <==> x in s.members[t] && !Expired(beats, x, now)
          {
            assert x in plan[0].ids <==> x in s.members[t];
          }
        } else {
          assert plan[1..][k - 1] == plan[k];
          assert s1.members[plan[k].t] == s.members[plan[k].t];
          assert KeepsLive(s1.members, out.members, plan[1..][k - 1].t, beats, now);
        }
      }
      forall u | u in s.members && !Visits(plan, u)
        ensures out.members[u] == s.members[u]
      {
        assert u != t;
      }
    }
  }

  /** A non-empty plan lists `x` iff its first snapshot or the rest does. */
  lemma ListsTail(plan: seq<Snapshot>, x: int)
    requires plan != []
    ensures Lists(plan, x) <==> x in plan[0].ids || Lists(plan[1..], x)
  {
    if Lists(plan, x) {
      var k :| 0 <= k < |plan| && x in plan[k].ids;
      if k > 0 {
        assert x in plan[1..][k - 1].ids;
      }
    }
    if Lists(plan[1..], x) {
      var k :| 0 <= k < |plan| - 1 && x in plan[1..][k].ids;
      assert x in plan[k + 1].ids;
    }
  }

  /** The heartbeat table loses exactly the expired ids some snapshot lists;
      every other entry keeps its time. */
  lemma {:induction false} SweepAllBeats(s: State, plan: seq<Snapshot>, beats: map<int, int>, now: int)
    requires PlanPre(s, plan, beats)
    ensures SweepAll(s, plan, now).Ok?
    ensures var table := SweepAll(s, plan, now).value.state.lastBeat;
      && (forall x :: x in table <==> x in s.lastBeat && !(Lists(plan, x) && Expired(beats, x, now)))
      && (forall x :: x in table ==> table[x] == s.lastBeat[x])
    decreases |plan|
  {
    SweepAllOk(s, plan, beats, now);
    if plan != [] {
      SweepFirst(s, plan, beats, now);
      var t := plan[0].t;
      SweepTypeBeats(s, t, plan[0].ids, 0, beats, now);
      assert plan[0].ids[0..] == plan[0].ids;
      var s1 := SweepType(s, t, plan[0].ids, 0, now).value.state;
      SweepAllBeats(s1, plan[1..], beats, now);
      var out := SweepAll(s, plan, now).value.state;
      assert out == SweepAll(s1, plan[1..], now).value.state;
      forall x {
        ListsTail(plan, x);
      }
    }
  }

  /** `PlanFailures` only reads the sets of the types the plan visits. */
  lemma {:induction false} PlanFailuresSameSets(plan: seq<Snapshot>, m1: map<ParticipantType, set<int>>, m2: map<ParticipantType, set<int>>, beats: map<int, int>, now: int)
    requires forall k :: 0 <= k < |plan| ==> plan[k].t in m1 && plan[k].t in m2 && m1[plan[k].t] == m2[plan[k].t]
    ensures PlanFailures(plan, m1, beats, now) == PlanFailures(plan, m2, beats, now)
    decreases |plan|
  {
    if plan != [] {
      PlanFailuresSameSets(plan[1..], m1, m2, beats, now);
    }
  }

  /** The failure events are the expected events of each visited type, in
      plan order. */
  lemma {:induction false} SweepAllFailures(s: State, plan: seq<Snapshot>, beats: map<int, int>, now: int)
    requires PlanPre(s, plan, beats)
    ensures SweepAll(s, plan, now).Ok?
    ensures SweepAll(s, plan, now).value.failures == PlanFailures(plan, s.members, beats, now)
    decreases |plan|
  {
    SweepAllOk(s, plan, beats, now);
    if plan != [] {
      SweepFirst(s, plan, beats, now);
      var t := plan[0].t;
      SweepTypeFailures(s, t, plan[0].ids, 0, beats, now);
      var first := SweepType(s, t, plan[0].ids, 0, now).value;
      SweepAllFailures(first.state, plan[1..], beats, now);
      PlanFailuresSameSets(plan[1..], first.state.members, s.members, beats, now);
      assert SweepAll(s, plan, now).value.failures == first.failures + SweepAll(first.state, plan[1..], now).value.failures;
    }
  }

  /** The k-th unregistered id is the id of the k-th failure event. */
  ghost predicate Paired(unregistered: seq<int>, failures: seq<Failure>) {
    |unregistered| == |failures| && forall k :: 0 <= k < |failures| ==> unregistered[k] == failures[k].id
  }

  lemma PairedConcat(u1: seq<int>, f1: seq<Failure>, u2: seq<int>, f2: seq<Failure>)
    requires Paired(u1, f1) && Paired(u2, f2)
    ensures Paired(u1 + u2, f1 + f2)
  {
    forall k | 0 <= k < |f1 + f2|
      ensures (u1 + u2)[k] == (f1 + f2)[k].id
    {
      if k >= |f1| {
        assert u2[k - |f1|] == f2[k - |f1|].id;
      }
    }
  }

  /** One type's sweep unregisters the ids of its failure events, in order. */
  lemma SweepTypePaired(s: State, t: ParticipantType, ids: seq<int>, beats: map<int, int>, now: int)
    requires SweepPre(s, t, ids, 0, beats)
    ensures SweepType(s, t, ids, 0, now).Ok?
    ensures Paired(SweepType(s, t, ids, 0, now).value.unregistered, SweepType(s, t, ids, 0, now).value.failures)
  {
    SweepTypeFrame(s, t, ids, 0, beats, now);
    SweepTypeFailures(s, t, ids, 0, beats, now);
  }

  /** The unregistered ids of a whole sweep are the ids of its failure
      events, in the same order. */
  lemma {:induction false} SweepAllPaired(s: State, plan: seq<Snapshot>, beats: map<int, int>, now: int)
    requires PlanPre(s, plan, beats)
    ensures SweepAll(s, plan, now).Ok?
    ensures Paired(SweepAll(s, plan, now).value.unregistered, SweepAll(s, plan, now).value.failures)
    decreases |plan|
  {
    SweepAllOk(s, plan, beats, now);
    if plan != [] {
      SweepFirst(s, plan, beats, now);
      var t := plan[0].t;
      SweepTypePaired(s, t, plan[0].ids, beats, now);
      var first := SweepType(s, t, plan[0].ids, 0, now).value;
      SweepAllPaired(first.state, plan[1..], beats, now);
      var rest := SweepAll(first.state, plan[1..], now).value;
      assert SweepAll(s, plan, now).value == Swept(rest.state, first.failures + rest.failures, first.unregistered + rest.unregistered);
      PairedConcat(first.unregistered, first.failures, rest.unregistered, rest.failures);
    }
  }

  /** The mains `after` a sweep of `plan` starting from the mains `before`:
      each visited type's main ends as `SweepTypeMain` says for its snapshot,
      and the main of a type the plan does not visit stays. */
  ghost predicate MainsMoved(plan: seq<Snapshot>, before: map<ParticipantType, int>, after: map<ParticipantType, int>,
                             beats: map<int, int>, now: int) {
    && after.Keys == before.Keys
    && (forall k, p :: 0 <= k < |plan| && plan[k].t in before && 0 <= p < |plan[k].ids| && plan[k].ids[p] == before[plan[k].t]
          ==> after[plan[k].t] == plan[k].ids[Successor(plan[k].ids, p, beats, now)])
    && (forall k :: 0 <= k < |plan| && plan[k].t in before && before[plan[k].t] !in plan[k].ids
          ==> after[plan[k].t] == before[plan[k].t])
    && (forall u :: u in before && !Visits(plan, u) ==> after[u] == before[u])
  }

  /** One induction step of `SweepAllMains`: the first type's sweep moves its
      main and leaves the others alone, and the rest of the plan, which does
      not visit the first type again, does the rest. */
  lemma MainsMovedStep(plan: seq<Snapshot>, before: map<ParticipantType, int>, mid: map<ParticipantType, int>,
                       after: map<ParticipantType, int>, beats: map<int, int>, now: int)
    requires plan != []
    requires forall k :: 1 <= k < |plan| ==> plan[k].t != plan[0].t
    requires mid.Keys == before.Keys
    requires forall u :: u in before && u != plan[0].t ==> mid[u] == before[u]
    requires plan[0].t in before ==>
      && (forall p :: 0 <= p < |plan[0].ids| && plan[0].ids[p] == before[plan[0].t]
            ==> mid[plan[0].t] == plan[0].ids[Successor(plan[0].ids, p, beats, now)])
      && (before[plan[0].t] !in plan[0].ids ==> mid[plan[0].t] == before[plan[0].t])
    requires MainsMoved(plan[1..], mid, after, beats, now)
    ensures MainsMoved(plan, before, after, beats, now)
  {
    var t := plan[0].t;
    assert !Visits(plan[1..], t);
    forall k, p | 1 <= k < |plan| && plan[k].t in before && 0 <= p < |plan[k].ids| && plan[k].ids[p] == before[plan[k].t]
      ensures after[plan[k].t] == plan[k].ids[Successor(plan[k].ids, p, beats, now)]
    {
      assert plan[1..][k - 1] == plan[k];
    }
    forall k | 1 <= k < |plan| && plan[k].t in before && before[plan[k].t] !in plan[k].ids
      ensures after[plan[k].t] == before[plan[k].t]
    {
      assert plan[1..][k - 1] == plan[k];
    }
    forall u | u in before && !Visits(plan, u)
      ensures after[u] == before[u]
    {
      assert u != t;
    }
  }

  /** Each visited type's main ends as `SweepTypeMain` says for its snapshot;
      the main of a type the plan does not visit stays. */
  lemma {:induction false} SweepAllMains(s: State, plan: seq<Snapshot>, beats: map<int, int>, now: int)
    requires PlanPre(s, plan, beats)
    ensures SweepAll(s, plan, now).Ok?
    ensures MainsMoved(plan, s.mains, SweepAll(s, plan, now).value.state.mains, beats, now)
    decreases |plan|
  {
    SweepAllOk(s, plan, beats, now);
    if plan != [] {
      SweepFirst(s, plan, beats, now);
      var t := plan[0].t;
      SweepTypeFrame(s, t, plan[0].ids, 0, beats, now);
      assert plan[0].ids[0..] == plan[0].ids;
      var s1 := SweepType(s, t, plan[0].ids, 0, now).value.state;
      if t in s.mains {
        SweepTypeMain(s, t, plan[0].ids, 0, beats, now);
      }
      SweepAllMains(s1, plan[1..], beats, now);
      assert SweepAll(s, plan, now).value.state == SweepAll(s1, plan[1..], now).value.state;
      MainsMovedStep(plan, s.mains, s1.mains, SweepAll(s, plan, now).value.state.mains, beats, now);
    }
  }

  /** Every set in `after` is a subset of the same type's set in `before`. */
  ghost predicate Shrinks(after: map<ParticipantType, set<int>>, before: map<ParticipantType, set<int>>) {
    forall t, x :: t in after && x in after[t] ==> t in before && x in before[t]
  }

  /** The sweep only removes ids from sets, and every id left in a set keeps
      its heartbeat entry. */
  lemma SweepAllShrinks(s: State, plan: seq<Snapshot>, beats: map<int, int>, now: int)
    requires Tracked(s) && PlanPre(s, plan, beats)
    ensures SweepAll(s, plan, now).Ok?
    ensures var out := SweepAll(s, plan, now).value.state;
      Shrinks(out.members, s.members) && forall t, x :: t in out.members && x in out.members[t] ==> x in out.lastBeat
  {
    SweepAllMembers(s, plan, beats, now);
    SweepAllBeats(s, plan, beats, now);
    var out := SweepAll(s, plan, now).value.state;
    forall t, x | t in out.members && x in out.members[t]
      ensures x in s.members[t] && x in out.lastBeat
    {
      if Visits(plan, t) {
        var k :| 0 <= k < |plan| && plan[k].t == t;
        assert KeepsLive(s.members, out.members, plan[k].t, beats, now);
      }
    }
  }

  /** The sweep keeps the invariant and the disjointness of the sets. */
  lemma SweepAllInv(s: State, plan: seq<Snapshot>, beats: map<int, int>, now: int)
    requires Inv(s) && PlanPre(s, plan, beats)
    ensures SweepAll(s, plan, now).Ok?
    ensures Inv(SweepAll(s, plan, now).value.state)
    ensures Disjoint(SweepAll(s, plan, now).value.state.members)
  {
    SweepAllShrinks(s, plan, beats, now);
    var out := SweepAll(s, plan, now).value.state;
    assert Shrinks(out.members, s.members);
    forall t | t in out.members && out.members[t] != {}
      ensures t in out.mains
    {
      forall x | x in out.members[t]
        ensures x in s.members[t]
      {
        assert t in out.members && x in out.members[t];
        assert Shrinks(out.members, s.members);
      }
      assert s.members[t] != {};
    }
  }

  /** A main that expires while it is the last id of its snapshot stays main
      although it has left its set. */
  lemma LastMainKept(s: State, t: ParticipantType, ids: seq<int>, beats: map<int, int>, now: int)
    requires SweepPre(s, t, ids, 0, beats) && t in s.mains
    requires |ids| > 0 && ids[|ids| - 1] == s.mains[t] && Expired(beats, s.mains[t], now)
    ensures SweepType(s, t, ids, 0, now).Ok?
    ensures var out := SweepType(s, t, ids, 0, now).value.state;
      out.mains[t] == s.mains[t] && s.mains[t] !in out.members[t]
  {
    var p := |ids| - 1;
    SweepTypeMain(s, t, ids, 0, beats, now);
    SweepTypeFrame(s, t, ids, 0, beats, now);
    var out := SweepType(s, t, ids, 0, now).value.state;
    assert Successor(ids, p, beats, now) == p;
    assert out.mains[t] == ids[p];
    assert ids[0..] == ids;
    assert s.mains[t] in ExpiredOf(ids, beats, now);
  }

  // ---------------------------------------------------------------------------
  // Examples

  /** An id registered under two types that expires is dropped from the
      heartbeat table by the first type's sweep and faults the second's. */
  lemma SharedIdFaults()
    ensures var s := State(map[HumiditySensor := {5}, HumidityController := {5}],
                           map[HumiditySensor := 5, HumidityController := 5], map[5 := 0], {});
      SweepAll(s, [Snapshot(HumiditySensor, [5]), Snapshot(HumidityController, [5])], 3001)
        == Err(NoHeartbeatFor(5))
  {
  }

  /** A heartbeat exactly `ExpireTime` old keeps its id; one a millisecond
      older does not, and the id, alone in its snapshot, stays main. */
  lemma ExpiryBoundary()
    ensures var s := State(map[TemperatureSensor := {7}], map[TemperatureSensor := 7], map[7 := 0], {});
      && SweepType(s, TemperatureSensor, [7], 0, 3000) == Ok(Swept(s, [], []))
      && SweepType(s, TemperatureSensor, [7], 0, 3001)
         == Ok(Swept(s.(members := map[TemperatureSensor := {}], lastBeat := map[]),
                     [Failure(TemperatureSensor, 7, true)], [7]))
  {
    var s := State(map[TemperatureSensor := {7}], map[TemperatureSensor := 7], map[7 := 0], {});
    assert |s.members[TemperatureSensor]| == 1;
    assert {7} - {7} == {};
    assert s.members[TemperatureSensor := {}] == map[TemperatureSensor := {}];
    assert s.lastBeat - {7} == map[];
    var e := s.(members := map[TemperatureSensor := {}], lastBeat := map[]);
    assert Evict(s, TemperatureSensor, [7], 0) == e;
    assert SweepType(e, TemperatureSensor, [7], 1, 3001) == Ok(Swept(e, [], []));
    var f := Failure(TemperatureSensor, 7, true);
    assert SweepType(s, TemperatureSensor, [7], 0, 3001) == Ok(Swept(e, [f] + [], [7] + []));
    assert [f] + [] == [f] && [7] + [] == [7];
  }

  /** Two members of one type that expire together: the first is reported
      with the flag down, the second with the flag up, and the main passes
      from the first to the second and stays there. */
  lemma TwoExpire()
    ensures var s := State(map[TemperatureSensor := {1, 2}], map[TemperatureSensor := 1], map[1 := 0, 2 := 0], {});
      var r := SweepType(s, TemperatureSensor, [1, 2], 0, 5000);
      && r.Ok?
      && r.value.failures == [Failure(TemperatureSensor, 1, false), Failure(TemperatureSensor, 2, true)]
      && r.value.unregistered == [1, 2]
      && r.value.state.mains[TemperatureSensor] == 2
      && r.value.state.members[TemperatureSensor] == {}
  {
    var s := State(map[TemperatureSensor := {1, 2}], map[TemperatureSensor := 1], map[1 := 0, 2 := 0], {});
    assert |s.members[TemperatureSensor]| == 2;
    var e1 := Evict(s, TemperatureSensor, [1, 2], 0);
    assert e1.members[TemperatureSensor] == {2};
    assert e1.lastBeat == map[2 := 0];
    assert e1.mains[TemperatureSensor] == 2;
    assert |e1.members[TemperatureSensor]| == 1;
    var e2 := Evict(e1, TemperatureSensor, [1, 2], 1);
    assert e2.members[TemperatureSensor] == {};
    assert e2.mains[TemperatureSensor] == 2;
    assert SweepType(e2, TemperatureSensor, [1, 2], 2, 5000) == Ok(Swept(e2, [], []));
    var f2 := Failure(TemperatureSensor, 2, true);
    assert SweepType(e1, TemperatureSensor, [1, 2], 1, 5000) == Ok(Swept(e2, [f2] + [], [2] + []));
    var f1 := Failure(TemperatureSensor, 1, false);
    assert SweepType(s, TemperatureSensor, [1, 2], 0, 5000) == Ok(Swept(e2, [f1] + ([f2] + []), [1] + ([2] + [])));
  }
}
