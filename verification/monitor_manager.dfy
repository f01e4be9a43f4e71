/** One iteration of the manager's polling loop as a pure transition, and the
    handler for a bus failure. The clock reading and the order in which hash
    sets are iterated are inputs. */
module MonitorManager {
  import opened Wrappers
  import opened ParticipantTypes
  import opened Messages
  import opened ManagerState
  import opened MessageIntake
  import opened Liveness

  /** What one poll hands to its subscribers and to the bus. */
  datatype Output = Output(
    forwarded: seq<Message>,            // the batch passed to the incoming-message callbacks
    readied: set<ParticipantType>,      // the types whose ready callbacks fire
    failures: seq<Failure>,             // the participant-failure events, in order
    unregistered: seq<int>)             // the ids passed to the bus's UnRegister, in order

  datatype Polled = Polled(state: State, output: Output)

  /** A bus-failure event: the failed relay's address and whether no relay is left. */
  datatype BusFailure = BusFailure(address: string, allFailed: bool)

  /** Raises the ready flag of every type whose flag is down and whose set is
      not empty, and reports those types. */
  function DetectReady(s: State): (r: (State, set<ParticipantType>))
    ensures r.0 == s.(ready := r.0.ready) && r.0.ready == s.ready + r.1
    ensures r.1 !! s.ready
    ensures forall t :: t in r.1 ==> t in s.members && s.members[t] != {}
    ensures forall t :: t in s.members && s.members[t] != {} ==> t in r.0.ready
  {
    var fired := set t | t in s.members && s.members[t] != {} && t !in s.ready;
    (s.(ready := s.ready + fired), fired)
  }

  /** `plan` is a sweep order for the sets `members`: every type once, each
      with a snapshot listing its set. */
  ghost predicate IsPlan(plan: seq<Snapshot>, members: map<ParticipantType, set<int>>) {
    && (forall k :: 0 <= k < |plan| ==> plan[k].t in members && Enumerates(plan[k].ids, members[plan[k].t]))
    && (forall k, k' :: 0 <= k < k' < |plan| ==> plan[k].t != plan[k'].t)
    && (forall u :: u in members ==> Visits(plan, u))
  }

  /** `plan` is a sweep order for the sets as they stand after the intake. */
  ghost predicate PlanFits(s: State, msgs: seq<Message>, now: int, hb: int, plan: seq<Snapshot>) {
    Intake(s, msgs, now, hb).Ok? ==> IsPlan(plan, Intake(s, msgs, now, hb).value.state.members)
  }

  /** One iteration of the polling loop on the fetched messages `msgs` at time
      `now`; `hb` is the heartbeat message kind. */
  function Poll(s: State, msgs: seq<Message>, now: int, hb: int, plan: seq<Snapshot>): (r: Result<Polled, Fault>)
    requires PlanFits(s, msgs, now, hb, plan)
    ensures r.Ok? ==> && r.value.state.ready == s.ready + r.value.output.readied
                      && r.value.state.members.Keys == s.members.Keys
                      && r.value.output.readied !! s.ready
  {
    var batch :- Intake(s, msgs, now, hb);
    var (ready, fired) := DetectReady(batch.state);
    var swept :- SweepAll(ready, plan, now);
    Ok(Polled(swept.state, Output(batch.forwarded, fired, swept.failures, swept.unregistered)))
  }

  /** No id ends up in two sets: the sets are disjoint, and every id that
      claims a type claims only that one and is in no other type's set. */
  ghost predicate OneTypePerId(s: State, msgs: seq<Message>, hb: int) {
    && Disjoint(s.members)
    && (forall j, u :: 0 <= j < |msgs| && Claim(msgs[j], hb).Some? && u in s.members && u != Claim(msgs[j], hb).value
          ==> msgs[j].sender !in s.members[u])
    && (forall j, j' :: 0 <= j < |msgs| && 0 <= j' < |msgs| && msgs[j].sender == msgs[j'].sender
          && Claim(msgs[j], hb).Some? && Claim(msgs[j'], hb).Some?
          ==> Claim(msgs[j], hb) == Claim(msgs[j'], hb))
  }

  // ---------------------------------------------------------------------------
  // Bus failure

  /** The bus-failure handler as written: the member table is cleared, so the
      four type keys disappear with their sets; the event is relayed as is. */
  function ResetAsWritten(s: State, e: BusFailure): (r: (State, BusFailure))
    ensures r.0.members == map[] && r.0.mains == map[] && r.0.lastBeat == map[]
    ensures r.0.ready == s.ready && r.1 == e
  {
    (State(map[], map[], map[], s.ready), e)
  }

  /** The bus-failure handler as intended: every type keeps an (empty) set, so
      later heartbeats can be recorded. Mains and heartbeats are forgotten,
      ready flags stay up, and the event is relayed as is. */
  function Reset(s: State, e: BusFailure): (r: (State, BusFailure))
    ensures Inv(r.0) && Disjoint(r.0.members)
    ensures forall t :: t in r.0.members && r.0.members[t] == {}
    ensures r.0.mains == map[] && r.0.lastBeat == map[]
    ensures r.0.ready == s.ready && r.1 == e
  {
    AllTypesComplete();
    (State(map t | t in AllTypes :: {}, map[], map[], s.ready), e)
  }

  // ---------------------------------------------------------------------------
  // Properties of a poll

  /** After the intake, no id is in two sets. */
  lemma IntakeDisjoint(s: State, msgs: seq<Message>, now: int, hb: int)
    requires AllKeys(s) && OneTypePerId(s, msgs, hb)
    ensures Intake(s, msgs, now, hb).Ok?
    ensures Disjoint(Intake(s, msgs, now, hb).value.state.members)
  {
    IntakeMembers(s, msgs, now, hb);
    var m := Intake(s, msgs, now, hb).value.state.members;
    forall t, u, id | t in m && u in m && t != u && id in m[t]
      ensures id !in m[u]
    {
      if id in Claimants(msgs, hb, t) {
        var j :| 0 <= j < |msgs| && Claim(msgs[j], hb) == Some(t) && msgs[j].sender == id;
      }
    }
  }

  /** The sweep's precondition holds after the intake and the ready check. */
  lemma PollSweepPre(s: State, msgs: seq<Message>, now: int, hb: int, plan: seq<Snapshot>)
    requires Inv(s) && PlanFits(s, msgs, now, hb, plan) && OneTypePerId(s, msgs, hb)
    ensures Intake(s, msgs, now, hb).Ok?
    ensures var mid := Intake(s, msgs, now, hb).value.state;
      PlanPre(DetectReady(mid).0, plan, mid.lastBeat)
  {
    IntakeOk(s, msgs, now, hb);
    IntakeDisjoint(s, msgs, now, hb);
    var mid := Intake(s, msgs, now, hb).value.state;
    var r := DetectReady(mid).0;
    forall k | 0 <= k < |plan|
      ensures SweepPre(r, plan[k].t, plan[k].ids, 0, mid.lastBeat)
    {
      var t := plan[k].t;
      assert forall x :: x in plan[k].ids ==> x in mid.members[t];
      if |plan[k].ids| > 0 {
        assert plan[k].ids[0] in mid.members[t];
      }
    }
  }

  /** Under the invariant, and with no id taking two types, a poll cannot
      fault, and it keeps the invariant and the disjointness of the sets. */
  lemma PollOk(s: State, msgs: seq<Message>, now: int, hb: int, plan: seq<Snapshot>)
    requires Inv(s) && PlanFits(s, msgs, now, hb, plan) && OneTypePerId(s, msgs, hb)
    ensures Poll(s, msgs, now, hb, plan).Ok?
    ensures Inv(Poll(s, msgs, now, hb, plan).value.state)
    ensures Disjoint(Poll(s, msgs, now, hb, plan).value.state.members)
  {
    PollSweepPre(s, msgs, now, hb, plan);
    IntakeOk(s, msgs, now, hb);
    var mid := Intake(s, msgs, now, hb).value.state;
    var r := DetectReady(mid).0;
    SweepAllInv(r, plan, mid.lastBeat, now);
    assert Poll(s, msgs, now, hb, plan).value.state == SweepAll(r, plan, now).value.state;
  }

  /** A poll hands the subscribers exactly the non-heartbeat messages whose
      sender is main, or becomes main earlier in the batch. */
  lemma PollForwarded(s: State, msgs: seq<Message>, now: int, hb: int, plan: seq<Snapshot>)
    requires AllKeys(s) && PlanFits(s, msgs, now, hb, plan)
    ensures Poll(s, msgs, now, hb, plan).Ok? ==>
      Poll(s, msgs, now, hb, plan).value.output.forwarded == ExpectedBatch(s.mains, msgs, hb)
  {
    IntakeForwarded(s, msgs, now, hb);
  }

  /** A set is non-empty after the intake exactly when it was non-empty or
      some message of the batch claimed its type. */
  lemma IntakeNonEmpty(s: State, msgs: seq<Message>, now: int, hb: int, t: ParticipantType)
    requires AllKeys(s)
    ensures Intake(s, msgs, now, hb).Ok? && AllKeys(Intake(s, msgs, now, hb).value.state)
    ensures Intake(s, msgs, now, hb).value.state.members[t] != {}
        <==> s.members[t] != {} || Claimants(msgs, hb, t) != {}
  {
    IntakeMembers(s, msgs, now, hb);
    var m := Intake(s, msgs, now, hb).value.state.members[t];
    forall x
      ensures x in m <==> x in s.members[t] + Claimants(msgs, hb, t)
    {
      assert x in Intake(s, msgs, now, hb).value.state.members[t] <==> x in s.members[t] || x in Claimants(msgs, hb, t);
    }
    assert m == s.members[t] + Claimants(msgs, hb, t);
  }

  /** A type's ready callback fires exactly when its flag is down and its set
      is non-empty once the batch is in, and the flags only go up. */
  lemma PollReady(s: State, msgs: seq<Message>, now: int, hb: int, plan: seq<Snapshot>)
    requires AllKeys(s) && PlanFits(s, msgs, now, hb, plan)
    ensures Poll(s, msgs, now, hb, plan).Ok? ==>
      var p := Poll(s, msgs, now, hb, plan).value;
      && (forall t :: t in p.output.readied <==> t !in s.ready && (s.members[t] != {} || Claimants(msgs, hb, t) != {}))
      && p.state.ready == s.ready + p.output.readied
  {
    IntakeOk(s, msgs, now, hb);
    var mid := Intake(s, msgs, now, hb).value.state;
    var (r, fired) := DetectReady(mid);
    if Poll(s, msgs, now, hb, plan).Ok? {
      var p := Poll(s, msgs, now, hb, plan).value;
      assert p.output.readied == fired;
      assert p.state.ready == r.ready;
      forall t
        ensures t in fired <==> t !in s.ready && (s.members[t] != {} || Claimants(msgs, hb, t) != {})
      {
        IntakeNonEmpty(s, msgs, now, hb, t);
      }
    }
  }

  /** After the sweep, every type's set holds exactly the ids of its set after
      the intake whose heartbeat, as the intake left it, has not expired. */
  lemma PollKeepsLive(s: State, msgs: seq<Message>, now: int, hb: int, plan: seq<Snapshot>)
    requires Inv(s) && PlanFits(s, msgs, now, hb, plan) && OneTypePerId(s, msgs, hb)
    ensures Intake(s, msgs, now, hb).Ok? && Poll(s, msgs, now, hb, plan).Ok?
    ensures var mid := Intake(s, msgs, now, hb).value.state;
      var out := Poll(s, msgs, now, hb, plan).value.state;
      && AllKeys(out)
      && forall t :: KeepsLive(mid.members, out.members, t, mid.lastBeat, now)
  {
    PollOk(s, msgs, now, hb, plan);
    PollSweepPre(s, msgs, now, hb, plan);
    IntakeMembers(s, msgs, now, hb);
    var mid := Intake(s, msgs, now, hb).value.state;
    var r := DetectReady(mid).0;
    SweepAllMembers(r, plan, mid.lastBeat, now);
    var out := Poll(s, msgs, now, hb, plan).value.state;
    assert out == SweepAll(r, plan, now).value.state;
    forall t
      ensures KeepsLive(mid.members, out.members, t, mid.lastBeat, now)
    {
      assert Visits(plan, t);
      var k :| 0 <= k < |plan| && plan[k].t == t;
      assert KeepsLive(r.members, out.members, plan[k].t, mid.lastBeat, now);
    }
  }

  /** The membership of a poll in terms of its inputs, from what the intake
      and the sweep each do to the sets and the heartbeat table. */
  lemma MembersCombine(before: map<ParticipantType, set<int>>, mid: map<ParticipantType, set<int>>,
                       after: map<ParticipantType, set<int>>, oldBeats: map<int, int>, midBeats: map<int, int>,
                       msgs: seq<Message>, hb: int, now: int)
    requires forall t :: t in before && t in mid && t in after
    requires forall t, x :: x in mid[t] <==> x in before[t] || x in Claimants(msgs, hb, t)
    requires forall x :: x in midBeats <==> x in oldBeats || x in BeatSenders(msgs, hb)
    requires forall x :: x in BeatSenders(msgs, hb) ==> midBeats[x] == now
    requires forall x :: x in oldBeats && x !in BeatSenders(msgs, hb) ==> midBeats[x] == oldBeats[x]
    requires forall t :: KeepsLive(mid, after, t, midBeats, now)
    ensures forall t, x {:trigger x in after[t]} :: x in after[t] <==>
      && (x in before[t] || x in Claimants(msgs, hb, t))
      && (x in BeatSenders(msgs, hb) || !Expired(oldBeats, x, now))
  {
    forall t, x
      ensures x in after[t] <==>
        && (x in before[t] || x in Claimants(msgs, hb, t))
        && (x in BeatSenders(msgs, hb) || !Expired(oldBeats, x, now))
    {
      assert KeepsLive(mid, after, t, midBeats, now);
      assert Expired(midBeats, x, now) <==> x !in BeatSenders(msgs, hb) && Expired(oldBeats, x, now);
    }
  }

  /** An id is in a type's set after a poll exactly when it was there or
      claimed the type in the batch, and it either heartbeated in the batch or
      its last heartbeat is at most `ExpireTime` old. */
  lemma PollMembers(s: State, msgs: seq<Message>, now: int, hb: int, plan: seq<Snapshot>)
    requires Inv(s) && PlanFits(s, msgs, now, hb, plan) && OneTypePerId(s, msgs, hb)
    ensures Poll(s, msgs, now, hb, plan).Ok?
    ensures var out := Poll(s, msgs, now, hb, plan).value.state;
      && AllKeys(out)
      && forall t, x :: x in out.members[t] <==> StaysAfterPoll(s, msgs, now, hb, t, x)
  {
    PollKeepsLive(s, msgs, now, hb, plan);
    var out := Poll(s, msgs, now, hb, plan).value.state;
    assert AllKeys(out);
    IntakeThenKeepLive(s, msgs, now, hb, out.members);
  }

  /** Sets that keep exactly the live ids of the sets after an intake hold
      the old members and the claimants whose heartbeat has not expired. */
  lemma IntakeThenKeepLive(s: State, msgs: seq<Message>, now: int, hb: int, after: map<ParticipantType, set<int>>)
    requires AllKeys(s) && forall t :: t in after
    requires Intake(s, msgs, now, hb).Ok?
    requires forall t :: KeepsLive(Intake(s, msgs, now, hb).value.state.members, after, t,
                                   Intake(s, msgs, now, hb).value.state.lastBeat, now)
    ensures forall t, x :: x in after[t] <==> StaysAfterPoll(s, msgs, now, hb, t, x)
  {
    IntakeMembers(s, msgs, now, hb);
    IntakeBeats(s, msgs, now, hb);
    var mid := Intake(s, msgs, now, hb).value.state;
    MembersCombine(s.members, mid.members, after, s.lastBeat, mid.lastBeat, msgs, hb, now);
  }

  /** Id `x` is in type `t`'s set after a poll: it was a member or claimed
      the type during the intake, and it either heartbeated during the intake
      or its earlier heartbeat has not expired. */
  ghost predicate StaysAfterPoll(s: State, msgs: seq<Message>, now: int, hb: int, t: ParticipantType, x: int)
    requires t in s.members
  {
    && (x in s.members[t] || x in Claimants(msgs, hb, t))
    && (x in BeatSenders(msgs, hb) || !Expired(s.lastBeat, x, now))
  }

  /** Some type's set holds `x`. */
  ghost predicate InSomeSet(members: map<ParticipantType, set<int>>, x: int) {
    exists t :: t in members && x in members[t]
  }

  /** Every claimant of a type heartbeated. */
  lemma ClaimantsBeat(msgs: seq<Message>, hb: int, t: ParticipantType)
    ensures Claimants(msgs, hb, t) <= BeatSenders(msgs, hb)
  {
    forall x | x in Claimants(msgs, hb, t)
      ensures x in BeatSenders(msgs, hb)
    {
      var j :| 0 <= j < |msgs| && Claim(msgs[j], hb) == Some(t) && msgs[j].sender == x;
      assert msgs[j].kind == hb;
    }
  }

  /** A plan's snapshots list exactly the ids of the sets. */
  lemma PlanLists(plan: seq<Snapshot>, members: map<ParticipantType, set<int>>, x: int)
    requires IsPlan(plan, members)
    ensures Lists(plan, x) <==> InSomeSet(members, x)
  {
    if Lists(plan, x) {
      var k :| 0 <= k < |plan| && x in plan[k].ids;
      assert x in members[plan[k].t];
    }
    if InSomeSet(members, x) {
      var t :| t in members && x in members[t];
      assert Visits(plan, t);
      var k :| 0 <= k < |plan| && plan[k].t == t;
      assert x in plan[k].ids;
    }
  }

  /** After a poll the heartbeat table holds the ids it held or that
      heartbeated in the batch, less the ids some set held whose last
      heartbeat is more than `ExpireTime` old; ids that heartbeated carry
      `now`, the others keep their time. */
  lemma PollBeats(s: State, msgs: seq<Message>, now: int, hb: int, plan: seq<Snapshot>)
    requires Inv(s) && PlanFits(s, msgs, now, hb, plan) && OneTypePerId(s, msgs, hb)
    ensures Poll(s, msgs, now, hb, plan).Ok?
    ensures var table := Poll(s, msgs, now, hb, plan).value.state.lastBeat;
      && (forall x :: x in table <==>
            && (x in s.lastBeat || x in BeatSenders(msgs, hb))
            && (x in BeatSenders(msgs, hb) || !Expired(s.lastBeat, x, now) || !InSomeSet(s.members, x)))
      && (forall x :: x in table && x in BeatSenders(msgs, hb) ==> table[x] == now)
      && (forall x :: x in table && x !in BeatSenders(msgs, hb) ==> table[x] == s.lastBeat[x])
  {
    PollOk(s, msgs, now, hb, plan);
    PollSweepPre(s, msgs, now, hb, plan);
    IntakeMembers(s, msgs, now, hb);
    IntakeBeats(s, msgs, now, hb);
    var mid := Intake(s, msgs, now, hb).value.state;
    var r := DetectReady(mid).0;
    SweepAllBeats(r, plan, mid.lastBeat, now);
    var table := Poll(s, msgs, now, hb, plan).value.state.lastBeat;
    assert table == SweepAll(r, plan, now).value.state.lastBeat;
    forall x
      ensures x in table <==>
            && (x in s.lastBeat || x in BeatSenders(msgs, hb))
            && (x in BeatSenders(msgs, hb) || !Expired(s.lastBeat, x, now) || !InSomeSet(s.members, x))
    {
      PlanLists(plan, mid.members, x);
      if x !in BeatSenders(msgs, hb) {
        assert Expired(mid.lastBeat, x, now) <==> Expired(s.lastBeat, x, now);
        if InSomeSet(mid.members, x) {
          var t :| t in mid.members && x in mid.members[t];
          ClaimantsBeat(msgs, hb, t);
          assert x in s.members[t];
        }
        if InSomeSet(s.members, x) {
          var t :| t in s.members && x in s.members[t];
          assert x in mid.members[t];
        }
      }
    }
  }

  /** The failure events are those the sweep expects of the tables as the
      intake leaves them, and the unregistered ids are their ids, in order. */
  lemma PollFailures(s: State, msgs: seq<Message>, now: int, hb: int, plan: seq<Snapshot>)
    requires Inv(s) && PlanFits(s, msgs, now, hb, plan) && OneTypePerId(s, msgs, hb)
    ensures Poll(s, msgs, now, hb, plan).Ok?
    ensures var mid := Intake(s, msgs, now, hb).value.state;
      var out := Poll(s, msgs, now, hb, plan).value.output;
      && out.failures == PlanFailures(plan, mid.members, mid.lastBeat, now)
      && |out.unregistered| == |out.failures|
      && (forall k :: 0 <= k < |out.failures| ==> out.unregistered[k] == out.failures[k].id)
  {
    PollOk(s, msgs, now, hb, plan);
    PollSweepPre(s, msgs, now, hb, plan);
    var mid := Intake(s, msgs, now, hb).value.state;
    var r := DetectReady(mid).0;
    SweepAllFailures(r, plan, mid.lastBeat, now);
    SweepAllPaired(r, plan, mid.lastBeat, now);
    assert Poll(s, msgs, now, hb, plan).value.output.failures == SweepAll(r, plan, now).value.failures;
    assert Poll(s, msgs, now, hb, plan).value.output.unregistered == SweepAll(r, plan, now).value.unregistered;
  }

  /** Each type keeps a main once the intake has given it one, and a main
      its set no longer holds stays. */
  lemma PollMains(s: State, msgs: seq<Message>, now: int, hb: int, plan: seq<Snapshot>)
    requires Inv(s) && PlanFits(s, msgs, now, hb, plan) && OneTypePerId(s, msgs, hb)
    ensures Poll(s, msgs, now, hb, plan).Ok?
    ensures var mid := Intake(s, msgs, now, hb).value.state;
      var mains := Poll(s, msgs, now, hb, plan).value.state.mains;
      && (forall t :: t in mains <==> t in mid.mains)
      && (forall t :: t in mid.mains && t in mid.members && mid.mains[t] !in mid.members[t] ==> mains[t] == mid.mains[t])
  {
    PollOk(s, msgs, now, hb, plan);
    PollSweepPre(s, msgs, now, hb, plan);
    IntakeOk(s, msgs, now, hb);
    var mid := Intake(s, msgs, now, hb).value.state;
    var r := DetectReady(mid).0;
    SweepAllMains(r, plan, mid.lastBeat, now);
    var mains := Poll(s, msgs, now, hb, plan).value.state.mains;
    assert mains == SweepAll(r, plan, now).value.state.mains;
    forall t | t in mid.mains && t in mid.members && mid.mains[t] !in mid.members[t]
      ensures mains[t] == mid.mains[t]
    {
      assert Visits(plan, t);
      var k :| 0 <= k < |plan| && plan[k].t == t;
      assert mid.mains[t] !in plan[k].ids;
    }
  }

  /** A main listed in its snapshot moves to the first later id that
      survives, or to the last id if none does. */
  lemma PollMainsMoved(s: State, msgs: seq<Message>, now: int, hb: int, plan: seq<Snapshot>)
    requires Inv(s) && PlanFits(s, msgs, now, hb, plan) && OneTypePerId(s, msgs, hb)
    ensures Poll(s, msgs, now, hb, plan).Ok?
    ensures var mid := Intake(s, msgs, now, hb).value.state;
      var mains := Poll(s, msgs, now, hb, plan).value.state.mains;
      forall k, p :: 0 <= k < |plan| && plan[k].t in mid.mains && 0 <= p < |plan[k].ids| && plan[k].ids[p] == mid.mains[plan[k].t]
        ==> mains[plan[k].t] == plan[k].ids[Successor(plan[k].ids, p, mid.lastBeat, now)]
  {
    PollOk(s, msgs, now, hb, plan);
    PollSweepPre(s, msgs, now, hb, plan);
    IntakeOk(s, msgs, now, hb);
    var mid := Intake(s, msgs, now, hb).value.state;
    var r := DetectReady(mid).0;
    SweepAllMains(r, plan, mid.lastBeat, now);
    assert Poll(s, msgs, now, hb, plan).value.state.mains == SweepAll(r, plan, now).value.state.mains;
  }

  // ---------------------------------------------------------------------------
  // After a bus failure

  /** Once the intake of a prefix of the batch faults, the whole intake faults
      with the same error. */
  lemma {:induction false} IntakeFaultSticks(s: State, msgs: seq<Message>, now: int, hb: int, n: nat)
    requires 0 < n <= |msgs| && Intake(s, msgs[..n], now, hb).Err?
    ensures Intake(s, msgs, now, hb) == Intake(s, msgs[..n], now, hb)
    decreases |msgs|
  {
    if n < |msgs| {
      var prefix := msgs[..|msgs| - 1];
      assert prefix[..n] == msgs[..n];
      IntakeFaultSticks(s, prefix, now, hb, n);
    } else {
      assert msgs[..n] == msgs;
    }
  }

  /** As written, the handler leaves no set to record a heartbeat in: a batch
      that opens with a valid heartbeat makes the next poll fault. */
  lemma ResetAsWrittenFaults(s: State, e: BusFailure, msgs: seq<Message>, now: int, hb: int, plan: seq<Snapshot>, t: ParticipantType)
    requires |msgs| > 0 && msgs[0].kind == hb && msgs[0].payload == Text(t)
    ensures Intake(ResetAsWritten(s, e).0, msgs, now, hb) == Err(NoSetFor(t))
    ensures Poll(ResetAsWritten(s, e).0, msgs, now, hb, plan) == Err(NoSetFor(t))
  {
    var cleared := ResetAsWritten(s, e).0;
    ParseText(t);
    assert msgs[..1][..0] == [];
    assert Intake(cleared, msgs[..1], now, hb) == Admit(cleared, msgs[0], now, hb);
    IntakeFaultSticks(cleared, msgs, now, hb, 1);
  }

  /** With the corrected handler the next poll cannot fault, and afterwards
      each type's set holds exactly the ids that claimed it in the batch. */
  lemma ResetRecovers(s: State, e: BusFailure, msgs: seq<Message>, now: int, hb: int, plan: seq<Snapshot>)
    requires PlanFits(Reset(s, e).0, msgs, now, hb, plan) && OneTypePerId(Reset(s, e).0, msgs, hb)
    ensures Poll(Reset(s, e).0, msgs, now, hb, plan).Ok?
    ensures var out := Poll(Reset(s, e).0, msgs, now, hb, plan).value.state;
      AllKeys(out) && forall t, x :: x in out.members[t] <==> x in Claimants(msgs, hb, t)
  {
    var cleanState := Reset(s, e).0;
    PollMembers(cleanState, msgs, now, hb, plan);
    var out := Poll(cleanState, msgs, now, hb, plan).value.state;
    forall t, x
      ensures x in out.members[t] <==> x in Claimants(msgs, hb, t)
    {
      ClaimantsBeat(msgs, hb, t);
      assert x !in cleanState.members[t];
      assert !Expired(cleanState.lastBeat, x, now);
    }
  }
}
