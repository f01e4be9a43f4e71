/** The first half of one polling iteration: every fetched message is looked
    at in order; heartbeats update the tables, other messages are forwarded
    when their sender is the main participant of some type at that moment. */
module MessageIntake {
  import opened Wrappers
  import opened ParticipantTypes
  import opened Messages
  import opened ManagerState

  /** The tables after some messages, with the messages forwarded so far. */
  datatype Batch = Batch(state: State, forwarded: seq<Message>)

  /** The type a message claims for its sender: the parsed payload of a
      heartbeat, nothing for any other message. */
  function Claim(m: Message, hb: int): Option<ParticipantType> {
    if m.kind == hb then Parse(m.payload) else None
  }

  /** Handles one message. A heartbeat whose payload names a type adds the
      sender to that type's set and makes it main if the type has none; every
      heartbeat stamps the sender with `now`. Any other message is forwarded
      iff its sender is currently main for some type. */
  function Admit(s: State, m: Message, now: int, hb: int): (r: Result<Batch, Fault>)
    ensures r.Err? <==> m.kind == hb && Parse(m.payload).Some? && Parse(m.payload).value !in s.members
    ensures r.Ok? ==> && r.value.state.ready == s.ready
                      && r.value.state.members.Keys == s.members.Keys
                      && |r.value.forwarded| <= 1
                      && (r.value.forwarded != [] ==> m.kind != hb && IsMain(s.mains, m.sender))
  {
    if m.kind == hb then
      var beats := s.lastBeat[m.sender := now];
      match Parse(m.payload)
      case None => Ok(Batch(s.(lastBeat := beats), []))
      case Some(t) =>
        if t !in s.members then Err(NoSetFor(t))
        else
          var mains := if t in s.mains then s.mains else s.mains[t := m.sender];
          Ok(Batch(s.(members := s.members[t := s.members[t] + {m.sender}],
                      mains := mains,
                      lastBeat := beats), []))
    else if IsMain(s.mains, m.sender) then Ok(Batch(s, [m]))
    else Ok(Batch(s, []))
  }

  /** Handles the messages in order, left to right. */
  function Intake(s: State, msgs: seq<Message>, now: int, hb: int): (r: Result<Batch, Fault>)
    ensures r.Ok? ==> && r.value.state.ready == s.ready
                      && r.value.state.members.Keys == s.members.Keys
                      && |r.value.forwarded| <= |msgs|
    decreases |msgs|
  {
    if msgs == [] then Ok(Batch(s, []))
    else
      var before :- Intake(s, msgs[..|msgs| - 1], now, hb);
      var after :- Admit(before.state, msgs[|msgs| - 1], now, hb);
      Ok(Batch(after.state, before.forwarded + after.forwarded))
  }

  // ---------------------------------------------------------------------------
  // Reference definitions, stated over the whole message list

  /** The ids that claim type `t` somewhere in `msgs`. */
  ghost function Claimants(msgs: seq<Message>, hb: int, t: ParticipantType): set<int> {
    set j | 0 <= j < |msgs| && Claim(msgs[j], hb) == Some(t) :: msgs[j].sender
  }

  /** The ids that send a heartbeat somewhere in `msgs`, whatever its payload. */
  ghost function BeatSenders(msgs: seq<Message>, hb: int): set<int> {
    set j | 0 <= j < |msgs| && msgs[j].kind == hb :: msgs[j].sender
  }

  /** Message `j` is the first in `msgs` to claim type `t`. */
  ghost predicate FirstClaim(msgs: seq<Message>, hb: int, j: int, t: ParticipantType) {
    && 0 <= j < |msgs|
    && Claim(msgs[j], hb) == Some(t)
    && forall i :: 0 <= i < j ==> Claim(msgs[i], hb) != Some(t)
  }

  /** After `msgs`, starting from the mains `mains`, `id` is main of some type:
      it already was, or it sent the first claim for a type that had no main. */
  ghost predicate ElectedBy(mains: map<ParticipantType, int>, msgs: seq<Message>, hb: int, id: int) {
    || (exists t :: t in mains && mains[t] == id)
    || (exists j, t :: t !in mains && FirstClaim(msgs, hb, j, t) && msgs[j].sender == id)
  }

  /** The batch a poll should forward: the non-heartbeat messages, in order,
      whose sender was elected by the messages before them. */
  ghost function ExpectedBatch(mains: map<ParticipantType, int>, msgs: seq<Message>, hb: int): (r: seq<Message>)
    ensures forall m :: m in r ==> m in msgs && m.kind != hb
    decreases |msgs|
  {
    if msgs == [] then []
    else
      var prefix := msgs[..|msgs| - 1];
      var m := msgs[|msgs| - 1];
      ExpectedBatch(mains, prefix, hb) + (if m.kind != hb && ElectedBy(mains, prefix, hb, m.sender) then [m] else [])
  }

  /** A list with a claim for `t` has a first one. */
  lemma {:induction false} FirstClaimExists(msgs: seq<Message>, hb: int, t: ParticipantType, i: int)
    requires 0 <= i < |msgs| && Claim(msgs[i], hb) == Some(t)
    ensures exists j :: FirstClaim(msgs, hb, j, t)
    decreases i
  {
    if exists i' :: 0 <= i' < i && Claim(msgs[i'], hb) == Some(t) {
      var i' :| 0 <= i' < i && Claim(msgs[i'], hb) == Some(t);
      FirstClaimExists(msgs, hb, t, i');
    } else {
      assert FirstClaim(msgs, hb, i, t);
    }
  }

  // ---------------------------------------------------------------------------
  // Properties of the intake

  /** With all four sets present the intake cannot fault; it keeps the set of
      types and the ready flags, and it keeps the invariant. */
  lemma {:induction false} IntakeOk(s: State, msgs: seq<Message>, now: int, hb: int)
    requires AllKeys(s)
    ensures Intake(s, msgs, now, hb).Ok?
    ensures var s' := Intake(s, msgs, now, hb).value.state;
      s'.members.Keys == s.members.Keys && s'.ready == s.ready && s.mains.Keys <= s'.mains.Keys
    ensures Inv(s) ==> Inv(Intake(s, msgs, now, hb).value.state)
    decreases |msgs|
  {
    if msgs != [] {
      IntakeOk(s, msgs[..|msgs| - 1], now, hb);
    }
  }

  /** One message, spelled out component by component. */
  lemma AdmitFacts(s: State, m: Message, now: int, hb: int)
    requires AllKeys(s)
    ensures Admit(s, m, now, hb).Ok?
    ensures var a := Admit(s, m, now, hb).value;
      && a.state.ready == s.ready
      && a.state.lastBeat == (if m.kind == hb then s.lastBeat[m.sender := now] else s.lastBeat)
      && (forall t :: a.state.members[t] == s.members[t] + (if Claim(m, hb) == Some(t) then {m.sender} else {}))
      && (forall t :: t in a.state.mains <==> t in s.mains || Claim(m, hb) == Some(t))
      && (forall t :: t in s.mains ==> a.state.mains[t] == s.mains[t])
      && (forall t :: t !in s.mains && Claim(m, hb) == Some(t) ==> a.state.mains[t] == m.sender)
      && a.forwarded == (if m.kind != hb && IsMain(s.mains, m.sender) then [m] else [])
  {
  }

  /** The intake of a non-empty list is the intake of its prefix followed by
      its last message. */
  lemma IntakeUnfold(s: State, msgs: seq<Message>, now: int, hb: int)
    requires AllKeys(s) && msgs != []
    ensures Intake(s, msgs[..|msgs| - 1], now, hb).Ok?
    ensures var b := Intake(s, msgs[..|msgs| - 1], now, hb).value;
      AllKeys(b.state) && Admit(b.state, msgs[|msgs| - 1], now, hb).Ok?
      && Intake(s, msgs, now, hb)
         == Ok(Batch(Admit(b.state, msgs[|msgs| - 1], now, hb).value.state,
                     b.forwarded + Admit(b.state, msgs[|msgs| - 1], now, hb).value.forwarded))
  {
    IntakeOk(s, msgs[..|msgs| - 1], now, hb);
    AdmitFacts(Intake(s, msgs[..|msgs| - 1], now, hb).value.state, msgs[|msgs| - 1], now, hb);
  }

  /** The claimants of a non-empty list are those of its prefix plus the
      sender of its last message, if that message claims the type. */
  lemma ClaimantsLast(msgs: seq<Message>, hb: int, t: ParticipantType, id: int)
    requires msgs != []
    ensures var n := |msgs| - 1;
      (id in Claimants(msgs, hb, t)
       <==> id in Claimants(msgs[..n], hb, t) || (Claim(msgs[n], hb) == Some(t) && id == msgs[n].sender))
  {
    var n := |msgs| - 1;
    var prefix := msgs[..n];
    if id in Claimants(msgs, hb, t) {
      var j :| 0 <= j < |msgs| && Claim(msgs[j], hb) == Some(t) && msgs[j].sender == id;
      if j < n {
        assert Claim(prefix[j], hb) == Some(t) && prefix[j].sender == id;
      }
    }
    if id in Claimants(prefix, hb, t) {
      var j :| 0 <= j < |prefix| && Claim(prefix[j], hb) == Some(t) && prefix[j].sender == id;
      assert Claim(msgs[j], hb) == Some(t) && msgs[j].sender == id;
    }
    if Claim(msgs[n], hb) == Some(t) && id == msgs[n].sender {
      assert id in Claimants(msgs, hb, t);
    }
  }

  /** Each type's set grows by exactly the senders that claim it. */
  lemma {:induction false} IntakeMembers(s: State, msgs: seq<Message>, now: int, hb: int)
    requires AllKeys(s)
    ensures Intake(s, msgs, now, hb).Ok? && AllKeys(Intake(s, msgs, now, hb).value.state)
    ensures forall t, id :: id in Intake(s, msgs, now, hb).value.state.members[t] <==> id in s.members[t] || id in Claimants(msgs, hb, t)
    decreases |msgs|
  {
    IntakeOk(s, msgs, now, hb);
    if msgs != [] {
      var n := |msgs| - 1;
      var prefix := msgs[..n];
      IntakeUnfold(s, msgs, now, hb);
      IntakeMembers(s, prefix, now, hb);
      var b := Intake(s, prefix, now, hb).value;
      AdmitFacts(b.state, msgs[n], now, hb);
      var a := Admit(b.state, msgs[n], now, hb).value;
      assert Intake(s, msgs, now, hb).value.state == a.state;
      forall t, id
        ensures id in a.state.members[t] <==> id in s.members[t] || id in Claimants(msgs, hb, t)
      {
        ClaimantsLast(msgs, hb, t, id);
        assert a.state.members[t] == b.state.members[t] + (if Claim(msgs[n], hb) == Some(t) then {msgs[n].sender} else {});
        assert id in b.state.members[t] <==> id in s.members[t] || id in Claimants(prefix, hb, t);
      }
    }
  }

  /** The heartbeat senders of a non-empty list are those of its prefix plus
      the sender of its last message, if that message is a heartbeat. */
  lemma BeatSendersLast(msgs: seq<Message>, hb: int)
    requires msgs != []
    ensures var n := |msgs| - 1;
      BeatSenders(msgs, hb) == BeatSenders(msgs[..n], hb) + (if msgs[n].kind == hb then {msgs[n].sender} else {})
  {
    var n := |msgs| - 1;
    assert forall j :: 0 <= j < n ==> msgs[..n][j] == msgs[j];
  }

  /** Every heartbeat, typed or not, stamps its sender with `now`; no other
      entry changes. */
  lemma {:induction false} IntakeBeats(s: State, msgs: seq<Message>, now: int, hb: int)
    requires AllKeys(s)
    ensures Intake(s, msgs, now, hb).Ok?
    ensures var beats := Intake(s, msgs, now, hb).value.state.lastBeat;
      && (forall id :: id in beats <==> id in s.lastBeat || id in BeatSenders(msgs, hb))
      && (forall id :: id in BeatSenders(msgs, hb) ==> beats[id] == now)
      && (forall id :: id in s.lastBeat && id !in BeatSenders(msgs, hb) ==> beats[id] == s.lastBeat[id])
    decreases |msgs|
  {
    IntakeOk(s, msgs, now, hb);
    if msgs != [] {
      var n := |msgs| - 1;
      var prefix := msgs[..n];
      IntakeUnfold(s, msgs, now, hb);
      IntakeBeats(s, prefix, now, hb);
      var b := Intake(s, prefix, now, hb).value;
      AdmitFacts(b.state, msgs[n], now, hb);
      BeatSendersLast(msgs, hb);
    }
  }

  /** How the first claim of a type changes when one message is appended:
      earlier first claims stay, and the new message is the first claim iff
      it claims the type and nothing before it did. */
  lemma FirstClaimLast(msgs: seq<Message>, hb: int, t: ParticipantType)
    requires msgs != []
    ensures var n := |msgs| - 1;
      && (forall j :: 0 <= j < n ==> (FirstClaim(msgs, hb, j, t) <==> FirstClaim(msgs[..n], hb, j, t)))
      && (FirstClaim(msgs, hb, n, t)
          <==> Claim(msgs[n], hb) == Some(t) && !exists j :: FirstClaim(msgs[..n], hb, j, t))
  {
    var n := |msgs| - 1;
    var prefix := msgs[..n];
    assert forall j :: 0 <= j < n ==> prefix[j] == msgs[j];
    if Claim(msgs[n], hb) == Some(t) && exists j :: FirstClaim(prefix, hb, j, t) {
      var j :| FirstClaim(prefix, hb, j, t);
      assert !FirstClaim(msgs, hb, n, t) by { assert Claim(msgs[j], hb) == Some(t); }
    }
    if Claim(msgs[n], hb) == Some(t) && !FirstClaim(msgs, hb, n, t) {
      var i :| 0 <= i < n && Claim(msgs[i], hb) == Some(t);
      assert Claim(prefix[i], hb) == Some(t);
      FirstClaimExists(prefix, hb, t, i);
    }
  }

  /** The election facts of `IntakeMains` for `mains`, starting from `base`. */
  ghost predicate Elected(base: map<ParticipantType, int>, msgs: seq<Message>, hb: int, mains: map<ParticipantType, int>) {
    && (forall t :: t in mains <==> t in base || exists j :: FirstClaim(msgs, hb, j, t))
    && (forall t :: t in base ==> t in mains && mains[t] == base[t])
    && (forall t, j :: t !in base && FirstClaim(msgs, hb, j, t) ==> t in mains && mains[t] == msgs[j].sender)
  }

  /** One induction step of `IntakeMains`: if the mains before the last
      message were elected by the prefix and the last message was admitted,
      the mains after it are elected by the whole list. */
  lemma MainsStep(base: map<ParticipantType, int>, msgs: seq<Message>, hb: int,
                  before: map<ParticipantType, int>, after: map<ParticipantType, int>)
    requires msgs != []
    requires Elected(base, msgs[..|msgs| - 1], hb, before)
    requires forall t :: t in after <==> t in before || Claim(msgs[|msgs| - 1], hb) == Some(t)
    requires forall t :: t in before ==> after[t] == before[t]
    requires forall t :: t !in before && Claim(msgs[|msgs| - 1], hb) == Some(t) ==> after[t] == msgs[|msgs| - 1].sender
    ensures Elected(base, msgs, hb, after)
  {
    var n := |msgs| - 1;
    var prefix := msgs[..n];
    forall t
      ensures t in after <==> t in base || exists j :: FirstClaim(msgs, hb, j, t)
    {
      FirstClaimLast(msgs, hb, t);
      if exists j :: FirstClaim(msgs, hb, j, t) {
        var j :| FirstClaim(msgs, hb, j, t);
        if j < n {
          assert FirstClaim(prefix, hb, j, t);
        }
      }
    }
    forall t, j | t !in base && FirstClaim(msgs, hb, j, t)
      ensures t in after && after[t] == msgs[j].sender
    {
      FirstClaimLast(msgs, hb, t);
      if j < n {
        assert FirstClaim(prefix, hb, j, t);
      }
    }
  }

  /** Election: a type that had a main keeps it; a type without one gets the
      sender of its first claim, and no main at all if nothing claims it. */
  lemma {:induction false} IntakeMains(s: State, msgs: seq<Message>, now: int, hb: int)
    requires AllKeys(s)
    ensures Intake(s, msgs, now, hb).Ok?
    ensures Elected(s.mains, msgs, hb, Intake(s, msgs, now, hb).value.state.mains)
    decreases |msgs|
  {
    IntakeOk(s, msgs, now, hb);
    if msgs != [] {
      var n := |msgs| - 1;
      IntakeUnfold(s, msgs, now, hb);
      IntakeMains(s, msgs[..n], now, hb);
      var b := Intake(s, msgs[..n], now, hb).value;
      AdmitFacts(b.state, msgs[n], now, hb);
      var a := Admit(b.state, msgs[n], now, hb).value;
      assert Intake(s, msgs, now, hb).value.state == a.state;
      MainsStep(s.mains, msgs, hb, b.state.mains, a.state.mains);
    }
  }

  /** The main ids after an intake are exactly the elected ones. */
  lemma IntakeElected(s: State, msgs: seq<Message>, now: int, hb: int, id: int)
    requires AllKeys(s)
    ensures Intake(s, msgs, now, hb).Ok?
    ensures IsMain(Intake(s, msgs, now, hb).value.state.mains, id) <==> ElectedBy(s.mains, msgs, hb, id)
  {
    IntakeMains(s, msgs, now, hb);
    var mains := Intake(s, msgs, now, hb).value.state.mains;
    if IsMain(mains, id) {
      var t :| t in mains && mains[t] == id;
      if t !in s.mains {
        var j :| FirstClaim(msgs, hb, j, t);
        assert msgs[j].sender == id;
      }
    }
    if ElectedBy(s.mains, msgs, hb, id) {
      if exists j, t :: t !in s.mains && FirstClaim(msgs, hb, j, t) && msgs[j].sender == id {
        var j, t :| t !in s.mains && FirstClaim(msgs, hb, j, t) && msgs[j].sender == id;
        assert mains[t] == id;
      } else {
        var t :| t in s.mains && s.mains[t] == id;
        assert mains[t] == id;
      }
    }
  }

  /** The forwarded batch is exactly the reference batch. */
  lemma {:induction false} IntakeForwarded(s: State, msgs: seq<Message>, now: int, hb: int)
    requires AllKeys(s)
    ensures Intake(s, msgs, now, hb).Ok?
    ensures Intake(s, msgs, now, hb).value.forwarded == ExpectedBatch(s.mains, msgs, hb)
    decreases |msgs|
  {
    IntakeOk(s, msgs, now, hb);
    if msgs != [] {
      var n := |msgs| - 1;
      IntakeForwarded(s, msgs[..n], now, hb);
      IntakeElected(s, msgs[..n], now, hb, msgs[n].sender);
    }
  }
}
