/** The bookkeeping the participant liveness manager keeps between polls, the
    faults its polling loop can hit, and the invariant under which it cannot. */
module ManagerState {
  import opened ParticipantTypes

  /** Milliseconds a participant may stay silent before it is judged failed. */
  const ExpireTime: int := 3000

  /** The manager's tables.
      - members: the id set of each type (a type may be missing as a key once the
        table has been cleared);
      - mains: the elected main participant of each type that has one;
      - lastBeat: the time of each id's latest heartbeat;
      - ready: the types whose ready event has fired (the flag table, as a set). */
  datatype State = State(
    members: map<ParticipantType, set<int>>,
    mains: map<ParticipantType, int>,
    lastBeat: map<int, int>,
    ready: set<ParticipantType>)

  /** The null dereferences the polling loop can run into. Each one ends the loop. */
  datatype Fault =
    | NoSetFor(t: ParticipantType)   // the type's id set is missing from the table
    | NoHeartbeatFor(id: int)        // a member has no heartbeat entry
    | NoMainFor(t: ParticipantType)  // an expired member's type has no main

  /** A participant-failure event: the type, the id, and whether the id was the
      last member of its type when it was evicted. */
  datatype Failure = Failure(t: ParticipantType, id: int, wasLast: bool)

  /** All four types have an id set. */
  ghost predicate AllKeys(s: State) {
    forall t: ParticipantType :: t in s.members
  }

  /** Every member has a heartbeat entry. */
  ghost predicate Tracked(s: State) {
    forall t, id :: t in s.members && id in s.members[t] ==> id in s.lastBeat
  }

  /** Every type with a member has a main. */
  ghost predicate Led(s: State) {
    forall t :: t in s.members && s.members[t] != {} ==> t in s.mains
  }

  /** The invariant under which a poll cannot fault (given disjoint sets). */
  ghost predicate Inv(s: State) {
    AllKeys(s) && Tracked(s) && Led(s)
  }

  /** No id belongs to the sets of two different types. */
  ghost predicate Disjoint(members: map<ParticipantType, set<int>>) {
    forall t, u, id :: t in members && u in members && t != u && id in members[t] ==> id !in members[u]
  }

  /** The state the manager is constructed with: an empty set and a lowered
      ready flag for each of the four types, no mains, no heartbeats. */
  function Initial(): (s: State)
    ensures Inv(s) && Disjoint(s.members)
    ensures forall t :: t in s.members && s.members[t] == {}
    ensures s.mains == map[] && s.lastBeat == map[] && s.ready == {}
  {
    AllTypesComplete();
    State(map t | t in AllTypes :: {}, map[], map[], {})
  }

  /** Whether `id` is the main participant of some type. */
  function IsMain(mains: map<ParticipantType, int>, id: int): (b: bool)
    ensures b <==> exists t :: t in mains && mains[t] == id
  {
    id in mains.Values
  }
}
