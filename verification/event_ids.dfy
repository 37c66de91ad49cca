/** `EventHelper.GetEventId`: one id per event type, drawn on first request
    from a process-wide counter that starts at 1000 and is incremented
    before use. Only the sequential behaviour is modelled. */
module EventHelper {
  import Int32

  /** The identity of a runtime `Type`. */
  type TypeTag = nat

  /** `s_NextEventId` (the last id handed out) and `s_EventIdByType`. */
  datatype EventIdRegistry = EventIdRegistry(nextEventId: int, idByType: map<TypeTag, int>)

  const Initial: EventIdRegistry := EventIdRegistry(1000, map[])

  /** No id handed out lies above the counter. */
  ghost predicate IdsBounded(reg: EventIdRegistry) {
    forall t :: t in reg.idByType ==> reg.idByType[t] <= reg.nextEventId
  }

  /** The registry has not wrapped: every id issued lies in
      (1000, nextEventId], and no two types share one. */
  ghost predicate Valid(reg: EventIdRegistry) {
    && 1000 <= reg.nextEventId <= Int32.MaxValue
    && (forall t :: t in reg.idByType ==> 1000 < reg.idByType[t] <= reg.nextEventId)
    && (forall t, u :: t in reg.idByType && u in reg.idByType && t != u ==> reg.idByType[t] != reg.idByType[u])
  }

  /** `GetOrAdd(eventType, _ => Interlocked.Increment(ref s_NextEventId))`. */
  function GetEventId(reg: EventIdRegistry, t: TypeTag): (r: (EventIdRegistry, int))
    requires Int32.InRange(reg.nextEventId)
    ensures t in reg.idByType ==> r == (reg, reg.idByType[t])
    ensures t !in reg.idByType ==> && r.1 == Int32.Increment(reg.nextEventId)
                                   && r.0 == EventIdRegistry(r.1, reg.idByType[t := r.1])
    ensures t in r.0.idByType && r.0.idByType[t] == r.1
    ensures Int32.InRange(r.0.nextEventId)
  {
    if t in reg.idByType then (reg, reg.idByType[t])
    else
      var id := Int32.Increment(reg.nextEventId);
      (EventIdRegistry(id, reg.idByType[t := id]), id)
  }

  /** The very first id is 1001. */
  lemma FirstIdIs1001(t: TypeTag)
    ensures GetEventId(Initial, t).1 == 1001
    ensures Valid(Initial)
  {
  }

  /** Asking again for the same type returns the same id and changes nothing. */
  lemma GetEventIdIsMemoised(reg: EventIdRegistry, t: TypeTag)
    requires Int32.InRange(reg.nextEventId)
    ensures var (reg1, id) := GetEventId(reg, t);
            GetEventId(reg1, t) == (reg1, id)
  {
  }

  /** Before the counter reaches `int.MaxValue`, each request keeps the
      registry valid, and the counter moves exactly when the type is new. */
  lemma GetEventIdKeepsValid(reg: EventIdRegistry, t: TypeTag)
    requires Valid(reg) && reg.nextEventId < Int32.MaxValue
    ensures Valid(GetEventId(reg, t).0)
    ensures GetEventId(reg, t).0.nextEventId == reg.nextEventId + (if t in reg.idByType then 0 else 1)
  {
  }

  /** A run of requests, in order; the ids handed out, one per request. The
      counter plus the number of requests in the run must stay within
      `int.MaxValue`, so that no request can wrap it. */
  function GetEventIds(reg: EventIdRegistry, ts: seq<TypeTag>): (r: (EventIdRegistry, seq<int>))
    requires Int32.MinValue <= reg.nextEventId && reg.nextEventId + |ts| <= Int32.MaxValue
    ensures |r.1| == |ts|
    ensures reg.nextEventId <= r.0.nextEventId <= reg.nextEventId + |ts|
    ensures forall t :: t in reg.idByType ==> t in r.0.idByType && r.0.idByType[t] == reg.idByType[t]
    ensures forall i :: 0 <= i < |ts| ==> ts[i] in r.0.idByType && r.0.idByType[ts[i]] == r.1[i]
    ensures forall i :: 0 <= i < |ts| && ts[i] !in reg.idByType ==> r.1[i] > reg.nextEventId
    decreases |ts|
  {
    if ts == [] then (reg, [])
    else
      var (reg1, id) := GetEventId(reg, ts[0]);
      var (reg2, ids) := GetEventIds(reg1, ts[1..]);
      (reg2, [id] + ids)
  }

  /** A run keeps the registry valid. */
  lemma {:induction false} GetEventIdsKeepsValid(reg: EventIdRegistry, ts: seq<TypeTag>)
    requires Valid(reg) && reg.nextEventId + |ts| <= Int32.MaxValue
    ensures Valid(GetEventIds(reg, ts).0)
    decreases |ts|
  {
    if ts != [] {
      GetEventIdKeepsValid(reg, ts[0]);
      GetEventIdsKeepsValid(GetEventId(reg, ts[0]).0, ts[1..]);
    }
  }

  /** Two requests of a run get the same id exactly when they name the same
      type. */
  lemma SameIdIffSameType(reg: EventIdRegistry, ts: seq<TypeTag>, i: nat, j: nat)
    requires Valid(reg) && reg.nextEventId + |ts| <= Int32.MaxValue
    requires i < |ts| && j < |ts|
    ensures GetEventIds(reg, ts).1[i] == GetEventIds(reg, ts).1[j] <==> ts[i] == ts[j]
  {
    GetEventIdsKeepsValid(reg, ts);
    var (reg1, ids) := GetEventIds(reg, ts);
    assert ts[i] in reg1.idByType && reg1.idByType[ts[i]] == ids[i];
    assert ts[j] in reg1.idByType && reg1.idByType[ts[j]] == ids[j];
  }

  /** One step of a run: the first request, then the rest from the
      registry it leaves. */
  lemma UnfoldGetEventIds(reg: EventIdRegistry, ts: seq<TypeTag>)
    requires Int32.MinValue <= reg.nextEventId && reg.nextEventId + |ts| <= Int32.MaxValue && |ts| > 0
    requires IdsBounded(reg)
    ensures var (reg1, id) := GetEventId(reg, ts[0]);
            && IdsBounded(reg1) && Int32.MinValue <= reg1.nextEventId && reg1.nextEventId + |ts[1..]| <= Int32.MaxValue
            && id <= reg1.nextEventId
            && GetEventIds(reg, ts).1 == [id] + GetEventIds(reg1, ts[1..]).1
            && (forall t :: t !in reg1.idByType ==> t !in reg.idByType && t != ts[0])
  {
  }

  /** A request that is new to a whole run is new to the run's tail and to
      the registry the first request leaves. */
  lemma NewStaysNew(reg: EventIdRegistry, ts: seq<TypeTag>, j: nat)
    requires Int32.InRange(reg.nextEventId)
    requires 0 < j < |ts|
    requires ts[j] !in reg.idByType && ts[j] !in ts[..j]
    ensures ts[1..][j - 1] !in GetEventId(reg, ts[0]).0.idByType
    ensures ts[1..][j - 1] !in ts[1..][..j - 1]
  {
    var before := ts[1..][..j - 1];
    assert ts[..j][0] == ts[0];
    forall k | 0 <= k < j - 1 ensures before[k] != ts[j] {
      assert before[k] == ts[..j][k + 1];
    }
  }

  /** A type asked for the first time gets an id above every id handed out
      before it in the run: ids grow in order of first request. */
  lemma {:induction false} NewTypeGetsLargerId(reg: EventIdRegistry, ts: seq<TypeTag>, i: nat, j: nat)
    requires Int32.MinValue <= reg.nextEventId && reg.nextEventId + |ts| <= Int32.MaxValue
    requires IdsBounded(reg)
    requires i < j < |ts|
    requires ts[j] !in reg.idByType && ts[j] !in ts[..j]
    ensures GetEventIds(reg, ts).1[i] < GetEventIds(reg, ts).1[j]
    decreases |ts|
  {
    UnfoldGetEventIds(reg, ts);
    NewStaysNew(reg, ts, j);
    var (reg1, id0) := GetEventId(reg, ts[0]);
    var rest := GetEventIds(reg1, ts[1..]).1;
    assert GetEventIds(reg, ts).1 == [id0] + rest;
    if i == 0 {
      assert rest[j - 1] > reg1.nextEventId >= id0;
    } else {
      NewTypeGetsLargerId(reg1, ts[1..], i - 1, j - 1);
      assert rest[i - 1] < rest[j - 1];
    }
  }
}

/** `GameEventArgs.Id`: a nullable `m_Id` filled in from `EventHelper` on
    first read. The field starts at `0`, not `null`. */
module GameEventIds {
  import opened Common
  import Int32
  import opened EventHelper

  /** The part of a `GameEventArgs` instance the getter touches. */
  datatype GameEventArgs = GameEventArgs(eventType: TypeTag, cachedId: Option<int>)

  /** A newly constructed instance of any subclass: `m_Id = 0`. */
  function New(eventType: TypeTag): (e: GameEventArgs)
    ensures e.cachedId == Some(0)
  {
    GameEventArgs(eventType, Some(0))
  }

  /** The `Id` getter: on a `null` cache, look the id up and store it;
      return the cached value. */
  function ReadId(e: GameEventArgs, reg: EventIdRegistry): (r: (GameEventArgs, EventIdRegistry, int))
    requires Int32.InRange(reg.nextEventId)
    ensures e.cachedId.Some? ==> r == (e, reg, e.cachedId.value)
    ensures e.cachedId.None? ==> && r.2 == GetEventId(reg, e.eventType).1
                                 && r.1 == GetEventId(reg, e.eventType).0
                                 && r.0 == e.(cachedId := Some(r.2))
    ensures r.0.cachedId == Some(r.2) && Int32.InRange(r.1.nextEventId)
  {
    if e.cachedId.None? then
      var (reg1, id) := GetEventId(reg, e.eventType);
      (e.(cachedId := Some(id)), reg1, id)
    else (e, reg, e.cachedId.value)
  }

  /** Reading twice gives the same id, and the second read changes nothing. */
  lemma ReadIdIsStable(e: GameEventArgs, reg: EventIdRegistry)
    requires Int32.InRange(reg.nextEventId)
    ensures var (e1, reg1, id) := ReadId(e, reg);
            ReadId(e1, reg1) == (e1, reg1, id)
  {
  }

  /** `n` reads one after another: the instance, the registry, and the ids
      read. Only the first read can change anything, and every read returns
      what the first one did. */
  function ReadIdTimes(e: GameEventArgs, reg: EventIdRegistry, n: nat): (r: (GameEventArgs, EventIdRegistry, seq<int>))
    requires Int32.InRange(reg.nextEventId)
    ensures |r.2| == n
    ensures n == 0 ==> r.0 == e && r.1 == reg
    ensures n > 0 ==> r.0 == ReadId(e, reg).0 && r.1 == ReadId(e, reg).1
    ensures forall i :: 0 <= i < n ==> r.2[i] == ReadId(e, reg).2
    decreases n
  {
    if n == 0 then (e, reg, [])
    else
      var (e1, reg1, id) := ReadId(e, reg);
      var (e2, reg2, ids) := ReadIdTimes(e1, reg1, n - 1);
      (e2, reg2, [id] + ids)
  }

  /** On an instance of any event type, every read returns 0 and neither the
      instance nor the registry changes: the lookup branch is never taken. */
  lemma {:induction false} NewInstanceAlwaysReadsZero(eventType: TypeTag, reg: EventIdRegistry, n: nat)
    requires Int32.InRange(reg.nextEventId)
    ensures var (e1, reg1, ids) := ReadIdTimes(New(eventType), reg, n);
            e1 == New(eventType) && reg1 == reg && forall i :: 0 <= i < n ==> ids[i] == 0
  {
    if n > 0 {
      NewInstanceAlwaysReadsZero(eventType, reg, n - 1);
    }
  }
}
