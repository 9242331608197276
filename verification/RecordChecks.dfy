/**
 Two checks of a finished record: no two rows share a key, and every terminal
 event agrees with the observations it summarizes.

 Both stream their input once into a growing collection; each is proved against
 a statement about the whole input that mentions no order of reading.
*/
module RecordChecks {
  import opened Wrappers

  // Unique keys

  type Key = seq<string>

  predicate Repeats(keys: seq<Key>, j: nat)
    requires j < |keys|
  {
    exists i :: 0 <= i < j && keys[i] == keys[j]
  }

  /** The first key that repeats an earlier one, if any does. */
  method CheckUnique(keys: seq<Key>) returns (repeated: Option<Key>)
    ensures repeated.None? <==> forall i, j :: 0 <= i < j < |keys| ==> keys[i] != keys[j]
    ensures repeated.Some? ==>
      exists j :: 0 <= j < |keys| && keys[j] == repeated.value && Repeats(keys, j) &&
                  forall k :: 0 <= k < j ==> !Repeats(keys, k)
  {
    var seen: set<Key> := {};
    for n := 0 to |keys|
      invariant forall key :: key in seen <==> key in keys[..n]
      invariant forall j :: 0 <= j < n ==> !Repeats(keys, j)
    {
      if keys[n] in seen {
        assert Repeats(keys, n) by {
          var i :| 0 <= i < n && keys[..n][i] == keys[n];
          assert keys[i] == keys[n];
        }
        return Some(keys[n]);
      }
      assert !Repeats(keys, n) by {
        forall i | 0 <= i < n
          ensures keys[i] != keys[n]
        {
          assert keys[..n][i] == keys[i];
        }
      }
      assert keys[..n + 1] == keys[..n] + [keys[n]];
      seen := seen + {keys[n]};
    }
    assert forall i, j :: 0 <= i < j < |keys| && keys[i] == keys[j] ==> Repeats(keys, j);
    repeated := None;
  }

  // Terminal events

  /** A line of `events.jsonl`, with the fields that could be read. */
  datatype Event =
    | Observation(unit: Option<string>, t: Option<real>)
    | Terminal(unit: Option<string>, t: Option<real>, censored: Option<bool>, budget: Option<real>)
    | Other

  predicate WellFormed(e: Event) {
    match e
    case Observation(unit, t) => unit.Some? && t.Some?
    case Terminal(unit, t, censored, _) => unit.Some? && t.Some? && censored.Some?
    case Other => true
  }

  predicate Observes(e: Event, unit: string, t: real) {
    e == Observation(Some(unit), Some(t))
  }

  /** The latest time at which a unit was observed. */
  ghost predicate LatestOf(events: seq<Event>, unit: string, t: real) {
    && (exists e :: e in events && Observes(e, unit, t))
    && forall e :: e in events && e.Observation? && e.unit == Some(unit) && e.t.Some? ==> e.t.value <= t
  }

  /** A terminal event falls on the latest observation of its unit, and on its budget if it was cut off there. */
  ghost predicate Agrees(events: seq<Event>, e: Event)
    requires e.Terminal? && WellFormed(e)
  {
    LatestOf(events, e.unit.value, e.t.value) && (e.censored.value ==> e.budget == e.t)
  }

  ghost predicate Consistent(events: seq<Event>) {
    && (forall e :: e in events ==> WellFormed(e))
    && (forall e :: e in events && e.Terminal? && WellFormed(e) ==> Agrees(events, e))
  }

  /** Consistency is about which events there are, not about their order or repetition. */
  lemma ConsistentIgnoresOrder(a: seq<Event>, b: seq<Event>)
    requires forall e :: e in a <==> e in b
    ensures Consistent(a) <==> Consistent(b)
  {
    forall unit, t
      ensures LatestOf(a, unit, t) <==> LatestOf(b, unit, t)
    {
    }
    forall e | e in a && e.Terminal? && WellFormed(e)
      ensures Agrees(a, e) <==> Agrees(b, e)
    {
    }
  }

  /** The latest observation of each unit so far. */
  ghost predicate Latest(events: seq<Event>, last: map<string, real>) {
    && (forall e :: e in events ==> WellFormed(e))
    && (forall unit :: unit in last ==> LatestOf(events, unit, last[unit]))
    && (forall e :: e in events && e.Observation? ==> e.unit.value in last)
  }

  lemma AfterObservation(events: seq<Event>, last: map<string, real>, unit: string, t: real)
    requires Latest(events, last)
    ensures Latest(events + [Observation(Some(unit), Some(t))],
        last[unit := if unit in last && t <= last[unit] then last[unit] else t])
  {
    var e := Observation(Some(unit), Some(t));
    var more := events + [e];
    var next := last[unit := if unit in last && t <= last[unit] then last[unit] else t];
    assert e in more && forall f :: f in events ==> f in more;
    forall u | u in next
      ensures LatestOf(more, u, next[u])
    {
      if u in last { assert LatestOf(events, u, last[u]); }
      if u == unit && next[u] == t { assert Observes(e, unit, t); }
    }
  }

  /** Reads the events once, then judges every terminal event among them. */
  method CheckTerminalEvents(events: seq<Event>) returns (ok: bool)
    ensures ok <==> Consistent(events)
  {
    var last: map<string, real> := map[];
    var terminals: seq<Event> := [];
    for i := 0 to |events|
      invariant Latest(events[..i], last)
      invariant forall e :: e in terminals <==> e in events[..i] && e.Terminal?
    {
      var e := events[i];
      assert events[..i + 1] == events[..i] + [e];
      if !WellFormed(e) { return false; }
      match e
      case Observation(unit, t) =>
        AfterObservation(events[..i], last, unit.value, t.value);
        last := last[unit.value := if unit.value in last && t.value <= last[unit.value] then last[unit.value]
            else t.value];
      case Terminal(_, _, _, _) =>
        terminals := terminals + [e];
      case Other =>
    }
    assert events[..|events|] == events;
    for i := 0 to |terminals|
      invariant forall k :: 0 <= k < i ==> Agrees(events, terminals[k])
    {
      var e := terminals[i];
      if e.unit.value !in last || e.t.value != last[e.unit.value] { return false; }
      if e.censored.value && e.budget != e.t { return false; }
    }
    ok := true;
  }
}
