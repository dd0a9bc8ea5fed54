/**
 * The random-event engine of `apply_random_event`: active events are
 * applied and counted down, and a new event is drawn only when none is
 * active.
 */
module Events {
  import opened Wrappers
  import opened Ledger
  import opened Seqs

  /** One row of the events sheet, with the `Active` flag `fetch_events` adds. */
  datatype Event = Event(description: string, impactType: string, impact: Impact, duration: int, active: bool)

  /** What applying an event passes to `apply_impact`. */
  datatype Hit = Hit(impactType: string, impact: Impact)

  function HitOf(e: Event): Hit
  {
    Hit(e.impactType, e.impact)
  }

  /** The first loop on one event: count down if positive, retire at 0 or below. */
  function Decay(e: Event): (r: Event)
    ensures HitOf(r) == HitOf(e) && r.description == e.description
    ensures !e.active ==> r == e
    ensures e.active ==> r.duration == (if e.duration > 0 then e.duration - 1 else e.duration)
    ensures e.active ==> (r.active <==> r.duration > 0)
  {
    if !e.active then e
    else
      var d := if e.duration > 0 then e.duration - 1 else e.duration;
      e.(duration := d, active := d > 0)
  }

  function DecayAll(events: seq<Event>): (r: seq<Event>)
    ensures |r| == |events|
    ensures forall i :: 0 <= i < |events| ==> r[i] == Decay(events[i])
  {
    seq(|events|, i requires 0 <= i < |events| => Decay(events[i]))
  }

  /** The impacts the first loop applies, in list order: active events with duration left. */
  function Fired(events: seq<Event>): (r: seq<Hit>)
    ensures |r| <= ActiveCount(events)
  {
    if events == [] then []
    else (if events[0].active && events[0].duration > 0 then [HitOf(events[0])] else []) + Fired(events[1..])
  }

  predicate AnyActive(events: seq<Event>)
  {
    exists i :: 0 <= i < |events| && events[i].active
  }

  function ActiveCount(events: seq<Event>): nat
  {
    if events == [] then 0 else (if events[0].active then 1 else 0) + ActiveCount(events[1..])
  }

  /** Exactly event `i` is active. */
  predicate SoleActive(events: seq<Event>, i: nat)
  {
    i < |events| && events[i].active && forall j :: 0 <= j < |events| && j != i ==> !events[j].active
  }

  /** The list handed to `random.choice`, as indices: events whose description is not `last_event`. */
  function Candidates(events: seq<Event>, last: Option<string>): (r: seq<nat>)
    ensures forall k :: 0 <= k < |r| ==> r[k] < |events| && Some(events[r[k]].description) != last
    ensures forall i :: 0 <= i < |events| && Some(events[i].description) != last ==> i in r
  {
    if events == [] then []
    else
      var n := |events| - 1;
      var front := Candidates(events[..n], last);
      assert forall i :: 0 <= i < n ==> events[..n][i] == events[i];
      front + (if Some(events[n].description) != last then [n] else [])
  }

  /**
   * What one call returns: the updated events, the impacts applied in
   * order, and the return value (None while an event is still active).
   * `ChoiceFromEmpty` is `random.choice` on an empty list, which raises.
   */
  datatype TickOutcome = Ticked(events: seq<Event>, hits: seq<Hit>, returned: Option<string>) | ChoiceFromEmpty

  /**
   * `apply_random_event(events, player_resources, last_event)`; `choice`
   * stands for `random.choice`, which picks candidate `choice % count`.
   * A re-selected event keeps the duration it was counted down to.
   */
  function Tick(events: seq<Event>, last: Option<string>, choice: nat): (r: TickOutcome)
    ensures r.Ticked? ==> |r.events| == |events| && AnyActive(r.events)
    ensures r.Ticked? && r.returned.Some? ==> r.returned != last
  {
    var decayed := DecayAll(events);
    var hits := Fired(events);
    if AnyActive(decayed) then Ticked(decayed, hits, None)
    else
      var candidates := Candidates(decayed, last);
      if |candidates| == 0 then ChoiceFromEmpty
      else
        var i := candidates[choice % |candidates|];
        var started := decayed[i].(active := true);
        assert decayed[i := started][i].active;
        Ticked(decayed[i := started], hits + [HitOf(started)], Some(started.description))
  }

  /** The resources after `apply_impact` has run for each hit in turn. */
  function ApplyHits(res: Resources, hits: seq<Hit>): (r: Resources)
    requires HasStandard(res)
    ensures r.Keys == res.Keys
  {
    if hits == [] then res
    else ApplyHits(ApplyImpact(res, hits[0].impactType, hits[0].impact), hits[1..])
  }

  /** `main` feeds each call's return value back in as `last_event`. */
  function RunTicks(events: seq<Event>, last: Option<string>, choices: seq<nat>): (r: TickOutcome)
    ensures r.Ticked? ==> |r.events| == |events|
    decreases |choices|
  {
    if choices == [] then Ticked(events, [], last)
    else match Tick(events, last, choices[0])
      case ChoiceFromEmpty => ChoiceFromEmpty
      case Ticked(e1, h1, l1) =>
        match RunTicks(e1, l1, choices[1..])
        case ChoiceFromEmpty => ChoiceFromEmpty
        case Ticked(e2, h2, l2) => Ticked(e2, h1 + h2, l2)
  }

  lemma {:induction false} ActiveCountPositive(events: seq<Event>)
    ensures ActiveCount(events) > 0 <==> AnyActive(events)
  {
    if events != [] {
      ActiveCountPositive(events[1..]);
      if AnyActive(events[1..]) {
        var j :| 0 <= j < |events[1..]| && events[1..][j].active;
        assert events[j + 1].active;
      }
      if AnyActive(events) && !events[0].active {
        var j :| 0 <= j < |events| && events[j].active;
        assert events[1..][j - 1].active;
      }
    }
  }

  lemma {:induction false} DecayNeverActivates(events: seq<Event>)
    ensures ActiveCount(DecayAll(events)) <= ActiveCount(events)
  {
    if events != [] {
      assert DecayAll(events)[1..] == DecayAll(events[1..]);
      DecayNeverActivates(events[1..]);
    }
  }

  lemma {:induction false} ActivateOne(events: seq<Event>, i: nat, e: Event)
    requires ActiveCount(events) == 0 && i < |events| && e.active
    ensures ActiveCount(events[i := e]) == 1
  {
    if i == 0 {
      assert events[i := e][1..] == events[1..];
    } else {
      assert events[i := e][1..] == events[1..][i - 1 := e];
      ActivateOne(events[1..], i - 1, e);
    }
  }

  lemma {:induction false} FiredSole(events: seq<Event>, i: nat)
    requires SoleActive(events, i) && events[i].duration > 0
    ensures Fired(events) == [HitOf(events[i])]
  {
    if i == 0 {
      FiredNone(events[1..]);
    } else {
      assert !events[0].active;
      FiredSole(events[1..], i - 1);
    }
  }

  lemma {:induction false} FiredNone(events: seq<Event>)
    requires forall j :: 0 <= j < |events| ==> !events[j].active
    ensures Fired(events) == []
  {
    if events != [] {
      FiredNone(events[1..]);
    }
  }

  /** If at most one event is active before a call, exactly one is active after it. */
  lemma TickKeepsOneActive(events: seq<Event>, last: Option<string>, choice: nat)
    requires ActiveCount(events) <= 1
    ensures Tick(events, last, choice).Ticked? ==> ActiveCount(Tick(events, last, choice).events) == 1
  {
    var decayed := DecayAll(events);
    DecayNeverActivates(events);
    ActiveCountPositive(decayed);
    if !AnyActive(decayed) {
      var candidates := Candidates(decayed, last);
      if |candidates| > 0 {
        var i := candidates[choice % |candidates|];
        ActivateOne(decayed, i, decayed[i].(active := true));
      }
    }
  }

  /**
   * Per event: an active event with duration left is applied and counted
   * down by one; the only other change a call makes to an event is
   * switching it on as the new event, without touching its duration.
   */
  lemma TickCountsDown(events: seq<Event>, last: Option<string>, choice: nat, i: nat)
    requires i < |events|
    requires Tick(events, last, choice).Ticked?
    ensures var r := Tick(events, last, choice);
      && |r.events| == |events|
      && HitOf(r.events[i]) == HitOf(events[i])
      && r.events[i].description == events[i].description
      && r.events[i].duration == Decay(events[i]).duration
      && (events[i].active && events[i].duration > 0 ==> r.events[i].duration == events[i].duration - 1)
      && (r.events[i].active && !Decay(events[i]).active ==> r.returned == Some(events[i].description))
  {
  }

  /**
   * A new event starts only when no event is left active, is never the
   * one named by `last_event`, and has its impact applied in the same
   * call; while an event is active the call returns None.
   */
  lemma TickStartsOnlyWhenIdle(events: seq<Event>, last: Option<string>, choice: nat)
    requires Tick(events, last, choice).Ticked?
    ensures var r := Tick(events, last, choice);
      && (r.returned.Some? <==> !AnyActive(DecayAll(events)))
      && (r.returned.None? ==> r.events == DecayAll(events) && r.hits == Fired(events))
      && (r.returned.Some? ==>
            && r.returned != last
            && exists i :: 0 <= i < |events| && r.events[i].active
                 && r.events[i].description == r.returned.value
                 && r.hits == Fired(events) + [HitOf(events[i])])
  {
    var r := Tick(events, last, choice);
    var decayed := DecayAll(events);
    if !AnyActive(decayed) {
      var candidates := Candidates(decayed, last);
      var i := candidates[choice % |candidates|];
      assert r.events[i].active && r.events[i].description == r.returned.value;
      assert r.hits == Fired(events) + [HitOf(events[i])];
    }
  }

  /** New draws happen only when no event is active, so the call cannot fail then. */
  lemma TickFailsOnlyWithoutCandidates(events: seq<Event>, last: Option<string>, choice: nat)
    ensures Tick(events, last, choice).ChoiceFromEmpty? <==>
      !AnyActive(DecayAll(events)) && forall i :: 0 <= i < |events| ==> Some(events[i].description) == last
  {
    var decayed := DecayAll(events);
    if !AnyActive(decayed) && |Candidates(decayed, last)| == 0 {
      forall i | 0 <= i < |events| ensures Some(events[i].description) == last {
        assert decayed[i].description == events[i].description;
      }
    }
  }

  /** With the sole active event at duration d > 1, one call applies it, leaves it active at d - 1 and returns None. */
  lemma SoleActiveTick(events: seq<Event>, i: nat, last: Option<string>, choice: nat)
    requires SoleActive(events, i) && events[i].duration > 1
    ensures Tick(events, last, choice) == Ticked(DecayAll(events), [HitOf(events[i])], None)
    ensures SoleActive(DecayAll(events), i)
    ensures DecayAll(events)[i].duration == events[i].duration - 1
    ensures HitOf(DecayAll(events)[i]) == HitOf(events[i])
  {
    FiredSole(events, i);
    assert DecayAll(events)[i].active;
  }

  /** With the sole active event at duration 1, the call applies it, retires it at 0 and then draws. */
  lemma SoleActiveLastTick(events: seq<Event>, i: nat, last: Option<string>, choice: nat)
    requires SoleActive(events, i) && events[i].duration == 1
    ensures var t := Tick(events, last, choice);
      t.Ticked? ==>
        && |t.hits| >= 1 && t.hits[0] == HitOf(events[i])
        && t.events[i].duration == 0
        && (t.events[i].active ==> t.returned == Some(events[i].description))
  {
    FiredSole(events, i);
    assert !AnyActive(DecayAll(events));
    if Tick(events, last, choice).Ticked? {
      TickCountsDown(events, last, choice, i);
    }
  }

  /** While the sole active event has duration left, each call applies it once and counts it down. */
  lemma {:induction false} SoleActiveRun(events: seq<Event>, i: nat, last: Option<string>, choices: seq<nat>)
    requires SoleActive(events, i) && |choices| < events[i].duration
    ensures var r := RunTicks(events, last, choices);
      && r.Ticked?
      && SoleActive(r.events, i)
      && r.events[i].duration == events[i].duration - |choices|
      && HitOf(r.events[i]) == HitOf(events[i])
      && r.hits == Repeat(HitOf(events[i]), |choices|)
    decreases |choices|
  {
    if choices != [] {
      SoleActiveTick(events, i, last, choices[0]);
      SoleActiveRun(DecayAll(events), i, None, choices[1..]);
      RepeatCons(HitOf(events[i]), |choices| - 1);
    }
  }

  /** A run is its first call followed by the rest of the run. */
  lemma RunTicksFirst(events: seq<Event>, last: Option<string>, choices: seq<nat>, e1: seq<Event>, h1: seq<Hit>, l1: Option<string>)
    requires choices != [] && Tick(events, last, choices[0]) == Ticked(e1, h1, l1)
    ensures var r := RunTicks(events, last, choices);
      var r2 := RunTicks(e1, l1, choices[1..]);
      && (r.Ticked? <==> r2.Ticked?)
      && (r.Ticked? ==> r.events == r2.events && r.hits == h1 + r2.hits && r.returned == r2.returned)
  {
  }

  /** The last call of the lifetime: a run of one call at duration 1. */
  lemma SoleActiveLastRun(events: seq<Event>, i: nat, last: Option<string>, choices: seq<nat>)
    requires SoleActive(events, i) && events[i].duration == 1 && |choices| == 1
    ensures var r := RunTicks(events, last, choices);
      r.Ticked? ==>
        && |r.hits| >= 1
        && r.hits[..1] == Repeat(HitOf(events[i]), 1)
        && r.events[i].duration == 0
        && (r.events[i].active ==> r.returned == Some(events[i].description))
  {
    SoleActiveLastTick(events, i, last, choices[0]);
    var t := Tick(events, last, choices[0]);
    if t.Ticked? {
      RunTicksFirst(events, last, choices, t.events, t.hits, t.returned);
      assert choices[1..] == [];
      assert t.hits + [] == t.hits;
    }
  }

  /**
   * An event that is the only active one with duration d >= 1 is applied
   * on each of the next d calls and then has duration 0; it is active
   * after them only if the d-th call drew it again as the new event.
   */
  lemma {:induction false} SoleActiveLifetime(events: seq<Event>, i: nat, last: Option<string>, choices: seq<nat>)
    requires SoleActive(events, i) && events[i].duration >= 1 && |choices| == events[i].duration
    ensures var r := RunTicks(events, last, choices);
      r.Ticked? ==>
        && |r.hits| >= |choices|
        && r.hits[..|choices|] == Repeat(HitOf(events[i]), |choices|)
        && r.events[i].duration == 0
        && (r.events[i].active ==> r.returned == Some(events[i].description))
    decreases |choices|
  {
    if events[i].duration == 1 {
      SoleActiveLastRun(events, i, last, choices);
    } else {
      SoleActiveTick(events, i, last, choices[0]);
      var decayed := DecayAll(events);
      var hit := HitOf(events[i]);
      RunTicksFirst(events, last, choices, decayed, [hit], None);
      SoleActiveLifetime(decayed, i, None, choices[1..]);
      var r2 := RunTicks(decayed, None, choices[1..]);
      assert decayed[i].description == events[i].description;
      if r2.Ticked? {
        assert ([hit] + r2.hits)[..|choices|] == [hit] + r2.hits[..|choices| - 1];
        RepeatCons(hit, |choices| - 1);
      }
    }
  }

  /** Fired, read one event at a time from the front of the list. */
  lemma {:induction false} FiredSnoc(events: seq<Event>, e: Event)
    ensures Fired(events + [e]) == Fired(events) + (if e.active && e.duration > 0 then [HitOf(e)] else [])
  {
    if events != [] {
      assert (events + [e])[1..] == events[1..] + [e];
      FiredSnoc(events[1..], e);
    } else {
      assert [e][1..] == [];
    }
  }

  /** Applying a list of hits and then one more is applying the longer list. */
  lemma {:induction false} ApplyHitsSnoc(res: Resources, hits: seq<Hit>, h: Hit)
    requires HasStandard(res)
    ensures HasStandard(ApplyHits(res, hits))
    ensures ApplyHits(res, hits + [h]) == ApplyImpact(ApplyHits(res, hits), h.impactType, h.impact)
  {
    if hits != [] {
      assert (hits + [h])[1..] == hits[1..] + [h];
      ApplyHitsSnoc(ApplyImpact(res, hits[0].impactType, hits[0].impact), hits[1..], h);
    }
  }

  /** The events with the first `i` counted down and the rest as they were. */
  function PartlyDecayed(events: seq<Event>, i: nat): (r: seq<Event>)
    ensures |r| == |events|
  {
    seq(|events|, j requires 0 <= j < |events| => if j < i then Decay(events[j]) else events[j])
  }

  /** One step of the first loop: count event `i` down and, if it fires, apply its hit. */
  lemma CountDownStep(events: seq<Event>, i: nat)
    requires i < |events|
    ensures PartlyDecayed(events, i)[i] == events[i]
    ensures PartlyDecayed(events, i + 1) == PartlyDecayed(events, i)[i := Decay(events[i])]
    ensures events[i].active && events[i].duration > 0 ==>
      Fired(events[..i + 1]) == Fired(events[..i]) + [HitOf(events[i])]
    ensures !(events[i].active && events[i].duration > 0) ==> Fired(events[..i + 1]) == Fired(events[..i])
  {
    assert events[..i + 1] == events[..i] + [events[i]];
    FiredSnoc(events[..i], events[i]);
    assert Fired(events[..i]) + [] == Fired(events[..i]);
  }

  lemma CountDownDone(events: seq<Event>)
    ensures PartlyDecayed(events, |events|) == DecayAll(events)
    ensures events[..|events|] == events
  {
  }
}
