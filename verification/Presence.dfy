/**
 * The presence monitor: the trust map from tracked identities to their "seen" flag,
 * one poll cycle over an enumeration result, and what runs of cycles do.
 */
module Presence {
  import opened Outcomes
  import opened Device

  /** What one cycle does to one tracked identity: its new flag, and whether the action fires. */
  datatype KeyStep = KeyStep(seen: bool, fire: bool)

  /**
   * The trigger protocol for one tracked identity: arm when seen present, fire and disarm
   * when armed and absent, otherwise nothing.
   */
  function Transition(seen: bool, present: bool): (r: KeyStep)
    ensures r.seen == present                // the flag afterwards records presence
    ensures r.fire <==> seen && !present     // only an armed, absent identity fires
  {
    if !seen && present then KeyStep(true, false)
    else if seen && !present then KeyStep(false, true)
    else KeyStep(seen, false)
  }

  /** The identities of the attached devices that are tracked: the keys of `cur`. */
  function Snapshot(keys: set<Triplet>, devices: seq<DeviceInfo>): (cur: set<Triplet>)
    ensures cur <= keys
  {
    set d | d in devices && ToDeviceTriplet(d) in keys :: ToDeviceTriplet(d)
  }

  /** The flags after a cycle that saw the tracked identities `cur`. */
  function NextFlags(flags: map<Triplet, bool>, cur: set<Triplet>): (next: map<Triplet, bool>)
    ensures next.Keys == flags.Keys
  {
    map k | k in flags :: Transition(flags[k], k in cur).seen
  }

  /** The identities a cycle that saw `cur` fires the action for. */
  function FiredKeys(flags: map<Triplet, bool>, cur: set<Triplet>): (fired: set<Triplet>)
    ensures fired <= flags.Keys
  {
    set k | k in flags && Transition(flags[k], k in cur).fire
  }

  /** The flags after one cycle; None is a failed enumeration. */
  function Step(flags: map<Triplet, bool>, devices: Option<seq<DeviceInfo>>): (next: map<Triplet, bool>)
    ensures next.Keys == flags.Keys
    ensures devices.Some? ==> forall k | k in next :: next[k] == (k in Snapshot(flags.Keys, devices.value))
  {
    match devices
    case None => flags
    case Some(ds) => NextFlags(flags, Snapshot(flags.Keys, ds))
  }

  /** The identities one cycle fires the action for. */
  function StepFired(flags: map<Triplet, bool>, devices: Option<seq<DeviceInfo>>): (fired: set<Triplet>)
    ensures fired <= flags.Keys
    ensures devices.None? ==> fired == {}
    ensures forall k | k in fired :: flags[k]  // only armed identities fire
  {
    match devices
    case None => {}
    case Some(ds) => FiredKeys(flags, Snapshot(flags.Keys, ds))
  }

  /** Per-key rules of a successful cycle. */
  lemma CycleRules(flags: map<Triplet, bool>, ds: seq<DeviceInfo>, k: Triplet)
    requires k in flags
    ensures var cur := Snapshot(flags.Keys, ds);
      // arm on present: a tracked device that is attached is seen afterwards and does not fire
      && (k in cur ==> Step(flags, Some(ds))[k] && k !in StepFired(flags, Some(ds)))
      // trigger and disarm: an armed device that is absent fires and is disarmed
      && (flags[k] && k !in cur ==> k in StepFired(flags, Some(ds)) && !Step(flags, Some(ds))[k])
      // never seen: an unarmed absent device stays unarmed and does not fire
      && (!flags[k] && k !in cur ==> !Step(flags, Some(ds))[k] && k !in StepFired(flags, Some(ds)))
  {
  }

  /** After a successful cycle a flag says exactly whether the device was attached. */
  lemma SeenIffPresent(flags: map<Triplet, bool>, ds: seq<DeviceInfo>, k: Triplet)
    requires k in flags
    ensures Step(flags, Some(ds))[k] <==> exists d | d in ds :: ToDeviceTriplet(d) == k
  {
    if exists d | d in ds :: ToDeviceTriplet(d) == k {
      var d :| d in ds && ToDeviceTriplet(d) == k;
      assert k in Snapshot(flags.Keys, ds);
    }
  }

  /** One firing per armed absent identity: with n of them the action runs n times. */
  lemma FiredAreArmedAbsent(flags: map<Triplet, bool>, ds: seq<DeviceInfo>)
    ensures StepFired(flags, Some(ds)) == set k | k in flags && flags[k] && k !in Snapshot(flags.Keys, ds)
  {
  }

  /** A failed enumeration changes no flag and fires nothing. */
  lemma FailedCycleChangesNothing(flags: map<Triplet, bool>)
    ensures Step(flags, None) == flags && StepFired(flags, None) == {}
  {
  }

  /** Attached devices that are not tracked make no difference to a cycle. */
  lemma UntrackedDevicesIgnored(flags: map<Triplet, bool>, ds: seq<DeviceInfo>, more: seq<DeviceInfo>)
    requires forall d | d in ds :: d in more
    requires forall d | d in more && d !in ds :: ToDeviceTriplet(d) !in flags
    ensures Step(flags, Some(more)) == Step(flags, Some(ds))
    ensures StepFired(flags, Some(more)) == StepFired(flags, Some(ds))
  {
    assert Snapshot(flags.Keys, more) == Snapshot(flags.Keys, ds);
  }

  /** The flags after a run of cycles, one enumeration result per cycle. */
  function Run(flags: map<Triplet, bool>, inputs: seq<Option<seq<DeviceInfo>>>): (r: map<Triplet, bool>)
    ensures r.Keys == flags.Keys  // the set of tracked identities never changes
    decreases |inputs|
  {
    if |inputs| == 0 then flags
    else Step(Run(flags, inputs[..|inputs| - 1]), inputs[|inputs| - 1])
  }

  /** How many times a run fires the action, over all identities. */
  function TotalFires(flags: map<Triplet, bool>, inputs: seq<Option<seq<DeviceInfo>>>): nat
    decreases |inputs|
  {
    if |inputs| == 0 then 0
    else
      var before := inputs[..|inputs| - 1];
      TotalFires(flags, before) + |StepFired(Run(flags, before), inputs[|inputs| - 1])|
  }

  /** How many times a run fires the action for identity k. */
  function Fires(flags: map<Triplet, bool>, inputs: seq<Option<seq<DeviceInfo>>>, k: Triplet): nat
    decreases |inputs|
  {
    if |inputs| == 0 then 0
    else
      var before := inputs[..|inputs| - 1];
      Fires(flags, before, k) + if k in StepFired(Run(flags, before), inputs[|inputs| - 1]) then 1 else 0
  }

  /** How many times a run arms identity k: its flag goes from false to true. */
  function Arms(flags: map<Triplet, bool>, inputs: seq<Option<seq<DeviceInfo>>>, k: Triplet): nat
    decreases |inputs|
  {
    if |inputs| == 0 then 0
    else
      var before := inputs[..|inputs| - 1];
      var m := Run(flags, before);
      var m' := Step(m, inputs[|inputs| - 1]);
      Arms(flags, before, k) + if k in m && !m[k] && k in m' && m'[k] then 1 else 0
  }

  /**
   * The action fires exactly once per attach-then-detach: every arming of k is matched
   * by one firing, except an arming still pending at the end of the run.
   */
  lemma {:induction false} OneFirePerArming(flags: map<Triplet, bool>, inputs: seq<Option<seq<DeviceInfo>>>, k: Triplet)
    requires k in flags
    ensures Fires(flags, inputs, k) + (if Run(flags, inputs)[k] then 1 else 0)
         == Arms(flags, inputs, k) + (if flags[k] then 1 else 0)
    decreases |inputs|
  {
    if |inputs| > 0 {
      var before := inputs[..|inputs| - 1];
      OneFirePerArming(flags, before, k);
    }
  }

  /** An identity that is unarmed at the start and never attached never fires and stays unarmed. */
  lemma {:induction false} NeverAttachedNeverFires(flags: map<Triplet, bool>, inputs: seq<Option<seq<DeviceInfo>>>, k: Triplet)
    requires k in flags && !flags[k]
    requires forall i, d | 0 <= i < |inputs| && inputs[i].Some? && d in inputs[i].value :: ToDeviceTriplet(d) != k
    ensures Fires(flags, inputs, k) == 0 && !Run(flags, inputs)[k]
    decreases |inputs|
  {
    if |inputs| > 0 {
      var before := inputs[..|inputs| - 1];
      assert forall i | 0 <= i < |before| :: before[i] == inputs[i];
      NeverAttachedNeverFires(flags, before, k);
      var last := inputs[|inputs| - 1];
      if last.Some? {
        assert k !in Snapshot(Run(flags, before).Keys, last.value);
      }
    }
  }

  /** A failed enumeration between two cycles leaves the flags as if it had not happened. */
  lemma {:induction false} FailedEnumerationFlags(
    flags: map<Triplet, bool>, a: seq<Option<seq<DeviceInfo>>>, b: seq<Option<seq<DeviceInfo>>>)
    ensures Run(flags, a + [None] + b) == Run(flags, a + b)
    decreases |b|
  {
    var with, without := a + [None] + b, a + b;
    if |b| == 0 {
      assert with == a + [None] && with[..|a|] == a;
      assert without == a;
    } else {
      var b' := b[..|b| - 1];
      assert with[..|with| - 1] == a + [None] + b' && with[|with| - 1] == b[|b| - 1];
      assert without[..|without| - 1] == a + b' && without[|without| - 1] == b[|b| - 1];
      FailedEnumerationFlags(flags, a, b');
    }
  }

  /** A failed enumeration between two cycles changes no firing count either. */
  lemma {:induction false} FailedEnumerationInvisible(
    flags: map<Triplet, bool>, a: seq<Option<seq<DeviceInfo>>>, b: seq<Option<seq<DeviceInfo>>>)
    ensures TotalFires(flags, a + [None] + b) == TotalFires(flags, a + b)
    ensures forall k :: Fires(flags, a + [None] + b, k) == Fires(flags, a + b, k)
    decreases |b|
  {
    var with, without := a + [None] + b, a + b;
    if |b| == 0 {
      assert with == a + [None] && with[..|a|] == a;
      assert without == a;
    } else {
      var b' := b[..|b| - 1];
      assert with[..|with| - 1] == a + [None] + b' && with[|with| - 1] == b[|b| - 1];
      assert without[..|without| - 1] == a + b' && without[|without| - 1] == b[|b| - 1];
      FailedEnumerationFlags(flags, a, b');
      FailedEnumerationInvisible(flags, a, b');
    }
  }

  /** A run split in two is the second part run from where the first part left off. */
  lemma {:induction false} RunAppend(
    flags: map<Triplet, bool>, a: seq<Option<seq<DeviceInfo>>>, b: seq<Option<seq<DeviceInfo>>>, k: Triplet)
    ensures Run(flags, a + b) == Run(Run(flags, a), b)
    ensures Fires(flags, a + b, k) == Fires(flags, a, k) + Fires(Run(flags, a), b, k)
    decreases |b|
  {
    if |b| == 0 {
      assert a + b == a;
    } else {
      var b' := b[..|b| - 1];
      RunAppend(flags, a, b', k);
      assert (a + b)[..|a + b| - 1] == a + b';
    }
  }

  /** A tracked device that is attached and then removed fires once and ends disarmed. */
  lemma AttachThenDetach(flags: map<Triplet, bool>, d: DeviceInfo)
    requires ToDeviceTriplet(d) in flags
    ensures var inputs := [Some([d]), Some([])];
      Fires(flags, inputs, ToDeviceTriplet(d)) == 1 && !Run(flags, inputs)[ToDeviceTriplet(d)]
  {
    var k := ToDeviceTriplet(d);
    var inputs: seq<Option<seq<DeviceInfo>>> := [Some([d]), Some([])];
    assert Snapshot(flags.Keys, [d]) == {k};
    CycleRules(flags, [d], k);
    assert inputs[..1][..0] == [] && inputs[..1] == [Some([d])];
    var r1 := Run(flags, inputs[..1]);
    assert r1 == Step(flags, Some([d]));
    assert r1[k] && Fires(flags, inputs[..1], k) == 0;
    assert Snapshot(r1.Keys, []) == {};
    CycleRules(r1, [], k);
  }

  /** An unarmed device that stays away does not fire and stays unarmed. */
  lemma StaysAway(flags: map<Triplet, bool>, k: Triplet)
    requires k in flags && !flags[k]
    ensures Fires(flags, [Some([])], k) == 0 && !Run(flags, [Some([])])[k]
  {
    var inputs: seq<Option<seq<DeviceInfo>>> := [Some([])];
    assert inputs[..0] == [];
    assert Snapshot(flags.Keys, []) == {};
    CycleRules(flags, [], k);
  }

  /**
   * Rearm: a device attached, removed, left away, reattached and removed again fires the
   * action exactly twice, and is disarmed at the end.
   */
  lemma Rearm(flags: map<Triplet, bool>, d: DeviceInfo)
    requires ToDeviceTriplet(d) in flags
    ensures var inputs := [Some([d]), Some([]), Some([]), Some([d]), Some([])];
      Fires(flags, inputs, ToDeviceTriplet(d)) == 2 && !Run(flags, inputs)[ToDeviceTriplet(d)]
  {
    var k := ToDeviceTriplet(d);
    var cycle: seq<Option<seq<DeviceInfo>>> := [Some([d]), Some([])];
    var away: seq<Option<seq<DeviceInfo>>> := [Some([])];
    assert cycle + away + cycle == [Some([d]), Some([]), Some([]), Some([d]), Some([])];
    AttachThenDetach(flags, d);
    StaysAway(Run(flags, cycle), k);
    RunAppend(flags, cycle, away, k);
    AttachThenDetach(Run(flags, cycle + away), d);
    RunAppend(flags, cycle + away, cycle, k);
  }

  /**
   * The running monitor: the trust map and the number of times the configured command has
   * been run so far.
   */
  class Monitor {
    var triggers: map<Triplet, bool>
    var actions: nat
    ghost const tracked: set<Triplet>

    /** The tracked identities are fixed when the monitor starts. */
    ghost predicate Valid()
      reads this
    {
      triggers.Keys == tracked
    }

    constructor (initial: map<Triplet, bool>)
      ensures Valid() && tracked == initial.Keys
      ensures triggers == initial && actions == 0
    {
      triggers := initial;
      actions := 0;
      tracked := initial.Keys;
    }

    /** Runs the configured command once; its outcome is not observed. */
    method Fire()
      modifies this`actions
      ensures actions == old(actions) + 1
    {
      actions := actions + 1;
    }

    /**
     * One poll cycle: record the tracked devices that are attached and arm them, then fire
     * and disarm every armed identity that is not attached. A failed enumeration does nothing.
     * The result is the identities the action was fired for, one entry per firing.
     */
    method Cycle(devices: Option<seq<DeviceInfo>>) returns (fired: multiset<Triplet>)
      requires Valid()
      modifies this
      ensures Valid()
      ensures triggers == Step(old(triggers), devices)
      ensures fired == multiset(StepFired(old(triggers), devices))
      ensures actions == old(actions) + |fired|
    {
      fired := multiset{};
      if devices.None? {
        return;
      }
      var cur := ArmPresent(devices.value);
      fired := FireAbsent(cur);
    }

    /**
     * The first loop of a cycle: the tracked identities among the attached devices, each
     * of which is now armed; no other flag changes.
     */
    method ArmPresent(ds: seq<DeviceInfo>) returns (cur: set<Triplet>)
      requires Valid()
      modifies this`triggers
      ensures Valid()
      ensures cur == Snapshot(old(triggers).Keys, ds)
      ensures forall k | k in triggers :: triggers[k] == (old(triggers)[k] || k in cur)
    {
      cur := {};
      for i := 0 to |ds|
        invariant Valid()
        invariant cur == Snapshot(old(triggers).Keys, ds[..i])
        invariant forall k | k in triggers :: triggers[k] == (old(triggers)[k] || k in cur)
      {
        SnapshotExtend(old(triggers).Keys, ds, i);
        var deviceTriplet := ToDeviceTriplet(ds[i]);
        if deviceTriplet in triggers {
          cur := cur + {deviceTriplet};
          if !triggers[deviceTriplet] {
            triggers := triggers[deviceTriplet := true];
          }
        }
      }
      assert ds[..|ds|] == ds;
    }

    /**
     * The second loop of a cycle, over the tracked identities in any order: every armed
     * identity outside `cur` fires the action once and is disarmed.
     */
    method FireAbsent(cur: set<Triplet>) returns (fired: multiset<Triplet>)
      requires Valid()
      modifies this
      ensures Valid()
      ensures triggers == Disarmed(old(triggers), cur, {})
      ensures fired == multiset(ArmedAbsent(old(triggers), cur))
      ensures actions == old(actions) + |fired|
    {
      fired := multiset{};
      ghost var due := ArmedAbsent(triggers, cur);
      var todo := triggers.Keys;
      while todo != {}
        invariant Valid() && todo <= triggers.Keys
        invariant triggers == Disarmed(old(triggers), cur, todo)
        invariant fired == multiset(due - todo)
        invariant actions == old(actions) + |fired|
        decreases todo
      {
        var key :| key in todo;
        ghost var before := fired;
        DisarmStep(old(triggers), cur, todo, key);
        var fire := Visit(key, cur);
        if fire {
          fired := fired + multiset{key};
        }
        todo := todo - {key};
        FiredStep(due, todo, key, before, fired);
      }
    }

    /** One step of the second loop: an armed identity that is not attached fires and is disarmed. */
    method Visit(key: Triplet, cur: set<Triplet>) returns (fire: bool)
      requires Valid() && key in triggers
      modifies this
      ensures Valid()
      ensures fire <==> old(triggers)[key] && key !in cur
      ensures triggers == if fire then old(triggers)[key := false] else old(triggers)
      ensures actions == old(actions) + if fire then 1 else 0
    {
      var seen := triggers[key];
      fire := seen && key !in cur;
      if fire {
        Fire();
        triggers := triggers[key := false];
      }
    }

    /**
     * The poll loop for as many cycles as there are enumeration results. The result holds
     * every identity the action was fired for, once per firing.
     */
    method Poll(inputs: seq<Option<seq<DeviceInfo>>>) returns (all: multiset<Triplet>)
      requires Valid()
      modifies this
      ensures Valid()
      ensures triggers == Run(old(triggers), inputs)
      ensures actions == old(actions) + TotalFires(old(triggers), inputs)
      ensures |all| == TotalFires(old(triggers), inputs)
      ensures forall k :: all[k] == Fires(old(triggers), inputs, k)
    {
      all := multiset{};
      for i := 0 to |inputs|
        invariant Valid()
        invariant triggers == Run(old(triggers), inputs[..i])
        invariant actions == old(actions) + TotalFires(old(triggers), inputs[..i])
        invariant |all| == TotalFires(old(triggers), inputs[..i])
        invariant forall k :: all[k] == Fires(old(triggers), inputs[..i], k)
      {
        assert inputs[..i + 1][..i] == inputs[..i];
        var fired := Cycle(inputs[i]);
        all := all + fired;
      }
      assert inputs[..|inputs|] == inputs;
    }
  }

  /** The armed identities that are not in `cur`. */
  function ArmedAbsent(flags: map<Triplet, bool>, cur: set<Triplet>): set<Triplet>
  {
    set k | k in flags && flags[k] && k !in cur
  }

  /** The flags once every identity outside `todo` has been visited by the second loop. */
  function Disarmed(flags: map<Triplet, bool>, cur: set<Triplet>, todo: set<Triplet>): map<Triplet, bool>
  {
    map k | k in flags :: if k in todo then flags[k] else flags[k] && k in cur
  }

  /** Visiting one more identity disarms it when it is armed and absent, and changes nothing else. */
  lemma DisarmStep(flags: map<Triplet, bool>, cur: set<Triplet>, todo: set<Triplet>, key: Triplet)
    requires key in todo && key in flags
    ensures Disarmed(flags, cur, todo)[key] == flags[key]
    ensures Disarmed(flags, cur, todo - {key}) ==
      if flags[key] && key !in cur then Disarmed(flags, cur, todo)[key := false] else Disarmed(flags, cur, todo)
  {
    var m := Disarmed(flags, cur, todo);
    if !(flags[key] && key !in cur) {
      assert Disarmed(flags, cur, todo - {key}) == m[key := m[key]];
      assert m[key := m[key]] == m;
    }
  }

  /** Moving one identity out of the work list extends the fired multiset by it when it is due. */
  lemma FiredStep(due: set<Triplet>, todo: set<Triplet>, key: Triplet, before: multiset<Triplet>, after: multiset<Triplet>)
    requires key !in todo
    requires before == multiset(due - (todo + {key}))
    requires after == if key in due then before + multiset{key} else before
    ensures after == multiset(due - todo)
    ensures |after| == |before| + if key in due then 1 else 0
  {
    if key in due {
      assert due - todo == (due - (todo + {key})) + {key};
    } else {
      assert due - todo == due - (todo + {key});
    }
  }

  /** The snapshot of one more device adds that device's identity when it is tracked. */
  lemma SnapshotExtend(keys: set<Triplet>, ds: seq<DeviceInfo>, i: nat)
    requires i < |ds|
    ensures Snapshot(keys, ds[..i + 1])
         == Snapshot(keys, ds[..i]) + (if ToDeviceTriplet(ds[i]) in keys then {ToDeviceTriplet(ds[i])} else {})
  {
    assert ds[..i + 1] == ds[..i] + [ds[i]];
  }
}
