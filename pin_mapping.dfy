/**
 * The pin-mapping step of the front end: the user declares virtual components
 * and binds each of their named slots to one of the GPIO pins the run used.
 * The step tracks which used pins are still unclaimed, offers those (plus the
 * slot's own pin) in each slot's drop-down, and lets playback start once every
 * used pin has an owner.
 */
module PinMapping {
  import opened Wrappers

  /** The component kinds the mapping step offers. */
  datatype Kind = Led | Buzzer | Ultrasonic | SevenSegment

  /**
   * The slot names the mapping form uses as keys: `pin` for single-pin
   * components, `trig`/`echo` for the ultrasonic sensor, `Segment(i)` for the
   * i-th of the display's segments `a, b, c, d, e, f, g, dp`, and `Digit(i)`
   * for its digit selects `d1`..`d4`.
   */
  datatype Slot = Pin | Trig | Echo | Segment(index: nat) | Digit(index: nat)

  /** A declared component: its id, its kind and its filled pin slots. */
  datatype Component = Component(id: string, kind: Kind, pins: map<Slot, int>)

  /** Some slot of some component holds `p`. */
  ghost predicate Held(components: seq<Component>, p: int) {
    exists i, k :: 0 <= i < |components| && k in components[i].pins && components[i].pins[k] == p
  }

  /** The pins held by the slots of all components. */
  function Assigned(components: seq<Component>): (r: set<int>)
    ensures forall p :: p in r <==> Held(components, p)
    decreases |components|
  {
    if components == [] then {}
    else
      var n := |components| - 1;
      var r := Assigned(components[..n]) + components[n].pins.Values;
      assert forall p :: Held(components, p) ==> Held(components[..n], p) || p in components[n].pins.Values by {
        forall p | Held(components, p)
          ensures Held(components[..n], p) || p in components[n].pins.Values
        {
          var i, k :| 0 <= i < |components| && k in components[i].pins && components[i].pins[k] == p;
          if i < n {
            assert components[..n][i] == components[i];
          }
        }
      }
      assert forall p :: Held(components[..n], p) ==> Held(components, p) by {
        forall p | Held(components[..n], p)
          ensures Held(components, p)
        {
          var i, k :| 0 <= i < n && k in components[..n][i].pins && components[..n][i].pins[k] == p;
          assert components[i] == components[..n][i];
        }
      }
      assert forall p :: p in components[n].pins.Values ==> Held(components, p) by {
        forall p | p in components[n].pins.Values
          ensures Held(components, p)
        {
          var k :| k in components[n].pins && components[n].pins[k] == p;
        }
      }
      r
  }

  /** `used` without the pins in `claimed`, in the order of `used`. */
  function Unclaimed(used: seq<int>, claimed: set<int>): (r: seq<int>)
    ensures |r| <= |used|
    ensures forall p :: p in r <==> p in used && p !in claimed
    decreases |used|
  {
    if used == [] then []
    else
      var n := |used| - 1;
      Unclaimed(used[..n], claimed) + Kept(used[n], claimed)
  }

  /** `p` unless somebody holds it. */
  function Kept(p: int, claimed: set<int>): seq<int> {
    if p in claimed then [] else [p]
  }

  /** The filter works on each part of the list separately, so the kept pins stay in the order of the used pins. */
  lemma {:induction false} UnclaimedAppend(first: seq<int>, second: seq<int>, claimed: set<int>)
    ensures Unclaimed(first + second, claimed) == Unclaimed(first, claimed) + Unclaimed(second, claimed)
    decreases |second|
  {
    if second == [] {
      assert first + second == first;
    } else {
      var n := |second| - 1;
      UnclaimedAppend(first, second[..n], claimed);
      SplitLast(first, second);
      UnclaimedSnoc(first + second[..n], second[n], claimed);
      UnclaimedSnoc(second[..n], second[n], claimed);
      ConcatAssoc(Unclaimed(first, claimed), Unclaimed(second[..n], claimed), Kept(second[n], claimed));
    }
  }

  /** Splitting off the last element of the second part of a concatenation. */
  lemma SplitLast<T>(first: seq<T>, second: seq<T>)
    requires second != []
    ensures first + second == (first + second[..|second| - 1]) + [second[|second| - 1]]
    ensures second == second[..|second| - 1] + [second[|second| - 1]]
  {
  }

  lemma ConcatAssoc<T>(a: seq<T>, b: seq<T>, c: seq<T>)
    ensures a + b + c == a + (b + c)
  {
  }

  /** One more used pin adds itself to the end of the filter, unless somebody holds it. */
  lemma UnclaimedSnoc(used: seq<int>, p: int, claimed: set<int>)
    ensures Unclaimed(used + [p], claimed) == Unclaimed(used, claimed) + Kept(p, claimed)
  {
    assert (used + [p])[..|used|] == used;
  }

  /** A single pin is kept exactly when nobody holds it. */
  lemma UnclaimedOne(p: int, claimed: set<int>)
    ensures Unclaimed([p], claimed) == if p in claimed then [] else [p]
  {
    assert [p][..0] == [];
  }

  /** The first available pin is the first used pin nobody holds. */
  lemma {:induction false} UnclaimedFirst(used: seq<int>, claimed: set<int>)
    requires Unclaimed(used, claimed) != []
    ensures exists i :: 0 <= i < |used| && used[i] == Unclaimed(used, claimed)[0] && used[i] !in claimed &&
                        forall j :: 0 <= j < i ==> used[j] in claimed
    decreases |used|
  {
    var n := |used| - 1;
    var front := used[..n];
    if Unclaimed(front, claimed) != [] {
      UnclaimedFirst(front, claimed);
      var i :| 0 <= i < |front| && front[i] == Unclaimed(front, claimed)[0] && front[i] !in claimed &&
               forall j :: 0 <= j < i ==> front[j] in claimed;
      assert used[i] == Unclaimed(used, claimed)[0];
      assert forall j :: 0 <= j < i ==> used[j] == front[j];
    } else {
      forall j | 0 <= j < n
        ensures used[j] in claimed
      {
        assert front[j] in front;
      }
      assert Unclaimed(used, claimed) == [used[n]];
    }
  }

  /** The set of pins held by some slot, gathered component by component. */
  method CollectAssigned(components: seq<Component>) returns (claimed: set<int>)
    ensures claimed == Assigned(components)
  {
    claimed := {};
    var i := 0;
    while i < |components|
      invariant 0 <= i <= |components|
      invariant claimed == Assigned(components[..i])
    {
      assert components[..i + 1][..i] == components[..i];
      claimed := claimed + components[i].pins.Values;
      i := i + 1;
    }
    assert components[..i] == components;
  }

  /** The available-pins effect: the used pins that no slot holds, in their original order. */
  method AvailablePins(usedPins: seq<int>, components: seq<Component>) returns (available: seq<int>)
    ensures available == Unclaimed(usedPins, Assigned(components))
  {
    var claimed := CollectAssigned(components);
    available := [];
    var j := 0;
    while j < |usedPins|
      invariant 0 <= j <= |usedPins|
      invariant available == Unclaimed(usedPins[..j], claimed)
    {
      assert usedPins[..j + 1][..j] == usedPins[..j];
      if usedPins[j] !in claimed {
        available := available + [usedPins[j]];
      }
      j := j + 1;
    }
    assert usedPins[..j] == usedPins;
  }

  /** Playback may start only when every used pin is held by some slot. */
  method IsConfigValid(usedPins: seq<int>, components: seq<Component>) returns (ok: bool)
    ensures ok <==> forall j :: 0 <= j < |usedPins| ==> Held(components, usedPins[j])
  {
    var claimed := CollectAssigned(components);
    ok := true;
    var j := 0;
    while j < |usedPins| && ok
      invariant 0 <= j <= |usedPins|
      invariant ok <==> forall i :: 0 <= i < j ==> usedPins[i] in claimed
    {
      ok := usedPins[j] in claimed;
      j := j + 1;
    }
  }

  /** The configuration is valid exactly when no used pin is left available. */
  lemma ValidIffNothingAvailable(usedPins: seq<int>, components: seq<Component>)
    ensures Unclaimed(usedPins, Assigned(components)) == [] <==>
            forall j :: 0 <= j < |usedPins| ==> Held(components, usedPins[j])
  {
    var r := Unclaimed(usedPins, Assigned(components));
    if r != [] {
      assert r[0] in r;
    }
    if exists j :: 0 <= j < |usedPins| && !Held(components, usedPins[j]) {
      var j :| 0 <= j < |usedPins| && !Held(components, usedPins[j]);
      assert usedPins[j] in r;
    }
  }

  /** The pins the clock wiring uses for the segments `a`..`dp` and the digit selects `d1`..`d4`. */
  const StandardSegments: seq<int> := [2, 3, 4, 17, 27, 22, 10, 9]
  const StandardDigits: seq<int> := [11, 5, 6, 13]

  /** Every standard segment and digit pin was used by the run. */
  predicate StandardWiringUsed(usedPins: seq<int>) {
    (forall p :: p in StandardSegments ==> p in usedPins) &&
    (forall p :: p in StandardDigits ==> p in usedPins)
  }

  /** `pins` binds exactly the twelve display slots, each to its standard pin. */
  predicate StandardLayout(pins: map<Slot, int>) {
    && pins.Keys == (set i | 0 <= i < 8 :: Segment(i)) + (set i | 0 <= i < 4 :: Digit(i))
    && (forall i :: 0 <= i < 8 ==> pins[Segment(i)] == StandardSegments[i])
    && (forall i :: 0 <= i < 4 ==> pins[Digit(i)] == StandardDigits[i])
  }

  /** The slots a newly added component starts with. */
  predicate StartingPins(kind: Kind, usedPins: seq<int>, availablePins: seq<int>, pins: map<Slot, int>) {
    match kind
    case SevenSegment => if StandardWiringUsed(usedPins) then StandardLayout(pins) else pins == map[]
    case Ultrasonic => pins == map[]
    case _ => pins == if |availablePins| > 0 then map[Pin := availablePins[0]] else map[]
  }

  /** The display's first `forEach`: segment slot `i` takes the i-th standard segment pin. */
  method ClaimSegments() returns (pins: map<Slot, int>)
    ensures pins.Keys == set i | 0 <= i < 8 :: Segment(i)
    ensures forall i :: 0 <= i < 8 ==> pins[Segment(i)] == StandardSegments[i]
  {
    pins := map[];
    var i := 0;
    while i < |StandardSegments|
      invariant 0 <= i <= 8
      invariant pins.Keys == set j | 0 <= j < i :: Segment(j)
      invariant forall j :: 0 <= j < i ==> pins[Segment(j)] == StandardSegments[j]
    {
      assert (set j | 0 <= j < i + 1 :: Segment(j)) == (set j | 0 <= j < i :: Segment(j)) + {Segment(i)};
      pins := pins[Segment(i) := StandardSegments[i]];
      i := i + 1;
    }
  }

  /** The display's second `forEach`: digit slot `i` takes the i-th standard digit pin; the segments stay. */
  method ClaimDigits(segments: map<Slot, int>) returns (pins: map<Slot, int>)
    requires segments.Keys == set i | 0 <= i < 8 :: Segment(i)
    requires forall i :: 0 <= i < 8 ==> segments[Segment(i)] == StandardSegments[i]
    ensures StandardLayout(pins)
  {
    pins := segments;
    var i := 0;
    while i < |StandardDigits|
      invariant 0 <= i <= 4
      invariant pins.Keys == (set j | 0 <= j < 8 :: Segment(j)) + (set j | 0 <= j < i :: Digit(j))
      invariant forall j :: 0 <= j < 8 ==> pins[Segment(j)] == StandardSegments[j]
      invariant forall j :: 0 <= j < i ==> pins[Digit(j)] == StandardDigits[j]
    {
      assert (set j | 0 <= j < i + 1 :: Digit(j)) == (set j | 0 <= j < i :: Digit(j)) + {Digit(i)};
      pins := pins[Digit(i) := StandardDigits[i]];
      i := i + 1;
    }
  }

  /**
   * The auto-assignment of `addComponent`: a display gets the standard wiring
   * when all twelve pins were used, an ultrasonic sensor starts empty, and a
   * single-pin component takes the first available pin.
   */
  method AutoAssign(kind: Kind, usedPins: seq<int>, availablePins: seq<int>) returns (pins: map<Slot, int>)
    ensures StartingPins(kind, usedPins, availablePins, pins)
  {
    pins := map[];
    if kind == SevenSegment {
      var hasAllSegments := forall p :: p in StandardSegments ==> p in usedPins;
      var hasAllDigits := forall p :: p in StandardDigits ==> p in usedPins;
      if hasAllSegments && hasAllDigits {
        pins := ClaimSegments();
        pins := ClaimDigits(pins);
      } else {
        pins := map[];
      }
    } else if kind == Ultrasonic {
    } else {
      if |availablePins| > 0 {
        pins := map[Pin := availablePins[0]];
      }
    }
  }

  /**
   * `addComponent`: appends one component with the auto-claimed slots; the
   * id is drawn at random by the caller.
   */
  method AddComponent(components: seq<Component>, id: string, kind: Kind, usedPins: seq<int>, availablePins: seq<int>)
    returns (r: seq<Component>)
    ensures |r| == |components| + 1 && r[..|components|] == components
    ensures r[|components|].id == id && r[|components|].kind == kind
    ensures StartingPins(kind, usedPins, availablePins, r[|components|].pins)
  {
    var pins := AutoAssign(kind, usedPins, availablePins);
    r := components + [Component(id, kind, pins)];
  }

  /** `removeComponent`: every component with the id is dropped, the rest keep their order. */
  function Removed(components: seq<Component>, id: string): (r: seq<Component>)
    ensures |r| <= |components|
    decreases |components|
  {
    if components == [] then []
    else
      var n := |components| - 1;
      Removed(components[..n], id) + (if components[n].id == id then [] else [components[n]])
  }

  /** Exactly the components without the id survive a removal. */
  lemma {:induction false} RemovedMembers(components: seq<Component>, id: string)
    ensures forall c :: c in Removed(components, id) <==> c in components && c.id != id
    decreases |components|
  {
    if components != [] {
      var n := |components| - 1;
      RemovedMembers(components[..n], id);
      assert components == components[..n] + [components[n]];
    }
  }

  /** Removal filters each part of a list separately, so the survivors keep their order. */
  lemma {:induction false} RemovedAppend(first: seq<Component>, second: seq<Component>, id: string)
    ensures Removed(first + second, id) == Removed(first, id) + Removed(second, id)
    decreases |second|
  {
    if second == [] {
      assert first + second == first;
    } else {
      var n := |second| - 1;
      var all := first + second;
      var kept := if second[n].id == id then [] else [second[n]];
      RemovedAppend(first, second[..n], id);
      assert all[..|all| - 1] == first + second[..n];
      assert Removed(all, id) == Removed(first + second[..n], id) + kept;
      assert Removed(second, id) == Removed(second[..n], id) + kept;
    }
  }

  /**
   * `updateComponentPin`: slot `key` of every component with the id is set to
   * `pin`; all other slots and components are left as they were, and nothing
   * checks whether another slot already holds `pin`.
   */
  function Updated(components: seq<Component>, id: string, key: Slot, pin: int): (r: seq<Component>)
    ensures |r| == |components|
    ensures forall i :: 0 <= i < |r| ==> r[i].id == components[i].id && r[i].kind == components[i].kind
    ensures forall i :: 0 <= i < |r| && components[i].id == id ==> key in r[i].pins && r[i].pins[key] == pin
    ensures forall i :: 0 <= i < |r| && components[i].id != id ==> r[i] == components[i]
    ensures forall i, k :: 0 <= i < |r| && k != key ==>
              (k in r[i].pins <==> k in components[i].pins) &&
              (k in r[i].pins ==> r[i].pins[k] == components[i].pins[k])
  {
    seq(|components|, i requires 0 <= i < |components| =>
      var c := components[i];
      if c.id == id then c.(pins := c.pins[key := pin]) else c)
  }

  /** The drop-down value of a slot is truthy: a pin other than 0 is set. */
  predicate Truthy(currentPin: Option<int>) {
    currentPin.Some? && currentPin.value != 0
  }

  /**
   * `getPinOptions`: the available pins in order, then the slot's own pin when
   * it is set and not already among them.
   */
  function PinOptions(availablePins: seq<int>, currentPin: Option<int>): (r: seq<int>)
    ensures |r| == |availablePins| + (if Truthy(currentPin) && currentPin.value !in availablePins then 1 else 0)
    ensures r[..|availablePins|] == availablePins
    ensures forall p :: p in r <==> p in availablePins || (Truthy(currentPin) && p == currentPin.value)
  {
    if Truthy(currentPin) && currentPin.value !in availablePins then availablePins + [currentPin.value]
    else availablePins
  }

  /** The value a slot's drop-down starts from. */
  function SlotPin(c: Component, key: Slot): Option<int> {
    if key in c.pins then Some(c.pins[key]) else None
  }

  /** No pin is held by two slots, of one component or of two. */
  predicate Exclusive(components: seq<Component>) {
    forall i, j, k, l ::
      0 <= i < |components| && 0 <= j < |components| &&
      k in components[i].pins && l in components[j].pins && (i != j || k != l) ==>
        components[i].pins[k] != components[j].pins[l]
  }

  /** At most one component carries `id`. */
  predicate IdUnique(components: seq<Component>, id: string) {
    forall i, j :: 0 <= i < j < |components| && components[i].id == id ==> components[j].id != id
  }

  /** Outside slot `key` of component `c`, an update with a unique id leaves every slot as it was. */
  lemma UpdatedElsewhere(components: seq<Component>, c: nat, key: Slot, pin: int, i: nat, k: Slot)
    requires c < |components| && IdUnique(components, components[c].id)
    requires i < |components| && (i != c || k != key)
    requires k in Updated(components, components[c].id, key, pin)[i].pins
    ensures k in components[i].pins
    ensures Updated(components, components[c].id, key, pin)[i].pins[k] == components[i].pins[k]
  {
    if i != c {
      assert components[i].id != components[c].id;
    }
  }

  /** Writing a pin that no slot holds into one slot keeps every pin with at most one owner. */
  lemma UpdateFreePinKeepsExclusive(components: seq<Component>, c: nat, key: Slot, pin: int)
    requires Exclusive(components) && c < |components| && IdUnique(components, components[c].id)
    requires !Held(components, pin)
    ensures Exclusive(Updated(components, components[c].id, key, pin))
  {
    var r := Updated(components, components[c].id, key, pin);
    forall i, j, k, l |
      0 <= i < |r| && 0 <= j < |r| && k in r[i].pins && l in r[j].pins && (i != j || k != l)
      ensures r[i].pins[k] != r[j].pins[l]
    {
      if i != c || k != key {
        UpdatedElsewhere(components, c, key, pin, i, k);
      }
      if j != c || l != key {
        UpdatedElsewhere(components, c, key, pin, j, l);
      }
    }
  }

  /** Choosing the pin the slot already holds changes nothing. */
  lemma UpdateOwnPinChangesNothing(components: seq<Component>, c: nat, key: Slot, pin: int)
    requires c < |components| && IdUnique(components, components[c].id)
    requires SlotPin(components[c], key) == Some(pin)
    ensures Updated(components, components[c].id, key, pin) == components
  {
    var r := Updated(components, components[c].id, key, pin);
    forall i | 0 <= i < |components|
      ensures r[i] == components[i]
    {
      if i != c {
        assert components[i].id != components[c].id;
      } else {
        assert r[c].pins == components[c].pins;
      }
    }
  }

  /**
   * Choosing one of the pins the slot's drop-down lists keeps every pin with
   * at most one owner (when the component id is unique). The blank first
   * option is not one of them: see `BlankOptionShares`.
   */
  lemma UpdateFromOptionsKeepsExclusive(
    components: seq<Component>, usedPins: seq<int>, c: nat, key: Slot, pin: int)
    requires Exclusive(components) && c < |components| && IdUnique(components, components[c].id)
    requires pin in PinOptions(Unclaimed(usedPins, Assigned(components)), SlotPin(components[c], key))
    ensures Exclusive(Updated(components, components[c].id, key, pin))
  {
    if pin in Unclaimed(usedPins, Assigned(components)) {
      UpdateFreePinKeepsExclusive(components, c, key, pin);
    } else {
      UpdateOwnPinChangesNothing(components, c, key, pin);
    }
  }

  /**
   * The drop-down's blank "Select..." option has the value `""`, which
   * `Number` turns into 0, so it assigns pin 0: clearing the slots of two
   * LEDs leaves both holding pin 0.
   */
  lemma BlankOptionShares()
    ensures Exclusive([Component("a", Led, map[Pin := 17]), Component("b", Led, map[Pin := 27])])
    ensures !Exclusive(Updated(Updated([Component("a", Led, map[Pin := 17]), Component("b", Led, map[Pin := 27])], "a", Pin, 0), "b", Pin, 0))
  {
    var cs := [Component("a", Led, map[Pin := 17]), Component("b", Led, map[Pin := 27])];
    var once := Updated(cs, "a", Pin, 0);
    assert once[0].pins[Pin] == 0 && once[1] == cs[1];
    var twice := Updated(once, "b", Pin, 0);
    assert twice[0] == once[0];
    assert twice[1].pins[Pin] == 0;
  }

  /** The blank option as evidently meant: every component with the id loses slot `key`, nothing else changes. */
  function Cleared(components: seq<Component>, id: string, key: Slot): (r: seq<Component>)
    ensures |r| == |components|
  {
    seq(|components|, i requires 0 <= i < |components| =>
      if components[i].id == id then components[i].(pins := components[i].pins - {key}) else components[i])
  }

  /**
   * Clearing a slot frees its pin and takes no other: every component keeps
   * its place, id and kind, the cleared slots are empty, every other slot
   * keeps its pin, and every pin keeps at most one owner.
   */
  lemma ClearKeepsExclusive(components: seq<Component>, id: string, key: Slot)
    requires Exclusive(components)
    ensures |Cleared(components, id, key)| == |components|
    ensures forall i :: 0 <= i < |components| ==>
              Cleared(components, id, key)[i].id == components[i].id && Cleared(components, id, key)[i].kind == components[i].kind
    ensures forall i, k :: 0 <= i < |components| && k in components[i].pins && (components[i].id != id || k != key) ==>
              k in Cleared(components, id, key)[i].pins
    ensures Exclusive(Cleared(components, id, key))
    ensures forall i :: 0 <= i < |components| && components[i].id == id ==> key !in Cleared(components, id, key)[i].pins
    ensures forall i, k :: 0 <= i < |components| && k in Cleared(components, id, key)[i].pins ==>
              k in components[i].pins && Cleared(components, id, key)[i].pins[k] == components[i].pins[k]
    ensures forall p :: Held(Cleared(components, id, key), p) ==> Held(components, p)
  {
    var r := Cleared(components, id, key);
    forall i, k | 0 <= i < |components| && k in r[i].pins
      ensures k in components[i].pins && r[i].pins[k] == components[i].pins[k]
    {
    }
    forall p | Held(r, p)
      ensures Held(components, p)
    {
      var i, k :| 0 <= i < |r| && k in r[i].pins && r[i].pins[k] == p;
      assert k in components[i].pins && components[i].pins[k] == p;
    }
  }

  /**
   * Adding a single-pin component or an ultrasonic sensor, with the available
   * pins computed from the current components, keeps every pin with at most
   * one owner. (The display's auto-wiring is excluded: see `DisplayWiringCanShare`.)
   */
  lemma AddKeepsExclusive(
    components: seq<Component>, id: string, kind: Kind, usedPins: seq<int>, pins: map<Slot, int>)
    requires Exclusive(components) && kind != SevenSegment
    requires StartingPins(kind, usedPins, Unclaimed(usedPins, Assigned(components)), pins)
    ensures Exclusive(components + [Component(id, kind, pins)])
  {
    var available := Unclaimed(usedPins, Assigned(components));
    var r := components + [Component(id, kind, pins)];
    if pins != map[] {
      assert available[0] in available;
      assert !Held(components, available[0]);
    }
    forall i | 0 <= i < |components|
      ensures r[i] == components[i]
    {
    }
  }

  /** The standard display wiring, written out. */
  function StandardPins(): (pins: map<Slot, int>)
    ensures StandardLayout(pins)
  {
    var segments := map i | 0 <= i < 8 :: Segment(i) := StandardSegments[i];
    var digits := map i | 0 <= i < 4 :: Digit(i) := StandardDigits[i];
    assert segments.Keys == set i | 0 <= i < 8 :: Segment(i);
    assert digits.Keys == set i | 0 <= i < 4 :: Digit(i);
    segments + digits
  }

  /**
   * The display's auto-wiring draws from the used pins, not the available
   * ones: a second display added to a run that already has a wired one gets
   * the same twelve pins.
   */
  lemma DisplayWiringCanShare(usedPins: seq<int>)
    requires StandardWiringUsed(usedPins)
    ensures Exclusive([Component("x", SevenSegment, StandardPins())])
    ensures StartingPins(SevenSegment, usedPins, [], StandardPins())
    ensures !Exclusive([Component("x", SevenSegment, StandardPins()), Component("y", SevenSegment, StandardPins())])
  {
    var pins := StandardPins();
    StandardPinsDistinct();
    var cs := [Component("x", SevenSegment, pins), Component("y", SevenSegment, pins)];
    assert Segment(0) in cs[0].pins && Segment(0) in cs[1].pins;
  }

  /** No two display slots share a standard pin. */
  lemma StandardPinsDistinct()
    ensures forall k, l :: k in StandardPins() && l in StandardPins() && k != l ==> StandardPins()[k] != StandardPins()[l]
  {
    var pins := StandardPins();
    var all := StandardSegments + StandardDigits;
    StandardListDistinct();
    forall k, l | k in pins && l in pins && k != l
      ensures pins[k] != pins[l]
    {
      var ik := if k.Segment? then k.index else 8 + k.index;
      var il := if l.Segment? then l.index else 8 + l.index;
      assert pins[k] == all[ik];
      assert pins[l] == all[il];
      assert ik != il;
    }
  }

  /** The twelve standard pins are pairwise different. */
  lemma StandardListDistinct()
    ensures forall i, j :: 0 <= i < j < 12 ==>
              (StandardSegments + StandardDigits)[i] != (StandardSegments + StandardDigits)[j]
  {
    var all := StandardSegments + StandardDigits;
    assert all == [2, 3, 4, 17, 27, 22, 10, 9, 11, 5, 6, 13];
    assert all[0] == 2 && all[1] == 3 && all[2] == 4 && all[3] == 17 && all[4] == 27 && all[5] == 22 &&
           all[6] == 10 && all[7] == 9 && all[8] == 11 && all[9] == 5 && all[10] == 6 && all[11] == 13;
  }
}
