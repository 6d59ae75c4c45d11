/**
 * The weapon inventory and damage rule of AShooterCharacter: a list of owned
 * weapons with a cursor (CurrentWeapon, CurrentWeaponIndex), equipping by
 * index, cycling, adding a weapon class at most once, discarding with
 * repair of the cursor, and the HP bookkeeping of TakeDamage.
 */
module ShooterCharacter {
  import opened Wrappers

  /** INDEX_NONE. */
  const IndexNone: int := -1

  /** A weapon actor: its identity and its class. */
  datatype Weapon = Weapon(id: nat, cls: nat)

  /**
   * OwnedWeapons, CurrentWeapon and CurrentWeaponIndex. `nextId` is the
   * identity the next spawned weapon actor receives.
   */
  datatype Inventory = Inventory(owned: seq<Weapon>, current: Option<Weapon>, currentIndex: int, nextId: nat)

  /** No weapon actor is owned twice. */
  predicate Distinct(s: seq<Weapon>)
  {
    forall i, j :: 0 <= i < j < |s| ==> s[i].id != s[j].id
  }

  /** The cursor names the current weapon, or both are none. */
  predicate SelectionValid(inv: Inventory)
  {
    || (inv.currentIndex == IndexNone && inv.current.None?)
    || (0 <= inv.currentIndex < |inv.owned| && inv.current == Some(inv.owned[inv.currentIndex]))
  }

  /** The inventory invariant. */
  predicate Wf(inv: Inventory)
  {
    && Distinct(inv.owned)
    && (forall i :: 0 <= i < |inv.owned| ==> inv.owned[i].id < inv.nextId)
    && SelectionValid(inv)
  }

  /** The inventory of a freshly spawned character. */
  function NewInventory(): (inv: Inventory)
    ensures Wf(inv) && inv.owned == [] && inv.current.None? && inv.currentIndex == IndexNone
  {
    Inventory([], None, IndexNone, 0)
  }

  /**
   * EquipWeaponByIndex. An index outside the list clears the selection; the
   * weapon already current changes nothing; otherwise the cursor moves to the
   * index. Deactivating and activating the weapon actors are engine effects.
   */
  function EquipWeaponByIndex(inv: Inventory, newIndex: int): (r: Inventory)
    ensures r.owned == inv.owned && r.nextId == inv.nextId
    ensures !(0 <= newIndex < |inv.owned|) ==> r.current.None? && r.currentIndex == IndexNone
    ensures 0 <= newIndex < |inv.owned| && inv.current == Some(inv.owned[newIndex]) ==> r == inv
    ensures 0 <= newIndex < |inv.owned| && inv.current != Some(inv.owned[newIndex]) ==>
              r.current == Some(inv.owned[newIndex]) && r.currentIndex == newIndex
    ensures Wf(inv) ==> Wf(r)
    ensures Wf(inv) && 0 <= newIndex < |inv.owned| ==>
              r.currentIndex == newIndex && r.current == Some(r.owned[newIndex])
  {
    if !(0 <= newIndex < |inv.owned|) then
      inv.(current := None, currentIndex := IndexNone)
    else if inv.current == Some(inv.owned[newIndex]) then
      inv
    else
      inv.(current := Some(inv.owned[newIndex]), currentIndex := newIndex)
  }

  /**
   * C++ `%` on int32: the remainder takes the sign of the dividend, and agrees
   * with the Euclidean remainder on a non-negative dividend.
   */
  function CRem(a: int, b: int): (r: int)
    requires b > 0
    ensures -b < r < b
    ensures a >= 0 ==> r == a % b
    // on a negative dividend the remainder is non-positive and still differs from it by a multiple of b
    ensures a < 0 ==> -b < r <= 0 && (a - r) % b == 0
  {
    if a >= 0 then a % b
    else
      var q := (-a) / b;
      var r := -((-a) % b);
      assert a - r == (-q) * b;
      ModUnique(a - r, b, -q, 0);
      r
  }

  lemma MulAtLeast(d: int, n: int)
    requires d >= 1 && n > 0
    ensures d * n >= n
  {
    assert d * n == (d - 1) * n + n;
    assert (d - 1) * n >= 0;
  }

  /** The remainder is determined by any quotient-remainder decomposition. */
  lemma ModUnique(x: int, n: int, q: int, r: int)
    requires n > 0 && 0 <= r < n && x == q * n + r
    ensures x % n == r
  {
    var q' := x / n;
    var r' := x % n;
    assert x == q' * n + r';
    var d := q - q';
    assert d * n == r' - r;
    if d >= 1 {
      MulAtLeast(d, n);
    }
  }

  /** The cyclic successor of a position. */
  lemma ModNext(i: int, n: int)
    requires 0 <= i < n
    ensures (i + 1) % n == (if i + 1 < n then i + 1 else 0)
  {
    if i + 1 < n {
      ModUnique(i + 1, n, 0, i + 1);
    } else {
      ModUnique(i + 1, n, 1, 0);
    }
  }

  lemma ModSucc(a: int, n: int)
    requires a >= 0 && n > 0
    ensures (a % n + 1) % n == (a + 1) % n
  {
    var q := a / n;
    var r := a % n;
    if r + 1 < n {
      ModUnique(a + 1, n, q, r + 1);
      ModUnique(r + 1, n, 0, r + 1);
    } else {
      ModUnique(a + 1, n, q + 1, 0);
      ModUnique(r + 1, n, 1, 0);
    }
  }

  /**
   * DoSwitchWeapon: with at least two weapons, none selected equips the first,
   * otherwise the next one cyclically.
   */
  function DoSwitchWeapon(inv: Inventory): (r: Inventory)
    ensures |inv.owned| <= 1 ==> r == inv
    ensures r.owned == inv.owned && r.nextId == inv.nextId
    ensures Wf(inv) ==> Wf(r)
    ensures Wf(inv) && |inv.owned| > 1 && inv.currentIndex == IndexNone ==>
              r.currentIndex == 0 && r.current == Some(inv.owned[0])
    ensures Wf(inv) && |inv.owned| > 1 && inv.currentIndex != IndexNone ==>
              r.currentIndex == (inv.currentIndex + 1) % |inv.owned|
              && r.current == Some(inv.owned[r.currentIndex])
  {
    if |inv.owned| > 1 then
      if inv.currentIndex == IndexNone then
        EquipWeaponByIndex(inv, 0)
      else
        var nextIndex := CRem(inv.currentIndex + 1, |inv.owned|);
        assert Wf(inv) ==> 0 <= inv.currentIndex < |inv.owned|;
        ModNextWhenValid(inv.currentIndex, |inv.owned|);
        if nextIndex != inv.currentIndex then EquipWeaponByIndex(inv, nextIndex) else inv
    else
      inv
  }

  lemma ModNextWhenValid(i: int, n: int)
    requires n > 1
    ensures 0 <= i < n ==> (i + 1) % n != i && 0 <= (i + 1) % n < n
  {
    if 0 <= i < n {
      ModNext(i, n);
    }
  }

  /** `k` presses of the switch action. */
  function SwitchTimes(inv: Inventory, k: nat): (r: Inventory)
    decreases k
  {
    if k == 0 then inv else DoSwitchWeapon(SwitchTimes(inv, k - 1))
  }

  /** At least two weapons, one of them selected, and the invariant: the state in which a switch moves the cursor. */
  predicate Switchable(inv: Inventory)
  {
    Wf(inv) && |inv.owned| > 1 && inv.currentIndex != IndexNone
  }

  /** One switch from a selected weapon is one cyclic step, and keeps the invariant, the list and a selection. */
  lemma SwitchOnce(inv: Inventory)
    requires Switchable(inv)
    ensures Switchable(DoSwitchWeapon(inv)) && DoSwitchWeapon(inv).owned == inv.owned
    ensures DoSwitchWeapon(inv).currentIndex == CyclicNext(inv.currentIndex, |inv.owned|)
  {
    ModNext(inv.currentIndex, |inv.owned|);
  }

  /** Any number of switches from a selected weapon keeps the invariant, the list and a selection. */
  lemma {:induction false} SwitchTimesKeepsWf(inv: Inventory, k: nat)
    requires Switchable(inv)
    ensures Switchable(SwitchTimes(inv, k)) && SwitchTimes(inv, k).owned == inv.owned
  {
    if k > 0 {
      SwitchTimesKeepsWf(inv, k - 1);
      SwitchOnce(SwitchTimes(inv, k - 1));
    }
  }

  /** One cyclic step: the next position, or back to the first after the last. */
  function CyclicNext(j: int, n: int): int
  {
    if j + 1 < n then j + 1 else 0
  }

  /** The cursor after `k` cyclic steps from `i` in a list of length `n`. */
  function Advance(i: int, k: nat, n: int): int
    decreases k
  {
    if k == 0 then i else CyclicNext(Advance(i, k - 1, n), n)
  }

  /** `k` cyclic steps from a position in range land at `i + k` modulo `n`. */
  lemma {:induction false} AdvanceIsMod(i: int, k: nat, n: int)
    requires 0 <= i < n
    ensures Advance(i, k, n) == (i + k) % n
  {
    if k == 0 {
      ModUnique(i, n, 0, i);
    } else {
      var a := i + (k - 1);
      AdvanceIsMod(i, k - 1, n);
      CyclicNextIsMod(a, n);
    }
  }

  /** A cyclic step from `a` modulo `n` is `a + 1` modulo `n`. */
  lemma CyclicNextIsMod(a: int, n: int)
    requires a >= 0 && n > 0
    ensures CyclicNext(a % n, n) == (a + 1) % n
  {
    ModNext(a % n, n);
    ModSucc(a, n);
  }

  /** Each of `k` switches from a selected weapon takes one cyclic step. */
  lemma {:induction false} SwitchTimesCursor(inv: Inventory, k: nat)
    requires Switchable(inv)
    ensures SwitchTimes(inv, k).currentIndex == Advance(inv.currentIndex, k, |inv.owned|)
  {
    if k > 0 {
      SwitchTimesCursor(inv, k - 1);
      SwitchTimesStep(inv, k);
    }
  }

  /** The `k`-th switch takes one cyclic step from the cursor the first `k - 1` left. */
  lemma SwitchTimesStep(inv: Inventory, k: nat)
    requires Switchable(inv) && k > 0
    ensures SwitchTimes(inv, k).currentIndex == CyclicNext(SwitchTimes(inv, k - 1).currentIndex, |inv.owned|)
  {
    SwitchTimesKeepsWf(inv, k - 1);
    SwitchOnce(SwitchTimes(inv, k - 1));
  }

  /** After `k` switches from a selected weapon, the cursor has advanced by `k` modulo the list length. */
  lemma SwitchTimesAdvances(inv: Inventory, k: nat)
    requires Switchable(inv)
    ensures Wf(SwitchTimes(inv, k)) && SwitchTimes(inv, k).owned == inv.owned
    ensures SwitchTimes(inv, k).currentIndex == (inv.currentIndex + k) % |inv.owned|
  {
    SwitchTimesKeepsWf(inv, k);
    SwitchTimesCursor(inv, k);
    AdvanceIsMod(inv.currentIndex, k, |inv.owned|);
  }

  /** Switching once per owned weapon comes back to the weapon selected at the start. */
  lemma SwitchCycle(inv: Inventory)
    requires Switchable(inv)
    ensures SwitchTimes(inv, |inv.owned|).current == inv.current
  {
    var n := |inv.owned|;
    var r := SwitchTimes(inv, n);
    SwitchTimesAdvances(inv, n);
    ModAddDivisor(inv.currentIndex, n);
    assert r.currentIndex == inv.currentIndex && r.owned == inv.owned;
    assert SelectionValid(r) && SelectionValid(inv);
  }

  lemma ModAddDivisor(i: int, n: int)
    requires 0 <= i < n
    ensures (i + n) % n == i
  {
    ModUnique(i + n, n, 1, i);
  }

  /**
   * The position of the first owned weapon that IsA the class, or -1.
   * `isA(c, k)` is the engine's class relation: class `c` is `k` or derives
   * from it.
   */
  function FirstOfType(owned: seq<Weapon>, cls: nat, isA: (nat, nat) -> bool): (i: int)
    ensures -1 <= i < |owned|
    ensures i == -1 <==> forall j :: 0 <= j < |owned| ==> !isA(owned[j].cls, cls)
    ensures i >= 0 ==> isA(owned[i].cls, cls) && forall j :: 0 <= j < i ==> !isA(owned[j].cls, cls)
    decreases |owned|
  {
    if |owned| == 0 then -1
    else if isA(owned[0].cls, cls) then 0
    else
      var i := FirstOfType(owned[1..], cls, isA);
      if i == -1 then -1 else i + 1
  }

  /** FindWeaponOfType: the first owned weapon of the class, or null. */
  function FindWeaponOfType(owned: seq<Weapon>, cls: nat, isA: (nat, nat) -> bool): (r: Option<Weapon>)
    ensures r.None? <==> forall j :: 0 <= j < |owned| ==> !isA(owned[j].cls, cls)
    ensures r.Some? ==> r.value in owned && isA(r.value.cls, cls)
    ensures r.Some? ==>
              exists i :: 0 <= i < |owned| && r.value == owned[i] && isA(owned[i].cls, cls)
                          && forall j :: 0 <= j < i ==> !isA(owned[j].cls, cls)
  {
    var i := FirstOfType(owned, cls, isA);
    if i == -1 then None else Some(owned[i])
  }

  /**
   * AddWeaponClass: nothing when a weapon of the class is owned or the spawn
   * fails (`spawned` false); otherwise a new weapon of the class is appended
   * and equipped.
   */
  function AddWeaponClass(inv: Inventory, cls: nat, isA: (nat, nat) -> bool, spawned: bool): (r: Inventory)
    ensures (exists j :: 0 <= j < |inv.owned| && isA(inv.owned[j].cls, cls)) || !spawned ==> r == inv
    ensures (forall j :: 0 <= j < |inv.owned| ==> !isA(inv.owned[j].cls, cls)) && spawned ==>
              && r.owned == inv.owned + [Weapon(inv.nextId, cls)]
              && r.nextId == inv.nextId + 1
              && (Wf(inv) ==> r.currentIndex == |inv.owned| && r.current == Some(Weapon(inv.nextId, cls)))
    ensures Wf(inv) ==> Wf(r)
  {
    if FindWeaponOfType(inv.owned, cls, isA).Some? || !spawned then inv
    else
      var added := Weapon(inv.nextId, cls);
      var grown := inv.(owned := inv.owned + [added], nextId := inv.nextId + 1);
      assert Wf(inv) ==> inv.current != Some(added);
      EquipWeaponByIndex(grown, |grown.owned| - 1)
  }

  /** Adding a class a second time changes nothing, for a class relation that is reflexive on it. */
  lemma AddWeaponClassTwice(inv: Inventory, cls: nat, isA: (nat, nat) -> bool, spawned: bool)
    requires isA(cls, cls)
    ensures var once := AddWeaponClass(inv, cls, isA, spawned);
            AddWeaponClass(once, cls, isA, spawned) == once
  {
    var once := AddWeaponClass(inv, cls, isA, spawned);
    if spawned && forall j :: 0 <= j < |inv.owned| ==> !isA(inv.owned[j].cls, cls) {
      assert once.owned[|inv.owned|].cls == cls;
    }
  }

  /** TArray::Find: the first position of the weapon, or INDEX_NONE. */
  function IndexOf(s: seq<Weapon>, w: Weapon): (i: int)
    ensures -1 <= i < |s|
    ensures i == IndexNone <==> w !in s
    ensures i >= 0 ==> s[i] == w && forall j :: 0 <= j < i ==> s[j] != w
    decreases |s|
  {
    if |s| == 0 then IndexNone
    else if s[0] == w then 0
    else
      var i := IndexOf(s[1..], w);
      if i == IndexNone then IndexNone else i + 1
  }

  /** TArray::RemoveAt: the element at `i` is gone and the rest keep their order. */
  function RemoveAt(s: seq<Weapon>, i: int): (r: seq<Weapon>)
    requires 0 <= i < |s|
    ensures |r| == |s| - 1
    ensures forall j :: 0 <= j < i ==> r[j] == s[j]
    ensures forall j :: i <= j < |r| ==> r[j] == s[j + 1]
  {
    s[..i] + s[i + 1..]
  }

  /** Removing an element keeps the rest distinct and bounded, and drops the element itself. */
  lemma RemoveAtKeepsInvariant(s: seq<Weapon>, i: int, nextId: nat)
    requires 0 <= i < |s|
    ensures Distinct(s) ==> Distinct(RemoveAt(s, i)) && s[i] !in RemoveAt(s, i)
    ensures (forall j :: 0 <= j < |s| ==> s[j].id < nextId) ==>
              forall j :: 0 <= j < |RemoveAt(s, i)| ==> RemoveAt(s, i)[j].id < nextId
  {
    var r := RemoveAt(s, i);
    if Distinct(s) {
      forall a, b | 0 <= a < b < |r|
        ensures r[a].id != r[b].id
      {
        var a' := if a < i then a else a + 1;
        var b' := if b < i then b else b + 1;
        assert r[a] == s[a'] && r[b] == s[b'] && a' < b';
      }
      forall j | 0 <= j < |r|
        ensures r[j] != s[i]
      {
        var j' := if j < i then j else j + 1;
        assert r[j] == s[j'] && j' != i;
      }
    }
  }

  /**
   * DiscardWeapon. A null or unowned weapon changes nothing. Otherwise the
   * weapon leaves the list; when it was current the weapon now at its slot
   * (or the new last one) is equipped, or the selection cleared when the list
   * is empty; when an earlier weapon goes, the cursor shifts left with it.
   */
  function DiscardWeapon(inv: Inventory, weapon: Option<Weapon>): (r: Inventory)
    ensures weapon.None? || weapon.value !in inv.owned ==> r == inv
    ensures weapon.Some? && weapon.value in inv.owned ==>
              var i := IndexOf(inv.owned, weapon.value);
              r.owned == inv.owned[..i] + inv.owned[i + 1..]
    ensures r.nextId == inv.nextId
    ensures Wf(inv) ==> Wf(r)
  {
    match weapon
    case None => inv
    case Some(w) =>
      var removed := IndexOf(inv.owned, w);
      if removed == IndexNone then inv
      else
        var wasCurrent := inv.current == Some(w);
        var shrunk := inv.(owned := RemoveAt(inv.owned, removed));
        var n := |shrunk.owned|;
        if wasCurrent then
          if n == 0 then shrunk.(current := None, currentIndex := IndexNone)
          else
            DiscardCurrentReselects(inv, removed);
            EquipWeaponByIndex(shrunk, if 0 <= removed < n then removed else n - 1)
        else
          DiscardOtherKeepsSelection(inv, removed);
          shrunk.(currentIndex := if removed < inv.currentIndex then inv.currentIndex - 1 else inv.currentIndex)
  }

  /** Discarding the current weapon from a list of two or more selects a weapon still owned. */
  lemma DiscardCurrentReselects(inv: Inventory, removed: int)
    requires 0 <= removed < |inv.owned| && inv.current == Some(inv.owned[removed]) && |inv.owned| > 1
    ensures var s := RemoveAt(inv.owned, removed);
            Wf(inv) ==> Wf(EquipWeaponByIndex(inv.(owned := s), if 0 <= removed < |s| then removed else |s| - 1))
  {
    var s := RemoveAt(inv.owned, removed);
    var k := if 0 <= removed < |s| then removed else |s| - 1;
    RemoveAtKeepsInvariant(inv.owned, removed, inv.nextId);
    if Wf(inv) {
      assert s[k] != inv.owned[removed];
    }
  }

  /** Discarding a weapon other than the current one keeps the current weapon selected, shifting the cursor past the gap. */
  lemma DiscardOtherKeepsSelection(inv: Inventory, removed: int)
    requires 0 <= removed < |inv.owned| && inv.current != Some(inv.owned[removed])
    ensures var ci := if removed < inv.currentIndex then inv.currentIndex - 1 else inv.currentIndex;
            Wf(inv) ==> Wf(inv.(owned := RemoveAt(inv.owned, removed), currentIndex := ci))
  {
    RemoveAtKeepsInvariant(inv.owned, removed, inv.nextId);
    if Wf(inv) && inv.currentIndex != IndexNone {
      var ci := if removed < inv.currentIndex then inv.currentIndex - 1 else inv.currentIndex;
      assert RemoveAt(inv.owned, removed)[ci] == inv.owned[inv.currentIndex];
    }
  }

  /**
   * How DiscardWeapon repairs the selection: discarding the current weapon
   * selects the weapon that took its slot, or the new last one, or nothing in
   * an emptied list; discarding another weapon keeps the current one selected.
   */
  lemma DiscardRepairsSelection(inv: Inventory, w: Weapon)
    requires Wf(inv) && w in inv.owned
    ensures var r := DiscardWeapon(inv, Some(w));
            var i := IndexOf(inv.owned, w);
            && w !in r.owned
            && (inv.current == Some(w) && |r.owned| == 0 ==> r.current.None? && r.currentIndex == IndexNone)
            && (inv.current == Some(w) && |r.owned| > 0 ==>
                  r.currentIndex == (if i < |r.owned| then i else |r.owned| - 1))
            && (inv.current != Some(w) ==> r.current == inv.current)
  {
    RemoveAtKeepsInvariant(inv.owned, IndexOf(inv.owned, w), inv.nextId);
  }

  /** HP and its maximum. */
  datatype Health = Health(hp: real, maxHP: real)

  /** What TakeDamage leaves: the health, the returned damage, and whether Die ran. */
  datatype DamageOutcome = DamageOutcome(health: Health, returned: real, died: bool)

  /**
   * TakeDamage: ignored (returning 0) once HP is at or below zero; otherwise
   * HP drops by the damage, Die runs when it reaches zero or below, and the
   * damage is returned.
   */
  function TakeDamage(h: Health, damage: real): (r: DamageOutcome)
    ensures h.hp <= 0.0 ==> r.health == h && r.returned == 0.0 && !r.died
    ensures h.hp > 0.0 ==>
              && r.health == h.(hp := h.hp - damage) && r.returned == damage
              && (r.died <==> h.hp - damage <= 0.0)
    ensures r.died ==> r.health.hp <= 0.0 < h.hp
  {
    if h.hp <= 0.0 then DamageOutcome(h, 0.0, false)
    else
      var hp := h.hp - damage;
      DamageOutcome(h.(hp := hp), damage, hp <= 0.0)
  }

  /** A run of hits in order: the final health and how many times Die ran. */
  datatype DamageRun = DamageRun(health: Health, deaths: nat)

  function TakeDamages(h: Health, hits: seq<real>): (r: DamageRun)
    decreases |hits|
  {
    if |hits| == 0 then DamageRun(h, 0)
    else
      var o := TakeDamage(h, hits[0]);
      var rest := TakeDamages(o.health, hits[1..]);
      DamageRun(rest.health, rest.deaths + (if o.died then 1 else 0))
  }

  /** Die runs at most once, however many hits follow, and never for a character already dead. */
  lemma {:induction false} DieAtMostOnce(h: Health, hits: seq<real>)
    ensures TakeDamages(h, hits).deaths <= 1
    ensures h.hp <= 0.0 ==> TakeDamages(h, hits).deaths == 0 && TakeDamages(h, hits).health == h
    ensures TakeDamages(h, hits).deaths == 1 ==> TakeDamages(h, hits).health.hp <= 0.0
    decreases |hits|
  {
    if |hits| > 0 {
      var o := TakeDamage(h, hits[0]);
      DieAtMostOnce(o.health, hits[1..]);
      if o.died {
        assert o.health.hp <= 0.0;
      }
    }
  }
}
