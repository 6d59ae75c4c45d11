/**
 * The ammunition machine of AShooterWeapon: the bullets in the loaded
 * magazine, the spare magazines, the firing flag, and the single refire
 * timer that either fires again (full auto) or tells the owner the cooldown
 * is over (semi auto). Timers are state: the pending action and the time it
 * is due.
 */
module ShooterWeapon {

  /** What the refire timer calls when it runs out: Fire, or FireCooldownExpired. */
  datatype Action = FireAgain | CooldownNotice

  /** The RefireTimer handle: nothing pending, or one action due at a time. */
  datatype Timer = Idle | Pending(action: Action, due: real)

  /**
   * The per-class settings, as each is read. `magazineSize`, `fullAuto` and
   * `refireRate` are read during play and so carry any Blueprint override;
   * `maxMagazines` is read only by the constructor, before Blueprint class
   * defaults are applied, so it is the value the native constructor sees.
   */
  datatype Config = Config(magazineSize: int, maxMagazines: int, fullAuto: bool, refireRate: real)

  /**
   * CurrentBullets, RemainingMagazines, bIsFiring, TimeOfLastShot, the refire
   * timer, and whether a discard by the owner is scheduled for the next tick.
   */
  datatype Weapon = Weapon(bullets: int, magazines: int, firing: bool, timeOfLastShot: real,
                           refireTimer: Timer, discardQueued: bool)

  /** Which delay StartFiring gives the early refire. */
  datatype RefireRule =
    | SinceLastShot   // the time since the last shot
    | UntilReady      // the time left until one refire period has passed

  /** A loaded magazine never exceeds its size; spare magazines are never negative. */
  predicate AmmoOk(w: Weapon, cfg: Config)
  {
    0 <= w.bullets <= cfg.magazineSize && w.magazines >= 0
  }

  /** The rounds the weapon can still fire: the loaded ones plus full spare magazines. */
  function Rounds(w: Weapon, cfg: Config): int
  {
    w.bullets + w.magazines * cfg.magazineSize
  }

  /** FMath::Max on int. */
  function Max(a: int, b: int): int
  {
    if a >= b then a else b
  }

  /**
   * FTimerManager::SetTimer: a delay that is not positive clears the timer
   * instead of scheduling.
   */
  function SetTimer(action: Action, now: real, delay: real): (t: Timer)
    ensures delay <= 0.0 ==> t == Idle
    ensures delay > 0.0 ==> t.Pending? && t.action == action && t.due - now == delay
  {
    if delay > 0.0 then Pending(action, now + delay) else Idle
  }

  /**
   * The weapon after the constructor and BeginPlay: a full loaded magazine
   * (MagazineSize, read in BeginPlay) and one spare fewer than the
   * MaxMagazines the constructor reads, never fewer than zero. The initial
   * TimeOfLastShot is a class default and a parameter here.
   */
  function NewWeapon(cfg: Config, initialShotTime: real): (w: Weapon)
    ensures w.magazines >= 0
    ensures cfg.maxMagazines >= 1 ==> w.magazines == cfg.maxMagazines - 1
    ensures cfg.maxMagazines <= 1 ==> w.magazines == 0
    ensures w.bullets == cfg.magazineSize
    ensures !w.firing && w.refireTimer == Idle && !w.discardQueued
    ensures cfg.magazineSize >= 0 ==> AmmoOk(w, cfg)
  {
    Weapon(cfg.magazineSize, Max(0, cfg.maxMagazines - 1), false, initialShotTime, Idle, false)
  }

  /** With at least one magazine, a new weapon holds MaxMagazines full magazines. */
  lemma NewWeaponRounds(cfg: Config, initialShotTime: real)
    requires cfg.maxMagazines >= 1
    ensures Rounds(NewWeapon(cfg, initialShotTime), cfg) == cfg.maxMagazines * cfg.magazineSize
  {
    var w := NewWeapon(cfg, initialShotTime);
    calc {
      Rounds(w, cfg);
      cfg.magazineSize + (cfg.maxMagazines - 1) * cfg.magazineSize;
      { assert (cfg.maxMagazines - 1) * cfg.magazineSize == cfg.maxMagazines * cfg.magazineSize - cfg.magazineSize; }
      cfg.maxMagazines * cfg.magazineSize;
    }
  }

  /**
   * The weapon runs dry: the flag is lowered and the timer cleared; a
   * player's weapon is handed to the owner for discarding on the next tick,
   * any other owner's weapon is refilled.
   */
  function RunDry(w: Weapon, cfg: Config, playerOwned: bool): (r: Weapon)
    ensures !r.firing && r.refireTimer == Idle
    ensures r.magazines == w.magazines && r.timeOfLastShot == w.timeOfLastShot
    ensures playerOwned ==> r.discardQueued && r.bullets == w.bullets
    ensures !playerOwned ==> r.discardQueued == w.discardQueued && r.bullets == cfg.magazineSize
  {
    var stopped := w.(firing := false, refireTimer := Idle);
    if playerOwned then stopped.(discardQueued := true) else stopped.(bullets := cfg.magazineSize)
  }

  /** The weapon would fire a shot: the trigger is held and a round is loaded or spare. */
  predicate Fires(w: Weapon)
  {
    w.firing && (w.bullets > 0 || w.magazines > 0)
  }

  /**
   * The shot Fire is about to take is the last one: after the reload of an
   * empty magazine, if any, it leaves no bullet loaded and no spare magazine.
   */
  predicate LastRound(w: Weapon, cfg: Config)
  {
    if w.bullets <= 0 then w.magazines <= 1 && cfg.magazineSize <= 1
    else w.bullets <= 1 && w.magazines <= 0
  }

  /**
   * Fire. `now` is the world time and `playerOwned` whether the owning pawn is
   * player controlled. Spawning the projectile, recoil, the HUD and noise are
   * engine effects.
   */
  function Fire(w: Weapon, cfg: Config, now: real, playerOwned: bool): (r: Weapon)
    // the trigger was released: nothing happens
    ensures !w.firing ==> r == w
    // no bullet and no spare magazine: no shot, the weapon runs dry
    ensures w.firing && !Fires(w) ==>
              && !r.firing && r.refireTimer == Idle
              && r.magazines == w.magazines && r.timeOfLastShot == w.timeOfLastShot
              && (playerOwned ==> r.discardQueued && r.bullets == w.bullets)
              && (!playerOwned ==> r.bullets == cfg.magazineSize)
    // an empty magazine with a spare: reload, then the shot takes one bullet from it
    ensures w.firing && w.bullets <= 0 && w.magazines > 0 ==>
              && r.magazines == w.magazines - 1
              && (playerOwned || r.firing ==> r.bullets == cfg.magazineSize - 1)
    // a loaded magazine: the shot takes one bullet
    ensures w.firing && w.bullets > 0 ==>
              && r.magazines == w.magazines
              && (playerOwned || r.firing ==> r.bullets == w.bullets - 1)
    // a shot that leaves nothing to fire stops the weapon before the shot time is recorded
    ensures Fires(w) && !r.firing ==>
              r.refireTimer == Idle && r.timeOfLastShot == w.timeOfLastShot && r.magazines <= 0
    // a shot stops the weapon exactly when it was the last round
    ensures Fires(w) ==> (!r.firing <==> LastRound(w, cfg))
    // after the last round a player's weapon is queued for discard, any other owner's refilled
    ensures Fires(w) && LastRound(w, cfg) ==>
              && (playerOwned ==> r.discardQueued)
              && (!playerOwned ==> r.bullets == cfg.magazineSize && r.discardQueued == w.discardQueued)
    ensures r.firing ==> r.discardQueued == w.discardQueued
    // any other shot records its time and schedules the next action one refire period later
    ensures r.firing ==>
              && r.timeOfLastShot == now
              && (cfg.refireRate > 0.0 ==>
                    r.refireTimer == Pending(if cfg.fullAuto then FireAgain else CooldownNotice,
                                             now + cfg.refireRate))
              && (cfg.refireRate <= 0.0 ==> r.refireTimer == Idle)
    ensures r.magazines <= w.magazines
    ensures cfg.magazineSize >= 1 && AmmoOk(w, cfg) ==> AmmoOk(r, cfg)
  {
    if !w.firing then w
    else if w.bullets <= 0 && w.magazines <= 0 then RunDry(w, cfg, playerOwned)
    else
      var loaded := if w.bullets <= 0 then w.(magazines := w.magazines - 1, bullets := cfg.magazineSize) else w;
      var shot := loaded.(bullets := loaded.bullets - 1);
      if shot.bullets <= 0 && shot.magazines <= 0 then RunDry(shot, cfg, playerOwned)
      else
        var next := if cfg.fullAuto then FireAgain else CooldownNotice;
        shot.(timeOfLastShot := now, refireTimer := SetTimer(next, now, cfg.refireRate))
  }

  /**
   * Every shot of a player's weapon spends exactly one round, and the weapon
   * keeps firing exactly while more than that one round was left.
   */
  lemma FireSpendsOneRound(w: Weapon, cfg: Config, now: real)
    requires cfg.magazineSize >= 1 && AmmoOk(w, cfg) && Fires(w)
    ensures var r := Fire(w, cfg, now, true);
            && Rounds(r, cfg) == Rounds(w, cfg) - 1
            && (r.firing <==> Rounds(w, cfg) > 1)
            && (!r.firing ==> r.discardQueued)
            && AmmoOk(r, cfg)
  {
    var r := Fire(w, cfg, now, true);
    var m := cfg.magazineSize;
    if w.bullets > 0 {
      assert r.bullets == w.bullets - 1 && r.magazines == w.magazines;
      if w.magazines > 0 {
        assert w.magazines * m >= m by { MulMonotone(w.magazines, m); }
      }
    } else {
      assert w.bullets == 0 && w.magazines > 0;
      assert r.bullets == m - 1 && r.magazines == w.magazines - 1;
      assert w.magazines * m == (w.magazines - 1) * m + m;
      if w.magazines > 1 {
        assert (w.magazines - 1) * m >= m by { MulMonotone(w.magazines - 1, m); }
      }
    }
  }

  /** A positive count of full magazines holds at least one magazine's worth. */
  lemma MulMonotone(k: int, m: int)
    requires k >= 1 && m >= 1
    ensures k * m >= m
  {
    assert k * m == (k - 1) * m + m;
    assert (k - 1) * m >= 0;
  }

  /** Holding the trigger through successive refires: Fire at each of the given times. */
  function Volley(w: Weapon, cfg: Config, times: seq<real>, playerOwned: bool): (r: Weapon)
    decreases |times|
  {
    if |times| == 0 then w
    else Volley(Fire(w, cfg, times[0], playerOwned), cfg, times[1..], playerOwned)
  }

  /**
   * A player's weapon with n > 0 rounds fires n shots and then stops: after
   * k attempts, k no more than n, k rounds are spent, and it still fires
   * exactly while k < n.
   */
  lemma {:induction false} VolleySpendsRounds(w: Weapon, cfg: Config, times: seq<real>)
    requires cfg.magazineSize >= 1 && AmmoOk(w, cfg) && w.firing
    requires 1 <= Rounds(w, cfg) && |times| <= Rounds(w, cfg)
    ensures var r := Volley(w, cfg, times, true);
            && Rounds(r, cfg) == Rounds(w, cfg) - |times|
            && (r.firing <==> |times| < Rounds(w, cfg))
            && AmmoOk(r, cfg)
    decreases |times|
  {
    if |times| > 0 {
      assert Fires(w);
      FireSpendsOneRound(w, cfg, times[0]);
      var w' := Fire(w, cfg, times[0], true);
      assert Volley(w, cfg, times, true) == Volley(w', cfg, times[1..], true);
      if |times| == 1 {
        assert Volley(w', cfg, times[1..], true) == w';
      } else {
        VolleySpendsRounds(w', cfg, times[1..]);
      }
    }
  }

  /** A weapon whose trigger is released ignores any number of Fire calls. */
  lemma {:induction false} VolleyWhenReleased(w: Weapon, cfg: Config, times: seq<real>, playerOwned: bool)
    requires !w.firing
    ensures Volley(w, cfg, times, playerOwned) == w
    decreases |times|
  {
    if |times| > 0 {
      VolleyWhenReleased(w, cfg, times[1..], playerOwned);
    }
  }

  /** The delay StartFiring gives an early full-auto refire, under each rule. */
  function RefireDelay(rule: RefireRule, sinceLastShot: real, refireRate: real): real
  {
    match rule
    case SinceLastShot => sinceLastShot
    case UntilReady => refireRate - sinceLastShot
  }

  /**
   * StartFiring. `isEmpty` is the weapon's IsEmpty, whose definition is not
   * part of this model. Past one refire period since the last shot the weapon
   * fires at once; earlier, a full-auto weapon schedules the shot and a
   * semi-auto one only raises the flag.
   */
  function StartFiring(w: Weapon, cfg: Config, now: real, isEmpty: bool, playerOwned: bool,
                       rule: RefireRule): (r: Weapon)
    ensures isEmpty ==> r == w
    ensures !isEmpty && now - w.timeOfLastShot > cfg.refireRate ==>
              r == Fire(w.(firing := true), cfg, now, playerOwned)
    ensures !isEmpty && now - w.timeOfLastShot <= cfg.refireRate ==>
              && r.firing
              && r.(firing := w.firing, refireTimer := w.refireTimer) == w
              && (!cfg.fullAuto ==> r.refireTimer == w.refireTimer)
              && (cfg.fullAuto ==>
                    r.refireTimer == SetTimer(FireAgain, now, RefireDelay(rule, now - w.timeOfLastShot, cfg.refireRate)))
    ensures r.magazines <= w.magazines
    ensures cfg.magazineSize >= 1 && AmmoOk(w, cfg) ==> AmmoOk(r, cfg)
  {
    if isEmpty then w
    else
      var raised := w.(firing := true);
      var sinceLastShot := now - w.timeOfLastShot;
      if sinceLastShot > cfg.refireRate then Fire(raised, cfg, now, playerOwned)
      else if cfg.fullAuto then
        raised.(refireTimer := SetTimer(FireAgain, now, RefireDelay(rule, sinceLastShot, cfg.refireRate)))
      else raised
  }

  /** StopFiring: the flag is lowered and the refire timer cleared. */
  function StopFiring(w: Weapon): (r: Weapon)
    ensures !r.firing && r.refireTimer == Idle
    ensures r.(firing := w.firing, refireTimer := w.refireTimer) == w
  {
    w.(firing := false, refireTimer := Idle)
  }

  /** A second StopFiring changes nothing, and a Fire after it does nothing. */
  lemma StopFiringSettles(w: Weapon, cfg: Config, now: real, playerOwned: bool)
    ensures StopFiring(StopFiring(w)) == StopFiring(w)
    ensures Fire(StopFiring(w), cfg, now, playerOwned) == StopFiring(w)
  {
  }

  /** What the refire timer running out produces: the weapon, and whether the owner hears of a semi-auto refire. */
  datatype Elapsed = Elapsed(weapon: Weapon, ownerNotified: bool)

  /**
   * The refire timer runs out. The timer manager calls back on the first
   * frame at or after the due time; `now` is that frame's world time, which
   * a pending Fire records as its shot time. A pending cooldown notifies the
   * owner (OnSemiWeaponRefire) and nothing else.
   */
  function TimerElapsed(w: Weapon, cfg: Config, now: real, playerOwned: bool): (r: Elapsed)
    requires w.refireTimer.Pending? ==> now >= w.refireTimer.due
    ensures w.refireTimer == Idle ==> r == Elapsed(w, false)
    ensures w.refireTimer.Pending? && w.refireTimer.action == CooldownNotice ==>
              r == Elapsed(w.(refireTimer := Idle), true)
    ensures w.refireTimer.Pending? && w.refireTimer.action == FireAgain ==>
              !r.ownerNotified && r.weapon == Fire(w.(refireTimer := Idle), cfg, now, playerOwned)
    // a timer-driven shot is never recorded before the timer was due
    ensures w.refireTimer.Pending? && w.refireTimer.action == FireAgain && r.weapon.firing ==>
              r.weapon.timeOfLastShot >= w.refireTimer.due
  {
    match w.refireTimer
    case Idle => Elapsed(w, false)
    case Pending(FireAgain, _) => Elapsed(Fire(w.(refireTimer := Idle), cfg, now, playerOwned), false)
    case Pending(CooldownNotice, _) => Elapsed(w.(refireTimer := Idle), true)
  }

  /** A pending refire is due exactly one refire period after the last recorded shot. */
  predicate RefireSpaced(w: Weapon, cfg: Config)
  {
    w.refireTimer.Pending? ==> w.refireTimer.due == w.timeOfLastShot + cfg.refireRate
  }

  /** Fire leaves any pending refire one refire period after the last shot. */
  lemma FireKeepsSpacing(w: Weapon, cfg: Config, now: real, playerOwned: bool)
    requires RefireSpaced(w, cfg)
    ensures RefireSpaced(Fire(w, cfg, now, playerOwned), cfg)
  {
  }

  /**
   * With the corrected delay, StartFiring, StopFiring and the timer running out
   * all keep every pending refire one refire period after the last shot, so a
   * timer-driven shot comes at least one refire period after the previous one,
   * and exactly one when the frame falls on the due time.
   */
  lemma UntilReadyKeepsSpacing(w: Weapon, cfg: Config, now: real, frameTime: real, isEmpty: bool,
                               playerOwned: bool)
    requires RefireSpaced(w, cfg)
    requires w.refireTimer.Pending? ==> frameTime >= w.refireTimer.due
    ensures RefireSpaced(StartFiring(w, cfg, now, isEmpty, playerOwned, UntilReady), cfg)
    ensures RefireSpaced(StopFiring(w), cfg)
    ensures RefireSpaced(TimerElapsed(w, cfg, frameTime, playerOwned).weapon, cfg)
    ensures w.refireTimer.Pending? && w.refireTimer.action == FireAgain ==>
              var r := TimerElapsed(w, cfg, frameTime, playerOwned).weapon;
              r.firing ==>
                && r.timeOfLastShot - w.timeOfLastShot >= cfg.refireRate
                && (frameTime == w.refireTimer.due ==> r.timeOfLastShot - w.timeOfLastShot == cfg.refireRate)
  {
    if !isEmpty && now - w.timeOfLastShot > cfg.refireRate {
      FireKeepsSpacing(w.(firing := true), cfg, now, playerOwned);
    }
    if w.refireTimer.Pending? && w.refireTimer.action == FireAgain {
      FireKeepsSpacing(w.(refireTimer := Idle), cfg, frameTime, playerOwned);
    }
  }

  /**
   * As written, an early trigger pull on a full-auto weapon schedules the shot
   * after the time since the last shot: with a refire period of 1, a shot at 0
   * and a pull at 0.1, the timer is due at 0.2, and a frame anywhere before
   * 1.0 fires the next shot early.
   */
  lemma SinceLastShotFiresEarly(frameTime: real)
    requires 0.2 <= frameTime < 1.0
    ensures var cfg := Config(30, 3, true, 1.0);
            var w := Weapon(10, 2, false, 0.0, Idle, false);
            var s := StartFiring(w, cfg, 0.1, false, true, SinceLastShot);
            var r := TimerElapsed(s, cfg, frameTime, true).weapon;
            && s.refireTimer == Pending(FireAgain, 0.2)
            && !RefireSpaced(s, cfg)
            && r.firing && r.bullets == 9 && r.timeOfLastShot == frameTime
            && r.timeOfLastShot - w.timeOfLastShot < cfg.refireRate
  {
    var cfg := Config(30, 3, true, 1.0);
    var w := Weapon(10, 2, false, 0.0, Idle, false);
    var s := StartFiring(w, cfg, 0.1, false, true, SinceLastShot);
    assert s.refireTimer == Pending(FireAgain, 0.2);
    var r := TimerElapsed(s, cfg, frameTime, true).weapon;
    assert r == Fire(s.(refireTimer := Idle), cfg, frameTime, true);
  }

  /** Under the corrected delay the same pull schedules the shot at 1.0, one full period after the last. */
  lemma UntilReadyWaitsFullPeriod()
    ensures var cfg := Config(30, 3, true, 1.0);
            var w := Weapon(10, 2, false, 0.0, Idle, false);
            var s := StartFiring(w, cfg, 0.1, false, true, UntilReady);
            s.refireTimer == Pending(FireAgain, 1.0) && RefireSpaced(s, cfg)
  {
    var cfg := Config(30, 3, true, 1.0);
    var w := Weapon(10, 2, false, 0.0, Idle, false);
    assert RefireDelay(UntilReady, 0.1, 1.0) == 0.9;
  }
}
