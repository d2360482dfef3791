/**
 * ac10x_fill_regcache (pcm5102a.c lines 674-696): a sweep that reads each
 * register of a device from the hardware, with the register cache bypassed,
 * and stores the value into the cache alone, with the cache in cache-only
 * mode. The regmap library is not part of this model: a read is a call of
 * `live`, which gives the hardware's answer for a register or None when the
 * bus read fails, and a write in cache-only mode stores into the cache and
 * nothing else.
 */
module RegCache {
  import opened Options

  /** The part of a struct regmap the sweep touches: its cache and its two mode flags. */
  datatype Regmap = Regmap(cache: map<nat, nat>, bypass: bool, cacheOnly: bool)

  /** A register access the sweep makes: a bus read, or a store into the cache. */
  datatype Access = HwRead(reg: nat) | CacheWrite(reg: nat, val: nat)

  /** An access together with the mode flags in force when it was made. */
  datatype Step = Step(access: Access, bypass: bool, cacheOnly: bool)

  /**
   * The flag discipline the sweep keeps: every read bypasses the cache and
   * so goes to the hardware, and every write goes to the cache alone
   * (cache-only on, bypass off).
   */
  predicate Disciplined(steps: seq<Step>) {
    forall k :: 0 <= k < |steps| ==>
      if steps[k].access.HwRead? then steps[k].bypass
      else steps[k].cacheOnly && !steps[k].bypass
  }

  /**
   * The cache once registers 0 .. count-1 are synced in order: each register
   * whose read succeeds holds the value read, every other entry is as it was.
   */
  function Synced(cache: map<nat, nat>, live: nat -> Option<nat>, count: nat): map<nat, nat> {
    if count == 0 then cache
    else
      var before := Synced(cache, live, count - 1);
      match live(count - 1)
      case Some(v) => before[count - 1 := v]
      case None => before
  }

  /** The number of registers a loop `i < n` visits. */
  function Visits(n: int): (count: nat)
    ensures count == 0 <==> n <= 0
    ensures n >= 0 ==> count == n
  {
    if n < 0 then 0 else n
  }

  /**
   * The loop of lines 679-691 over registers 0 .. n-1: set bypass and read;
   * on a failed read, go on to the next register with bypass still set;
   * otherwise clear bypass, store the value with cache-only set, and clear
   * cache-only. Lines 692-693 then clear both flags.
   */
  method Sweep(m: Regmap, n: int, live: nat -> Option<nat>) returns (m': Regmap, steps: seq<Step>)
    ensures m'.cache == Synced(m.cache, live, Visits(n))
    ensures !m'.bypass && !m'.cacheOnly
    ensures Disciplined(steps)
    ensures forall k :: 0 <= k < |steps| && steps[k].access.HwRead? ==> steps[k].access.reg < Visits(n)
  {
    m' := m;
    steps := [];
    var i := 0;
    while i < n
      invariant 0 <= i <= Visits(n)
      invariant m'.cache == Synced(m.cache, live, i)
      invariant Disciplined(steps)
      invariant forall k :: 0 <= k < |steps| && steps[k].access.HwRead? ==> steps[k].access.reg < i
    {
      m' := m'.(bypass := true);
      var r := live(i);
      steps := steps + [Step(HwRead(i), m'.bypass, m'.cacheOnly)];
      if r.None? {
        i := i + 1;
        continue;
      }
      m' := m'.(bypass := false);
      m' := m'.(cacheOnly := true);
      m' := m'.(cache := m'.cache[i := r.value]);
      steps := steps + [Step(CacheWrite(i, r.value), m'.bypass, m'.cacheOnly)];
      m' := m'.(cacheOnly := false);
      i := i + 1;
    }
    m' := m'.(bypass := false);
    m' := m'.(cacheOnly := false);
  }

  /**
   * What the sweep leaves in one cache entry: the value read, for a register
   * it visited whose read succeeded; otherwise the entry as it was, present
   * or absent.
   */
  lemma {:induction false} SyncedAt(cache: map<nat, nat>, live: nat -> Option<nat>, count: nat, k: nat)
    ensures k < count && live(k).Some? ==>
      k in Synced(cache, live, count) && Synced(cache, live, count)[k] == live(k).value
    ensures !(k < count && live(k).Some?) ==>
      && (k in Synced(cache, live, count) <==> k in cache)
      && (k in cache ==> Synced(cache, live, count)[k] == cache[k])
  {
    if count > 0 {
      SyncedAt(cache, live, count - 1, k);
    }
  }

  /**
   * A second sweep over an unchanged device leaves the cache as the first
   * one left it.
   */
  lemma SyncIdempotent(cache: map<nat, nat>, live: nat -> Option<nat>, count: nat)
    ensures Synced(Synced(cache, live, count), live, count) == Synced(cache, live, count)
  {
    var once := Synced(cache, live, count);
    var twice := Synced(once, live, count);
    forall k: nat
      ensures (k in twice <==> k in once) && (k in once ==> twice[k] == once[k])
    {
      SyncedAt(cache, live, count, k);
      SyncedAt(once, live, count, k);
    }
  }

  /**
   * ac10x_fill_regcache as written, with n = regmap_get_max_register(map):
   * it returns 0, leaves both flags off, keeps the flag discipline, reads
   * only registers below n, and syncs the cache for registers 0 .. n-1, a
   * failed read skipping only its own register.
   */
  method FillRegcacheAsWritten(m: Regmap, maxRegister: int, live: nat -> Option<nat>)
    returns (m': Regmap, steps: seq<Step>, status: int)
    ensures status == 0
    ensures !m'.bypass && !m'.cacheOnly
    ensures Disciplined(steps)
    ensures forall k :: 0 <= k < |steps| && steps[k].access.HwRead? ==> steps[k].access.reg < maxRegister
    ensures forall k: nat :: k < maxRegister && live(k).Some? ==> k in m'.cache && m'.cache[k] == live(k).value
    ensures m'.cache == Synced(m.cache, live, Visits(maxRegister))
  {
    m', steps := Sweep(m, maxRegister, live);
    forall k: nat | k < maxRegister && live(k).Some?
      ensures k in m'.cache && m'.cache[k] == live(k).value
    {
      SyncedAt(m.cache, live, Visits(maxRegister), k);
    }
    status := 0;
  }

  /**
   * The register regmap_get_max_register names is the highest valid one,
   * yet the loop `i < n` never syncs it: whatever the hardware holds there,
   * the cache entry stays as it was.
   */
  lemma MaxRegisterSkipped(cache: map<nat, nat>, live: nat -> Option<nat>, maxRegister: nat)
    ensures maxRegister in Synced(cache, live, Visits(maxRegister)) <==> maxRegister in cache
    ensures maxRegister in cache ==> Synced(cache, live, Visits(maxRegister))[maxRegister] == cache[maxRegister]
  {
    SyncedAt(cache, live, maxRegister, maxRegister);
  }

  /** A device whose only register, 0, reads 5: the sweep as written leaves its cache empty. */
  lemma OnlyRegisterSkipped()
    ensures Synced(map[], (r: nat) => Some(5), Visits(0)) == map[]
  {
  }

  /**
   * ac10x_fill_regcache with the loop running to the max register
   * inclusive (`i <= n`): every register 0 .. n whose read succeeds is
   * synced, and otherwise as written.
   */
  method FillRegcache(m: Regmap, maxRegister: int, live: nat -> Option<nat>)
    returns (m': Regmap, steps: seq<Step>, status: int)
    ensures status == 0
    ensures !m'.bypass && !m'.cacheOnly
    ensures Disciplined(steps)
    ensures forall k :: 0 <= k < |steps| && steps[k].access.HwRead? ==> steps[k].access.reg <= maxRegister
    ensures forall k: nat :: k <= maxRegister && live(k).Some? ==> k in m'.cache && m'.cache[k] == live(k).value
    ensures forall k: nat :: !(k <= maxRegister && live(k).Some?) ==>
      (k in m'.cache <==> k in m.cache) && (k in m.cache ==> m'.cache[k] == m.cache[k])
  {
    m', steps := Sweep(m, maxRegister + 1, live);
    forall k: nat
      ensures k <= maxRegister && live(k).Some? ==> k in m'.cache && m'.cache[k] == live(k).value
      ensures !(k <= maxRegister && live(k).Some?) ==>
        (k in m'.cache <==> k in m.cache) && (k in m.cache ==> m'.cache[k] == m.cache[k])
    {
      SyncedAt(m.cache, live, Visits(maxRegister + 1), k);
    }
    status := 0;
  }
}
