/** The photon ring buffer of nm::Photons: a fixed number of position slots,
    each either active or holding the "inactive" sentinel position, a
    velocity per slot, and a cursor to the slot written last. Positions and
    velocities are real vectors (floating-point rounding is not modelled). */
module Photons {
  import opened Common

  /** FLT_MAX, std::numeric_limits<float>::max(). */
  const FloatMax: real := 340282346638528859811704183484516925440.0

  /** The position that marks a slot as holding no photon. */
  const Inactive: Vec3 := Vec3(FloatMax, FloatMax, FloatMax)

  /** Speed factor applied to the random velocity draws in init. */
  const Speed: real := 300.0

  datatype Photons = Photons(posns: seq<Vec3>, vels: seq<Vec3>, current: nat)

  /** The state update and onPhoton need: one velocity per slot, at least
      one slot (the cursor is taken modulo the slot count), cursor in range. */
  predicate Valid(p: Photons) {
    0 < |p.posns| && |p.vels| == |p.posns| && p.current < |p.posns|
  }

  predicate IsActive(v: Vec3) {
    v != Inactive
  }

  /** Photons(): the cursor starts at slot 0; there are no slots yet. */
  function NewPhotons(): (p: Photons)
    ensures p.current == 0 && |p.posns| == 0 && |p.vels| == 0
  {
    Photons([], [], 0)
  }

  /** init: `maxPhotons` slots, all inactive, with velocities 300 times the
      random draws. The source normalises a copy of each draw and discards
      it, so the draw itself is scaled. The cursor is left where it was. */
  function Init(p: Photons, maxPhotons: nat, draws: seq<Vec3>): (r: Photons)
    requires |draws| == maxPhotons
    ensures |r.posns| == maxPhotons && |r.vels| == maxPhotons
    ensures forall i :: 0 <= i < maxPhotons ==> !IsActive(r.posns[i])
    ensures forall i :: 0 <= i < maxPhotons ==> r.vels[i] == Scale(draws[i], Speed)
    ensures r.current == p.current
    ensures 0 < maxPhotons && p.current < maxPhotons ==> Valid(r)
  {
    Photons(seq(maxPhotons, _ => Inactive), seq(maxPhotons, i requires 0 <= i < maxPhotons => Scale(draws[i], Speed)), p.current)
  }

  /** The slot photon i of an event lands in: the cursor is advanced before
      each write, so the first photon goes one past the old cursor. */
  function SlotOf(cur: nat, i: nat, size: nat): nat
    requires size > 0
  {
    (cur + i + 1) % size
  }

  /** The remainder is the one r with a == q * n + r and 0 <= r < n. */
  lemma ModUnique(a: int, n: int, q: int, r: int)
    requires n > 0 && 0 <= r < n && a == q * n + r
    ensures a % n == r
  {
    var q0, r0 := a / n, a % n;
    assert q0 * n + r0 == q * n + r;
    assert (q - q0) * n == r0 - r;
    if q - q0 >= 1 {
      MulAtLeast(q - q0, n);
      assert false;
    }
    if q0 - q >= 1 {
      MulAtLeast(q0 - q, n);
      assert false;
    }
  }

  lemma MulAtLeast(k: int, n: int)
    requires k >= 1 && n > 0
    ensures k * n >= n
  {
    assert k * n == (k - 1) * n + n;
  }

  lemma ModStep(a: nat, n: nat)
    requires n > 0
    ensures (a % n + 1) % n == (a + 1) % n
  {
    var q, r := a / n, a % n;
    if r + 1 < n {
      ModUnique(a + 1, n, q, r + 1);
      ModUnique(r + 1, n, 0, r + 1);
    } else {
      assert a + 1 == (q + 1) * n;
      ModUnique(a + 1, n, q + 1, 0);
      ModUnique(r + 1, n, 1, 0);
    }
  }

  /** Two writes fewer than `size` apart hit different slots. */
  lemma ModDistinct(a: nat, d: nat, n: nat)
    requires 0 < d < n
    ensures a % n != (a + d) % n
  {
    var q, r := a / n, a % n;
    if r + d < n {
      ModUnique(a + d, n, q, r + d);
    } else {
      assert a + d == (q + 1) * n + (r + d - n);
      ModUnique(a + d, n, q + 1, r + d - n);
    }
  }

  /** onPhoton: each photon advances the cursor, modulo the slot count, and
      is written at the new cursor. Of the photons mapped to one slot the
      last one stays; the last `size` photons all land in distinct slots. */
  method OnPhoton(p: Photons, photons: seq<Vec3>) returns (r: Photons)
    requires Valid(p)
    ensures Valid(r) && r.vels == p.vels && |r.posns| == |p.posns|
    ensures r.current == (p.current + |photons|) % |p.posns|
    ensures forall i :: 0 <= i < |photons| && |photons| <= i + |p.posns| ==>
      r.posns[SlotOf(p.current, i, |p.posns|)] == photons[i]
    ensures forall j :: (0 <= j < |p.posns| &&
      forall i :: 0 <= i < |photons| ==> SlotOf(p.current, i, |p.posns|) != j) ==>
      r.posns[j] == p.posns[j]
  {
    var size := |p.posns|;
    var posns := p.posns;
    var cur := p.current;
    var k := 0;
    while k < |photons|
      invariant 0 <= k <= |photons|
      invariant |posns| == size
      invariant cur == (p.current + k) % size
      invariant forall i :: 0 <= i < k && k <= i + size ==> posns[SlotOf(p.current, i, size)] == photons[i]
      invariant forall j :: (0 <= j < size && forall i :: 0 <= i < k ==> SlotOf(p.current, i, size) != j) ==>
        posns[j] == p.posns[j]
    {
      ModStep(p.current + k, size);
      cur := (cur + 1) % size;
      assert cur == SlotOf(p.current, k, size);
      forall i | 0 <= i < k && k + 1 <= i + size
        ensures SlotOf(p.current, i, size) != cur
      {
        ModDistinct(p.current + i + 1, k - i, size);
      }
      posns := posns[cur := photons[k]];
      k := k + 1;
    }
    r := Photons(posns, p.vels, cur);
  }

  /** A pair-production event: the position and velocity of the photon it
      consumes. */
  datatype PairProduction = PairProduction(position: Vec3, velocity: Vec3)

  datatype Stepped = Stepped(photons: Photons, event: Option<PairProduction>)

  /** One slot of update's motion loop. */
  function Move(pos: Vec3, vel: Vec3, dt: real): Vec3 {
    if IsActive(pos) then Add(pos, Scale(vel, dt)) else pos
  }

  /** update: every active slot moves by velocity * dt; then, when the random
      draw fired (`fire`, the source's ofRandomuf() < 0.02) and the slot at
      the cursor is active, that photon is consumed by pair production and
      its slot becomes inactive. */
  function Update(p: Photons, dt: real, fire: bool): (r: Stepped)
    requires Valid(p)
    ensures Valid(r.photons) && r.photons.vels == p.vels && r.photons.current == p.current
    ensures |r.photons.posns| == |p.posns|
    ensures forall i :: 0 <= i < |p.posns| && !IsActive(p.posns[i]) ==> !IsActive(r.photons.posns[i])
    ensures forall i :: 0 <= i < |p.posns| && IsActive(p.posns[i]) && !(r.event.Some? && i == p.current) ==>
      r.photons.posns[i] == Add(p.posns[i], Scale(p.vels[i], dt))
    ensures r.event.Some? <==> fire && IsActive(Move(p.posns[p.current], p.vels[p.current], dt))
    ensures r.event.Some? ==>
      r.event.value == PairProduction(Move(p.posns[p.current], p.vels[p.current], dt), p.vels[p.current]) &&
      !IsActive(r.photons.posns[p.current])
  {
    var moved := seq(|p.posns|, i requires 0 <= i < |p.posns| => Move(p.posns[i], p.vels[i], dt));
    var c := p.current;
    if fire && IsActive(moved[c]) then
      Stepped(p.(posns := moved[c := Inactive]), Some(PairProduction(moved[c], p.vels[c])))
    else
      Stepped(p.(posns := moved), None)
  }

  /** Right after init nothing is in flight: an update moves no slot and
      never produces a pair, whatever the draw. */
  lemma InitThenUpdateIsQuiet(p: Photons, maxPhotons: nat, draws: seq<Vec3>, dt: real, fire: bool)
    requires |draws| == maxPhotons && 0 < maxPhotons && p.current < maxPhotons
    ensures var q := Init(p, maxPhotons, draws);
      var r := Update(q, dt, fire);
      r.event.None? && r.photons == q && ActiveCount(q.posns) == 0
  {
    var q := Init(p, maxPhotons, draws);
    var r := Update(q, dt, fire);
    assert r.photons.posns == q.posns;
    NoneActive(q.posns);
  }

  lemma {:induction false} NoneActive(s: seq<Vec3>)
    requires forall i :: 0 <= i < |s| ==> !IsActive(s[i])
    ensures ActiveCount(s) == 0
  {
    if |s| > 0 {
      assert forall i :: 0 <= i < |s[1..]| ==> s[1..][i] == s[i + 1];
      NoneActive(s[1..]);
    }
  }

  /** Number of active slots. */
  function ActiveCount(s: seq<Vec3>): (n: nat)
    ensures n <= |s|
  {
    if |s| == 0 then 0 else (if IsActive(s[0]) then 1 else 0) + ActiveCount(s[1..])
  }

  /** update never activates a slot, so the number of photons in flight
      does not grow. */
  lemma UpdateNeverActivates(p: Photons, dt: real, fire: bool)
    requires Valid(p)
    ensures ActiveCount(Update(p, dt, fire).photons.posns) <= ActiveCount(p.posns)
  {
    var q := Update(p, dt, fire).photons.posns;
    ActiveCountMono(q, p.posns);
  }

  lemma {:induction false} ActiveCountMono(a: seq<Vec3>, b: seq<Vec3>)
    requires |a| == |b|
    requires forall i :: 0 <= i < |a| && IsActive(a[i]) ==> IsActive(b[i])
    ensures ActiveCount(a) <= ActiveCount(b)
  {
    if |a| > 0 {
      assert forall i :: 0 <= i < |a[1..]| ==> a[1..][i] == a[i + 1] && b[1..][i] == b[i + 1];
      ActiveCountMono(a[1..], b[1..]);
    }
  }
}
