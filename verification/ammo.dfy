/**
  Ammunition bookkeeping across the bullet's rules: a tank's stock is the
  rounds in its hand plus its standard bullets still in flight, and no
  frame step or hit changes it, since a bullet gives its round back exactly
  when it leaves the live list.
*/
module Ammo {
  import opened State
  import opened Mixins
  import Bullet
  import TankHit

  /** `p` is a standard bullet fired by the tank `o`, holding one of its rounds. */
  predicate Spent(p: Projectile, o: nat)
  {
    p.variant.Standard? && p.owner == o
  }

  /** The number of the tank `o`'s bullets in `live`. */
  function InFlight(live: seq<Projectile>, o: nat): nat
  {
    if |live| == 0 then 0 else (if Spent(live[0], o) then 1 else 0) + InFlight(live[1..], o)
  }

  lemma {:induction false} InFlightConcat(a: seq<Projectile>, b: seq<Projectile>, o: nat)
    ensures InFlight(a + b, o) == InFlight(a, o) + InFlight(b, o)
    decreases |a|
  {
    if |a| == 0 {
      assert a + b == b;
    } else {
      assert (a + b)[0] == a[0];
      assert (a + b)[1..] == a[1..] + b;
      InFlightConcat(a[1..], b, o);
    }
  }

  /** The count around position `i`: before it, at it, after it. */
  lemma InFlightAround(live: seq<Projectile>, i: nat, x: Projectile, o: nat)
    requires i < |live|
    ensures InFlight(live[..i] + [x] + live[i + 1..], o)
         == InFlight(live[..i], o) + (if Spent(x, o) then 1 else 0) + InFlight(live[i + 1..], o)
  {
    InFlightConcat(live[..i] + [x], live[i + 1..], o);
    InFlightConcat(live[..i], [x], o);
    assert [x][1..] == [];
  }

  /** Removing the element at `i` loses one bullet of `o` exactly when that element is one. */
  lemma InFlightRemoveAt(live: seq<Projectile>, i: nat, o: nat)
    requires i < |live|
    ensures InFlight(RemoveAt(live, i), o) + (if Spent(live[i], o) then 1 else 0) == InFlight(live, o)
  {
    assert live == live[..i] + [live[i]] + live[i + 1..];
    InFlightAround(live, i, live[i], o);
    InFlightConcat(live[..i], live[i + 1..], o);
    assert RemoveAt(live, i) == live[..i] + live[i + 1..];
  }

  /** Replacing the element at `i` by one of the same standing keeps the count. */
  lemma InFlightReplace(live: seq<Projectile>, i: nat, x: Projectile, o: nat)
    requires i < |live| && (Spent(x, o) <==> Spent(live[i], o))
    ensures InFlight(live[i := x], o) == InFlight(live, o)
  {
    assert live[i := x] == live[..i] + [x] + live[i + 1..];
    assert live == live[..i] + [live[i]] + live[i + 1..];
    InFlightAround(live, i, x, o);
    InFlightAround(live, i, live[i], o);
  }

  /** The tank `o`'s stock: rounds in hand plus its bullets in flight. */
  function Stock(w: World, o: nat): int
    requires o in w.tanks
  {
    w.tanks[o].ammo + InFlight(w.live, o)
  }

  /** Destroying a bullet hands its round back: every tank's stock is unchanged. */
  lemma DestroyKeepsStock(w: World, i: nat)
    requires Owned(w, i) && w.live[i].variant.Standard?
    ensures var r := Bullet.Destroy(w, i);
      forall o :: o in w.tanks ==> o in r.tanks && Stock(r, o) == Stock(w, o)
  {
    var r := Bullet.Destroy(w, i);
    forall o | o in w.tanks
      ensures o in r.tanks && Stock(r, o) == Stock(w, o)
    {
      InFlightRemoveAt(w.live, i, o);
    }
  }

  /** A bullet's frame, whether it flies on or expires, keeps every tank's stock. */
  lemma OnFrameKeepsStock(w: World, i: nat)
    requires Owned(w, i) && w.live[i].variant.Standard?
    ensures var r := Bullet.OnFrame(w, i);
      forall o :: o in w.tanks ==> o in r.tanks && Stock(r, o) == Stock(w, o)
  {
    var p := w.live[i];
    var r := Bullet.OnFrame(w, i);
    if p.variant.duration - 1 <= 0 {
      assert r.live == RemoveAt(w.live, i);
      assert r.tanks == w.tanks[p.owner := w.tanks[p.owner].(ammo := w.tanks[p.owner].ammo + 1)];
      forall o | o in w.tanks
        ensures o in r.tanks && Stock(r, o) == Stock(w, o)
      {
        InFlightRemoveAt(w.live, i, o);
      }
    } else {
      var q := UpdateNext(Move(p)).(variant := Standard(p.variant.duration - 1));
      assert r.live == w.live[i := q] && r.tanks == w.tanks;
      forall o | o in w.tanks
        ensures o in r.tanks && Stock(r, o) == Stock(w, o)
      {
        InFlightReplace(w.live, i, q, o);
      }
    }
  }

  /** A tank hit, by any round against any tank, keeps every tank's stock. */
  lemma HitKeepsStock(w: World, i: nat, target: nat)
    requires Owned(w, i) && target in w.tanks
    ensures var r := TankHit.Hit(w, i, target).world;
      forall o :: o in w.tanks ==> o in r.tanks && Stock(r, o) == Stock(w, o)
  {
    var r := TankHit.Hit(w, i, target).world;
    forall o | o in w.tanks
      ensures o in r.tanks && Stock(r, o) == Stock(w, o)
    {
      if r != w {
        InFlightRemoveAt(w.live, i, o);
      }
    }
  }
}
