/**
  The capabilities every projectile variant mixes in: kinematic stepping
  (canMoveStandard) and removal from the live list (canDestroySelf).
*/
module Mixins {
  import opened Geometry
  import opened State

  /** _move: advance the position by the displacement; nothing else changes. */
  function Move(p: Projectile): (r: Projectile)
    ensures r.pos == Add(p.pos, p.move)
    ensures r == p.(pos := r.pos)
  {
    p.(pos := Add(p.pos, p.move))
  }

  /** _updateNext: refresh the lookahead from the current displacement. */
  function UpdateNext(p: Projectile): (r: Projectile)
    ensures Consistent(r)
    ensures r == p.(next := r.next)
  {
    p.(next := Add(p.pos, p.move))
  }

  /**
    A move followed by a lookahead refresh: the projectile lands exactly
    where the previous lookahead pointed (when the lookahead was current)
    and looks one more displacement ahead.
  */
  lemma MoveThenUpdateNext(p: Projectile)
    ensures var q := UpdateNext(Move(p));
      && q.pos == Add(p.pos, p.move)
      && q.next == Add(q.pos, p.move)
      && Consistent(q)
      && (Consistent(p) ==> q.pos == p.next)
      && q == p.(pos := q.pos, next := q.next)
  {
  }

  /** The onFrame of the M82 and the Breaker: move, then refresh the lookahead, in place. */
  function AdvanceAt(w: World, i: nat): (r: World)
    requires i < |w.live|
    ensures |r.live| == |w.live|
    ensures r.live[i].pos == Add(w.live[i].pos, w.live[i].move)
    ensures Consistent(r.live[i])
    ensures r.live[i] == w.live[i].(pos := r.live[i].pos, next := r.live[i].next)
    ensures forall j :: 0 <= j < |w.live| && j != i ==> r.live[j] == w.live[j]
    ensures r == w.(live := r.live)
  {
    w.(live := w.live[i := UpdateNext(Move(w.live[i]))])
  }

  /** splice(i, 1): the element at `i` leaves; the others keep their order. */
  function RemoveAt<T>(s: seq<T>, i: nat): (r: seq<T>)
    requires i < |s|
    ensures |r| == |s| - 1
    ensures forall j :: 0 <= j < i ==> r[j] == s[j]
    ensures forall j :: i <= j < |r| ==> r[j] == s[j + 1]
    ensures multiset(r) + multiset{s[i]} == multiset(s)
  {
    assert s == s[..i] + [s[i]] + s[i + 1..];
    s[..i] + s[i + 1..]
  }

  /** canDestroySelf._destroy: only the live list changes. */
  function DestroySelf(w: World, i: nat): (r: World)
    requires i < |w.live|
    ensures r.live == RemoveAt(w.live, i)
    ensures r == w.(live := r.live)
  {
    w.(live := RemoveAt(w.live, i))
  }
}
