/** Bullet–alien collisions: pygame.sprite.groupcollide(bullets, aliens, True,
    True) as _check_bullet_alien_collisions uses it. */
module Collisions {
  import opened Geometry
  import opened Seqs

  /** What groupcollide leaves behind: the bullets and aliens still in their
      groups, and, for each bullet that hit, the number of aliens it killed
      (the lengths of the values of the returned dictionary, in order). */
  datatype Outcome = Outcome(bullets: seq<Rect>, aliens: seq<Rect>, hits: seq<nat>)

  /** groupcollide with both kill flags set.  The bullets are taken in group
      order; each one kills at once every alien it overlaps that is still in
      the alien group, and goes itself if it killed any.  So a later bullet
      whose only targets were already killed survives. */
  function GroupCollide(bullets: seq<Rect>, aliens: seq<Rect>): (r: Outcome)
    ensures |r.bullets| + |r.hits| == |bullets|
    ensures forall k :: 0 <= k < |r.hits| ==> r.hits[k] >= 1
    decreases |bullets|
  {
    if bullets == [] then Outcome([], aliens, [])
    else
      var b := bullets[0];
      var struck := Keep(aliens, a => Overlaps(b, a));
      var rest := GroupCollide(bullets[1..], Keep(aliens, a => !Overlaps(b, a)));
      if struck == [] then Outcome([b] + rest.bullets, rest.aliens, rest.hits)
      else Outcome(rest.bullets, rest.aliens, [|struck|] + rest.hits)
  }

  /** Some bullet of `bullets` overlaps alien `a`. */
  predicate Struck(bullets: seq<Rect>, a: Rect) {
    exists k :: 0 <= k < |bullets| && Overlaps(bullets[k], a)
  }

  lemma StruckCons(bullets: seq<Rect>, a: Rect)
    requires bullets != []
    ensures Struck(bullets, a) <==> Overlaps(bullets[0], a) || Struck(bullets[1..], a)
  {
    if Struck(bullets, a) && !Overlaps(bullets[0], a) {
      var k :| 0 <= k < |bullets| && Overlaps(bullets[k], a);
      assert bullets[1..][k - 1] == bullets[k];
    }
    if Struck(bullets[1..], a) {
      var k :| 0 <= k < |bullets[1..]| && Overlaps(bullets[1..][k], a);
      assert bullets[k + 1] == bullets[1..][k];
    }
  }

  /** The aliens left are exactly those that no bullet overlapped, in their
      original order. */
  lemma {:induction false} CollideAliens(bullets: seq<Rect>, aliens: seq<Rect>)
    ensures GroupCollide(bullets, aliens).aliens == Keep(aliens, a => !Struck(bullets, a))
    decreases |bullets|
  {
    if bullets == [] {
      KeepAll(aliens, a => !Struck(bullets, a));
    } else {
      var b := bullets[0];
      var missed := Keep(aliens, a => !Overlaps(b, a));
      CollideAliens(bullets[1..], missed);
      forall k | 0 <= k < |aliens|
        ensures !Struck(bullets, aliens[k]) == (!Overlaps(b, aliens[k]) && !Struck(bullets[1..], aliens[k]))
      {
        StruckCons(bullets, aliens[k]);
      }
      KeepKeep(aliens, a => !Overlaps(b, a), a => !Struck(bullets[1..], a), a => !Struck(bullets, a));
    }
  }

  /** Every alien removed was killed by exactly one bullet: the hit counts add
      up to the number of aliens removed. */
  lemma {:induction false} CollideCounts(bullets: seq<Rect>, aliens: seq<Rect>)
    ensures Sum(GroupCollide(bullets, aliens).hits) == |aliens| - |GroupCollide(bullets, aliens).aliens|
    decreases |bullets|
  {
    if bullets != [] {
      var b := bullets[0];
      KeepSplit(aliens, a => Overlaps(b, a), a => !Overlaps(b, a));
      CollideCounts(bullets[1..], Keep(aliens, a => !Overlaps(b, a)));
    }
  }

  /** No surviving bullet overlaps a surviving alien: the collisions are fully
      resolved; and every bullet that overlapped no alien at all survives. */
  lemma {:induction false} CollideBullets(bullets: seq<Rect>, aliens: seq<Rect>)
    ensures var r := GroupCollide(bullets, aliens);
      forall i, j :: 0 <= i < |r.bullets| && 0 <= j < |r.aliens| ==> !Overlaps(r.bullets[i], r.aliens[j])
    ensures var r := GroupCollide(bullets, aliens);
      forall b :: b in bullets && (forall a :: a in aliens ==> !Overlaps(b, a)) ==> b in r.bullets
    ensures forall b :: b in GroupCollide(bullets, aliens).bullets ==> b in bullets
    decreases |bullets|
  {
    if bullets != [] {
      var r := GroupCollide(bullets, aliens);
      var b := bullets[0];
      var missed := Keep(aliens, a => !Overlaps(b, a));
      var rest := GroupCollide(bullets[1..], missed);
      CollideBullets(bullets[1..], missed);
      CollideAliens(bullets[1..], missed);
      forall a | a in rest.aliens
        ensures a in aliens && !Overlaps(b, a)
      {
        KeepMember(missed, a => !Struck(bullets[1..], a), a);
        KeepMember(aliens, a => !Overlaps(b, a), a);
      }
      forall a | a in aliens && !Overlaps(b, a)
        ensures a in missed
      {
        KeepMember(aliens, a => !Overlaps(b, a), a);
      }
      if Keep(aliens, a => Overlaps(b, a)) == [] {
        forall a | a in aliens
          ensures !Overlaps(b, a)
        {
          KeepMember(aliens, a => Overlaps(b, a), a);
        }
        assert r.bullets == [b] + rest.bullets;
      }
      assert forall x :: x in rest.bullets ==> x in r.bullets;
      forall x | x in bullets && (forall a :: a in aliens ==> !Overlaps(x, a))
        ensures x in r.bullets
      {
        if x != b {
          assert x in bullets[1..];
          forall a | a in missed
            ensures !Overlaps(x, a)
          {
            KeepMember(aliens, a => !Overlaps(b, a), a);
          }
        } else if Keep(aliens, a => Overlaps(b, a)) != [] {
          var a0 := Keep(aliens, a => Overlaps(b, a))[0];
          KeepMember(aliens, a => Overlaps(b, a), a0);
          assert false;
        }
      }
    }
  }

  /** The aliens still alive when bullet `i` takes its turn: those no earlier
      bullet overlapped. */
  function Alive(bullets: seq<Rect>, aliens: seq<Rect>, i: nat): seq<Rect>
    requires i <= |bullets|
  {
    Keep(aliens, a => !Struck(bullets[..i], a))
  }

  /** The number of aliens bullet `i` kills on its turn. */
  function Kills(bullets: seq<Rect>, aliens: seq<Rect>, i: nat): nat
    requires i < |bullets|
  {
    |Keep(Alive(bullets, aliens, i), a => Overlaps(bullets[i], a))|
  }

  /** Bullet `i` kills nothing on its turn exactly when no earlier bullet
      left alive an alien it overlaps. */
  lemma KillsNone(bullets: seq<Rect>, aliens: seq<Rect>, i: nat)
    requires i < |bullets|
    ensures Kills(bullets, aliens, i) == 0 <==>
      forall a :: a in aliens && !Struck(bullets[..i], a) ==> !Overlaps(bullets[i], a)
  {
    var alive := Alive(bullets, aliens, i);
    var struck := Keep(alive, a => Overlaps(bullets[i], a));
    forall a ensures a in alive <==> a in aliens && !Struck(bullets[..i], a) {
      KeepMember(aliens, a => !Struck(bullets[..i], a), a);
    }
    forall a ensures a in struck <==> a in alive && Overlaps(bullets[i], a) {
      KeepMember(alive, a => Overlaps(bullets[i], a), a);
    }
    if struck != [] {
      assert struck[0] in struck;
    }
  }

  /** Each bullet of the group, in order, with the number of aliens it kills
      on its turn. */
  function Turns(bullets: seq<Rect>, aliens: seq<Rect>): (r: seq<(Rect, nat)>)
    ensures |r| == |bullets|
    ensures forall i :: 0 <= i < |r| ==> r[i] == (bullets[i], Kills(bullets, aliens, i))
  {
    seq(|bullets|, i requires 0 <= i < |bullets| => (bullets[i], Kills(bullets, aliens, i)))
  }

  /** A turn in which the bullet killed nothing. */
  predicate Idle(t: (Rect, nat)) { t.1 == 0 }

  /** A turn in which the bullet killed at least one alien. */
  predicate Scoring(t: (Rect, nat)) { t.1 > 0 }

  /** The bullets of a sequence of turns. */
  function Shooters(ts: seq<(Rect, nat)>): (r: seq<Rect>)
    ensures |r| == |ts| && forall k :: 0 <= k < |r| ==> r[k] == ts[k].0
  {
    seq(|ts|, k requires 0 <= k < |ts| => ts[k].0)
  }

  /** The kill counts of a sequence of turns. */
  function Tally(ts: seq<(Rect, nat)>): (r: seq<nat>)
    ensures |r| == |ts| && forall k :: 0 <= k < |r| ==> r[k] == ts[k].1
  {
    seq(|ts|, k requires 0 <= k < |ts| => ts[k].1)
  }

  /** The first bullet's turn, then the turns of the others against the
      aliens it missed. */
  lemma TurnsCons(bullets: seq<Rect>, aliens: seq<Rect>)
    requires bullets != []
    ensures Turns(bullets, aliens) ==
      [(bullets[0], |Keep(aliens, a => Overlaps(bullets[0], a))|)] +
      Turns(bullets[1..], Keep(aliens, a => !Overlaps(bullets[0], a)))
  {
    var b, rest := bullets[0], bullets[1..];
    var missed := Keep(aliens, a => !Overlaps(b, a));
    assert bullets[..0] == [];
    KeepAll(aliens, a => !Struck(bullets[..0], a));
    forall i | 0 <= i < |rest|
      ensures Kills(bullets, aliens, i + 1) == Kills(rest, missed, i)
    {
      var before := bullets[..i + 1];
      assert before[0] == b && before[1..] == rest[..i];
      forall k | 0 <= k < |aliens|
        ensures !Struck(before, aliens[k]) == (!Overlaps(b, aliens[k]) && !Struck(rest[..i], aliens[k]))
      {
        StruckCons(before, aliens[k]);
      }
      KeepKeep(aliens, a => !Overlaps(b, a), a => !Struck(rest[..i], a), a => !Struck(before, a));
      assert bullets[i + 1] == rest[i];
    }
    var lhs := Turns(bullets, aliens);
    var rhs := [(b, |Keep(aliens, a => Overlaps(b, a))|)] + Turns(rest, missed);
    assert |lhs| == |rhs|;
    forall i | 0 <= i < |lhs| ensures lhs[i] == rhs[i] {
      if i > 0 {
        assert rhs[i] == Turns(rest, missed)[i - 1];
      }
    }
  }

  /** groupcollide, stated in the order of the group: a bullet stays exactly
      when it overlaps no alien left alive by the bullets before it, and the
      returned dictionary lists, for every other bullet in order, how many of
      those aliens it overlaps. */
  lemma {:induction false} CollideInOrder(bullets: seq<Rect>, aliens: seq<Rect>)
    ensures GroupCollide(bullets, aliens).bullets == Shooters(Keep(Turns(bullets, aliens), Idle))
    ensures GroupCollide(bullets, aliens).hits == Tally(Keep(Turns(bullets, aliens), Scoring))
    decreases |bullets|
  {
    var ts := Turns(bullets, aliens);
    if bullets == [] {
      assert ts == [];
    } else {
      var b := bullets[0];
      var missed := Keep(aliens, a => !Overlaps(b, a));
      var k := |Keep(aliens, a => Overlaps(b, a))|;
      var rest := Turns(bullets[1..], missed);
      CollideInOrder(bullets[1..], missed);
      TurnsCons(bullets, aliens);
      KeepCons((b, k), rest, Idle);
      KeepCons((b, k), rest, Scoring);
      if k == 0 {
        ShootersCons((b, k), Keep(rest, Idle));
      } else {
        TallyCons((b, k), Keep(rest, Scoring));
      }
    }
  }

  lemma ShootersCons(t: (Rect, nat), ts: seq<(Rect, nat)>)
    ensures Shooters([t] + ts) == [t.0] + Shooters(ts)
  {
  }

  lemma TallyCons(t: (Rect, nat), ts: seq<(Rect, nat)>)
    ensures Tally([t] + ts) == [t.1] + Tally(ts)
  {
  }

  /** One bullet over two aliens kills both, goes itself, and counts two hits. */
  lemma OneBulletTwoAliens(b: Rect, a1: Rect, a2: Rect)
    requires Overlaps(b, a1) && Overlaps(b, a2)
    ensures GroupCollide([b], [a1, a2]) == Outcome([], [], [2])
  {
    assert [a1, a2][1..] == [a2];
    assert Keep([a1, a2], a => Overlaps(b, a)) == [a1, a2];
    assert Keep([a1, a2], a => !Overlaps(b, a)) == [];
  }

  /** Two bullets over one alien: the first kills it, and the second, which
      overlapped it too, stays in the group. */
  lemma SharedTargetSparesSecondBullet(b1: Rect, b2: Rect, a: Rect)
    requires Overlaps(b1, a) && Overlaps(b2, a)
    ensures GroupCollide([b1, b2], [a]) == Outcome([b2], [], [1])
  {
    assert [b1, b2][1..] == [b2];
    assert Keep([a], x => Overlaps(b1, x)) == [a];
    assert Keep([a], x => !Overlaps(b1, x)) == [];
    assert Keep([], x => Overlaps(b2, x)) == [];
    assert GroupCollide([b2], []) == Outcome([b2], [], []);
  }
}
