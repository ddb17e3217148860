// The cloth's collider registry as values: which scene colliders the
// start-up scan keeps, and what runtime insertion and removal do to the list.

module ColliderRegistry {
  import opened Engine

  /** The layer test ((1 << layer) & mask) != 0 on a 32-bit int mask. The
      shift count of a 32-bit shift is taken modulo 32. */
  predicate InLayerMask(layer: int, mask: bv32) {
    ((1 as bv32) << (layer % 32)) & mask != 0
  }

  /** The scan keeps a collider when it is not on the cloth's own object and
      its layer is in the mask. */
  predicate Kept(c: Collider, self: GameObject, mask: bv32) {
    c.gameObject != self && InLayerMask(c.gameObject.layer, mask)
  }

  /** The colliders of `scene` the scan keeps, in scene order. */
  function Selected(scene: seq<Collider>, self: GameObject, mask: bv32): seq<Collider> {
    if scene == [] then []
    else
      var last := scene[|scene| - 1];
      Selected(scene[..|scene| - 1], self, mask) + (if Kept(last, self, mask) then [last] else [])
  }

  predicate Distinct(cs: seq<Collider>) {
    forall i, j :: 0 <= i < j < |cs| ==> cs[i] != cs[j]
  }

  /** Everything selected is in the scene, off the cloth's object and in
      the mask. */
  lemma {:induction false} SelectedSound(scene: seq<Collider>, self: GameObject, mask: bv32)
    ensures |Selected(scene, self, mask)| <= |scene|
    ensures forall c :: c in Selected(scene, self, mask) ==> c in scene && Kept(c, self, mask)
  {
    if scene != [] {
      SelectedSound(scene[..|scene| - 1], self, mask);
    }
  }

  /** Every scene collider that passes the test is selected. */
  lemma {:induction false} SelectedComplete(scene: seq<Collider>, self: GameObject, mask: bv32)
    ensures forall c :: c in scene && Kept(c, self, mask) ==> c in Selected(scene, self, mask)
  {
    if scene != [] {
      var init := scene[..|scene| - 1];
      SelectedComplete(init, self, mask);
      assert scene == init + [scene[|scene| - 1]];
    }
  }

  /** A scene without repeated colliders yields a registry without them. */
  lemma {:induction false} SelectedDistinct(scene: seq<Collider>, self: GameObject, mask: bv32)
    requires Distinct(scene)
    ensures Distinct(Selected(scene, self, mask))
  {
    if scene != [] {
      var init := scene[..|scene| - 1];
      var last := scene[|scene| - 1];
      SelectedDistinct(init, self, mask);
      SelectedSound(init, self, mask);
      assert last !in init;
    }
  }

  /** The default mask -1 (every layer) keeps every collider that is not on
      the cloth's own object. */
  lemma EveryLayerMask(scene: seq<Collider>, self: GameObject)
    ensures forall c :: c in scene && c.gameObject != self ==> c in Selected(scene, self, 0xFFFF_FFFF)
  {
    forall c | c in scene && c.gameObject != self
      ensures c in Selected(scene, self, 0xFFFF_FFFF)
    {
      var k := c.gameObject.layer % 32;
      assert (1 as bv32) << k != 0 by { NonzeroBit(k); }
      SelectedComplete(scene, self, 0xFFFF_FFFF);
    }
  }

  /** A mask of 0 keeps nothing. */
  lemma {:induction false} EmptyMask(scene: seq<Collider>, self: GameObject)
    ensures Selected(scene, self, 0) == []
  {
    if scene != [] {
      EmptyMask(scene[..|scene| - 1], self);
    }
  }

  lemma NonzeroBit(k: int)
    requires 0 <= k < 32
    ensures (1 as bv32) << k != 0
  {
  }

  // ------------------------------------------------------------------
  // Runtime insertion and removal.
  // ------------------------------------------------------------------

  /** AddCollider: append unless null or already registered. */
  function Added(cs: seq<Collider>, c: Collider?): seq<Collider> {
    if c != null && c !in cs then cs + [c] else cs
  }

  /** RemoveCollider: drop the first occurrence, if any. */
  function RemoveFirst(cs: seq<Collider>, c: Collider?): seq<Collider> {
    if cs == [] then []
    else if cs[0] == c then cs[1..]
    else [cs[0]] + RemoveFirst(cs[1..], c)
  }

  /** Insertion appends a new collider at the end and leaves the registry
      alone for null or a registered one; it never creates a duplicate,
      always leaves the collider registered, and changes nothing the second
      time. */
  lemma AddedEffect(cs: seq<Collider>, c: Collider?)
    ensures c == null || c in cs ==> Added(cs, c) == cs
    ensures c != null && c !in cs ==> Added(cs, c) == cs + [c]
    ensures Distinct(cs) ==> Distinct(Added(cs, c))
    ensures c != null ==> c in Added(cs, c)
    ensures forall d :: d in Added(cs, c) <==> d in cs || d == c
    ensures Added(Added(cs, c), c) == Added(cs, c)
  {
  }

  /** Removing an unregistered collider is a no-op. */
  lemma {:induction false} RemoveAbsent(cs: seq<Collider>, c: Collider?)
    requires c !in cs
    ensures RemoveFirst(cs, c) == cs
  {
    if cs != [] {
      RemoveAbsent(cs[1..], c);
    }
  }

  /** Removal cuts out exactly the first occurrence and keeps the order of
      everything else. */
  lemma {:induction false} RemoveFirstShape(cs: seq<Collider>, c: Collider, i: nat)
    requires i < |cs| && cs[i] == c && c !in cs[..i]
    ensures RemoveFirst(cs, c) == cs[..i] + cs[i + 1..]
  {
    if i > 0 {
      assert cs[0] in cs[..i];
      assert cs[1..][..i - 1] == cs[1..i];
      RemoveFirstShape(cs[1..], c, i - 1);
      assert cs[..i] == [cs[0]] + cs[1..i];
    }
  }

  /** Removal takes away one copy of the collider and nothing else. */
  lemma {:induction false} RemoveFirstMultiset(cs: seq<Collider>, c: Collider)
    ensures multiset(RemoveFirst(cs, c)) == multiset(cs) - multiset{c}
  {
    if cs != [] {
      assert cs == [cs[0]] + cs[1..];
      assert multiset(cs) == multiset{cs[0]} + multiset(cs[1..]);
      if cs[0] != c {
        var rest := RemoveFirst(cs[1..], c);
        RemoveFirstMultiset(cs[1..], c);
        assert multiset(RemoveFirst(cs, c)) == multiset{cs[0]} + multiset(rest);
        forall d ensures multiset(RemoveFirst(cs, c))[d] == (multiset(cs) - multiset{c})[d] {
        }
      }
    }
  }

  /** On a registry without duplicates the removed collider is gone
      afterwards, and the registry stays free of duplicates. */
  lemma RemoveFromDistinct(cs: seq<Collider>, c: Collider)
    requires Distinct(cs)
    ensures c !in RemoveFirst(cs, c)
    ensures Distinct(RemoveFirst(cs, c))
  {
    RemoveFirstMultiset(cs, c);
    DistinctCount(cs, c);
    if c in cs {
      assert multiset(RemoveFirst(cs, c))[c] == 0;
    }
    forall d | d in RemoveFirst(cs, c) ensures multiset(RemoveFirst(cs, c))[d] == 1 {
      DistinctCount(cs, d);
    }
    UniqueCountsDistinct(RemoveFirst(cs, c));
  }

  lemma {:induction false} DistinctCount(cs: seq<Collider>, d: Collider)
    requires Distinct(cs)
    ensures multiset(cs)[d] == if d in cs then 1 else 0
  {
    if cs != [] {
      DistinctCount(cs[1..], d);
      assert cs == [cs[0]] + cs[1..];
      assert cs[0] !in cs[1..];
    }
  }

  lemma {:induction false} UniqueCountsDistinct(cs: seq<Collider>)
    requires forall d :: d in cs ==> multiset(cs)[d] == 1
    ensures Distinct(cs)
  {
    if cs != [] {
      assert cs == [cs[0]] + cs[1..];
      forall d | d in cs[1..] ensures multiset(cs[1..])[d] == 1 {
        assert multiset(cs)[d] == multiset([cs[0]])[d] + multiset(cs[1..])[d];
      }
      UniqueCountsDistinct(cs[1..]);
      assert multiset(cs)[cs[0]] == 1 + multiset(cs[1..])[cs[0]];
      assert cs[0] !in cs[1..];
      forall i, j | 0 <= i < j < |cs| ensures cs[i] != cs[j] {
        if i > 0 {
          assert cs[i] == cs[1..][i - 1] && cs[j] == cs[1..][j - 1];
        } else {
          assert cs[j] in cs[1..];
        }
      }
    }
  }

  /** Inserting a new collider and removing it again restores the registry. */
  lemma AddThenRemove(cs: seq<Collider>, c: Collider)
    requires c !in cs
    ensures RemoveFirst(Added(cs, c), c) == cs
  {
    RemoveFirstShape(cs + [c], c, |cs|);
    assert (cs + [c])[..|cs|] == cs;
  }
}
