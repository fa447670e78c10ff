/** Confirmation counts of the blocks above the confirmed height (`UnconfirmedBlockManager.ts`). */
module UnconfirmedBlocks {
  import opened Wrappers

  type BlockHash = nat

  datatype Entity = Entity(previous: Option<BlockHash>, height: nat, confirmations: nat)

  type Entities = map<BlockHash, Entity>

  predicate HasParent(m: Entities, h: BlockHash)
    requires h in m
  {
    m[h].previous.Some? && m[h].previous.value in m
  }

  ghost predicate BelowChild(m: Entities, h: BlockHash)
    requires h in m
  {
    HasParent(m, h) ==> m[m[h].previous.value].height < m[h].height
  }

  /** Heights drop along parent links, as they do in a block chain. */
  ghost predicate Heights(m: Entities) {
    forall h :: h in m ==> BelowChild(m, h)
  }

  /** The known strict ancestors of a block. */
  ghost function Ancestors(m: Entities, h: BlockHash): set<BlockHash>
    requires Heights(m) && h in m
    decreases m[h].height
  {
    assert BelowChild(m, h);
    if HasParent(m, h) then {m[h].previous.value} + Ancestors(m, m[h].previous.value) else {}
  }

  /** From a block up along parent links, every block on the way known. */
  ghost predicate GoesUp(m: Entities, path: seq<BlockHash>) {
    && |path| >= 2 && (forall i :: 0 <= i < |path| ==> path[i] in m)
    && forall i :: 0 <= i < |path| - 1 ==> m[path[i]].previous == Some(path[i + 1])
  }

  /** The ancestors of a block are the blocks that parent links lead up to. */
  lemma {:induction false} AncestorsAreReached(m: Entities, h: BlockHash, a: BlockHash)
    requires Heights(m) && h in m
    ensures a in Ancestors(m, h) <==> exists path :: GoesUp(m, path) && path[0] == h && path[|path| - 1] == a
    decreases m[h].height
  {
    assert BelowChild(m, h);
    if HasParent(m, h) {
      var p := m[h].previous.value;
      AncestorsAreReached(m, p, a);
      if a == p {
        assert GoesUp(m, [h, p]);
      } else if a in Ancestors(m, p) {
        var path :| GoesUp(m, path) && path[0] == p && path[|path| - 1] == a;
        assert GoesUp(m, [h] + path);
      }
    }
    if path :| GoesUp(m, path) && path[0] == h && path[|path| - 1] == a {
      assert m[path[0]].previous == Some(path[0 + 1]) && path[1] in m;
      if |path| > 2 {
        assert GoesUp(m, path[1..]) && path[1..][0] == path[1] && path[1..][|path| - 2] == a;
      }
    }
  }

  ghost function Descendants(m: Entities, h: BlockHash): set<BlockHash>
    requires Heights(m)
  {
    set d | d in m && h in Ancestors(m, d)
  }

  /** Each block counts itself and its known strict descendants. */
  ghost predicate CountsDescendants(m: Entities)
    requires Heights(m)
  {
    forall h :: h in m ==> m[h].confirmations == 1 + |Descendants(m, h)|
  }

  ghost predicate HasChild(m: Entities, h: BlockHash) {
    exists c :: c in m && m[c].previous == Some(h)
  }

  /** The same blocks with the same parents; counts may differ. */
  ghost predicate SameShape(m: Entities, n: Entities) {
    m.Keys == n.Keys && forall h :: h in m ==> m[h].previous == n[h].previous && m[h].height == n[h].height
  }

  lemma ShapeHeights(m: Entities, n: Entities)
    requires Heights(m) && SameShape(m, n)
    ensures Heights(n)
  {
    forall h | h in n ensures BelowChild(n, h) {
      assert BelowChild(m, h);
    }
  }

  lemma {:induction false} ShapeAncestors(m: Entities, n: Entities, h: BlockHash)
    requires Heights(m) && Heights(n) && SameShape(m, n) && h in m
    ensures Ancestors(m, h) == Ancestors(n, h)
    decreases m[h].height
  {
    assert BelowChild(m, h);
    if HasParent(m, h) { ShapeAncestors(m, n, m[h].previous.value); }
  }

  lemma {:induction false} AncestorsBelow(m: Entities, h: BlockHash)
    requires Heights(m) && h in m
    ensures forall a :: a in Ancestors(m, h) ==> a in m && m[a].height < m[h].height
    decreases m[h].height
  {
    assert BelowChild(m, h);
    if HasParent(m, h) { AncestorsBelow(m, m[h].previous.value); }
  }

  /** A new block without known children changes nobody's ancestors. */
  lemma {:induction false} AncestorsKept(m: Entities, x: BlockHash, e: Entity, h: BlockHash)
    requires Heights(m) && x !in m && Heights(m[x := e]) && !HasChild(m, x) && h in m
    ensures Ancestors(m[x := e], h) == Ancestors(m, h)
    decreases m[h].height
  {
    assert BelowChild(m, h);
    assert m[h].previous != Some(x);
    if HasParent(m, h) { AncestorsKept(m, x, e, m[h].previous.value); }
  }

  // ---------- adding a block ----------

  function Confirmed(e: Entity): Entity {
    e.(confirmations := e.confirmations + 1)
  }

  /** The blocks with those in `up` confirmed once more. */
  ghost function ConfirmedIn(m: Entities, up: set<BlockHash>): Entities {
    map h | h in m :: if h in up then Confirmed(m[h]) else m[h]
  }

  lemma ConfirmedShape(m: Entities, up: set<BlockHash>)
    ensures SameShape(m, ConfirmedIn(m, up))
  {}

  lemma ConfirmedOnceMore(m: Entities, up: set<BlockHash>, h: BlockHash)
    requires h in m && h !in up
    ensures ConfirmedIn(m, up)[h] == m[h]
    ensures ConfirmedIn(m, up)[h := if m[h].confirmations > 0 then Confirmed(m[h]) else m[h].(confirmations := 1)] == ConfirmedIn(m, up + {h})
  {}

  class UnconfirmedBlockManager {
    var blockHashToEntity: Entities
    var changed: set<BlockHash>

    ghost predicate Valid()
      reads this
    {
      Heights(blockHashToEntity) && changed <= blockHashToEntity.Keys
    }

    /** With the blocks read from the database. */
    constructor (stored: Entities)
      requires Heights(stored)
      ensures Valid() && blockHashToEntity == stored && changed == {}
    {
      blockHashToEntity := stored;
      changed := {};
    }

    /** Adds a block unless it is known, and confirms its known ancestors once more. */
    method AddNewBlock(x: BlockHash, e: Entity)
      requires Valid() && (x !in blockHashToEntity ==> Heights(blockHashToEntity[x := e]))
      modifies this
      ensures Valid()
      ensures x in old(blockHashToEntity) ==> blockHashToEntity == old(blockHashToEntity) && changed == old(changed)
      ensures x !in old(blockHashToEntity) ==>
                var m := old(blockHashToEntity)[x := e];
                blockHashToEntity == ConfirmedIn(m, Ancestors(m, x)) && changed == old(changed) + {x} + Ancestors(m, x)
    {
      if x in blockHashToEntity {
        return;
      }
      ghost var m := blockHashToEntity[x := e];
      blockHashToEntity := blockHashToEntity[x := e];
      changed := changed + {x};
      var current := x;
      ghost var up: set<BlockHash> := {};
      assert ConfirmedIn(m, {}) == m;
      while HasParent(blockHashToEntity, current)
        invariant current in m && blockHashToEntity == ConfirmedIn(m, up) && up <= m.Keys
        invariant changed == old(changed) + {x} + up
        invariant Ancestors(m, x) == up + Ancestors(m, current) && up !! Ancestors(m, current)
        decreases m[current].height
      {
        assert BelowChild(m, current);
        var parent := blockHashToEntity[current].previous.value;
        AncestorsBelow(m, parent);
        var entity := blockHashToEntity[parent];
        blockHashToEntity := blockHashToEntity[parent := if entity.confirmations > 0 then Confirmed(entity) else entity.(confirmations := 1)];
        changed := changed + {parent};
        ConfirmedOnceMore(m, up, parent);
        up := up + {parent};
        current := parent;
      }
      ConfirmedShape(m, up);
      ShapeHeights(m, blockHashToEntity);
    }

    /** The blocks to be saved. */
    function GetChangedBlocks(): set<(BlockHash, Entity)>
      requires Valid()
      reads this
    {
      set h | h in changed :: (h, blockHashToEntity[h])
    }
  }

  // ---------- the counts ----------

  lemma AddedHeights(m: Entities, x: BlockHash, e: Entity)
    requires Heights(m[x := e])
    ensures Heights(ConfirmedIn(m[x := e], Ancestors(m[x := e], x)))
  {
    ConfirmedShape(m[x := e], Ancestors(m[x := e], x));
    ShapeHeights(m[x := e], ConfirmedIn(m[x := e], Ancestors(m[x := e], x)));
  }

  lemma DescendantsWith(m: Entities, x: BlockHash, e: Entity, n: Entities, h: BlockHash)
    requires Heights(m) && Heights(m[x := e]) && x !in m && !HasChild(m, x) && h in m[x := e]
    requires Heights(n) && SameShape(m[x := e], n)
    ensures Descendants(n, h) == (if h == x then {} else Descendants(m, h)) + if h in Ancestors(m[x := e], x) then {x} else {}
    ensures h == x ==> h !in Ancestors(m[x := e], x)
  {
    var m1 := m[x := e];
    AncestorsBelow(m1, x);
    forall d | d in m1 ensures Ancestors(n, d) == if d == x then Ancestors(m1, x) else Ancestors(m, d) {
      ShapeAncestors(m1, n, d);
      if d != x {
        AncestorsKept(m, x, e, d);
        AncestorsBelow(m, d);
      }
    }
    if h == x {
      forall d | d in m ensures x !in Ancestors(m, d) { AncestorsBelow(m, d); }
    }
  }

  /**
   Counts are kept by adding a block with count 1 exactly when none of its children is known yet, that
   is when blocks come parent first.
   */
  lemma CountsKeptIff(m: Entities, x: BlockHash, e: Entity)
    requires Heights(m) && Heights(m[x := e]) && x !in m && CountsDescendants(m) && e.confirmations == 1
    ensures Heights(ConfirmedIn(m[x := e], Ancestors(m[x := e], x)))
    ensures CountsDescendants(ConfirmedIn(m[x := e], Ancestors(m[x := e], x))) <==> !HasChild(m, x)
  {
    var m1 := m[x := e];
    var n := ConfirmedIn(m1, Ancestors(m1, x));
    AddedHeights(m, x, e);
    ConfirmedShape(m1, Ancestors(m1, x));
    if !HasChild(m, x) {
      forall h | h in n ensures n[h].confirmations == 1 + |Descendants(n, h)| {
        DescendantsWith(m, x, e, n, h);
        assert h in m ==> x !in Descendants(m, h);
      }
    } else {
      ChildIsCounted(m, x, e, n);
    }
  }

  /** A child that comes before its parent is not counted for it. */
  lemma ChildBeforeParent()
    ensures var m, e: Entity := map[2 := Entity(Some(1), 2, 1)], Entity(None, 1, 1);
            && Heights(m) && Heights(m[1 := e]) && CountsDescendants(m)
            && Heights(ConfirmedIn(m[1 := e], Ancestors(m[1 := e], 1)))
            && !CountsDescendants(ConfirmedIn(m[1 := e], Ancestors(m[1 := e], 1)))
  {
    var m, e: Entity := map[2 := Entity(Some(1), 2, 1)], Entity(None, 1, 1);
    assert Descendants(m, 2) == {};
    assert m[2].previous == Some(1);
    CountsKeptIff(m, 1, e);
  }

  lemma ChildIsCounted(m: Entities, x: BlockHash, e: Entity, n: Entities)
    requires Heights(m[x := e]) && x !in m && HasChild(m, x) && e.confirmations == 1
    requires n == ConfirmedIn(m[x := e], Ancestors(m[x := e], x)) && Heights(n)
    ensures n[x].confirmations != 1 + |Descendants(n, x)|
  {
    var m1 := m[x := e];
    AncestorsBelow(m1, x);
    assert n[x].confirmations == 1;
    var c :| c in m && m[c].previous == Some(x);
    assert n[c].previous == Some(x) && BelowChild(n, c);
    assert c in Descendants(n, x);
  }

  /** The counts of a tree do not depend on the order its blocks came in. */
  lemma CountsDetermined(m: Entities, n: Entities)
    requires Heights(m) && Heights(n) && SameShape(m, n) && CountsDescendants(m) && CountsDescendants(n)
    ensures m == n
  {
    forall h | h in m ensures m[h] == n[h] {
      forall d | d in m ensures Ancestors(m, d) == Ancestors(n, d) { ShapeAncestors(m, n, d); }
      assert Descendants(m, h) == Descendants(n, h);
    }
  }

  // ---------- runs ----------

  datatype Addition = Addition(hash: BlockHash, entity: Entity)

  /** One call of `addNewBlock`, for a block of count 1 that fits the heights. */
  ghost predicate Adds(m: Entities, b: Addition, n: Entities) {
    if b.hash in m then n == m
    else
      && Heights(m[b.hash := b.entity]) && b.entity.confirmations == 1
      && n == ConfirmedIn(m[b.hash := b.entity], Ancestors(m[b.hash := b.entity], b.hash))
  }

  ghost predicate ParentFirst(m: Entities, b: Addition) {
    b.hash !in m ==> !HasChild(m, b.hash)
  }

  ghost predicate Run(blocks: seq<Addition>, states: seq<Entities>) {
    && |states| == |blocks| + 1 && states[0] == map[]
    && forall k :: 0 <= k < |blocks| ==> Adds(states[k], blocks[k], states[k + 1]) && ParentFirst(states[k], blocks[k])
  }

  /** Whatever blocks come in, parents first: each ends up with one more than its strict descendants. */
  lemma {:induction false} RunsCountDescendants(blocks: seq<Addition>, states: seq<Entities>, k: nat)
    requires Run(blocks, states) && k < |states|
    ensures Heights(states[k]) && CountsDescendants(states[k])
    decreases k
  {
    if k > 0 {
      RunsCountDescendants(blocks, states, k - 1);
      var m, b := states[k - 1], blocks[k - 1];
      assert Adds(m, b, states[k - 1 + 1]) && ParentFirst(m, b);
      if b.hash !in m {
        CountsKeptIff(m, b.hash, b.entity);
      }
    }
  }
}
