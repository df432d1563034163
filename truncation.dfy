/**
 * Item-count truncation of a fetched RSS document.
 *
 * The proxy walks the children of the document's first element (the RSS
 * `channel`), counts those tagged exactly "item", and deletes an item in
 * place as soon as the running count, incremented before the test, reaches
 * `maxItems`. So at most `maxItems - 1` items survive; every other child is
 * kept. `Truncated` is the reference definition of the resulting child list
 * and `TruncateChildren` is the in-place loop proved equal to it.
 */
module Truncation {
  import opened ElementTree

  /** Default item limit of `proxy`; with it at most 49 items survive. */
  const MAX_ITEMS: int := 50

  function Min(a: int, b: int): int { if a <= b then a else b }
  function Max(a: int, b: int): int { if a >= b then a else b }

  /** The test the loop applies: the tag is exactly "item" (a namespaced tag is not). */
  predicate IsItem(e: Element) { e.tag == "item" }

  /** The children tagged "item", in document order. */
  function Items(cs: seq<Element>): (r: seq<Element>)
    ensures |r| <= |cs|
  {
    if cs == [] then []
    else if IsItem(cs[0]) then [cs[0]] + Items(cs[1..])
    else Items(cs[1..])
  }

  /** The children not tagged "item", in document order. */
  function NonItems(cs: seq<Element>): (r: seq<Element>)
    ensures |r| <= |cs|
  {
    if cs == [] then []
    else if IsItem(cs[0]) then NonItems(cs[1..])
    else [cs[0]] + NonItems(cs[1..])
  }

  function ItemCount(cs: seq<Element>): nat { |Items(cs)| }

  /** `a` is obtained from `b` by deleting elements, without adding or reordering any. */
  predicate IsSubsequence(a: seq<Element>, b: seq<Element>)
    decreases |b|
  {
    if a == [] then true
    else if b == [] then false
    else if a[0] == b[0] then IsSubsequence(a[1..], b[1..])
    else IsSubsequence(a, b[1..])
  }

  /**
   * What the loop leaves of `cs` when `seen` items have already been
   * counted before it: an item is dropped when its own number, `seen + 1`,
   * reaches `maxItems`.
   */
  function TruncateFrom(cs: seq<Element>, seen: nat, maxItems: int): (r: seq<Element>)
    ensures |r| <= |cs|
  {
    if cs == [] then []
    else if IsItem(cs[0]) then
      if seen + 1 >= maxItems then TruncateFrom(cs[1..], seen + 1, maxItems)
      else [cs[0]] + TruncateFrom(cs[1..], seen + 1, maxItems)
    else [cs[0]] + TruncateFrom(cs[1..], seen, maxItems)
  }

  /** The child list of the channel after truncation to `maxItems`. */
  function Truncated(cs: seq<Element>, maxItems: int): seq<Element>
  {
    TruncateFrom(cs, 0, maxItems)
  }

  /**
   * The length of the longest prefix of `cs` holding at most `n` items:
   * it ends just before the `(n + 1)`-th item, or at the end of `cs`.
   */
  function Boundary(cs: seq<Element>, n: nat): (q: nat)
    ensures q <= |cs|
    ensures q < |cs| ==> IsItem(cs[q])
  {
    if cs == [] then 0
    else if IsItem(cs[0]) then (if n == 0 then 0 else 1 + Boundary(cs[1..], n - 1))
    else 1 + Boundary(cs[1..], n)
  }

  /** Outcome of `proxy`'s truncation step. */
  datatype Outcome =
    | Done
      /** The document root has no child, so `root[0]` raises an index error. */
    | NoChannel

  /**
   * The truncation step of `proxy`: `root[0]` is the channel, whose child
   * list is truncated in place. Nothing else in the tree changes.
   */
  method TruncateItems(root: Element, maxItems: int := MAX_ITEMS) returns (outcome: Outcome)
    requires |root.children| > 0 ==> root.children[0] != root
    modifies if |root.children| > 0 then {root.children[0]} else {}
    ensures unchanged(root)
    ensures outcome == NoChannel <==> |root.children| == 0
    ensures outcome == Done ==>
      root.children[0].children == Truncated(old(root.children[0].children), maxItems)
  {
    if |root.children| == 0 {
      return NoChannel;
    }
    TruncateChildren(root.children[0], maxItems);
    outcome := Done;
  }

  /**
   * The loop of `proxy` over the channel's children: counts the items and
   * deletes, in place, every item whose running number reaches `maxItems`;
   * the index advances only past a child that was kept.
   */
  method TruncateChildren(channel: Element, maxItems: int)
    modifies channel
    ensures channel.children == Truncated(old(channel.children), maxItems)
  {
    ghost var original := channel.children;
    var itemCount: nat := 0;
    var i := 0;
    // kept: the children already passed over; rest: those not yet examined
    ghost var kept, rest := [], original;
    while i < |channel.children|
      invariant channel.children == kept + rest && i == |kept|
      invariant kept + TruncateFrom(rest, itemCount, maxItems) == Truncated(original, maxItems)
      decreases |channel.children| - i
    {
      ghost var child, seen := rest[0], itemCount;
      if channel.children[i].tag == "item" {
        itemCount := itemCount + 1;
        if itemCount >= maxItems {
          channel.DeleteChild(i);
          assert channel.children == kept + rest[1..];
        } else {
          i := i + 1;
          kept := kept + [child];
          assert TruncateFrom(rest, seen, maxItems) == [child] + TruncateFrom(rest[1..], itemCount, maxItems);
        }
      } else {
        i := i + 1;
        kept := kept + [child];
        assert TruncateFrom(rest, seen, maxItems) == [child] + TruncateFrom(rest[1..], itemCount, maxItems);
      }
      rest := rest[1..];
    }
  }

  // ---------------------------------------------------------------------
  // Unfolding helpers

  /** Items and NonItems of a list with one more child in front. */
  lemma {:induction false} ItemsCons(e: Element, cs: seq<Element>)
    ensures Items([e] + cs) == (if IsItem(e) then [e] else []) + Items(cs)
    ensures NonItems([e] + cs) == (if IsItem(e) then [] else [e]) + NonItems(cs)
  {
  }

  // ---------------------------------------------------------------------
  // Properties of the reference definition, for any count already seen

  lemma {:induction false} KeepsFirstItemsFrom(cs: seq<Element>, seen: nat, maxItems: int)
    ensures Items(TruncateFrom(cs, seen, maxItems))
            == Items(cs)[..Min(ItemCount(cs), Max(maxItems - 1 - seen, 0))]
  {
    if cs != [] {
      var rest := cs[1..];
      KeepsFirstItemsFrom(rest, seen + 1, maxItems);
      KeepsFirstItemsFrom(rest, seen, maxItems);
      if IsItem(cs[0]) {
        if seen + 1 < maxItems {
          ItemsCons(cs[0], TruncateFrom(rest, seen + 1, maxItems));
          assert Items(cs) == [cs[0]] + Items(rest);
          assert Items(cs)[..Min(ItemCount(cs), maxItems - 1 - seen)]
                 == [cs[0]] + Items(rest)[..Min(ItemCount(rest), maxItems - 2 - seen)];
        }
      } else {
        ItemsCons(cs[0], TruncateFrom(rest, seen, maxItems));
      }
    }
  }

  lemma {:induction false} KeepsNonItemsFrom(cs: seq<Element>, seen: nat, maxItems: int)
    ensures NonItems(TruncateFrom(cs, seen, maxItems)) == NonItems(cs)
  {
    if cs != [] {
      var rest := cs[1..];
      if IsItem(cs[0]) {
        KeepsNonItemsFrom(rest, seen + 1, maxItems);
        if seen + 1 < maxItems {
          ItemsCons(cs[0], TruncateFrom(rest, seen + 1, maxItems));
        }
      } else {
        KeepsNonItemsFrom(rest, seen, maxItems);
        ItemsCons(cs[0], TruncateFrom(rest, seen, maxItems));
      }
    }
  }

  lemma {:induction false} SubsequenceDropFirst(a: seq<Element>, b: seq<Element>)
    requires b != [] && IsSubsequence(a, b[1..])
    ensures IsSubsequence(a, b)
    decreases |a| + |b|
  {
    if a != [] && a[0] == b[0] {
      SubsequenceTail(a, b[1..]);
    }
  }

  lemma {:induction false} SubsequenceTail(a: seq<Element>, c: seq<Element>)
    requires a != [] && IsSubsequence(a, c)
    ensures IsSubsequence(a[1..], c)
    decreases |a| + |c|
  {
    if a[0] == c[0] {
      SubsequenceDropFirst(a[1..], c);
    } else {
      SubsequenceTail(a, c[1..]);
      SubsequenceDropFirst(a[1..], c);
    }
  }

  lemma {:induction false} IsSubsequenceFrom(cs: seq<Element>, seen: nat, maxItems: int)
    ensures IsSubsequence(TruncateFrom(cs, seen, maxItems), cs)
  {
    if cs != [] {
      var rest := cs[1..];
      var next := if IsItem(cs[0]) then seen + 1 else seen;
      IsSubsequenceFrom(rest, next, maxItems);
      var r := TruncateFrom(cs, seen, maxItems);
      if IsItem(cs[0]) && seen + 1 >= maxItems {
        SubsequenceDropFirst(r, cs);
      } else {
        assert r[0] == cs[0] && r[1..] == TruncateFrom(rest, next, maxItems);
      }
    }
  }

  lemma {:induction false} UnchangedBelowLimitFrom(cs: seq<Element>, seen: nat, maxItems: int)
    requires seen + ItemCount(cs) < maxItems
    ensures TruncateFrom(cs, seen, maxItems) == cs
  {
    if cs != [] {
      var rest := cs[1..];
      var next := if IsItem(cs[0]) then seen + 1 else seen;
      assert ItemCount(cs) == ItemCount(rest) + (next - seen);
      UnchangedBelowLimitFrom(rest, next, maxItems);
      assert TruncateFrom(cs, seen, maxItems) == [cs[0]] + rest;
      assert cs == [cs[0]] + rest;
    }
  }

  lemma {:induction false} DropsAllItemsFrom(cs: seq<Element>, seen: nat, maxItems: int)
    requires seen + 1 >= maxItems
    ensures TruncateFrom(cs, seen, maxItems) == NonItems(cs)
  {
    if cs != [] {
      if IsItem(cs[0]) {
        DropsAllItemsFrom(cs[1..], seen + 1, maxItems);
      } else {
        DropsAllItemsFrom(cs[1..], seen, maxItems);
      }
    }
  }

  lemma {:induction false} CutAtBoundaryFrom(cs: seq<Element>, seen: nat, maxItems: int)
    ensures var q := Boundary(cs, Max(maxItems - 1 - seen, 0));
            TruncateFrom(cs, seen, maxItems) == cs[..q] + NonItems(cs[q..])
  {
    if cs != [] {
      var rest := cs[1..];
      var n := Max(maxItems - 1 - seen, 0);
      if IsItem(cs[0]) && seen + 1 >= maxItems {
        DropsAllItemsFrom(rest, seen + 1, maxItems);
        assert Boundary(cs, n) == 0;
        assert cs[..0] == [] && cs[0..] == cs;
      } else {
        var next := if IsItem(cs[0]) then seen + 1 else seen;
        var n' := Max(maxItems - 1 - next, 0);
        assert n' == if IsItem(cs[0]) then n - 1 else n;
        var q' := Boundary(rest, n');
        assert Boundary(cs, n) == 1 + q';
        calc {
          TruncateFrom(cs, seen, maxItems);
          [cs[0]] + TruncateFrom(rest, next, maxItems);
          { CutAtBoundaryFrom(rest, next, maxItems); }
          [cs[0]] + (rest[..q'] + NonItems(rest[q'..]));
          { assert cs[..1 + q'] == [cs[0]] + rest[..q'] && cs[1 + q'..] == rest[q'..]; }
          cs[..1 + q'] + NonItems(cs[1 + q'..]);
        }
      }
    }
  }

  lemma {:induction false} BoundaryItemCount(cs: seq<Element>, n: nat)
    ensures ItemCount(cs[..Boundary(cs, n)]) == Min(ItemCount(cs), n)
  {
    if cs != [] {
      var rest := cs[1..];
      var q := Boundary(cs, n);
      if IsItem(cs[0]) && n == 0 {
        assert cs[..q] == [];
      } else {
        var n' := if IsItem(cs[0]) then n - 1 else n;
        BoundaryItemCount(rest, n');
        assert q == 1 + Boundary(rest, n');
        assert cs[..q] == [cs[0]] + rest[..q - 1];
        ItemsCons(cs[0], rest[..q - 1]);
      }
    }
  }

  // ---------------------------------------------------------------------
  // Properties of the truncated channel

  /** The surviving items are exactly the first `maxItems - 1` items, in document order. */
  lemma KeepsFirstItems(cs: seq<Element>, maxItems: int)
    ensures Items(Truncated(cs, maxItems)) == Items(cs)[..Min(ItemCount(cs), Max(maxItems - 1, 0))]
  {
    KeepsFirstItemsFrom(cs, 0, maxItems);
  }

  /** The number of surviving items is the original count, capped at `maxItems - 1`. */
  lemma ItemCountAfterTruncation(cs: seq<Element>, maxItems: int)
    ensures ItemCount(Truncated(cs, maxItems)) == Min(ItemCount(cs), Max(maxItems - 1, 0))
  {
    KeepsFirstItemsFrom(cs, 0, maxItems);
  }

  /** Every child not tagged "item" survives, in its original relative order. */
  lemma KeepsNonItems(cs: seq<Element>, maxItems: int)
    ensures NonItems(Truncated(cs, maxItems)) == NonItems(cs)
  {
    KeepsNonItemsFrom(cs, 0, maxItems);
  }

  /** Truncation only deletes: nothing is added or reordered. */
  lemma TruncatedIsSubsequence(cs: seq<Element>, maxItems: int)
    ensures IsSubsequence(Truncated(cs, maxItems), cs)
  {
    IsSubsequenceFrom(cs, 0, maxItems);
  }

  /** With fewer than `maxItems` items the child list is left as it is. */
  lemma UnchangedBelowLimit(cs: seq<Element>, maxItems: int)
    requires ItemCount(cs) < maxItems
    ensures Truncated(cs, maxItems) == cs
  {
    UnchangedBelowLimitFrom(cs, 0, maxItems);
  }

  /** With `maxItems <= 1` every item goes and every other child stays. */
  lemma DropsAllItems(cs: seq<Element>, maxItems: int)
    requires maxItems <= 1
    ensures Truncated(cs, maxItems) == NonItems(cs)
  {
    DropsAllItemsFrom(cs, 0, maxItems);
  }

  /**
   * Positional description of the result: the channel is kept whole up to
   * just before its `maxItems`-th item; from there on only non-items remain.
   */
  lemma CutAtBoundary(cs: seq<Element>, maxItems: int)
    ensures var q := Boundary(cs, Max(maxItems - 1, 0));
            ItemCount(cs[..q]) == Min(ItemCount(cs), Max(maxItems - 1, 0)) &&
            Truncated(cs, maxItems) == cs[..q] + NonItems(cs[q..])
  {
    var n := Max(maxItems - 1, 0);
    CutAtBoundaryFrom(cs, 0, maxItems);
    BoundaryItemCount(cs, n);
  }

  /** Under the default limit at most 49 items survive. */
  lemma DefaultLimitKeepsAtMost49(cs: seq<Element>)
    ensures ItemCount(Truncated(cs, MAX_ITEMS)) <= 49
    ensures ItemCount(cs) >= 49 ==> ItemCount(Truncated(cs, MAX_ITEMS)) == 49
  {
    KeepsFirstItemsFrom(cs, 0, MAX_ITEMS);
  }
}
