/**
 * The card-stack carousel (src/CardSwap.tsx). The stack order is a permutation
 * of the card indices 0..n-1; position 0 is the front. Clicking a card brings it
 * to the front, keeping the others in their relative order, and schedules one
 * move per stack position; the new order is committed only when the animation
 * timeline completes.
 */
module CardSwap {
  import opened Options

  /** Where a card sits at one stack position: its 3-D offset and its stacking order. */
  datatype Slot = Slot(x: real, y: real, z: real, zIndex: int)

  /** One tween of the timeline: move `card` to `slot`, starting `at` seconds into the timeline. */
  datatype Move = Move(card: int, slot: Slot, at: real)

  /** The two callbacks the component fires. */
  datatype Event = CardClick(idx: int) | FrontChange(frontIndex: int)

  /** Default spacing props and the stagger between successive moves. */
  const DefaultCardDistance: real := 60.0
  const DefaultVerticalDistance: real := 70.0
  const Stagger: real := 0.05

  // ---------------------------------------------------------------- slots

  /**
   * The slot of stack position `i` of `total` cards. All slots lie on one line
   * through the origin (z falls by 1.5 for each step right), and the z-index
   * counts the card's own position and the positions behind it.
   */
  function MakeSlot(i: int, distX: real, distY: real, total: int): (r: Slot)
    ensures r.z == -1.5 * r.x && r.y * distX == -r.x * distY
    ensures r.zIndex + i == total
  {
    Slot(i as real * distX, -(i as real) * distY, -(i as real) * distX * 1.5, total - i)
  }

  /** Position 0 is at the origin and has the top stacking order. */
  lemma FrontSlot(distX: real, distY: real, total: int)
    ensures MakeSlot(0, distX, distY, total) == Slot(0.0, 0.0, 0.0, total)
  {
  }

  /**
   * The z-index strictly decreases with stack position, so a card deeper in the
   * stack is drawn behind every card before it, and every position of the stack
   * has a positive z-index.
   */
  lemma ZIndexDecreasing(i: int, j: int, distX: real, distY: real, total: int)
    requires 0 <= i < j < total
    ensures MakeSlot(i, distX, distY, total).zIndex > MakeSlot(j, distX, distY, total).zIndex >= 1
    ensures MakeSlot(0, distX, distY, total).zIndex == total
  {
  }

  /** Successive positions are evenly spaced: one step right, up and back. */
  lemma EvenSpacing(i: int, distX: real, distY: real, total: int)
    ensures var a, b := MakeSlot(i, distX, distY, total), MakeSlot(i + 1, distX, distY, total);
      b.x - a.x == distX && b.y - a.y == -distY && b.z - a.z == -distX * 1.5 && b.zIndex == a.zIndex - 1
  {
  }

  // ---------------------------------------------------------------- orders

  /** No card appears twice. */
  predicate Distinct(s: seq<int>) {
    forall j, k :: 0 <= j < k < |s| ==> s[j] != s[k]
  }

  /** `s` is an ordering of the cards 0..n-1. */
  predicate IsPermutation(s: seq<int>, n: nat) {
    |s| == n && (forall k :: 0 <= k < |s| ==> 0 <= s[k] < n) && Distinct(s)
  }

  /** The initial order [0, 1, ..., n-1]. */
  function Identity(n: nat): (r: seq<int>)
    ensures IsPermutation(r, n)
    ensures forall k :: 0 <= k < n ==> r[k] == k
  {
    seq(n, k => k)
  }

  /** `s` with every occurrence of `c` removed, the rest in order (the source's `filter`). */
  function Without(s: seq<int>, c: int): (r: seq<int>)
    ensures |r| <= |s|
    ensures forall x :: x in r <==> x in s && x != c
  {
    if s == [] then []
    else if s[0] == c then Without(s[1..], c)
    else [s[0]] + Without(s[1..], c)
  }

  /** The new order of bringToFront: the clicked card, then the others as they were. */
  function Front(s: seq<int>, c: int): (r: seq<int>)
    ensures r != [] && r[0] == c
    ensures forall x :: x in r <==> x == c || x in s
  {
    [c] + Without(s, c)
  }

  lemma {:induction false} WithoutAbsent(s: seq<int>, c: int)
    requires c !in s
    ensures Without(s, c) == s
  {
    if s != [] {
      WithoutAbsent(s[1..], c);
      assert s == [s[0]] + s[1..];
    }
  }

  /** Removing a card distributes over concatenation: it keeps the relative order of what stays. */
  lemma {:induction false} WithoutAppend(a: seq<int>, b: seq<int>, c: int)
    ensures Without(a + b, c) == Without(a, c) + Without(b, c)
  {
    if a == [] {
      assert a + b == b;
    } else {
      assert (a + b)[0] == a[0];
      assert (a + b)[1..] == a[1..] + b;
      WithoutAppend(a[1..], b, c);
    }
  }

  /** In a duplicate-free order, removing a present card shortens it by one and keeps it duplicate-free. */
  lemma {:induction false} WithoutDistinct(s: seq<int>, c: int)
    requires Distinct(s)
    ensures Distinct(Without(s, c))
    ensures |Without(s, c)| == if c in s then |s| - 1 else |s|
  {
    if s == [] {
    } else {
      assert Distinct(s[1..]);
      WithoutDistinct(s[1..], c);
      if s[0] == c {
        assert c !in s[1..];
      } else {
        var t := Without(s[1..], c);
        assert s[0] !in t;
        assert c in s <==> c in s[1..];
        assert Without(s, c) == [s[0]] + t;
      }
    }
  }

  /** A duplicate-free sequence drawn from a finite set is no longer than the set. */
  lemma {:induction false} DistinctBound(s: seq<int>, pool: set<int>)
    requires Distinct(s)
    requires forall k :: 0 <= k < |s| ==> s[k] in pool
    ensures |s| <= |pool|
    decreases |pool|
  {
    if s != [] {
      var x := s[0];
      var t := Without(s, x);
      WithoutDistinct(s, x);
      forall k | 0 <= k < |t| ensures t[k] in pool - {x} {
        assert t[k] in t;
      }
      DistinctBound(t, pool - {x});
    }
  }

  /** The set of card indices 0..n-1. */
  function Range(n: nat): (r: set<int>)
    ensures forall v :: v in r <==> 0 <= v < n
    ensures |r| == n
  {
    if n == 0 then {} else Range(n - 1) + {n - 1}
  }

  /** Every card 0..n-1 occurs in a permutation (pigeonhole). */
  lemma PermutationContains(s: seq<int>, n: nat, v: int)
    requires IsPermutation(s, n) && 0 <= v < n
    ensures v in s
  {
    if v !in s {
      var pool := Range(n) - {v};
      forall k | 0 <= k < |s| ensures s[k] in pool {
        assert s[k] in s;
      }
      DistinctBound(s, pool);
      assert false;
    }
  }

  /** Bringing any card to the front yields a permutation of the same cards with that card first. */
  lemma FrontIsPermutation(s: seq<int>, n: nat, c: int)
    requires IsPermutation(s, n) && 0 <= c < n
    ensures IsPermutation(Front(s, c), n)
    ensures Front(s, c)[0] == c
  {
    PermutationContains(s, n, c);
    WithoutDistinct(s, c);
    var r := Front(s, c);
    forall k | 0 <= k < |r| ensures 0 <= r[k] < n {
      if k > 0 {
        assert r[k] in Without(s, c);
      }
    }
    forall j, k | 0 <= j < k < |r| ensures r[j] != r[k] {
      if j == 0 {
        assert r[k] in Without(s, c);
      }
    }
  }

  /**
   * The new order is exactly the old one with the clicked card taken out of its
   * place and put in front: everyone else keeps their relative order.
   */
  lemma FrontMovesOnlyClicked(s: seq<int>, n: nat, j: int)
    requires IsPermutation(s, n) && 0 <= j < n
    ensures Front(s, s[j]) == [s[j]] + s[..j] + s[j + 1..]
  {
    var c := s[j];
    assert s == s[..j] + [c] + s[j + 1..];
    assert c !in s[..j] && c !in s[j + 1..] by {
      forall k | 0 <= k < |s| && k != j ensures s[k] != c {
      }
    }
    WithoutAppend(s[..j] + [c], s[j + 1..], c);
    WithoutAppend(s[..j], [c], c);
    WithoutAbsent(s[..j], c);
    WithoutAbsent(s[j + 1..], c);
    assert Without([c], c) == [];
  }

  /** Clicking the card already in front: the reorder formula would leave the order as it is. */
  lemma FrontOfFront(s: seq<int>, n: nat)
    requires IsPermutation(s, n) && n > 0
    ensures Front(s, s[0]) == s
  {
    FrontMovesOnlyClicked(s, n, 0);
    assert s[..0] == [];
    assert s == [s[0]] + s[1..];
  }

  /** Bringing the same card to the front twice gives the order of doing it once. */
  lemma FrontIdempotent(s: seq<int>, c: int)
    ensures Front(Front(s, c), c) == Front(s, c)
  {
    WithoutAbsent(Without(s, c), c);
    assert Front(s, c)[0] == c && Front(s, c)[1..] == Without(s, c);
  }

  // ---------------------------------------------------------------- timeline

  /** The loop of bringToFront: one move per stack position, card `newOrder[i]` to slot `i`. */
  method ScheduleMoves(newOrder: seq<int>, total: nat, distX: real, distY: real) returns (moves: seq<Move>)
    requires |newOrder| == total
    ensures |moves| == total
    ensures forall i :: 0 <= i < total ==>
      moves[i] == Move(newOrder[i], MakeSlot(i, distX, distY, total), i as real * Stagger)
  {
    moves := [];
    var i := 0;
    while i < total
      invariant 0 <= i <= total
      invariant |moves| == i
      invariant forall k :: 0 <= k < i ==>
        moves[k] == Move(newOrder[k], MakeSlot(k, distX, distY, total), k as real * Stagger)
    {
      var cardIdx := newOrder[i];
      var slot := MakeSlot(i, distX, distY, total);
      moves := moves + [Move(cardIdx, slot, i as real * Stagger)];
      i := i + 1;
    }
  }

  /** The component's mutable state: the committed order and the commit its running timeline will make. */
  class CardStack {
    const total: nat
    const cardDistance: real
    const verticalDistance: real
    /** `order.current` in the source. */
    var order: seq<int>
    /** The order the live timeline commits on completion; None when no timeline is pending. */
    var pending: Option<seq<int>>

    ghost predicate Valid()
      reads this
    {
      IsPermutation(order, total) && (pending.Some? ==> IsPermutation(pending.value, total))
    }

    constructor (total: nat, cardDistance: real := DefaultCardDistance, verticalDistance: real := DefaultVerticalDistance)
      ensures Valid()
      ensures this.total == total && this.cardDistance == cardDistance && this.verticalDistance == verticalDistance
      ensures order == Identity(total) && pending == None
    {
      this.total := total;
      this.cardDistance := cardDistance;
      this.verticalDistance := verticalDistance;
      order := Identity(total);
      pending := None;
    }

    /**
     * A click on card `clicked`. The committed order never changes here; a
     * reorder kills the previous timeline (dropping its commit) and schedules
     * a new one.
     */
    method BringToFront(clicked: int) returns (events: seq<Event>, moves: seq<Move>)
      requires Valid() && 0 <= clicked < total
      modifies this
      ensures Valid()
      ensures order == old(order)
      ensures old(order)[0] == clicked ==>
        events == [CardClick(clicked)] && moves == [] && pending == old(pending)
      ensures old(order)[0] != clicked ==>
        events == [FrontChange(clicked), CardClick(clicked)] &&
        pending == Some(Front(old(order), clicked)) &&
        |moves| == total &&
        forall i :: 0 <= i < total ==>
          moves[i] == Move(Front(old(order), clicked)[i], MakeSlot(i, cardDistance, verticalDistance, total), i as real * Stagger)
    {
      if order[0] == clicked {
        events := [CardClick(clicked)];
        moves := [];
        return;
      }
      events := [FrontChange(clicked)];
      var newOrder := Front(order, clicked);
      FrontIsPermutation(order, total, clicked);
      moves := ScheduleMoves(newOrder, total, cardDistance, verticalDistance);
      pending := Some(newOrder);
      events := events + [CardClick(clicked)];
    }

    /** The timeline reaches its end: its final callback commits the new order. */
    method CompleteTimeline()
      requires Valid()
      modifies this
      ensures Valid() && pending == None
      ensures order == if old(pending).Some? then old(pending).value else old(order)
    {
      if pending.Some? {
        order := pending.value;
        pending := None;
      }
    }
  }

  /**
   * A click followed by the timeline's completion: with the clicked card in
   * front already nothing moves; otherwise the committed order becomes the
   * reordered permutation, whatever timeline was running before.
   */
  method ClickAndSettle(stack: CardStack, clicked: int) returns (events: seq<Event>)
    requires stack.Valid() && 0 <= clicked < stack.total
    requires stack.pending == None || stack.order[0] != clicked
    modifies stack
    ensures stack.Valid() && stack.pending == None
    ensures stack.order == Front(old(stack.order), clicked)
    ensures stack.order[0] == clicked
  {
    var moves;
    ghost var before := stack.order;
    events, moves := stack.BringToFront(clicked);
    stack.CompleteTimeline();
    if before[0] == clicked {
      FrontOfFront(before, stack.total);
    }
    FrontIsPermutation(before, stack.total, clicked);
  }

  /**
   * A click on the committed front card while another reorder's timeline is
   * still running. The click is compared with the committed order, so it only
   * reports the click: the running timeline is not killed, and its completion
   * commits its own order, which has a different card in front.
   */
  method ClickCommittedFront(stack: CardStack) returns (events: seq<Event>)
    requires stack.Valid() && stack.total > 0 && stack.pending.Some?
    requires stack.pending.value[0] != stack.order[0]
    modifies stack
    ensures stack.Valid() && stack.pending == None
    ensures events == [CardClick(old(stack.order)[0])]
    ensures stack.order == old(stack.pending).value
    ensures stack.order[0] != old(stack.order)[0]
  {
    var moves;
    events, moves := stack.BringToFront(stack.order[0]);
    stack.CompleteTimeline();
  }
}
