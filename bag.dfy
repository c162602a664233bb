/** Bag: the factory's 7-bag piece supply (createSevenBag). When the bag is
    empty it is refilled with every registered type and shuffled in place
    by Fisher-Yates; then the last type is popped and built.

    The random index of each shuffle step is supplied by the caller: step
    `i` (for i from 6 down to 1) swaps positions i and `draws[i - 1]`,
    which lies in [0, i]. */
module Bag {
  import opened Pieces
  import opened Tetrominoes

  /** Indices drawn for one shuffle: js[i - 1] is the index chosen at step i. */
  predicate ValidDraws(js: seq<nat>)
  {
    |js| == |AllKinds| - 1 && forall t :: 0 <= t < |js| ==> js[t] <= t + 1
  }

  /** The random choices of one Fisher-Yates shuffle of the seven types. */
  type Draws = js: seq<nat> | ValidDraws(js) witness [0, 0, 0, 0, 0, 0]

  /** `s` with positions i and j exchanged. */
  function Swap(s: seq<Kind>, i: nat, j: nat): (r: seq<Kind>)
    requires i < |s| && j < |s|
    ensures |r| == |s| && r[i] == s[j] && r[j] == s[i]
    ensures forall t :: 0 <= t < |s| && t != i && t != j ==> r[t] == s[t]
  {
    s[i := s[j]][j := s[i]]
  }

  /** The Fisher-Yates steps i, i-1, ..., 1 applied to `s`. */
  function ShuffleDown(s: seq<Kind>, i: nat, js: seq<nat>): (r: seq<Kind>)
    requires i < |s| && i <= |js|
    requires forall t :: 0 <= t < i ==> js[t] <= t + 1
    ensures |r| == |s|
    decreases i
  {
    if i == 0 then s else ShuffleDown(Swap(s, i, js[i - 1]), i - 1, js)
  }

  /** The bag a refill produces for the given draws. */
  function Shuffled(js: Draws): (r: seq<Kind>)
    ensures |r| == |AllKinds|
  {
    ShuffleDown(AllKinds, |js|, js)
  }

  /** Exchanging two positions keeps the same elements. */
  lemma SwapPermutes(s: seq<Kind>, i: nat, j: nat)
    requires i < |s| && j < |s|
    ensures multiset(Swap(s, i, j)) == multiset(s)
  {
  }

  /** Every run of shuffle steps is a permutation of its input, whatever
      indices are drawn. */
  lemma {:induction false} ShuffleDownPermutes(s: seq<Kind>, i: nat, js: seq<nat>)
    requires i < |s| && i <= |js|
    requires forall t :: 0 <= t < i ==> js[t] <= t + 1
    ensures |ShuffleDown(s, i, js)| == |s|
    ensures multiset(ShuffleDown(s, i, js)) == multiset(s)
    decreases i
  {
    if i > 0 {
      SwapPermutes(s, i, js[i - 1]);
      ShuffleDownPermutes(Swap(s, i, js[i - 1]), i - 1, js);
    }
  }

  /** A rearrangement of the seven types holds each type exactly once. */
  lemma EachOnce(s: seq<Kind>)
    requires multiset(s) == multiset(AllKinds)
    ensures forall k :: multiset(s)[k] == 1
  {
    forall k ensures multiset(s)[k] == 1 {
      AllKindsListsEachOnce(k);
    }
  }

  /** A refilled bag holds each of the seven types exactly once. */
  lemma ShuffledIsPermutation(js: Draws)
    ensures |Shuffled(js)| == |AllKinds|
    ensures multiset(Shuffled(js)) == multiset(AllKinds)
    ensures forall k :: multiset(Shuffled(js))[k] == 1
  {
    ShuffleDownPermutes(AllKinds, |js|, js);
    EachOnce(Shuffled(js));
  }

  /** One createSevenBag on bag contents `bag`, where `refill` is the
      shuffled bag it would take if `bag` is empty: the type it builds and
      the bag left behind. */
  function Draw(bag: seq<Kind>, refill: seq<Kind>): (r: (Kind, seq<Kind>))
    requires |refill| == |AllKinds|
    ensures |r.1| == (if bag == [] then |AllKinds| else |bag|) - 1
  {
    var full := if bag == [] then refill else bag;
    (full[|full| - 1], full[..|full| - 1])
  }

  /** A call hands out one type of the bag it draws from (the refill when
      the bag is empty) and keeps all the others. */
  lemma DrawSplits(bag: seq<Kind>, refill: seq<Kind>)
    requires |refill| == |AllKinds|
    ensures var r := Draw(bag, refill);
      multiset{r.0} + multiset(r.1) == multiset(if bag == [] then refill else bag)
  {
    var full := if bag == [] then refill else bag;
    assert full == full[..|full| - 1] + [full[|full| - 1]];
  }

  /** Candidate refills: each holds seven types. */
  predicate Refills(rs: seq<seq<Kind>>)
  {
    forall t :: 0 <= t < |rs| ==> |rs[t]| == |AllKinds|
  }

  /** Refills that are each a rearrangement of the seven types. */
  predicate Permutations(rs: seq<seq<Kind>>)
  {
    forall t :: 0 <= t < |rs| ==> multiset(rs[t]) == multiset(AllKinds)
  }

  /** The types built by consecutive createSevenBag calls starting from bag
      contents `bag`; call t refills from rs[t] if it finds the bag empty. */
  function DrawSeq(bag: seq<Kind>, rs: seq<seq<Kind>>): (r: seq<Kind>)
    requires Refills(rs)
    ensures |r| == |rs|
    decreases |rs|
  {
    if rs == [] then []
    else
      var d := Draw(bag, rs[0]);
      [d.0] + DrawSeq(d.1, rs[1..])
  }

  /** `s` back to front. */
  function Reverse(s: seq<Kind>): (r: seq<Kind>)
    ensures |r| == |s|
  {
    if s == [] then [] else Reverse(s[1..]) + [s[0]]
  }

  lemma {:induction false} ReversePermutes(s: seq<Kind>)
    ensures multiset(Reverse(s)) == multiset(s)
  {
    if s != [] {
      ReversePermutes(s[1..]);
      assert s == [s[0]] + s[1..];
    }
  }

  lemma {:induction false} ReverseSnoc(s: seq<Kind>, k: Kind)
    ensures Reverse(s + [k]) == [k] + Reverse(s)
  {
    if s != [] {
      assert (s + [k])[1..] == s[1..] + [k];
      ReverseSnoc(s[1..], k);
    } else {
      assert Reverse([k]) == Reverse([]) + [k];
    }
  }

  /** One call on a non-empty bag hands out its last type. */
  lemma DrawSeqStep(bag: seq<Kind>, rs: seq<seq<Kind>>)
    requires bag != [] && rs != [] && Refills(rs)
    ensures DrawSeq(bag, rs) == [bag[|bag| - 1]] + DrawSeq(bag[..|bag| - 1], rs[1..])
  {
    assert |rs[0]| == |AllKinds|;
  }

  /** A non-empty bag is handed out back to front, one type per call, and
      the bag is then empty again. */
  lemma {:induction false} DrawSeqEmptiesBag(bag: seq<Kind>, rs: seq<seq<Kind>>)
    requires bag != [] && |rs| >= |bag| && Refills(rs)
    ensures DrawSeq(bag, rs) == Reverse(bag) + DrawSeq([], rs[|bag|..])
    decreases |bag|
  {
    var k, rest := bag[|bag| - 1], bag[..|bag| - 1];
    DrawSeqStep(bag, rs);
    assert bag == rest + [k];
    ReverseSnoc(rest, k);
    assert Reverse(bag) == [k] + Reverse(rest);
    if rest == [] {
      assert rs[1..] == rs[|bag|..];
    } else {
      DrawSeqEmptiesBag(rest, rs[1..]);
      assert rs[1..][|rest|..] == rs[|bag|..];
    }
  }

  /** From an empty bag, the first seven calls hand out the first refill
      back to front and leave the bag empty again. */
  lemma DrawSeqFromEmpty(rs: seq<seq<Kind>>)
    requires |rs| >= |AllKinds| && Refills(rs)
    ensures DrawSeq([], rs) == Reverse(rs[0]) + DrawSeq([], rs[|AllKinds|..])
  {
    var r0 := rs[0];
    assert |r0| == |AllKinds|;
    assert Draw([], r0) == Draw(r0, r0);
    assert DrawSeq([], rs) == DrawSeq(r0, rs);
    DrawSeqEmptiesBag(r0, rs);
  }

  /** The w-th aligned window of seven consecutive calls from an empty bag. */
  function Window(rs: seq<seq<Kind>>, w: nat): seq<Kind>
    requires (w + 1) * |AllKinds| <= |rs| && Refills(rs)
  {
    DrawSeq([], rs)[w * |AllKinds|..(w + 1) * |AllKinds|]
  }

  /** The first seven calls from an empty bag hand out one whole refill. */
  lemma FirstWindow(rs: seq<seq<Kind>>)
    requires |AllKinds| <= |rs| && Refills(rs) && Permutations(rs)
    ensures multiset(Window(rs, 0)) == multiset(AllKinds)
  {
    DrawSeqFromEmpty(rs);
    assert Window(rs, 0) == Reverse(rs[0]);
    ReversePermutes(rs[0]);
  }

  /** Window w of a draw sequence is window w - 1 of the calls after the
      first refill. */
  lemma LaterWindow(rs: seq<seq<Kind>>, w: nat)
    requires 0 < w && (w + 1) * |AllKinds| <= |rs| && Refills(rs)
    ensures Window(rs, w) == Window(rs[|AllKinds|..], w - 1)
  {
    var n := |AllKinds|;
    DrawSeqFromEmpty(rs);
    var lo, hi := w * n, (w + 1) * n;
    assert lo == n + (w - 1) * n && hi == n + w * n;
    var whole, rest := DrawSeq([], rs), DrawSeq([], rs[n..]);
    assert whole == Reverse(rs[0]) + rest;
    assert whole[lo..hi] == rest[lo - n..hi - n];
  }

  /** Dropping leading calls keeps the refills' properties. */
  lemma SuffixRefills(rs: seq<seq<Kind>>, n: nat)
    requires n <= |rs| && Refills(rs) && Permutations(rs)
    ensures Refills(rs[n..]) && Permutations(rs[n..])
  {
  }

  /** Starting from an empty bag, any seven consecutive createSevenBag calls
      build a rearrangement of I, O, T, S, Z, J, L, whatever each refill's
      shuffle was; more generally every aligned window of seven calls does. */
  lemma {:induction false} SevenBagWindows(rs: seq<seq<Kind>>, w: nat)
    requires (w + 1) * |AllKinds| <= |rs| && Refills(rs) && Permutations(rs)
    ensures multiset(Window(rs, w)) == multiset(AllKinds)
    decreases w
  {
    var n := |AllKinds|;
    if w == 0 {
      FirstWindow(rs);
    } else {
      var later := rs[n..];
      assert (w - 1 + 1) * n == w * n == (w + 1) * n - n;
      SuffixRefills(rs, n);
      SevenBagWindows(later, w - 1);
      LaterWindow(rs, w);
    }
  }

  /** Each type occurs exactly once in every aligned window of seven calls
      from an empty bag. */
  lemma SevenBagEachOnce(rs: seq<seq<Kind>>, w: nat, k: Kind)
    requires (w + 1) * |AllKinds| <= |rs| && Refills(rs) && Permutations(rs)
    ensures multiset(Window(rs, w))[k] == 1
  {
    SevenBagWindows(rs, w);
    AllKindsListsEachOnce(k);
  }

  /** The refills a run of createSevenBag calls would use, one per call. */
  function RefillsFor(dss: seq<Draws>): (rs: seq<seq<Kind>>)
    ensures |rs| == |dss| && Refills(rs) && Permutations(rs)
  {
    var rs := seq(|dss|, t requires 0 <= t < |dss| => Shuffled(dss[t]));
    forall t | 0 <= t < |rs| ensures multiset(rs[t]) == multiset(AllKinds) {
      ShuffledIsPermutation(dss[t]);
    }
    rs
  }

  /** The piece supply: the bag of types left in the current cycle. */
  class Factory {
    var bag: seq<Kind>

    /** The bag only ever holds distinct registered types. */
    ghost predicate Valid()
      reads this
    {
      forall k :: multiset(bag)[k] <= 1
    }

    constructor()
      ensures Valid() && bag == []
    {
      bag := [];
    }

    /** createSevenBag: refill and shuffle if empty, then pop the last type
        and build its piece. */
    method CreateSevenBag(draws: Draws) returns (p: Polyomino)
      requires Valid()
      modifies this
      ensures Valid()
      ensures (p.kind, bag) == Draw(old(bag), Shuffled(draws))
      ensures p == Create(p.kind)
    {
      ghost var refill := Shuffled(draws);
      if |bag| == 0 {
        var a := new Kind[|AllKinds|](t requires 0 <= t < |AllKinds| => AllKinds[t]);
        assert a[..] == AllKinds;
        ShuffleInPlace(a, draws);
        bag := a[..];
        assert bag == refill;
        ShuffledIsPermutation(draws);
      }
      var k := bag[|bag| - 1];
      PopKeepsSubset(bag);
      bag := bag[..|bag| - 1];
      p := Create(k);
      assert (p.kind, bag) == Draw(old(bag), refill);
    }
  }

  /** Popping the last type leaves a sub-multiset. */
  lemma PopKeepsSubset(s: seq<Kind>)
    requires s != []
    ensures multiset(s[..|s| - 1]) <= multiset(s)
  {
    assert s == s[..|s| - 1] + [s[|s| - 1]];
  }

  /** The Fisher-Yates loop of createSevenBag: for i from the last index
      down to 1, swap positions i and draws[i - 1]. */
  method ShuffleInPlace(a: array<Kind>, draws: Draws)
    requires a.Length == |AllKinds|
    modifies a
    ensures a[..] == ShuffleDown(old(a[..]), |draws|, draws)
  {
    var i := a.Length - 1;
    while i > 0
      invariant 0 <= i < a.Length
      invariant ShuffleDown(a[..], i, draws) == ShuffleDown(old(a[..]), |draws|, draws)
    {
      var j := draws[i - 1];
      ghost var before := a[..];
      a[i], a[j] := a[j], a[i];
      assert a[..] == Swap(before, i, j);
      i := i - 1;
    }
  }
}
