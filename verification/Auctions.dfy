// The replay's auction fold: REVEAL covenants of a name between expirations
// leave the second-price outcome.
module Auctions {
  import opened Text

  // The fields of a name state the REVEAL branch reads and writes.
  datatype Auction = Auction(owner: Option<string>, value: nat, highest: nat)

  datatype Bid = Bid(owner: string, value: nat)

  const UNOWNED: Auction := Auction(None, 0, 0)

  function Revealed(a: Auction, b: Bid): Auction {
    if a.owner.None? || b.value > a.highest then Auction(Some(b.owner), a.highest, b.value)
    else if b.value > a.value then a.(value := b.value)
    else a
  }

  function Fold(bids: seq<Bid>): Auction {
    if bids == [] then UNOWNED else Revealed(Fold(bids[..|bids| - 1]), bids[|bids| - 1])
  }

  function Values(bids: seq<Bid>): multiset<nat> {
    if bids == [] then multiset{} else Values(bids[..|bids| - 1]) + multiset{bids[|bids| - 1].value}
  }

  // The greatest element and the greatest of what is left without one copy of
  // it, zero if nothing is left.
  ghost predicate TopTwo(values: multiset<nat>, top: nat, second: nat) {
    && top in values && (forall v :: v in values ==> v <= top)
    && var rest := values - multiset{top};
      (forall v :: v in rest ==> v <= second) && (second in rest || (rest == multiset{} && second == 0))
  }

  lemma {:induction false} TopTwoAdd(values: multiset<nat>, top: nat, second: nat, v: nat)
    requires TopTwo(values, top, second)
    ensures v > top ==> TopTwo(values + multiset{v}, v, top)
    ensures v <= top ==> TopTwo(values + multiset{v}, top, if v > second then v else second)
  {
    var all := values + multiset{v};
    if v > top {
      assert all - multiset{v} == values;
    } else {
      assert all - multiset{top} == values - multiset{top} + multiset{v};
    }
  }

  lemma {:induction false} TopTwoUnique(values: multiset<nat>, top: nat, second: nat, top': nat, second': nat)
    requires TopTwo(values, top, second) && TopTwo(values, top', second')
    ensures top == top' && second == second'
  {}

  predicate EarliestTop(bids: seq<Bid>, i: nat, top: nat) {
    i < |bids| && bids[i].value == top && (forall j :: 0 <= j < i ==> bids[j].value < top)
      && (forall j :: i < j < |bids| ==> bids[j].value <= top)
  }

  lemma {:induction false} RevealKeepsTopTwo(values: multiset<nat>, a: Auction, b: Bid)
    requires TopTwo(values, a.highest, a.value) && a.owner.Some?
    ensures TopTwo(values + multiset{b.value}, Revealed(a, b).highest, Revealed(a, b).value)
  {
    TopTwoAdd(values, a.highest, a.value, b.value);
  }

  lemma {:induction false} TopOne(v: nat)
    ensures TopTwo(multiset{v}, v, 0)
  {}

  lemma {:induction false} OneBid(bids: seq<Bid>)
    requires |bids| == 1
    ensures Values(bids) == multiset{bids[0].value} && Fold(bids) == Auction(Some(bids[0].owner), 0, bids[0].value)
  {}

  ghost predicate SecondPrice(bids: seq<Bid>) {
    TopTwo(Values(bids), Fold(bids).highest, Fold(bids).value) && Fold(bids).owner.Some?
  }

  lemma {:induction false} NextBid(bids: seq<Bid>)
    requires |bids| > 1 && SecondPrice(bids[..|bids| - 1])
    ensures SecondPrice(bids)
  {
    RevealKeepsTopTwo(Values(bids[..|bids| - 1]), Fold(bids[..|bids| - 1]), bids[|bids| - 1]);
  }

  lemma {:induction false} TopTwoOfFold(bids: seq<Bid>)
    requires bids != []
    ensures SecondPrice(bids)
    decreases |bids|
  {
    if |bids| == 1 {
      OneBid(bids);
      TopOne(bids[0].value);
    } else {
      TopTwoOfFold(bids[..|bids| - 1]);
      NextBid(bids);
    }
  }

  lemma {:induction false} OwnerIsEarliest(bids: seq<Bid>)
    requires bids != []
    ensures exists i: nat :: EarliestTop(bids, i, Fold(bids).highest) && Fold(bids).owner == Some(bids[i].owner)
  {
    var m := |bids| - 1;
    var before, b := bids[..m], bids[m];
    if m == 0 {
      assert before == [];
      assert EarliestTop(bids, 0, b.value);
    } else {
      TopTwoOfFold(before);
      OwnerIsEarliest(before);
      var i: nat :| EarliestTop(before, i, Fold(before).highest) && Fold(before).owner == Some(before[i].owner);
      if b.value > Fold(before).highest { EarliestMoves(bids, i, Fold(before).highest, b.value); }
      else { assert EarliestTop(bids, i, Fold(before).highest); }
    }
  }

  lemma {:induction false} EarliestMoves(bids: seq<Bid>, i: nat, top: nat, v: nat)
    requires bids != [] && EarliestTop(bids[..|bids| - 1], i, top) && bids[|bids| - 1].value == v > top
    ensures EarliestTop(bids, |bids| - 1, v)
  {}

  // After any reveals: the highest bid, the second highest counting repeated
  // bids (zero if there is one bid only), and the first to bid the highest.
  lemma {:induction false} RevealsAreSecondPrice(bids: seq<Bid>)
    requires bids != []
    ensures TopTwo(Values(bids), Fold(bids).highest, Fold(bids).value)
    ensures exists i: nat :: EarliestTop(bids, i, Fold(bids).highest) && Fold(bids).owner == Some(bids[i].owner)
  {
    TopTwoOfFold(bids);
    OwnerIsEarliest(bids);
  }

  // Price and highest bid do not depend on the order of the reveals.
  lemma {:induction false} PriceIgnoresOrder(a: seq<Bid>, b: seq<Bid>)
    requires Values(a) == Values(b)
    ensures Fold(a).highest == Fold(b).highest && Fold(a).value == Fold(b).value
  {
    NoBidsNoValues(a);
    NoBidsNoValues(b);
    if a != [] {
      RevealsAreSecondPrice(a);
      RevealsAreSecondPrice(b);
      TopTwoUnique(Values(a), Fold(a).highest, Fold(a).value, Fold(b).highest, Fold(b).value);
    }
  }

  lemma {:induction false} NoBidsNoValues(bids: seq<Bid>)
    ensures bids == [] <==> Values(bids) == multiset{}
  {}

  // ------------------------------------------------------------- all the names

  datatype Covenant = Covenant(nameHash: string, bid: Bid)

  function BidsFor(covenants: seq<Covenant>, nameHash: string): seq<Bid> {
    if covenants == [] then []
    else
      var last := covenants[|covenants| - 1];
      BidsFor(covenants[..|covenants| - 1], nameHash) + (if last.nameHash == nameHash then [last.bid] else [])
  }

  lemma {:induction false} BidsForNext(covenants: seq<Covenant>, i: nat, h: string)
    requires i < |covenants|
    ensures BidsFor(covenants[..i + 1], h)
         == if covenants[i].nameHash == h then BidsFor(covenants[..i], h) + [covenants[i].bid]
         else BidsFor(covenants[..i], h)
    ensures Fold(BidsFor(covenants[..i], h) + [covenants[i].bid])
      == Revealed(Fold(BidsFor(covenants[..i], h)), covenants[i].bid)
  {
    assert covenants[..i + 1][..i] == covenants[..i];
    var past := BidsFor(covenants[..i], h);
    assert (past + [covenants[i].bid])[..|past|] == past;
  }

  class Replay {
    var states: map<string, Auction>

    constructor ()
      ensures states == map[]
    {
      states := map[];
    }

    // ensureNameState and the REVEAL branch of applyCovenant.
    method ApplyReveal(c: Covenant)
      modifies this
      ensures states == old(states)[c.nameHash := Revealed(StateOf(old(states), c.nameHash), c.bid)]
    {
      var ns := if c.nameHash in states then states[c.nameHash] else UNOWNED;
      if ns.owner.None? || c.bid.value > ns.highest {
        ns := ns.(value := ns.highest);
        ns := ns.(owner := Some(c.bid.owner));
        ns := ns.(highest := c.bid.value);
      } else if c.bid.value > ns.value {
        ns := ns.(value := c.bid.value);
      }
      states := states[c.nameHash := ns];
    }
  }

  // Each name's state is the fold of its own reveals.
  ghost predicate Folded(states: map<string, Auction>, covenants: seq<Covenant>, i: nat)
    requires i <= |covenants|
  {
    forall h :: (h in states <==> BidsFor(covenants[..i], h) != [])
      && StateOf(states, h) == Fold(BidsFor(covenants[..i], h))
  }

  function StateOf(states: map<string, Auction>, h: string): Auction { if h in states then states[h] else UNOWNED }

  lemma {:induction false} FoldedNext(states: map<string, Auction>, covenants: seq<Covenant>, i: nat)
    requires i < |covenants| && Folded(states, covenants, i)
    ensures var c := covenants[i];
      Folded(states[c.nameHash := Revealed(StateOf(states, c.nameHash), c.bid)], covenants, i + 1)
  {
    var c := covenants[i];
    var next := states[c.nameHash := Revealed(StateOf(states, c.nameHash), c.bid)];
    forall h
      ensures (h in next <==> BidsFor(covenants[..i + 1], h) != [])
      ensures StateOf(next, h) == Fold(BidsFor(covenants[..i + 1], h))
    {
      BidsForNext(covenants, i, h);
    }
  }

  // However the reveals of different names interleave.
  method ReplayReveals(covenants: seq<Covenant>) returns (r: Replay)
    ensures forall h :: h in r.states <==> BidsFor(covenants, h) != []
    ensures forall h :: h in r.states ==> r.states[h] == Fold(BidsFor(covenants, h))
  {
    r := new Replay();
    for i := 0 to |covenants|
      invariant Folded(r.states, covenants, i)
    {
      FoldedNext(r.states, covenants, i);
      r.ApplyReveal(covenants[i]);
    }
    assert covenants[..|covenants|] == covenants;
    AllFolded(r.states, covenants);
  }

  lemma {:induction false} AllFolded(states: map<string, Auction>, covenants: seq<Covenant>)
    requires Folded(states, covenants, |covenants|)
    ensures forall h :: h in states <==> BidsFor(covenants, h) != []
    ensures forall h :: h in states ==> states[h] == Fold(BidsFor(covenants, h))
  {
    assert covenants[..|covenants|] == covenants;
  }

  // ---------------------------------------------------------- recent history

  function Last<T>(blocks: seq<T>, n: int): seq<T> {
    if n <= 0 then [] else if |blocks| <= n then blocks else blocks[|blocks| - n..]
  }

  lemma {:induction false} LastPush<T>(blocks: seq<T>, i: nat, n: int)
    requires i < |blocks| && n >= 0
    ensures Last(blocks[..i], n) + [blocks[i]] == Last(blocks[..i + 1], n + 1)
  {}

  lemma {:induction false} LastShift<T>(blocks: seq<T>, n: int)
    requires n >= 0 && |Last(blocks, n + 1)| > n
    ensures Last(blocks, n + 1)[1..] == Last(blocks, n)
  {}

  // The window of block history: the last `window` blocks of the replay.
  method RecentHistory<T>(blocks: seq<T>, window: int) returns (recent: seq<T>)
    ensures recent == Last(blocks, window)
  {
    recent := [];
    for i := 0 to |blocks|
      invariant recent == Last(blocks[..i], window)
    {
      if window > 0 {
        LastPush(blocks, i, window);
        recent := recent + [blocks[i]];
        ghost var next := blocks[..i + 1];
        while |recent| > window
          invariant recent == Last(next, if |recent| > window then window + 1 else window)
          decreases |recent|
        {
          LastShift(next, window);
          recent := recent[1..];
        }
      }
    }
    assert blocks[..|blocks|] == blocks;
  }
}
