/** The drop rule of script.js: a drop zone accepts the dragged card only
    while it holds fewer than two cards and none with the same tag; an
    accepted card is appended to the zone and leaves the pool. */
module Zones {
  import opened Wrappers
  import opened Cards

  /** A drop zone: the question it stands for (its `data-question-id`) and
      the cards dropped on it, in drop order. */
  datatype Zone = Zone(questionId: int, held: seq<Card>)

  /** The playing surface: the undealt cards (the card container, in display
      order) and the drop zones. */
  datatype Board = Board(pool: seq<Card>, zones: seq<Zone>)

  /** The zone invariant: at most two cards, with pairwise distinct tags. */
  predicate ZoneOk(z: Zone)
  {
    |z.held| <= 2 &&
    forall i, j :: 0 <= i < j < |z.held| ==> z.held[i].kind != z.held[j].kind
  }

  predicate ZonesOk(zs: seq<Zone>)
  {
    forall i :: 0 <= i < |zs| ==> ZoneOk(zs[i])
  }

  /** The tags of some cards, in order (`existingTypes`). */
  function Tags(cs: seq<Card>): (ts: seq<Kind>)
    ensures |ts| == |cs| && forall i :: 0 <= i < |cs| ==> ts[i] == cs[i].kind
  {
    seq(|cs|, i requires 0 <= i < |cs| => cs[i].kind)
  }

  /** The acceptance guard: fewer than two cards on the zone, and no card
      there with the new card's tag. */
  predicate Admits(z: Zone, c: Card)
  {
    |z.held| < 2 && forall i :: 0 <= i < |z.held| ==> z.held[i].kind != c.kind
  }

  /** A zone keeping the invariant whose tags all differ from `c`'s holds at
      most one card: there are only two tags. */
  lemma RoomForOtherKind(z: Zone, c: Card)
    requires ZoneOk(z)
    requires forall i :: 0 <= i < |z.held| ==> z.held[i].kind != c.kind
    ensures Admits(z, c)
  {
    if |z.held| == 2 {
      OtherKind(z.held[0].kind, z.held[1].kind, c.kind);
      assert false;
    }
  }

  /** Two different tags leave no third one. */
  lemma OtherKind(a: Kind, b: Kind, k: Kind)
    requires a != b
    ensures k == a || k == b
  {
  }

  /** `z` with `c` appended to its dropped cards. */
  function Place(z: Zone, c: Card): Zone
  {
    Zone(z.questionId, z.held + [c])
  }

  /** `s` without its element at position `k`. */
  function RemoveAt(s: seq<Card>, k: nat): (r: seq<Card>)
    requires k < |s|
    ensures |r| == |s| - 1
    ensures multiset(r) + multiset{s[k]} == multiset(s)
  {
    assert s == s[..k] + [s[k]] + s[k + 1..];
    s[..k] + s[k + 1..]
  }

  /** All cards lying on the zones, as a multiset. */
  function Placed(zs: seq<Zone>): multiset<Card>
    decreases |zs|
  {
    if zs == [] then multiset{} else Placed(zs[..|zs| - 1]) + multiset(zs[|zs| - 1].held)
  }

  /** All cards on the board: pool and zones together. */
  function Contents(b: Board): multiset<Card>
  {
    multiset(b.pool) + Placed(b.zones)
  }

  /** Whether a drop on zone `z` with `dragged` (a position in the pool, or
      no card at all) is accepted. */
  predicate Accepted(b: Board, z: nat, dragged: Option<nat>)
    requires z < |b.zones| && (dragged.Some? ==> dragged.value < |b.pool|)
  {
    dragged.Some? && Admits(b.zones[z], b.pool[dragged.value])
  }

  /** The `drop` handler of zone `z`. Only zone `z` and the pool can change,
      no zone changes its question, and a drop changes the board exactly
      when it is accepted, taking one card off the pool. */
  function Drop(b: Board, z: nat, dragged: Option<nat>): (r: Board)
    requires z < |b.zones| && (dragged.Some? ==> dragged.value < |b.pool|)
    ensures |r.zones| == |b.zones|
    ensures forall i :: 0 <= i < |b.zones| && i != z ==> r.zones[i] == b.zones[i]
    ensures forall i :: 0 <= i < |b.zones| ==> r.zones[i].questionId == b.zones[i].questionId
    ensures |r.pool| == if Accepted(b, z, dragged) then |b.pool| - 1 else |b.pool|
    ensures !Accepted(b, z, dragged) ==> r == b
  {
    match dragged
    case None => b
    case Some(k) =>
      var c := b.pool[k];
      if Admits(b.zones[z], c) then Board(RemoveAt(b.pool, k), b.zones[z := Place(b.zones[z], c)])
      else b
  }

  /** Replacing one zone changes the placed cards by exactly the difference
      between the old and the new zone's cards. */
  lemma {:induction false} PlacedUpdate(zs: seq<Zone>, i: nat, z: Zone)
    requires i < |zs|
    ensures Placed(zs[i := z]) + multiset(zs[i].held) == Placed(zs) + multiset(z.held)
    decreases |zs|
  {
    var last := |zs| - 1;
    var zs' := zs[i := z];
    assert zs'[last] == if i == last then z else zs[last];
    if i == last {
      assert zs'[..last] == zs[..last];
    } else {
      assert zs'[..last] == zs[..last][i := z];
      assert zs[..last][i] == zs[i];
      PlacedUpdate(zs[..last], i, z);
      var a, m, n, l := Placed(zs[..last][i := z]), multiset(zs[i].held), multiset(z.held), multiset(zs[last].held);
      assert Placed(zs') == a + l;
      assert Placed(zs) == Placed(zs[..last]) + l;
      assert a + m == Placed(zs[..last]) + n;
      assert (a + l) + m == (a + m) + l;
    }
  }

  /** A card lies on the zones exactly when it lies on one of them. */
  lemma {:induction false} PlacedHas(zs: seq<Zone>, c: Card)
    ensures c in Placed(zs) <==> exists j :: 0 <= j < |zs| && c in zs[j].held
    decreases |zs|
  {
    if zs != [] {
      var last := |zs| - 1;
      PlacedHas(zs[..last], c);
      if c in Placed(zs[..last]) {
        var j :| 0 <= j < last && c in zs[..last][j].held;
        assert c in zs[j].held;
      }
      if exists j :: 0 <= j < |zs| && c in zs[j].held {
        var j :| 0 <= j < |zs| && c in zs[j].held;
        if j < last {
          assert c in zs[..last][j].held;
        }
      }
    }
  }

  /** Zones with no cards hold no cards between them. */
  lemma {:induction false} PlacedOfEmpty(zs: seq<Zone>)
    requires forall i :: 0 <= i < |zs| ==> zs[i].held == []
    ensures Placed(zs) == multiset{}
    decreases |zs|
  {
    if zs != [] {
      PlacedOfEmpty(zs[..|zs| - 1]);
    }
  }

  /** Every zone's cards are among the placed cards. */
  lemma {:induction false} HeldWithinPlaced(zs: seq<Zone>, i: nat)
    requires i < |zs|
    ensures multiset(zs[i].held) <= Placed(zs)
    decreases |zs|
  {
    var last := |zs| - 1;
    if i < last {
      HeldWithinPlaced(zs[..last], i);
      assert zs[..last][i] == zs[i];
    }
  }

  lemma Cancel(a: multiset<Card>, b: multiset<Card>, m: multiset<Card>)
    requires a + m == b + m
    ensures a == b
  {
    forall x ensures a[x] == b[x] {
      assert (a + m)[x] == (b + m)[x];
    }
  }

  /** A drop never duplicates or loses a card. */
  lemma DropConserves(b: Board, z: nat, dragged: Option<nat>)
    requires z < |b.zones| && (dragged.Some? ==> dragged.value < |b.pool|)
    ensures Contents(Drop(b, z, dragged)) == Contents(b)
  {
    if Accepted(b, z, dragged) {
      var k := dragged.value;
      var c := b.pool[k];
      var z' := Place(b.zones[z], c);
      var zs' := b.zones[z := z'];
      var pool' := RemoveAt(b.pool, k);
      assert Drop(b, z, dragged) == Board(pool', zs');
      PlacedUpdate(b.zones, z, z');
      var p, m, one := Placed(b.zones), multiset(b.zones[z].held), multiset{c};
      assert multiset(z'.held) == m + one;
      assert Placed(zs') + m == (p + one) + m;
      Cancel(Placed(zs'), p + one, m);
      assert multiset(pool') + one == multiset(b.pool);
      assert Contents(Board(pool', zs')) == multiset(pool') + (p + one);
    }
  }

  /** An accepted card lands, as the last card, on the zone it was dropped
      on, and leaves the pool at the position it was dragged from. */
  lemma DropMovesCard(b: Board, z: nat, k: nat)
    requires z < |b.zones| && k < |b.pool|
    requires Admits(b.zones[z], b.pool[k])
    ensures Drop(b, z, Some(k)).zones[z].held == b.zones[z].held + [b.pool[k]]
    ensures Drop(b, z, Some(k)).pool == b.pool[..k] + b.pool[k + 1..]
  {
  }

  /** The guard of script.js, "fewer than two cards and `existingTypes` does
      not include the new card's tag", is exactly Admits. */
  lemma GuardIsAdmits(z: Zone, c: Card)
    ensures (|z.held| < 2 && c.kind !in Tags(z.held)) <==> Admits(z, c)
  {
  }

  /** Accepting a card keeps the zone invariant. */
  lemma PlaceKeepsZoneOk(z: Zone, c: Card)
    requires ZoneOk(z) && Admits(z, c)
    ensures ZoneOk(Place(z, c))
  {
    var h := Place(z, c).held;
    assert h == z.held + [c];
  }

  /** Drops keep every zone at most two cards with distinct tags. */
  lemma DropKeepsZonesOk(b: Board, z: nat, dragged: Option<nat>)
    requires z < |b.zones| && (dragged.Some? ==> dragged.value < |b.pool|)
    requires ZonesOk(b.zones)
    ensures ZonesOk(Drop(b, z, dragged).zones)
  {
    if Accepted(b, z, dragged) {
      PlaceKeepsZoneOk(b.zones[z], b.pool[dragged.value]);
    }
  }

  /** Once a card has been accepted, the same card is refused by the zone:
      the drop listeners that each reset registers again see the card just
      added and cannot place it a second time. */
  lemma SecondDropRefused(z: Zone, c: Card)
    requires Admits(z, c)
    ensures !Admits(Place(z, c), c)
  {
    assert Place(z, c).held[|z.held|] == c;
  }
}
