/**
 * The selection-and-pricing state of the destination detail screen:
 * a fixed catalog of destinations, the selected destination and its
 * unit price, a purchase quantity, and one reveal-animation target per
 * destination card.
 */
module TourismApp {
  import opened Wrappers

  /** A catalog entry; only the fields that take part in selection and pricing. */
  datatype Destination = Destination(id: int, price: int)

  /** The catalog is non-empty, its ids are pairwise distinct and every price is positive. */
  ghost predicate ValidCatalog(c: seq<Destination>) {
    && |c| > 0
    && (forall i, j :: 0 <= i < j < |c| ==> c[i].id != c[j].id)
    && (forall i :: 0 <= i < |c| ==> c[i].price > 0)
  }

  /** The three destinations of the screen, in display order (prices in dalasis). */
  function Catalog(): (c: seq<Destination>)
    ensures ValidCatalog(c)
    ensures |c| == 3 && c[0].id == 1 && c[1].id == 2 && c[2].id == 3
  {
    [Destination(1, 5000), Destination(2, 4000), Destination(3, 3500)]
  }

  /** The set of ids that occur in a catalog. */
  function Ids(c: seq<Destination>): set<int> {
    set i | 0 <= i < |c| :: c[i].id
  }

  // ---------------------------------------------------------------------
  // Lookup of the selected entry (`destinations.find(x => x.id === selectedId)`)
  // ---------------------------------------------------------------------

  /** The index of the first entry at or after `k` whose id is the selected one. */
  function FindFrom(c: seq<Destination>, sel: Option<int>, k: nat): (r: Option<nat>)
    requires k <= |c|
    ensures r.Some? ==> k <= r.value < |c| && sel == Some(c[r.value].id)
    ensures r.Some? ==> forall j :: k <= j < r.value ==> sel != Some(c[j].id)
    ensures r.None? ==> forall j :: k <= j < |c| ==> sel != Some(c[j].id)
    decreases |c| - k
  {
    if k == |c| then None
    else if sel == Some(c[k].id) then Some(k)
    else FindFrom(c, sel, k + 1)
  }

  /** The first catalog entry whose id equals the selection; none when nothing is selected or no id matches. */
  function Find(c: seq<Destination>, sel: Option<int>): (r: Option<Destination>)
    ensures r.Some? <==> sel.Some? && sel.value in Ids(c)
    ensures r.Some? ==> r.value in c && sel == Some(r.value.id)
  {
    match FindFrom(c, sel, 0)
    case None => None
    case Some(i) => Some(c[i])
  }

  /** In a catalog with distinct ids, looking up an entry's id finds that very entry. */
  lemma FindEntry(c: seq<Destination>, i: nat)
    requires ValidCatalog(c) && i < |c|
    ensures Find(c, Some(c[i].id)) == Some(c[i])
  {
    var r := FindFrom(c, Some(c[i].id), 0);
    assert r.Some? && c[r.value].id == c[i].id;
  }

  // ---------------------------------------------------------------------
  // Animation targets (`d.id === selectedId ? 1 : 0` for every card)
  // ---------------------------------------------------------------------

  /** The target of one card: 1 (expanded) for the selected id, 0 (collapsed) otherwise. */
  function TargetFor(id: int, sel: Option<int>): (t: int)
    ensures t == 0 || t == 1
    ensures t == 1 <==> sel == Some(id)
  {
    if sel == Some(id) then 1 else 0
  }

  /**
   * The per-id targets obtained by visiting the catalog in order and
   * assigning each id its target, as the card loops do.
   */
  function Targets(c: seq<Destination>, sel: Option<int>): map<int, int>
    decreases |c|
  {
    if c == [] then map[]
    else Targets(c[..|c| - 1], sel)[c[|c| - 1].id := TargetFor(c[|c| - 1].id, sel)]
  }

  /** The ids whose target is 1 (the cards being expanded). */
  function Raised(m: map<int, int>): set<int> {
    set k | k in m && m[k] == 1
  }

  /** Every catalog id has a target, nothing else has one, and each is 1 exactly when it is the selected id. */
  lemma {:induction false} TargetsAt(c: seq<Destination>, sel: Option<int>)
    ensures Targets(c, sel).Keys == Ids(c)
    ensures forall k :: k in Targets(c, sel) ==> Targets(c, sel)[k] == TargetFor(k, sel)
    decreases |c|
  {
    if c != [] {
      var p := c[..|c| - 1];
      TargetsAt(p, sel);
      assert c == p + [c[|c| - 1]];
      assert Ids(c) == Ids(p) + {c[|c| - 1].id} by {
        forall x | x in Ids(c) ensures x in Ids(p) + {c[|c| - 1].id} {
          var i :| 0 <= i < |c| && c[i].id == x;
          if i < |c| - 1 { assert p[i] == c[i]; }
        }
        forall x | x in Ids(p) ensures x in Ids(c) {
          var i :| 0 <= i < |p| && p[i].id == x;
          assert c[i] == p[i];
        }
      }
    }
  }

  /** Every target is 0 or 1. */
  lemma TargetsBinary(c: seq<Destination>, sel: Option<int>)
    ensures forall k :: k in Targets(c, sel) ==> Targets(c, sel)[k] == 0 || Targets(c, sel)[k] == 1
  {
    TargetsAt(c, sel);
  }

  /** Single selection: exactly the selected id is raised when it is a catalog id, and none is otherwise. */
  lemma RaisedIsSelection(c: seq<Destination>, sel: Option<int>)
    ensures Raised(Targets(c, sel)) == if sel.Some? && sel.value in Ids(c) then {sel.value} else {}
  {
    TargetsAt(c, sel);
  }

  /** With distinct ids, the card of the selected entry is the only card whose target is 1. */
  lemma OneCardRaised(c: seq<Destination>, sel: Option<int>, i: nat)
    requires ValidCatalog(c) && i < |c| && sel == Some(c[i].id)
    ensures c[i].id in Targets(c, sel) && Targets(c, sel)[c[i].id] == 1
    ensures forall j :: 0 <= j < |c| && j != i ==> c[j].id in Targets(c, sel) && Targets(c, sel)[c[j].id] == 0
  {
    TargetsAt(c, sel);
    assert c[i].id in Ids(c);
    forall j | 0 <= j < |c| && j != i ensures c[j].id in Targets(c, sel) && Targets(c, sel)[c[j].id] == 0 {
      assert c[j].id in Ids(c);
      assert c[j].id != c[i].id;
    }
  }

  // ---------------------------------------------------------------------
  // Quantity updaters and the derived total
  // ---------------------------------------------------------------------

  /** The increment updater `q => q + 1`: no upper bound. */
  function IncQ(q: int): (r: int)
    ensures r > q
  {
    q + 1
  }

  /** The decrement updater `q => (q > 1 ? q - 1 : 1)`: at most one step down, never below 1. */
  function DecQ(q: int): (r: int)
    ensures r >= 1
    ensures q - 1 <= r && (q >= 1 ==> r <= q)
    ensures r == q ==> q == 1
  {
    if q > 1 then q - 1 else 1
  }

  /** The floor law: decrementing from 1 stays at 1, and from n > 1 gives n - 1. */
  lemma DecLaw(q: int)
    requires q >= 1
    ensures DecQ(q) == (if q == 1 then 1 else q - 1)
  {
  }

  /** Incrementing then decrementing restores any reachable quantity. */
  lemma IncDecRoundTrip(q: int)
    requires q >= 1
    ensures DecQ(IncQ(q)) == q
  {
  }

  /** The amount for a unit price and a quantity: one price per unit. */
  function Amount(price: int, q: nat): (t: int)
    ensures q == 0 ==> t == 0
    ensures q > 0 ==> t == Amount(price, q - 1) + price
  {
    price * q
  }

  // ---------------------------------------------------------------------
  // The screen
  // ---------------------------------------------------------------------

  /** A user event: a tap on the card at a catalog index, or on the plus or minus button. */
  datatype Event = Tap(card: nat) | Plus | Minus

  class DetailScreen {
    const catalog: seq<Destination>
    var selectedId: Option<int>
    var selectedPrice: int
    var quantity: int
    /** The value each card's reveal animation is heading to: 1 expanded, 0 collapsed. */
    var animTarget: map<int, int>

    /** The state invariant kept by every operation. */
    ghost predicate Valid()
      reads this
    {
      && ValidCatalog(catalog)
      && quantity >= 1
      && animTarget.Keys == Ids(catalog)
    }

    /** The state the selection effect establishes: targets follow the selection and the price follows the catalog. */
    ghost predicate Synced()
      reads this
    {
      && animTarget == Targets(catalog, selectedId)
      && (Find(catalog, selectedId).Some? ==> selectedPrice == Find(catalog, selectedId).value.price)
    }

    /** The state between two events: valid, synced, and a catalog entry selected. */
    ghost predicate Steady()
      reads this
    {
      Valid() && Synced() && selectedId.Some? && selectedId.value in Ids(catalog)
    }

    /** The derived total: unit price times quantity, never stored. */
    function Total(): (t: int)
      reads this
      requires Valid()
    {
      Amount(selectedPrice, quantity)
    }

    /**
     * Mounting the screen: entry 1 selected at the first entry's price,
     * quantity 1, and each card's initial target built by visiting the catalog.
     */
    constructor ()
      ensures catalog == Catalog()
      ensures selectedId == Some(1) && selectedPrice == 5000 && quantity == 1
      ensures animTarget == map[1 := 1, 2 := 0, 3 := 0]
      ensures Steady()
    {
      catalog := Catalog();
      selectedId := Some(1);
      selectedPrice := Catalog()[0].price;
      quantity := 1;
      var acc: map<int, int> := map[];
      var c := Catalog();
      for i := 0 to |c|
        invariant acc == Targets(c[..i], Some(1))
      {
        assert c[..i + 1][..i] == c[..i];
        acc := acc[c[i].id := TargetFor(c[i].id, Some(1))];
      }
      assert c[..|c|] == c;
      animTarget := acc;
      TargetsAt(c, Some(1));
      assert 1 in Ids(c) && 2 in Ids(c) && 3 in Ids(c) by {
        assert c[0].id == 1 && c[1].id == 2 && c[2].id == 3;
      }
      FindEntry(c, 0);
    }

    /** Tapping a card: the id is taken whether or not it was already selected, and so is the price. */
    method Select(id: int, price: int)
      requires Valid()
      modifies this
      ensures Valid()
      ensures selectedId == Some(id) && selectedPrice == price
      ensures quantity == old(quantity) && animTarget == old(animTarget)
    {
      selectedId := if selectedId == Some(id) then Some(id) else Some(id);
      selectedPrice := price;
    }

    /**
     * The selection effect: every card is retargeted to 1 if it is the
     * selected one and to 0 otherwise, then the price is re-read from the
     * catalog entry of the selection, if there is one.
     */
    method SyncEffect()
      requires Valid()
      modifies this
      ensures Valid() && Synced()
      ensures animTarget == Targets(catalog, selectedId)
      ensures selectedPrice == match Find(catalog, selectedId)
                               case Some(d) => d.price
                               case None => old(selectedPrice)
      ensures selectedId == old(selectedId) && quantity == old(quantity)
      ensures old(Synced()) ==> animTarget == old(animTarget) && selectedPrice == old(selectedPrice)
    {
      ghost var start := animTarget;
      for i := 0 to |catalog|
        invariant animTarget == start + Targets(catalog[..i], selectedId)
        invariant selectedId == old(selectedId) && selectedPrice == old(selectedPrice) && quantity == old(quantity)
      {
        assert catalog[..i + 1][..i] == catalog[..i];
        var d := catalog[i];
        animTarget := animTarget[d.id := TargetFor(d.id, selectedId)];
      }
      assert catalog[..|catalog|] == catalog;
      TargetsAt(catalog, selectedId);
      assert animTarget == Targets(catalog, selectedId);
      var sel := Find(catalog, selectedId);
      if sel.Some? {
        selectedPrice := sel.value.price;
      }
    }

    /** The plus button: one more unit, and one more unit price in the total. */
    method Inc()
      requires Valid()
      modifies this
      ensures Valid()
      ensures quantity == old(quantity) + 1
      ensures Total() == old(Total()) + selectedPrice
      ensures selectedId == old(selectedId) && selectedPrice == old(selectedPrice) && animTarget == old(animTarget)
    {
      quantity := IncQ(quantity);
    }

    /** The minus button: one unit fewer, but never fewer than one. */
    method Dec()
      requires Valid()
      modifies this
      ensures Valid()
      ensures quantity == if old(quantity) > 1 then old(quantity) - 1 else 1
      ensures Total() == if old(quantity) > 1 then old(Total()) - selectedPrice else old(Total())
      ensures selectedId == old(selectedId) && selectedPrice == old(selectedPrice) && animTarget == old(animTarget)
    {
      quantity := DecQ(quantity);
    }

    /**
     * One event followed by the render it causes: the handler runs, then the
     * selection effect (whose dependencies include the catalog array, built
     * anew on every render, so it runs after every render).
     */
    method Press(e: Event)
      requires Steady()
      requires e.Tap? ==> e.card < |catalog|
      modifies this
      ensures Steady()
      ensures Raised(animTarget) == {selectedId.value}
      ensures Find(catalog, selectedId) == Some(Destination(selectedId.value, selectedPrice))
      ensures match e
              case Tap(i) => selectedId == Some(catalog[i].id) && selectedPrice == catalog[i].price
                             && quantity == old(quantity)
              case Plus => quantity == old(quantity) + 1
                           && selectedId == old(selectedId) && selectedPrice == old(selectedPrice)
              case Minus => quantity == (if old(quantity) > 1 then old(quantity) - 1 else 1)
                            && selectedId == old(selectedId) && selectedPrice == old(selectedPrice)
    {
      match e {
        case Tap(i) =>
          Select(catalog[i].id, catalog[i].price);
          assert catalog[i].id in Ids(catalog);
        case Plus => Inc();
        case Minus => Dec();
      }
      SyncEffect();
      RaisedIsSelection(catalog, selectedId);
    }
  }

  /**
   * The checkout walk-through: mount (total 5000), tap the second card
   * (4000), press plus twice (quantity 3, 12000), press minus once
   * (quantity 2, 8000).
   */
  method Walkthrough() returns (mounted: int, tapped: int, twice: int, once: int)
    ensures mounted == 5000 && tapped == 4000 && twice == 12000 && once == 8000
  {
    var s := new DetailScreen();
    mounted := s.Total();
    s.Press(Tap(1));
    FindEntry(s.catalog, 1);
    tapped := s.Total();
    s.Press(Plus);
    s.Press(Plus);
    twice := s.Total();
    s.Press(Minus);
    once := s.Total();
  }
}
