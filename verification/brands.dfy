/**
 The brand drop-down: the distinct brands of the listings, in the order a
 `Set` built from them keeps, which is the order of first occurrence.
 */
module BrandList {

  import opened Bikes

  /** Position of the first listing with the given brand, or the number of
      listings when there is none. */
  function FirstIndex(bikes: seq<Bike>, brand: string): (n: nat)
    ensures n <= |bikes|
    ensures n < |bikes| ==> bikes[n].brand == brand
    ensures forall k :: 0 <= k < n ==> bikes[k].brand != brand
    decreases |bikes|
  {
    if |bikes| == 0 then 0
    else if bikes[0].brand == brand then 0
    else 1 + FirstIndex(bikes[1..], brand)
  }

  predicate Distinct(xs: seq<string>) {
    forall i, j :: 0 <= i < j < |xs| ==> xs[i] != xs[j]
  }

  /** Some listing carries the given brand. */
  predicate Offers(bikes: seq<Bike>, brand: string) {
    exists k :: 0 <= k < |bikes| && bikes[k].brand == brand
  }

  /** Collects the brands, skipping every brand already collected. */
  method Brands(bikes: seq<Bike>) returns (names: seq<string>)
    ensures Distinct(names)
    ensures forall b :: b in names <==> Offers(bikes, b)
    ensures forall p, q :: 0 <= p < q < |names| ==> FirstIndex(bikes, names[p]) < FirstIndex(bikes, names[q])
  {
    var seen: set<string> := {};
    names := [];
    var i := 0;
    while i < |bikes|
      invariant 0 <= i <= |bikes|
      invariant forall b :: b in seen <==> b in names
      invariant Distinct(names)
      invariant forall b :: b in names <==> exists k :: 0 <= k < i && bikes[k].brand == b
      invariant forall p :: 0 <= p < |names| ==> FirstIndex(bikes, names[p]) < i
      invariant forall p, q :: 0 <= p < q < |names| ==> FirstIndex(bikes, names[p]) < FirstIndex(bikes, names[q])
    {
      var brand := bikes[i].brand;
      if brand !in seen {
        assert FirstIndex(bikes, brand) == i;
        names := names + [brand];
        seen := seen + {brand};
      }
      i := i + 1;
    }
  }
}
