/**
 The catalogue's listing record, reduced to the fields the catalogue query
 reads, and the seven listings the catalogue page is built from.
 */
module Bikes {

  /** One motorcycle listing: identifier, display name, brand, price in rupees,
      manufacture year and distance driven in kilometres. */
  datatype Bike = Bike(id: int, name: string, brand: string, price: int, year: int, kmDriven: int)

  const Z900 := Bike(1, "Kawasaki Z900", "Kawasaki", 952000, 2025, 0)
  const StreetTriple := Bike(2, "Triumph Street Triple RS", "Triumph", 1209900, 2023, 0)
  const S1000RR := Bike(3, "BMW S1000RR", "BMW", 2075000, 2025, 0)
  const Panigale := Bike(4, "Ducati Panigale V4", "Ducati", 2999000, 2025, 0)
  const StreetRod := Bike(5, "Harley-Davidson Street Rod", "Harley-Davidson", 599000, 2020, 8000)
  const Himalayan := Bike(6, "Royal Enfield Himalayan 411", "Royal Enfield", 191000, 2023, 5000)
  const GS310 := Bike(7, "BMW GS 310", "BMW", 239990, 2025, 0)

  /** The listings in the order the data file declares them. */
  const Fixture: seq<Bike> := [Z900, StreetTriple, S1000RR, Panigale, StreetRod, Himalayan, GS310]

  /** The facts about the data the rest of the model relies on: seven listings
      with distinct identifiers, two of them BMW, prices between 191000 and
      2999000, both bounds attained. */
  lemma FixtureFacts()
    ensures |Fixture| == 7
    ensures forall i, j :: 0 <= i < j < |Fixture| ==> Fixture[i].id != Fixture[j].id
    ensures forall i :: 0 <= i < |Fixture| ==> (Fixture[i].brand == "BMW" <==> i == 2 || i == 6)
    ensures forall i :: 0 <= i < |Fixture| ==> 191000 <= Fixture[i].price <= 2999000
    ensures Fixture[3].price == 2999000 && Fixture[5].price == 191000
  {
  }

  /** No name but the Kawasaki's holds a '9' (the Triumph and the BMW superbike). */
  lemma NoNineInTriumphOrS1000RR()
    ensures '9' !in StreetTriple.name && '9' !in S1000RR.name
  {
  }

  /** No name but the Kawasaki's holds a '9' (the Ducati and the Harley). */
  lemma NoNineInDucatiOrHarley()
    ensures '9' !in Panigale.name && '9' !in StreetRod.name
  {
  }

  /** No name but the Kawasaki's holds a '9' (the Royal Enfield and the GS 310). */
  lemma NoNineInHimalayanOrGS310()
    ensures '9' !in Himalayan.name && '9' !in GS310.name
  {
  }
}
