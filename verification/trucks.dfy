/**
 * Truck as an object: the only vehicle field the source updates in place is
 * hasTrailer, through toggleTrailer.
 */
module Trucks {
  import opened Decimal
  import opened JavaText
  import V = Vehicles

  class Truck {
    const id: string
    const brand: JStr
    const model: JStr
    const year: Int32
    const payloadKg: real
    var hasTrailer: bool

    /**
     * Both constructors: the six-argument one keeps the supplied id, the
     * five-argument one mints an id, which the model receives as `id`.
     */
    constructor (id: string, brand: JStr, model: JStr, year: Int32, payloadKg: real, hasTrailer: bool)
      ensures Value() == V.Truck(id, brand, model, year, payloadKg, hasTrailer)
    {
      this.id, this.brand, this.model, this.year := id, brand, model, year;
      this.payloadKg, this.hasTrailer := payloadKg, hasTrailer;
    }

    /** The truck's current state as a vehicle value. */
    function Value(): (v: V.Vehicle)
      reads this
      ensures v.Truck? && v.id == id && v.hasTrailer == hasTrailer
    {
      V.Truck(id, brand, model, year, payloadKg, hasTrailer)
    }

    /** toggleTrailer: negates hasTrailer; every other field is final. */
    method ToggleTrailer()
      modifies this
      ensures Value() == V.ToggleTrailer(old(Value()))
      ensures hasTrailer == !old(hasTrailer)
    {
      hasTrailer := !hasTrailer;
    }
  }
}
