/**
 * The vehicle family: the abstract base class with its four concrete
 * subclasses, as one datatype whose constructors are the subclasses. Every
 * field is final in the source except Truck's hasTrailer, which the Trucks
 * module models separately; a datatype value never changes.
 */
module Vehicles {
  import opened Wrappers
  import opened Decimal
  import opened JavaText

  /**
   * A vehicle. id, brand, model and year belong to the base class; the rest
   * to the subclass. Bike's `category` is the field the source calls `type`.
   * brand, model and the text fields may be null (None).
   */
  datatype Vehicle =
    | Car(id: string, brand: JStr, model: JStr, year: Int32, numDoors: Int32, fuelType: JStr)
    | Bike(id: string, brand: JStr, model: JStr, year: Int32, hasSidecar: bool, category: JStr)
    | Truck(id: string, brand: JStr, model: JStr, year: Int32, payloadKg: real, hasTrailer: bool)
    | Motorcycle(id: string, brand: JStr, model: JStr, year: Int32, engineCc: Int32, category: JStr)

  /** getClass().getSimpleName(): the discriminator written by every codec. */
  function TypeName(v: Vehicle): (r: string)
    ensures r in {"Car", "Bike", "Truck", "Motorcycle"}
  {
    match v
    case Car(_, _, _, _, _, _) => "Car"
    case Bike(_, _, _, _, _, _) => "Bike"
    case Truck(_, _, _, _, _, _) => "Truck"
    case Motorcycle(_, _, _, _, _, _) => "Motorcycle"
  }

  /** The lower case of the four type names. */
  lemma LowerTypeNames()
    ensures Lower("Car") == "car" && Lower("Bike") == "bike"
    ensures Lower("Truck") == "truck" && Lower("Motorcycle") == "motorcycle"
  {
  }

  /** The four discriminators are pairwise different, even ignoring case. */
  lemma TypeNameDetermines(a: Vehicle, b: Vehicle)
    ensures EqualsIgnoreCase(TypeName(a), TypeName(b)) <==> TypeName(a) == TypeName(b)
    ensures TypeName(a) == TypeName(b) <==>
              (a.Car? && b.Car?) || (a.Bike? && b.Bike?) || (a.Truck? && b.Truck?) || (a.Motorcycle? && b.Motorcycle?)
  {
    var la, lb := Lower(TypeName(a)), Lower(TypeName(b));
    if TypeName(a) != TypeName(b) {
      assert la[0] != lb[0];
    }
  }

  /**
   * The @DiscriminatorValue annotation: Truck.java and Motorcycle.java
   * carry one; Car.java and Bike.java do not.
   */
  function JpaDiscriminator(v: Vehicle): (r: Option<string>)
    ensures r.Some? ==> Lower(r.value) == Lower(TypeName(v))
    ensures r.Some? <==> v.Truck? || v.Motorcycle?
  {
    match v
    case Truck(_, _, _, _, _, _) => Some("TRUCK")
    case Motorcycle(_, _, _, _, _, _) => Some("MOTORCYCLE")
    case _ => None
  }

  /**
   * getMaxSpeed. Car, Bike and Truck return a constant; a Motorcycle's is
   * 220 + engineCc / 100, here as an exact real.
   */
  function MaxSpeed(v: Vehicle): (r: real)
    ensures v.Car? ==> r == 250.0
    ensures v.Bike? ==> r == 300.0
    ensures v.Truck? ==> r == 180.0
    ensures r > 0.0 || v.Motorcycle?
  {
    match v
    case Car(_, _, _, _, _, _) => 250.0
    case Bike(_, _, _, _, _, _) => 300.0
    case Truck(_, _, _, _, _, _) => 180.0
    case Motorcycle(_, _, _, _, cc, _) => 220.0 + (cc as real) / 100.0
  }

  /** Truck.toggleTrailer on a value: negates hasTrailer and nothing else. */
  function ToggleTrailer(v: Vehicle): (r: Vehicle)
    requires v.Truck?
    ensures r.Truck? && r.hasTrailer == !v.hasTrailer
    ensures r.(hasTrailer := v.hasTrailer) == v
  {
    v.(hasTrailer := !v.hasTrailer)
  }

  /** Toggling the trailer twice restores the truck. */
  lemma ToggleTrailerTwice(v: Vehicle)
    requires v.Truck?
    ensures ToggleTrailer(ToggleTrailer(v)) == v
  {
  }

  /**
   * Double.toString and Double.parseDouble, which the model does not
   * define: the codecs that print or read a Truck payload take them as
   * this pair of functions.
   */
  datatype DoubleText = DoubleText(show: real -> string, parse: string -> Option<real>)

  /** A token that the snapshot reader returns unchanged: visible characters
      only (nothing trim would remove), and no quote, comma or closing brace. */
  predicate PlainToken(t: string) {
    forall i :: 0 <= i < |t| ==> ' ' < t[i] && t[i] != '"' && t[i] != ',' && t[i] != '}'
  }
}
