/**
 The values the mapping system passes around: the two reservation records,
 the untyped `object` the registry and the converters accept and return,
 and the exceptions they throw, as a closed set of error values.
 */
module Types {

  /** A C# reference that may be null: a `string` field or argument. */
  datatype Option<+T> = None | Some(value: T)

  /** The exceptions thrown by the registry, the converters and `int.Parse`. */
  datatype Error =
    | ArgumentNull(paramName: string)  // ArgumentNullException, with the name of the null argument
    | NotSupported(message: string)    // NotSupportedException: no converter for the pair
    | InvalidCast                      // InvalidCastException: the object is not of the expected record type
    | NullReference                    // NullReferenceException: a null object was dereferenced
    | Format                           // FormatException: the text is not an integer
    | Overflow                         // OverflowException: the integer does not fit in 32 bits

  /** Either the value a call returns or the exception it throws. */
  datatype Result<+T> = Ok(value: T) | Err(error: Error)

  /** Bounds of the C# `int` (System.Int32). */
  const MinInt32: int := -0x8000_0000
  const MaxInt32: int := 0x7fff_ffff

  /** A C# `int`. */
  type Int32 = x: int | MinInt32 <= x <= MaxInt32

  /** A System.DateTime: only copied from one record to the other, so its ticks are all it needs. */
  datatype DateTime = DateTime(ticks: int)

  /** DIRS21.Reservation: the hotel system's record, keyed by an integer. */
  datatype Dirs21Reservation = Dirs21Reservation(
    reservationId: Int32,
    guestFullName: Option<string>,
    checkInDate: DateTime,
    checkOutDate: DateTime)

  /** Google.Reservation: the booking system's record, keyed by a text identifier. */
  datatype GoogleReservation = GoogleReservation(
    id: Option<string>,
    guestName: Option<string>,
    arrivalDate: DateTime,
    departureDate: DateTime)

  /** A value of static type `object`: null, one of the two records, or anything else. */
  datatype Obj =
    | Null
    | Dirs21(dirs21: Dirs21Reservation)
    | Google(google: GoogleReservation)
    | Other
}
