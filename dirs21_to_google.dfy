/**
 The converter registered for "DIRS21.Reservation->Google.Reservation": it
 casts its `object` argument to a DIRS21 reservation and builds a Google
 reservation from it, writing the integer identifier as decimal text.
 */
module Dirs21ToGoogleReservationMapper {
  import opened Types
  import opened DecimalText

  /** `DIRS21ToGoogleReservationMapper.Map(source)`. */
  function Map(source: Obj): (r: Result<GoogleReservation>)
    ensures r.Ok? <==> source.Dirs21?
    ensures source.Null? ==> r == Err(NullReference)
    ensures source.Google? || source.Other? ==> r == Err(InvalidCast)
    ensures r.Ok? ==>
      && r.value.id.Some?
      && IsCanonicalIntText(r.value.id.value)
      && IsSignedDigits(r.value.id.value)
      && SignedValue(r.value.id.value) == source.dirs21.reservationId
      && r.value.guestName == source.dirs21.guestFullName
      && r.value.arrivalDate == source.dirs21.checkInDate
      && r.value.departureDate == source.dirs21.checkOutDate
  {
    match source
    case Null => Err(NullReference)   // the cast lets null through; reading ReservationId then fails
    case Dirs21(reservation) =>
      Ok(GoogleReservation(
        id := Some(IntToDecimalString(reservation.reservationId)),
        guestName := reservation.guestFullName,
        arrivalDate := reservation.checkInDate,
        departureDate := reservation.checkOutDate))
    case _ => Err(InvalidCast)
  }

  /** The driver's sample record: id 789 becomes "789", the guest name is copied. */
  lemma SampleReservation(checkIn: DateTime, checkOut: DateTime)
    ensures Map(Dirs21(Dirs21Reservation(789, Some("Mladen Raguž"), checkIn, checkOut)))
         == Ok(GoogleReservation(Some("789"), Some("Mladen Raguž"), checkIn, checkOut))
  {
    assert NatToDigits(7) == "7";
    assert NatToDigits(78) == "78";
    assert NatToDigits(789) == "789";
  }
}
