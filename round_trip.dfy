/**
 The two converters are inverse to each other: every DIRS21 reservation
 survives DIRS21 -> Google -> DIRS21, and a Google reservation survives
 Google -> DIRS21 -> Google exactly when its id is the canonical decimal text
 of a 32-bit integer.
 */
module RoundTrip {
  import opened Types
  import opened DecimalText
  import Dirs21ToGoogleReservationMapper
  import GoogleToDirs21ReservationMapper
  import opened Mapping

  /** DIRS21 -> Google always succeeds, and Google -> DIRS21 gives back the original record. */
  lemma Dirs21RoundTrip(r: Dirs21Reservation)
    ensures Dirs21ToGoogleReservationMapper.Map(Dirs21(r)).Ok?
    ensures GoogleToDirs21ReservationMapper.Map(Google(Dirs21ToGoogleReservationMapper.Map(Dirs21(r)).value)) == Ok(r)
  {
    ParseFormatRoundTrip(r.reservationId);
  }

  /** A Google reservation whose id is the canonical text of a 32-bit integer comes back unchanged from
      Google -> DIRS21 -> Google. */
  lemma GoogleRoundTrip(g: GoogleReservation)
    requires g.id.Some? && IsCanonicalIntText(g.id.value)
    requires MinInt32 <= SignedValue(g.id.value) <= MaxInt32
    ensures GoogleToDirs21ReservationMapper.Map(Google(g)).Ok?
    ensures Dirs21ToGoogleReservationMapper.Map(Dirs21(GoogleToDirs21ReservationMapper.Map(Google(g)).value)) == Ok(g)
  {
    var t := g.id.value;
    FormatParseRoundTrip(t);
    var d := Dirs21Reservation(SignedValue(t), g.guestName, g.arrivalDate, g.departureDate);
    assert GoogleToDirs21ReservationMapper.Map(Google(g)) == Ok(d);
    assert Dirs21ToGoogleReservationMapper.Map(Dirs21(d))
        == Ok(GoogleReservation(Some(t), g.guestName, g.arrivalDate, g.departureDate));
  }

  /** Conversely, whenever Google -> DIRS21 -> Google gives back the record, its id was canonical text. */
  lemma GoogleRoundTripOnlyCanonical(g: GoogleReservation)
    requires GoogleToDirs21ReservationMapper.Map(Google(g)).Ok?
    requires Dirs21ToGoogleReservationMapper.Map(Dirs21(GoogleToDirs21ReservationMapper.Map(Google(g)).value)) == Ok(g)
    ensures g.id.Some? && IsCanonicalIntText(g.id.value)
  {
  }

  /** An id accepted in a non-canonical spelling comes back canonical: "007" returns as "7". */
  lemma NonCanonicalIdExample(name: Option<string>, arrival: DateTime, departure: DateTime)
    ensures var g := GoogleReservation(Some("007"), name, arrival, departure);
      && GoogleToDirs21ReservationMapper.Map(Google(g)) == Ok(Dirs21Reservation(7, name, arrival, departure))
      && Dirs21ToGoogleReservationMapper.Map(Dirs21(Dirs21Reservation(7, name, arrival, departure)))
         == Ok(GoogleReservation(Some("7"), name, arrival, departure))
  {
    LeadingZerosExample();
  }

  /** Through the handler: mapping a DIRS21 reservation to Google and back gives the original record. */
  lemma HandlerRoundTrip(r: Dirs21Reservation)
    ensures MapSpec(Registry(), Dirs21(r), Dirs21TypeName, GoogleTypeName).Ok?
    ensures MapSpec(Registry(), MapSpec(Registry(), Dirs21(r), Dirs21TypeName, GoogleTypeName).value,
                    GoogleTypeName, Dirs21TypeName) == Ok(Dirs21(r))
  {
    RegisteredConverters(Dirs21(r));
    Dirs21RoundTrip(r);
    var g := Dirs21ToGoogleReservationMapper.Map(Dirs21(r)).value;
    RegisteredConverters(Google(g));
  }
}
