/**
 The converter registered for "Google.Reservation->DIRS21.Reservation": it
 casts its `object` argument to a Google reservation and builds a DIRS21
 reservation from it, reading the text identifier with `int.Parse`.
 */
module GoogleToDirs21ReservationMapper {
  import opened Types
  import opened DecimalText

  /** `GoogleToDIRS21ReservationMapper.Map(source)`. */
  function Map(source: Obj): (r: Result<Dirs21Reservation>)
    ensures source.Null? ==> r == Err(NullReference)
    ensures source.Dirs21? || source.Other? ==> r == Err(InvalidCast)
    ensures r.Ok? ==>
      && source.Google?
      && r.value.guestFullName == source.google.guestName
      && r.value.checkInDate == source.google.arrivalDate
      && r.value.checkOutDate == source.google.departureDate
    ensures source.Google? && r.Err? ==>
      r.error == ArgumentNull("s") || r.error == Format || r.error == Overflow
  {
    match source
    case Null => Err(NullReference)   // the cast lets null through; reading Id then fails
    case Google(reservation) =>
      (match ParseInt32(reservation.id)
       case Err(e) => Err(e)
       case Ok(id) =>
         Ok(Dirs21Reservation(
           reservationId := id,
           guestFullName := reservation.guestName,
           checkInDate := reservation.arrivalDate,
           checkOutDate := reservation.departureDate)))
    case _ => Err(InvalidCast)
  }

  /** Anything but a Google reservation is refused: null is dereferenced, any other object fails the cast. */
  lemma MapWrongType(source: Obj)
    requires !source.Google?
    ensures Map(source) == if source.Null? then Err(NullReference) else Err(InvalidCast)
  {
  }

  /** On a Google reservation the converter succeeds exactly when `int.Parse` accepts the id, fails with
      the same error otherwise, and copies the name and the dates. */
  lemma MapGoogle(g: GoogleReservation)
    ensures Map(Google(g)).Ok? <==> ParseInt32(g.id).Ok?
    ensures Map(Google(g)).Err? ==> Map(Google(g)).error == ParseInt32(g.id).error
    ensures Map(Google(g)).Ok? ==>
      && Map(Google(g)).value.reservationId == ParseInt32(g.id).value
      && Map(Google(g)).value.guestFullName == g.guestName
      && Map(Google(g)).value.checkInDate == g.arrivalDate
      && Map(Google(g)).value.checkOutDate == g.departureDate
  {
  }

  /** A null id fails with the argument-null error; an id without the integer syntax fails with the
      format error; an id with the syntax whose value does not fit in 32 bits fails with the overflow
      error; any other id is read as the value it spells. */
  lemma MapIdErrors(g: GoogleReservation)
    ensures g.id.None? ==> Map(Google(g)) == Err(ArgumentNull("s"))
    ensures g.id.Some? && !IsIntegerSyntax(g.id.value) ==> Map(Google(g)) == Err(Format)
    ensures g.id.Some? && IsIntegerSyntax(g.id.value) ==>
      exists i, j ::
        && 0 <= i <= j <= |g.id.value| && AllWhite(g.id.value[..i]) && AllWhite(g.id.value[j..])
        && IsSignedDigits(g.id.value[i..j])
        && var v := SignedValue(g.id.value[i..j]);
           Map(Google(g)) == if MinInt32 <= v <= MaxInt32
             then Ok(Dirs21Reservation(v, g.guestName, g.arrivalDate, g.departureDate))
             else Err(Overflow)
  {
    if g.id.Some? {
      var t := g.id.value;
      ParseFormatIff(t);
      if IsIntegerSyntax(t) {
        var i, j :| 0 <= i <= j <= |t| && AllWhite(t[..i]) && AllWhite(t[j..]) && IsSignedDigits(t[i..j]);
        ParseAccepts(t, i, j);
      }
    }
  }

  /** A non-numeric id such as "abc" fails with the format error. */
  lemma NonNumericId(name: Option<string>, arrival: DateTime, departure: DateTime)
    ensures Map(Google(GoogleReservation(Some("abc"), name, arrival, departure))) == Err(Format)
  {
    ParseRejectsLetters();
  }
}
