# Reservation mapping: a verified model

This project models the core of a small C# mapping system. The system converts
reservation records between two fixed schemas:

- `DIRS21.Reservation`, a hotel system's record with an integer id, a guest
  full name and check-in and check-out dates.
- `Google.Reservation`, a booking record with a text id, a guest name and
  arrival and departure dates.

A `MapHandler` holds a dictionary keyed by `"<source type>-><target type>"`.
Its constructor registers two converters, one per direction. `Map(data,
sourceType, targetType)` first rejects null data. It then builds the key and
either runs the registered converter or throws `NotSupportedException`. The
DIRS21-to-Google converter writes the id with `Int32.ToString()`. The
Google-to-DIRS21 converter reads it back with `int.Parse`, which can fail.

Modules:

- `Types` (`types.dfy`) holds the two records and the closed `Obj` type for
  `object` values: null, either record, or anything else. It also holds the
  exceptions as `Error` values and `Result`. Strings that C# lets be null are
  `Option<string>`.
- `DecimalText` (`decimal_text.dfy`) models `Int32.ToString()` and
  `int.Parse` under the invariant culture. It proves that formatting and
  parsing are inverse, and it characterises the format, overflow and null
  errors.
- `Dirs21ToGoogleReservationMapper` and `GoogleToDirs21ReservationMapper`
  (`dirs21_to_google.dfy`, `google_to_dirs21.dfy`) model the two converters,
  including the cast.
- `Mapping` (`map_handler.dfy`) models the registry. `MapHandler` is a class
  whose `mappers` map the constructor fills. Its `Map` method is proved equal
  to the specification function `MapSpec`, and the lemmas about dispatch are
  stated on `MapSpec`. It also holds the driver's sample run, with the two clock
  reads as parameters.
- `RoundTrip` (`round_trip.dfy`) proves that the converters are inverse. This
  holds directly and through the registry.

Three facts about the code shape the error cases:

- The cast in each converter throws `InvalidCastException` on an object of
  another type. Called directly with null, a converter throws
  `NullReferenceException`, because the cast lets null through. The model has
  a `NullReference` error, and `MapNeverNullReference` proves that the handler
  never reaches it.
- `int.Parse` throws three distinct exceptions: `ArgumentNullException` for a
  null id, `FormatException` for bad text, and `OverflowException` for a value
  outside 32 bits. The model keeps all three.
- The type names are never checked. An empty name simply builds a key that is
  not registered.

## Model

| member | source | states |
|---|---|---|
| `DecimalText.NatToDigits` | Mapping/Mappers/DIRS21ToGoogleReservationMapper.cs:13 | the digits written for a non-negative value are canonical (non-empty, ASCII digits, no leading zero except "0") and denote exactly that value |
| `DecimalText.IntToDecimalString` | Mapping/Mappers/DIRS21ToGoogleReservationMapper.cs:13 | `ToString()` of an int is canonical decimal text whose value is the int, with a leading `-` exactly when the int is negative |
| `DecimalText.TrimStart` | Mapping/Mappers/GoogleToDIRS21ReservationMapper.cs:12 | the leading white space `int.Parse` skips is all white, and what remains is a suffix that does not start with white space |
| `DecimalText.TrimEnd` | Mapping/Mappers/GoogleToDIRS21ReservationMapper.cs:12 | the trailing white space `int.Parse` skips is all white, and what remains is a prefix that does not end with white space |
| `DecimalText.ParseInt32` | Mapping/Mappers/GoogleToDIRS21ReservationMapper.cs:12 | `int.Parse`: null and only null gives the argument-null error for `s`, the only other errors are format and overflow, and a success needs at least one digit. ParseAccepts, ParseFormatIff and ParseOkOrOverflowHasSyntax state its full behaviour |
| `DecimalText.ParseNull` | Mapping/Mappers/GoogleToDIRS21ReservationMapper.cs:12 | `int.Parse(null)` fails with the argument-null error for the parameter `s` |
| `DecimalText.TrimStartAt` | Mapping/Mappers/GoogleToDIRS21ReservationMapper.cs:12 | leading white space is removed up to the first non-white character and no further |
| `DecimalText.TrimEndAt` | Mapping/Mappers/GoogleToDIRS21ReservationMapper.cs:12 | trailing white space is removed back to the last non-white character and no further |
| `DecimalText.SignedDigitsEnds` | Mapping/Mappers/GoogleToDIRS21ReservationMapper.cs:12 | an optionally signed digit string starts with a sign or a digit and ends with a digit |
| `DecimalText.TrimEndFrom` | Mapping/Mappers/GoogleToDIRS21ReservationMapper.cs:12 | trimming the end of a suffix stops at the last non-white character |
| `DecimalText.TrimAround` | Mapping/Mappers/GoogleToDIRS21ReservationMapper.cs:12 | trimming both ends leaves exactly the part between the first and last non-white characters |
| `DecimalText.TrimNothing` | Mapping/Mappers/GoogleToDIRS21ReservationMapper.cs:12 | text that starts and ends with non-white characters is left as it is |
| `DecimalText.ParseAccepts` | Mapping/Mappers/GoogleToDIRS21ReservationMapper.cs:12 | text that is white space, an optionally signed digit string and white space parses to the string's value when that value lies in [-2^31, 2^31-1], and fails with the overflow error otherwise |
| `DecimalText.ParseFormatIff` | Mapping/Mappers/GoogleToDIRS21ReservationMapper.cs:12 | `int.Parse` fails with the format error if and only if the text lacks that syntax, so format errors take precedence over overflow |
| `DecimalText.ParseOkOrOverflowHasSyntax` | Mapping/Mappers/GoogleToDIRS21ReservationMapper.cs:12 | text that does not fail with the format error has the integer syntax, and a successful parse returns the value the text spells |
| `DecimalText.DigitsValueLeadingZeros` | Mapping/Mappers/GoogleToDIRS21ReservationMapper.cs:12 | leading zeros do not change the value `int.Parse` reads |
| `DecimalText.DigitsValueAllZeros` | Mapping/Mappers/GoogleToDIRS21ReservationMapper.cs:12 | a string of zeros reads as 0 |
| `DecimalText.DigitsValuePositive` | Mapping/Mappers/DIRS21ToGoogleReservationMapper.cs:13 | digits starting with a non-zero digit have a positive value |
| `DecimalText.NatToDigitsOfCanonical` | Mapping/Mappers/DIRS21ToGoogleReservationMapper.cs:13 | canonical digits are the ones the formatter writes for their value, so each value has one canonical spelling |
| `DecimalText.ParseFormatRoundTrip` | Mapping/Mappers/GoogleToDIRS21ReservationMapper.cs:12 | `int.Parse(x.ToString()) == x` for every 32-bit int |
| `DecimalText.FormatOfCanonical` | Mapping/Mappers/DIRS21ToGoogleReservationMapper.cs:13 | formatting the value of canonical text gives back the same text |
| `DecimalText.ParseOfCanonical` | Mapping/Mappers/GoogleToDIRS21ReservationMapper.cs:12 | canonical text of a 32-bit value parses to that value |
| `DecimalText.FormatParseRoundTrip` | Mapping/Mappers/GoogleToDIRS21ReservationMapper.cs:12 | canonical text of a 32-bit value parses to that value, and formatting the value gives back the same text |
| `DecimalText.LeadingZerosExample` | Mapping/Mappers/GoogleToDIRS21ReservationMapper.cs:12 | "007" parses to 7, which is written "7" |
| `DecimalText.PlusSignExample` | Mapping/Mappers/GoogleToDIRS21ReservationMapper.cs:12 | "+7" parses to 7 |
| `DecimalText.NegativeZeroExample` | Mapping/Mappers/GoogleToDIRS21ReservationMapper.cs:12 | " -0 " parses to 0, which is written "0" |
| `DecimalText.ParseRejectsBadStart` | Mapping/Mappers/GoogleToDIRS21ReservationMapper.cs:12 | text whose first character is neither white space, a sign nor a digit fails with the format error |
| `DecimalText.ParseRejectsInnerWhiteAt` | Mapping/Mappers/GoogleToDIRS21ReservationMapper.cs:12 | white space between the first and last non-white characters fails with the format error |
| `DecimalText.ParseRejectsLetters` | Mapping/Mappers/GoogleToDIRS21ReservationMapper.cs:12 | "abc" fails with the format error |
| `DecimalText.ParseRejectsEmpty` | Mapping/Mappers/GoogleToDIRS21ReservationMapper.cs:12 | "" fails with the format error |
| `DecimalText.ParseRejectsInnerWhite` | Mapping/Mappers/GoogleToDIRS21ReservationMapper.cs:12 | "1 2" fails with the format error |
| `Dirs21ToGoogleReservationMapper.Map` | Mapping/Mappers/DIRS21ToGoogleReservationMapper.cs:8-17 | succeeds exactly on a DIRS21 record. Null fails with the null-reference error and any other object with the invalid-cast error. On success the id is canonical decimal text whose value is `ReservationId`, `GuestName` is `GuestFullName`, `ArrivalDate` is `CheckInDate` and `DepartureDate` is `CheckOutDate` |
| `Dirs21ToGoogleReservationMapper.SampleReservation` | Mapping/Mappers/DIRS21ToGoogleReservationMapper.cs:13-16 | id 789 with guest "Mladen Raguž" becomes id "789" with the same guest and dates |
| `GoogleToDirs21ReservationMapper.Map` | Mapping/Mappers/GoogleToDIRS21ReservationMapper.cs:7-17 | null gives the null-reference error and any object but a Google record the invalid-cast error. On a Google record the only errors are those of `int.Parse`. On success `GuestFullName`, `CheckInDate` and `CheckOutDate` are copied from `GuestName`, `ArrivalDate` and `DepartureDate`. MapGoogle and MapIdErrors state the id |
| `GoogleToDirs21ReservationMapper.MapWrongType` | Mapping/Mappers/GoogleToDIRS21ReservationMapper.cs:9 | anything but a Google record fails: null with the null-reference error, any other object with the invalid-cast error |
| `GoogleToDirs21ReservationMapper.MapGoogle` | Mapping/Mappers/GoogleToDIRS21ReservationMapper.cs:9-15 | on a Google record the converter succeeds exactly when `int.Parse` accepts the id and otherwise fails with its error. On success `ReservationId` is the parsed id, `GuestFullName` is `GuestName`, `CheckInDate` is `ArrivalDate` and `CheckOutDate` is `DepartureDate` |
| `GoogleToDirs21ReservationMapper.MapIdErrors` | Mapping/Mappers/GoogleToDIRS21ReservationMapper.cs:12 | a null id gives the argument-null error, an id without the integer syntax gives the format error, and an id with it gives the record with that value or the overflow error |
| `GoogleToDirs21ReservationMapper.NonNumericId` | Mapping/Mappers/GoogleToDIRS21ReservationMapper.cs:12 | the id "abc" gives the format error |
| `Mapping.Key` | Mapping/MappHandler.cs:24 | the key is the source type name, then `->`, then the target type name, position by position |
| `Mapping.Apply` | Mapping/MappHandler.cs:27 | `_mappers[key].Map(data)`: null gives the null-reference error. The DIRS21-to-Google converter succeeds exactly on a DIRS21 record, and each converter succeeds only on its own source type and returns a record of its target type |
| `Mapping.MapSpec` | Mapping/MappHandler.cs:17-33 | what `Map` returns: null data gives the argument-null error for `data`, success needs a registered key, and the null-reference error never arises. MapDispatch states the dispatch itself |
| `Mapping.MapHandler.constructor` | Mapping/MappHandler.cs:9-15 | the dictionary, a constant assigned once as the source's `readonly` field is, holds exactly the two keys `DIRS21.Reservation->Google.Reservation` and `Google.Reservation->DIRS21.Reservation`, with their converters. Neither `Add` meets a key already present |
| `Mapping.MapHandler.Map` | Mapping/MappHandler.cs:17-33 | the result is `MapSpec` of the handler's dictionary. The dictionary is a constant field, so no call can change it |
| `Mapping.MapNullData` | Mapping/MappHandler.cs:19-22 | null data fails with the argument-null error for `data`, for any dictionary and any type names |
| `Mapping.MapDispatch` | Mapping/MappHandler.cs:24-32 | on non-null data, a registered key returns exactly what its converter returns on `data`, errors included. An unregistered key fails with "Mapping from S to T is not supported." |
| `Mapping.MapDependsOnKey` | Mapping/MappHandler.cs:24-25 | two pairs of names with the same key are dispatched alike |
| `Mapping.DashPosition` | Mapping/MappHandler.cs:24 | in a key built from names without '-', the only '-' is the separator's |
| `Mapping.KeyInjective` | Mapping/MappHandler.cs:24 | for names without '-', the key determines both names |
| `Mapping.RegistryKeys` | Mapping/MappHandler.cs:12-13 | the registry has exactly two distinct keys, mapped to the two converters |
| `Mapping.SupportedPairs` | Mapping/MappHandler.cs:12-25 | a pair of type names is registered if and only if it is DIRS21-to-Google or Google-to-DIRS21 |
| `Mapping.RegisteredConverters` | Mapping/MappHandler.cs:12-27 | mapping DIRS21 to Google runs the DIRS21-to-Google converter, and the reverse pair runs the other one |
| `Mapping.UnsupportedPairs` | Mapping/MappHandler.cs:24-32 | on non-null data every other pair fails with the not-supported error |
| `Mapping.SameTypeUnsupported` | Mapping/MappHandler.cs:29-32 | DIRS21 to DIRS21 is not supported |
| `Mapping.MapNeverNullReference` | Mapping/MappHandler.cs:19-27 | through the handler no converter dereferences null |
| `Mapping.MapWrongRecordType` | Mapping/MappHandler.cs:25-27 | a registered pair applied to the other record type fails with the invalid-cast error |
| `Mapping.SampleRun` | Program.cs:8-20 | the driver's sample call returns a Google record with id "789", guest "Mladen Raguž", the first clock read as arrival date and the second clock read plus two days as departure date |
| `RoundTrip.Dirs21RoundTrip` | Mapping/Mappers/GoogleToDIRS21ReservationMapper.cs:12-15 | every DIRS21 record converts to Google and back to itself |
| `RoundTrip.GoogleRoundTrip` | Mapping/Mappers/DIRS21ToGoogleReservationMapper.cs:13-16 | a Google record whose id is canonical text of a 32-bit int converts to DIRS21 and back to itself |
| `RoundTrip.GoogleRoundTripOnlyCanonical` | Mapping/Mappers/DIRS21ToGoogleReservationMapper.cs:13 | a Google record that survives that round trip has a non-null, canonical id |
| `RoundTrip.NonCanonicalIdExample` | Mapping/Mappers/GoogleToDIRS21ReservationMapper.cs:12 | id "007" becomes 7 and returns as "7" |
| `RoundTrip.HandlerRoundTrip` | Mapping/MappHandler.cs:24-27 | through the registry, DIRS21 to Google and back returns the original record |

## Left out

- Culture: formatting and parsing use the invariant culture, with `-`, `+` and ASCII digits. The current culture's sign symbols are not modelled.
- `DecimalText.ParseInt32`: .NET Core's parser also accepts trailing U+0000 characters after the number. Here they are a format error.
- Exception messages: only the parameter name of `ArgumentNullException` (`data` or `s`) and the whole message of `NotSupportedException` are kept. The message "Data cannot be null." is not.
- `DateTime` is only copied, so it is a value holding its ticks. Its `Kind` and its calendar are not modelled.
- `Mapping.AddDays`: does not model the exception `AddDays` throws when a date leaves the `DateTime` range.
- Type names are non-null strings. C# would interpolate a null name as empty text, which a caller of the model can pass directly.
- The runtime cast is a pattern match over the closed `Obj` type. Subclasses, reflection and other `IMapper` implementations are not modelled, and the registry's converters are the closed `MapperKind` enumeration.
- Program.cs reads the clock twice with `DateTime.Now`. The two reads are the two parameters of `SampleRun` here. Its console output and the `ToString()` rendering of the result are not modelled, because the record classes are not part of this model.
- Exceptions are `Err` values. Unwinding and catching are not modelled.
