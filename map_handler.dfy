/**
 The mapper registry: a dictionary from "<source type>-><target type>" to a
 converter, filled with the two reservation converters when the handler is
 built, and a `Map` operation that rejects null data, builds the key, and
 either runs the registered converter or refuses the pair.
 */
module Mapping {
  import opened Types
  import Dirs21ToGoogleReservationMapper
  import GoogleToDirs21ReservationMapper

  /** The converters that can be registered (the classes implementing `IMapper`). */
  datatype MapperKind = Dirs21ToGoogle | GoogleToDirs21

  const Dirs21TypeName: string := "DIRS21.Reservation"
  const GoogleTypeName: string := "Google.Reservation"

  /** `IMapper.Map(source)` of the converter `mapper`: its typed result, returned as an `object`. */
  function Apply(mapper: MapperKind, source: Obj): (r: Result<Obj>)
    ensures source.Null? ==> r == Err(NullReference)
    ensures mapper == Dirs21ToGoogle && r.Ok? ==> source.Dirs21? && r.value.Google?
    ensures mapper == GoogleToDirs21 && r.Ok? ==> source.Google? && r.value.Dirs21?
    ensures mapper == Dirs21ToGoogle ==> (r.Ok? <==> source.Dirs21?)
  {
    match mapper
    case Dirs21ToGoogle =>
      (match Dirs21ToGoogleReservationMapper.Map(source)
       case Ok(g) => Ok(Google(g))
       case Err(e) => Err(e))
    case GoogleToDirs21 =>
      (match GoogleToDirs21ReservationMapper.Map(source)
       case Ok(d) => Ok(Dirs21(d))
       case Err(e) => Err(e))
  }

  /** The dictionary key of a pair of type names. */
  function Key(sourceType: string, targetType: string): (k: string)
    ensures |k| == |sourceType| + 2 + |targetType|
    ensures k[..|sourceType|] == sourceType
    ensures k[|sourceType|] == '-' && k[|sourceType| + 1] == '>'
    ensures k[|sourceType| + 2..] == targetType
  {
    sourceType + "->" + targetType
  }

  /** The message of the exception thrown for a pair with no converter. */
  function NotSupportedMessage(sourceType: string, targetType: string): string {
    "Mapping from " + sourceType + " to " + targetType + " is not supported."
  }

  /** The dictionary as the constructor leaves it. */
  function Registry(): map<string, MapperKind> {
    map[Key(Dirs21TypeName, GoogleTypeName) := Dirs21ToGoogle,
        Key(GoogleTypeName, Dirs21TypeName) := GoogleToDirs21]
  }

  /** What `Map(data, sourceType, targetType)` returns or throws, given the dictionary `mappers`. */
  function MapSpec(mappers: map<string, MapperKind>, data: Obj, sourceType: string, targetType: string): (r: Result<Obj>)
    ensures data.Null? ==> r == Err(ArgumentNull("data"))
    ensures r.Ok? ==> Key(sourceType, targetType) in mappers
    ensures r != Err(NullReference)
  {
    if data.Null? then Err(ArgumentNull("data"))
    else
      var key := Key(sourceType, targetType);
      if key in mappers then Apply(mappers[key], data)
      else Err(NotSupported(NotSupportedMessage(sourceType, targetType)))
  }

  /** The handler object of the source: its dictionary is filled once, by the constructor. */
  class MapHandler {
    const mappers: map<string, MapperKind>

    /** Registers the two converters, one `Add` each; `Add` would throw on a key already present. */
    constructor ()
      ensures mappers == Registry()
      ensures mappers.Keys == {Key(Dirs21TypeName, GoogleTypeName), Key(GoogleTypeName, Dirs21TypeName)}
      ensures |mappers| == 2
    {
      var registered: map<string, MapperKind> := map[];
      var forward := Key(Dirs21TypeName, GoogleTypeName);
      var backward := Key(GoogleTypeName, Dirs21TypeName);
      assert forward !in registered;
      registered := registered[forward := Dirs21ToGoogle];
      assert forward[0] != backward[0];
      assert backward !in registered;
      registered := registered[backward := GoogleToDirs21];
      mappers := registered;
    }

    /** Converts `data` from `sourceType` to `targetType`, reading the dictionary and changing nothing. */
    method Map(data: Obj, sourceType: string, targetType: string) returns (r: Result<Obj>)
      ensures r == MapSpec(mappers, data, sourceType, targetType)
    {
      if data.Null? {
        return Err(ArgumentNull("data"));
      }
      var key := sourceType + "->" + targetType;
      if key in mappers {
        r := Apply(mappers[key], data);
      } else {
        r := Err(NotSupported(NotSupportedMessage(sourceType, targetType)));
      }
    }
  }

  // ---------------------------------------------------------------------------
  // Properties of dispatch

  /** Null data is refused with the argument-null error for `data`, before any lookup, whatever the type names. */
  lemma MapNullData(mappers: map<string, MapperKind>, sourceType: string, targetType: string)
    ensures MapSpec(mappers, Null, sourceType, targetType) == Err(ArgumentNull("data"))
  {
  }

  /** On non-null data, a registered key runs its converter on `data`, errors included, and an unregistered
      key fails with the not-supported error. */
  lemma MapDispatch(mappers: map<string, MapperKind>, data: Obj, sourceType: string, targetType: string)
    requires !data.Null?
    ensures Key(sourceType, targetType) in mappers ==>
      MapSpec(mappers, data, sourceType, targetType) == Apply(mappers[Key(sourceType, targetType)], data)
    ensures Key(sourceType, targetType) !in mappers ==>
      MapSpec(mappers, data, sourceType, targetType) == Err(NotSupported(NotSupportedMessage(sourceType, targetType)))
  {
  }

  /** Two pairs with the same key are dispatched alike: the same result when the key is registered, the
      not-supported error for both when it is not. */
  lemma MapDependsOnKey(mappers: map<string, MapperKind>, data: Obj, s1: string, t1: string, s2: string, t2: string)
    requires Key(s1, t1) == Key(s2, t2)
    ensures Key(s1, t1) in mappers ==> MapSpec(mappers, data, s1, t1) == MapSpec(mappers, data, s2, t2)
    ensures MapSpec(mappers, data, s1, t1).Err? && MapSpec(mappers, data, s1, t1).error.NotSupported?
        <==> MapSpec(mappers, data, s2, t2).Err? && MapSpec(mappers, data, s2, t2).error.NotSupported?
  {
  }

  /** In the key of names without '-', the only '-' is the one of the separator. */
  lemma DashPosition(a: string, b: string, p: int)
    requires '-' !in a && '-' !in b
    requires 0 <= p < |Key(a, b)| && Key(a, b)[p] == '-'
    ensures p == |a|
  {
    var k := Key(a, b);
    assert forall q :: 0 <= q < |a| ==> k[q] == a[q];
    assert k[|a| + 1] == '>';
    assert forall q :: |a| + 2 <= q < |k| ==> k[q] == b[q - |a| - 2];
  }

  /** A key built from names without '-' determines the names: the separator can only sit in one place. */
  lemma KeyInjective(s: string, t: string, a: string, b: string)
    requires '-' !in a && '-' !in b
    requires Key(s, t) == Key(a, b)
    ensures s == a && t == b
  {
    var k := Key(a, b);
    assert Key(s, t)[|s|] == '-';
    DashPosition(a, b, |s|);
    assert s == Key(s, t)[..|s|] && a == k[..|a|];
    assert t == Key(s, t)[|s| + 2..] && b == k[|a| + 2..];
  }

  /** The registry holds exactly two keys, one for each direction. */
  lemma RegistryKeys()
    ensures Registry().Keys == {Key(Dirs21TypeName, GoogleTypeName), Key(GoogleTypeName, Dirs21TypeName)}
    ensures |Registry()| == 2
    ensures Registry()[Key(Dirs21TypeName, GoogleTypeName)] == Dirs21ToGoogle
    ensures Registry()[Key(GoogleTypeName, Dirs21TypeName)] == GoogleToDirs21
  {
    assert Key(Dirs21TypeName, GoogleTypeName)[0] != Key(GoogleTypeName, Dirs21TypeName)[0];
  }

  /** The registry supports exactly two pairs of type names: DIRS21 to Google and Google to DIRS21. */
  lemma SupportedPairs(sourceType: string, targetType: string)
    ensures Key(sourceType, targetType) in Registry() <==>
      || (sourceType == Dirs21TypeName && targetType == GoogleTypeName)
      || (sourceType == GoogleTypeName && targetType == Dirs21TypeName)
  {
    RegistryKeys();
    assert '-' !in Dirs21TypeName && '-' !in GoogleTypeName;
    if Key(sourceType, targetType) == Key(Dirs21TypeName, GoogleTypeName) {
      KeyInjective(sourceType, targetType, Dirs21TypeName, GoogleTypeName);
    } else if Key(sourceType, targetType) == Key(GoogleTypeName, Dirs21TypeName) {
      KeyInjective(sourceType, targetType, GoogleTypeName, Dirs21TypeName);
    }
  }

  /** Mapping DIRS21 to Google runs the DIRS21-to-Google converter; the reverse pair runs the other one. */
  lemma RegisteredConverters(data: Obj)
    requires !data.Null?
    ensures MapSpec(Registry(), data, Dirs21TypeName, GoogleTypeName) == Apply(Dirs21ToGoogle, data)
    ensures MapSpec(Registry(), data, GoogleTypeName, Dirs21TypeName) == Apply(GoogleToDirs21, data)
  {
    RegistryKeys();
  }

  /** On non-null data, every pair but the two registered ones fails with the not-supported error;
      for instance DIRS21 to DIRS21. */
  lemma UnsupportedPairs(data: Obj, sourceType: string, targetType: string)
    requires !data.Null?
    requires !(sourceType == Dirs21TypeName && targetType == GoogleTypeName)
    requires !(sourceType == GoogleTypeName && targetType == Dirs21TypeName)
    ensures MapSpec(Registry(), data, sourceType, targetType)
         == Err(NotSupported(NotSupportedMessage(sourceType, targetType)))
  {
    SupportedPairs(sourceType, targetType);
  }

  /** Mapping a record to its own type is not supported. */
  lemma SameTypeUnsupported(data: Obj)
    requires !data.Null?
    ensures MapSpec(Registry(), data, Dirs21TypeName, Dirs21TypeName)
         == Err(NotSupported(NotSupportedMessage(Dirs21TypeName, Dirs21TypeName)))
  {
    UnsupportedPairs(data, Dirs21TypeName, Dirs21TypeName);
  }

  /** Through the handler a converter never dereferences null: the null check comes first. */
  lemma MapNeverNullReference(data: Obj, sourceType: string, targetType: string)
    ensures MapSpec(Registry(), data, sourceType, targetType) != Err(NullReference)
  {
    if !data.Null? && Key(sourceType, targetType) in Registry() {
      RegistryKeys();
      SupportedPairs(sourceType, targetType);
    }
  }

  /** Through the handler, a registered pair applied to data of the wrong record type fails the cast. */
  lemma MapWrongRecordType(data: Obj)
    requires !data.Null?
    ensures !data.Dirs21? ==> MapSpec(Registry(), data, Dirs21TypeName, GoogleTypeName) == Err(InvalidCast)
    ensures !data.Google? ==> MapSpec(Registry(), data, GoogleTypeName, Dirs21TypeName) == Err(InvalidCast)
  {
    RegisteredConverters(data);
  }

  // ---------------------------------------------------------------------------
  // The sample run of the driver program, with the two clock reads as parameters

  /** `DateTime.AddDays(days)`: a day is 864 000 000 000 ticks. */
  function AddDays(d: DateTime, days: int): DateTime
  {
    DateTime(d.ticks + days * 864_000_000_000)
  }

  /** Builds a handler, maps the sample DIRS21 reservation to a Google reservation and returns the result.
      `firstNow` and `secondNow` are the two separate reads of `DateTime.Now`. */
  method SampleRun(firstNow: DateTime, secondNow: DateTime) returns (result: Result<Obj>)
    ensures result == Ok(Google(GoogleReservation(Some("789"), Some("Mladen Raguž"), firstNow, AddDays(secondNow, 2))))
  {
    var handler := new MapHandler();
    var reservation := Dirs21Reservation(
      reservationId := 789,
      guestFullName := Some("Mladen Raguž"),
      checkInDate := firstNow,
      checkOutDate := AddDays(secondNow, 2));
    result := handler.Map(Dirs21(reservation), "DIRS21.Reservation", "Google.Reservation");
    RegisteredConverters(Dirs21(reservation));
    Dirs21ToGoogleReservationMapper.SampleReservation(firstNow, AddDays(secondNow, 2));
  }
}
