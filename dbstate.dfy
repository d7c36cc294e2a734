/**
  The snapshot the watcher compares and persists: the latest activity
  datetime of the secondary database and the education year in force.
 */
module DbState {
  import opened Wrappers
  import opened Calendar
  import opened World

  datatype DbState = DbState(actualDatetime: DateTime, educationYear: int)

  /** The zero `dbState{}`: what an empty slot decodes to. */
  const ZeroState := DbState(Zero, 0)

  /** A snapshot whose datetime is a real calendar reading, as every `time.Time` is. */
  predicate WellFormed(s: DbState) {
    Valid(s.actualDatetime)
  }

  /** `dbState.isEqual`: same education year and the same instant. */
  predicate IsEqual(a: DbState, b: DbState)
    requires WellFormed(a) && WellFormed(b)
  {
    a.educationYear == b.educationYear && SameInstant(a.actualDatetime, b.actualDatetime)
  }

  lemma IsEqualReflexive(a: DbState)
    requires WellFormed(a)
    ensures IsEqual(a, a)
  {
  }

  lemma IsEqualSymmetric(a: DbState, b: DbState)
    requires WellFormed(a) && WellFormed(b)
    ensures IsEqual(a, b) <==> IsEqual(b, a)
  {
  }

  lemma IsEqualTransitive(a: DbState, b: DbState, c: DbState)
    requires WellFormed(a) && WellFormed(b) && WellFormed(c)
    requires IsEqual(a, b) && IsEqual(b, c)
    ensures IsEqual(a, c)
  {
  }

  /** Two snapshots are equal exactly when they are the same snapshot. */
  lemma {:induction false} IsEqualIffSame(a: DbState, b: DbState)
    requires WellFormed(a) && WellFormed(b)
    ensures IsEqual(a, b) <==> a == b
  {
    InstantInjective(a.actualDatetime, b.actualDatetime);
  }

  /** Snapshots of different education years are never equal, whatever their datetimes. */
  lemma DifferentYearsNeverEqual(a: DbState, b: DbState)
    requires WellFormed(a) && WellFormed(b)
    requires a.educationYear != b.educationYear
    ensures !IsEqual(a, b)
  {
  }

  /** Snapshots of one education year that differ in their datetime are not equal. */
  lemma {:induction false} DifferentDatetimesNeverEqual(a: DbState, b: DbState)
    requires WellFormed(a) && WellFormed(b)
    requires a.actualDatetime != b.actualDatetime
    ensures !IsEqual(a, b)
  {
    InstantInjective(a.actualDatetime, b.actualDatetime);
  }

  /** The JSON encoding of a snapshot, kept abstract: its seven numeric fields in order. */
  function Serialize(s: DbState): Bytes {
    var t := s.actualDatetime;
    [t.year, t.month, t.day, t.hour, t.minute, t.second, s.educationYear]
  }

  /** `json.Unmarshal` into a `dbState`: fails unless the bytes encode a snapshot. */
  function Deserialize(b: Bytes): (r: Option<DbState>)
    ensures r.Some? ==> WellFormed(r.value) && Serialize(r.value) == b
  {
    if |b| == 7 && Valid(DateTime(b[0], b[1], b[2], b[3], b[4], b[5])) then
      Some(DbState(DateTime(b[0], b[1], b[2], b[3], b[4], b[5]), b[6]))
    else
      None
  }

  /** Decoding an encoded snapshot gives it back. */
  lemma SerializeRoundTrip(s: DbState)
    requires WellFormed(s)
    ensures Deserialize(Serialize(s)) == Some(s)
  {
  }
}
