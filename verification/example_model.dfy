/*******************************************************************************
 *  The `Example` domain model and its conversion to and from an
 *  `ExampleTable` row.
 *******************************************************************************/
module ExampleModel {

  import opened Wrappers

  /** A timezone-aware `datetime`, reduced to the instant it denotes:
      Python compares aware datetimes by instant, whatever their offsets. */
  datatype DateTime = DateTime(epochMicros: int)

  /** An extra positional or keyword argument the constructor stores but never
      uses. */
  datatype Extra = Extra(token: nat)

  /** A row of the `example` table: the `id` primary-key column, which is
      empty until the database assigns it, and the `timestamp` column. */
  datatype ExampleRow = ExampleRow(primaryKey: Option<int>, timestamp: DateTime)

  /** An `Example` instance: its private primary key and timestamp, and the
      extra arguments it was built with. */
  datatype Example = Example(pk: Option<int>, ts: DateTime, args: seq<Extra>, kwargs: map<string, Extra>)

  /** `Example(timestamp, primary_key, *args, **kwargs)` with every argument
      given. */
  function New(timestamp: DateTime, primaryKey: Option<int>, args: seq<Extra>, kwargs: map<string, Extra>): Example {
    Example(primaryKey, timestamp, args, kwargs)
  }

  /** `Example(primary_key=…)` with the timestamp left out. Python evaluates
      the default once, when the class is defined, so every such instance
      gets the same `definedAt` instant rather than the time of the call. */
  function NewWithDefaultTimestamp(definedAt: DateTime, primaryKey: Option<int>): (e: Example)
    ensures Timestamp(e) == definedAt
    ensures Id(e) == primaryKey
  {
    New(definedAt, primaryKey, [], map[])
  }

  /** The `id` property. */
  function Id(e: Example): Option<int> {
    e.pk
  }

  /** The `timestamp` property. */
  function Timestamp(e: Example): DateTime {
    e.ts
  }

  /** `to_orm`: a row carrying the model's key and timestamp. */
  function ToOrm(e: Example): (row: ExampleRow)
    ensures row.primaryKey == Id(e)
    ensures row.timestamp == Timestamp(e)
  {
    ExampleRow(e.pk, e.ts)
  }

  /** `from_orm`: a model built from a row's key and timestamp, with no extra
      arguments. */
  function FromOrm(row: ExampleRow): (e: Example)
    ensures Id(e) == row.primaryKey
    ensures Timestamp(e) == row.timestamp
    ensures e.args == [] && e.kwargs == map[]
  {
    New(row.timestamp, row.primaryKey, [], map[])
  }

  /** Calling an instance: the same row as `to_orm`. */
  function Invoke(e: Example): (row: ExampleRow)
    ensures row.primaryKey == Id(e) && row.timestamp == Timestamp(e)
  {
    ToOrm(e)
  }

  /** The accessors give back exactly what the constructor was given. */
  lemma AccessorsReturnArguments(timestamp: DateTime, primaryKey: Option<int>,
                                 args: seq<Extra>, kwargs: map<string, Extra>)
    ensures Id(New(timestamp, primaryKey, args, kwargs)) == primaryKey
    ensures Timestamp(New(timestamp, primaryKey, args, kwargs)) == timestamp
  {
  }

  /** Two instances built without a timestamp share it, however far apart
      they were built. */
  lemma DefaultTimestampShared(definedAt: DateTime, k1: Option<int>, k2: Option<int>)
    ensures Timestamp(NewWithDefaultTimestamp(definedAt, k1)) == Timestamp(NewWithDefaultTimestamp(definedAt, k2))
  {
  }

  /** Model to row and back keeps the key and timestamp; the whole instance
      comes back exactly when it had no extra arguments. */
  lemma ModelRoundTrip(e: Example)
    ensures Id(FromOrm(ToOrm(e))) == Id(e)
    ensures Timestamp(FromOrm(ToOrm(e))) == Timestamp(e)
    ensures FromOrm(ToOrm(e)) == e <==> e.args == [] && e.kwargs == map[]
  {
  }

  /** Row to model and back gives the same row. */
  lemma RowRoundTrip(row: ExampleRow)
    ensures ToOrm(FromOrm(row)) == row
  {
  }

  /** Calling an instance and `to_orm` agree. */
  lemma InvokeIsToOrm(e: Example)
    ensures Invoke(e) == ToOrm(e)
  {
  }
}
