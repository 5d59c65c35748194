/** Feature encoding of one claim request: the two radio labels become 0/1
    flags, the five values form a one-row table keyed by column name, and the
    row is aligned against the training columns (missing columns read as 0,
    extra columns are dropped). */
module Encoding {

  const ValueColumn: string := "valeur_vehicule_neuf"
  const AgeColumn: string := "age_vehicule_ans"
  const PowerColumn: string := "puissance_fiscale"
  const DriverColumn: string := "type_conducteur_Principal"
  const ZoneColumn: string := "zone_circulation_Urbaine"

  /** The column order the loaded regressor was fitted on. */
  const TrainingCols: seq<string> := [ValueColumn, AgeColumn, PowerColumn, DriverColumn, ZoneColumn]

  /** The label of the driver-type radio that encodes as 1. */
  const PrincipalLabel: string := "Principal"
  /** The label of the circulation-zone radio that encodes as 1. */
  const UrbanLabel: string := "Urbaine"

  /** One-row table: column name to the value in its single row. */
  type Row = map<string, int>

  /** Driver-type flag: 1 exactly when the label is "Principal", by exact
      string comparison; every other label reads as 0. */
  function DriverFlag(choice: string): (f: int)
    ensures f == 0 || f == 1
    ensures f == 1 <==> choice == PrincipalLabel
  {
    if choice == PrincipalLabel then 1 else 0
  }

  /** Circulation-zone flag: 1 exactly when the label is "Urbaine". */
  function ZoneFlag(choice: string): (f: int)
    ensures f == 0 || f == 1
    ensures f == 1 <==> choice == UrbanLabel
  {
    if choice == UrbanLabel then 1 else 0
  }

  /** The dictionary built from the widget values before alignment. */
  function InputRow(value: int, age: int, power: int, driverLabel: string, zoneLabel: string): (row: Row)
    ensures row.Keys == set c | c in TrainingCols
  {
    map[ValueColumn := value,
        AgeColumn := age,
        PowerColumn := power,
        DriverColumn := DriverFlag(driverLabel),
        ZoneColumn := ZoneFlag(zoneLabel)]
  }

  /** The value of column `c` in the row, or the fill value 0 when the row has
      no such column. */
  function Cell(row: Row, c: string): (v: int)
  {
    if c in row then row[c] else 0
  }

  /** Column alignment: one entry per requested column, in the requested
      order, holding the row's value for that column or 0. */
  function Reindex(row: Row, cols: seq<string>): (r: seq<int>)
    ensures |r| == |cols|
    ensures forall i :: 0 <= i < |cols| ==> r[i] == Cell(row, cols[i])
    decreases |cols|
  {
    if cols == [] then [] else [Cell(row, cols[0])] + Reindex(row, cols[1..])
  }

  /** The request's feature vector: the row built from the inputs, aligned
      against `cols`. */
  function Encode(value: int, age: int, power: int, driverLabel: string, zoneLabel: string, cols: seq<string>): (r: seq<int>)
    ensures |r| == |cols|
    ensures forall i :: 0 <= i < |cols| ==>
              r[i] == (if cols[i] == ValueColumn then value
                       else if cols[i] == AgeColumn then age
                       else if cols[i] == PowerColumn then power
                       else if cols[i] == DriverColumn then DriverFlag(driverLabel)
                       else if cols[i] == ZoneColumn then ZoneFlag(zoneLabel)
                       else 0)
  {
    Reindex(InputRow(value, age, power, driverLabel, zoneLabel), cols)
  }

  /** A column the alignment does not ask for has no influence on its result,
      whether it is added, changed or removed. */
  lemma ReindexIgnoresExtraColumn(row: Row, cols: seq<string>, extra: string, v: int)
    requires extra !in cols
    ensures Reindex(row[extra := v], cols) == Reindex(row, cols)
    ensures Reindex(row - {extra}, cols) == Reindex(row, cols)
  {
  }

  /** Only the requested columns of the row matter: restricting the row to
      them leaves the aligned vector unchanged. */
  lemma ReindexRestrict(row: Row, cols: seq<string>)
    ensures Reindex(map c | c in row && c in cols :: row[c], cols) == Reindex(row, cols)
  {
  }

  /** With the fixed training columns, the numeric inputs pass through
      unchanged and the labels become their flags, in training order. */
  lemma EncodeTrainingColumns(value: int, age: int, power: int, driverLabel: string, zoneLabel: string)
    ensures Encode(value, age, power, driverLabel, zoneLabel, TrainingCols)
         == [value, age, power, DriverFlag(driverLabel), ZoneFlag(zoneLabel)]
  {
  }

  /** The example request encodes to [250000, 5, 8, 1, 1]. */
  lemma EncodeExampleRequest()
    ensures Encode(250000, 5, 8, "Principal", "Urbaine", TrainingCols) == [250000, 5, 8, 1, 1]
  {
    EncodeTrainingColumns(250000, 5, 8, "Principal", "Urbaine");
  }

  /** The other radio options, case variants and the English label all
      encode as 0. */
  lemma FlagsRejectOtherLabels()
    ensures DriverFlag("Occasionnel") == 0 && DriverFlag("principal") == 0 && DriverFlag("PRINCIPAL") == 0
    ensures ZoneFlag("Rurale") == 0 && ZoneFlag("Urban") == 0 && ZoneFlag("urbaine") == 0
  {
  }
}
