/*
 * `BANDS` and `get_band` of WSJT-X_to_ADIF.py: a first-match search of a
 * constant table with half-open bounds, `low <= kHz < high`, falling back
 * to "unknown".
 */
module AdifBand {
  import opened PyText

  /** One row of the table. Bounds are kept in half-kHz so that the 60 m
    * edges (5258.5 and 5406.5 kHz) are exact integers. */
  datatype Band = Band(name: string, lowHalfKHz: nat, highHalfKHz: nat)

  /** The table as written, including the name '70m' on 430-440 MHz. */
  const BANDS: seq<Band> := [
    Band("160m", 3620, 4000),
    Band("80m", 7000, 7600),
    Band("60m", 10517, 10813),
    Band("40m", 14000, 14400),
    Band("30m", 20200, 20300),
    Band("20m", 28000, 28700),
    Band("17m", 36136, 36336),
    Band("15m", 42000, 42900),
    Band("12m", 49780, 49980),
    Band("10m", 56000, 59400),
    Band("6m", 100000, 104000),
    Band("4m", 140000, 141000),
    Band("2m", 288000, 292000),
    Band("70m", 860000, 880000)
  ]

  const UNKNOWN: string := "unknown"

  /** `low <= f * 1000 < high` for f in MHz, compared exactly:
    * twice the kHz value of mantissa / 10^scale MHz is mantissa * 2000 / 10^scale. */
  predicate InBand(b: Band, f: Decimal) {
    b.lowHalfKHz * Pow10(f.scale) <= f.mantissa * 2000 < b.highHalfKHz * Pow10(f.scale)
  }

  /** The name of the first row that contains `f`, or "unknown". */
  function FirstBand(table: seq<Band>, f: Decimal): (name: string)
    ensures name == UNKNOWN || exists i :: 0 <= i < |table| && InBand(table[i], f) && name == table[i].name
    ensures (forall i :: 0 <= i < |table| ==> !InBand(table[i], f)) ==> name == UNKNOWN
    ensures forall i :: 0 <= i < |table| && InBand(table[i], f)
                        && (forall j :: 0 <= j < i ==> !InBand(table[j], f))
                        ==> name == table[i].name
  {
    if table == [] then UNKNOWN
    else if InBand(table[0], f) then table[0].name
    else
      var r := FirstBand(table[1..], f);
      assert forall i :: 1 <= i < |table| ==> table[i] == table[1..][i - 1];
      r
  }

  /** `get_band(frequency)`. */
  function GetBand(f: Decimal): string {
    FirstBand(BANDS, f)
  }

  /** The rows are ascending and disjoint: each ends no later than the next
    * begins, so with half-open bounds no frequency lies in two rows. */
  lemma BandsAscending()
    ensures forall i :: 0 <= i < |BANDS| ==> BANDS[i].lowHalfKHz < BANDS[i].highHalfKHz
    ensures forall i, j :: 0 <= i < j < |BANDS| ==> BANDS[i].highHalfKHz <= BANDS[j].lowHalfKHz
  {
    forall i, j | 0 <= i < j < |BANDS|
      ensures BANDS[i].highHalfKHz <= BANDS[j].lowHalfKHz
    {
      AdjacentAscending(i, j);
    }
  }

  lemma {:induction false} AdjacentAscending(i: nat, j: nat)
    requires i < j < |BANDS|
    ensures BANDS[i].highHalfKHz <= BANDS[j].lowHalfKHz
    decreases j - i
  {
    assert forall k :: 0 <= k < |BANDS| ==> BANDS[k].lowHalfKHz < BANDS[k].highHalfKHz;
    assert forall k :: 0 <= k < |BANDS| - 1 ==> BANDS[k].highHalfKHz <= BANDS[k + 1].lowHalfKHz;
    if j > i + 1 { AdjacentAscending(i + 1, j); }
  }

  lemma MulMonotone(a: nat, b: nat, p: nat)
    requires a <= b
    ensures a * p <= b * p
  {
  }

  /** No frequency lies in two rows. */
  lemma InAtMostOneBand(f: Decimal, i: nat, j: nat)
    requires i < |BANDS| && j < |BANDS|
    ensures InBand(BANDS[i], f) && InBand(BANDS[j], f) ==> i == j
  {
    BandsAscending();
    if i < j {
      MulMonotone(BANDS[i].highHalfKHz, BANDS[j].lowHalfKHz, Pow10(f.scale));
    } else if j < i {
      MulMonotone(BANDS[j].highHalfKHz, BANDS[i].lowHalfKHz, Pow10(f.scale));
    }
  }

  /** `get_band` returns the name of the one row containing the frequency. */
  lemma GetBandInRow(f: Decimal, i: nat)
    requires i < |BANDS| && InBand(BANDS[i], f)
    ensures GetBand(f) == BANDS[i].name
  {
    forall j | 0 <= j < i ensures !InBand(BANDS[j], f) {
      InAtMostOneBand(f, i, j);
    }
  }

  /** `get_band` returns "unknown" exactly when no row contains the frequency. */
  lemma GetBandUnknown(f: Decimal)
    ensures GetBand(f) == UNKNOWN <==> forall i :: 0 <= i < |BANDS| ==> !InBand(BANDS[i], f)
  {
    assert forall i :: 0 <= i < |BANDS| ==> BANDS[i].name != UNKNOWN;
    if exists i :: 0 <= i < |BANDS| && InBand(BANDS[i], f) {
      var i :| 0 <= i < |BANDS| && InBand(BANDS[i], f);
      GetBandInRow(f, i);
    }
  }

  /** The upper edge is excluded: exactly 14.350 MHz is not 20 m (it falls
    * in no row at all). */
  lemma TwentyMetreTop()
    ensures GetBand(Decimal(14350, 3)) == UNKNOWN
  {
    var f := Decimal(14350, 3);
    assert Pow10(3) == 1000;
    forall i | 0 <= i < |BANDS| ensures !InBand(BANDS[i], f) {
      if i < 5 {
        AdjacentAscending(i, 5);
        MulMonotone(BANDS[i].highHalfKHz, BANDS[5].lowHalfKHz, 1000);
      } else if i > 5 {
        AdjacentAscending(5, i);
        MulMonotone(BANDS[5].highHalfKHz, BANDS[i].lowHalfKHz, 1000);
      }
    }
    GetBandUnknown(f);
  }

  /** The lower edge is included: exactly 14.000 MHz is 20 m. */
  lemma TwentyMetreBottom()
    ensures GetBand(Decimal(14000, 3)) == "20m"
  {
    assert Pow10(3) == 1000;
    GetBandInRow(Decimal(14000, 3), 5);
  }
}
