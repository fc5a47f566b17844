/**
 * The measurement commands: creation and listing, the time-vector
 * consistency check, and the table of one measurement as a map from
 * "time" and species identifiers to value vectors. Single-precision
 * values are `real`.
 */
module Measurements {
  import opened Wrappers
  import opened EnzymeML
  import opened States
  import opened Ids
  import opened ByIdMacros

  function MeasurementIdOf(m: Measurement): string { m.id }

  function MeasurementIds(ms: seq<Measurement>): (ids: seq<string>)
    ensures |ids| == |ms| && forall k :: 0 <= k < |ms| ==> ids[k] == ms[k].id
  {
    seq(|ms|, k requires 0 <= k < |ms| => ms[k].id)
  }

  /** `create_measurement`: a measurement from the builder's defaults under the next free "m" identifier. */
  method CreateMeasurement(st: EnzymeMLState, defaults: Measurement) returns (id: string)
    modifies st
    ensures id == FreshId(MeasurementIds(old(st.doc.measurements)), MeasurementPrefix)
    ensures st.doc == old(st.doc).(measurements := old(st.doc.measurements) + [defaults.(id := id)])
    ensures st.paramBuffer == old(st.paramBuffer) && st.title == old(st.title) && st.id == old(st.id)
  {
    id := GenerateId(MeasurementIds(st.doc.measurements), MeasurementPrefix);
    st.doc := st.doc.(measurements := st.doc.measurements + [defaults.(id := id)]);
  }

  /** `list_measurements`: identifier and name of each measurement, in document order. */
  function ListMeasurements(doc: Document): (r: seq<(string, string)>)
    ensures |r| == |doc.measurements|
    ensures forall k :: 0 <= k < |r| ==> r[k] == (doc.measurements[k].id, doc.measurements[k].name)
  {
    seq(|doc.measurements|, k requires 0 <= k < |doc.measurements| => (doc.measurements[k].id, doc.measurements[k].name))
  }

  /** The outcome of the consistency check on the collected time vectors. */
  function CheckTimes(times: seq<seq<real>>): Result<Unit, string>
  {
    if times == [] then Err("No time vectors found")
    else if forall k :: 0 <= k < |times| ==> times[k] == times[0] then Ok(Unit)
    else Err("Time vectors are not the same")
  }

  /** `time_arrays_are_same`: every vector is compared with the first; the first mismatch ends the loop. */
  method TimeArraysAreSame(times: seq<seq<real>>) returns (r: Result<Unit, string>)
    ensures r == CheckTimes(times)
    ensures r.Ok? <==> times != [] && forall k :: 0 <= k < |times| ==> times[k] == times[0]
  {
    if times == [] {
      return Err("No time vectors found");
    }
    var first := times[0];
    for i := 0 to |times|
      invariant forall k :: 0 <= k < i ==> times[k] == first
    {
      if times[i] != first {
        return Err("Time vectors are not the same");
      }
    }
    r := Ok(Unit);
  }

  /** The non-empty time vectors of the species data, in order. */
  function Times(sd: seq<MeasurementData>): (ts: seq<seq<real>>)
    ensures forall k :: 0 <= k < |ts| ==> ts[k] != []
    decreases |sd|
  {
    if sd == [] then []
    else
      var last := sd[|sd| - 1];
      Times(sd[..|sd| - 1]) + (if last.time != [] then [last.time] else [])
  }

  /** The first time vector collected is that of the first species entry with a non-empty one. */
  lemma {:induction false} TimesFirst(sd: seq<MeasurementData>, i: nat)
    requires i < |sd| && sd[i].time != [] && forall j :: 0 <= j < i ==> sd[j].time == []
    ensures Times(sd) != [] && Times(sd)[0] == sd[i].time
    decreases |sd|
  {
    if i < |sd| - 1 {
      TimesFirst(sd[..|sd| - 1], i);
    } else {
      TimesNone(sd[..|sd| - 1]);
    }
  }

  /** No species entry has a time vector exactly when none is collected. */
  lemma {:induction false} TimesNone(sd: seq<MeasurementData>)
    ensures Times(sd) == [] <==> forall j :: 0 <= j < |sd| ==> sd[j].time == []
    decreases |sd|
  {
    if sd != [] {
      TimesNone(sd[..|sd| - 1]);
    }
  }

  /** The species entries with data, inserted one after the other; later entries overwrite earlier ones. */
  function DataMap(base: map<string, seq<real>>, sd: seq<MeasurementData>): map<string, seq<real>>
    decreases |sd|
  {
    if sd == [] then base
    else
      var m := DataMap(base, sd[..|sd| - 1]);
      var last := sd[|sd| - 1];
      if last.data != [] then m[last.speciesId := last.data] else m
  }

  /** The table of a measurement: "time" first, then every species with data. */
  function MeasurementMap(doc: Document, id: string): Result<map<string, seq<real>>, string>
  {
    match GetById(doc.measurements, MeasurementIdOf, id) {
      case Err(e) => Err(e)
      case Ok(meas) =>
        var times := Times(meas.speciesData);
        match CheckTimes(times) {
          case Err(e) => Err(e)
          case Ok(_) => Ok(DataMap(map["time" := times[0]], meas.speciesData))
        }
    }
  }

  /** `get_measurement_hashmap`. */
  method GetMeasurementHashmap(doc: Document, id: string) returns (r: Result<map<string, seq<real>>, string>)
    ensures r == MeasurementMap(doc, id)
  {
    var found := GetById(doc.measurements, MeasurementIdOf, id);
    if found.Err? {
      return Err(found.error);
    }
    var sd := found.value.speciesData;
    var times: seq<seq<real>> := [];
    for i := 0 to |sd|
      invariant times == Times(sd[..i])
    {
      assert sd[..i + 1][..i] == sd[..i];
      if sd[i].time != [] {
        times := times + [sd[i].time];
      }
    }
    assert sd[..|sd|] == sd;
    var same := TimeArraysAreSame(times);
    if same.Err? {
      return Err(same.error);
    }
    var table := map["time" := times[0]];
    for i := 0 to |sd|
      invariant table == DataMap(map["time" := times[0]], sd[..i])
    {
      assert sd[..i + 1][..i] == sd[..i];
      if sd[i].data != [] {
        table := table[sd[i].speciesId := sd[i].data];
      }
    }
    assert sd[..|sd|] == sd;
    r := Ok(table);
  }

  /** The keys of the table: those of the base and the species identifiers of the entries with data. */
  lemma {:induction false} DataMapKeys(base: map<string, seq<real>>, sd: seq<MeasurementData>)
    ensures DataMap(base, sd).Keys == base.Keys + set k | 0 <= k < |sd| && sd[k].data != [] :: sd[k].speciesId
    decreases |sd|
  {
    if sd != [] {
      var front := sd[..|sd| - 1];
      DataMapKeys(base, front);
      assert forall k :: 0 <= k < |front| ==> front[k] == sd[k];
      var last := sd[|sd| - 1];
      assert (set k | 0 <= k < |sd| && sd[k].data != [] :: sd[k].speciesId) ==
        (set k | 0 <= k < |front| && front[k].data != [] :: front[k].speciesId) + (if last.data != [] then {last.speciesId} else {});
    }
  }

  /** Entry `i` has data under `key` and no later entry with data has that key. */
  predicate LastWithData(sd: seq<MeasurementData>, i: nat, key: string)
  {
    i < |sd| && sd[i].data != [] && sd[i].speciesId == key &&
    forall j :: i < j < |sd| && sd[j].data != [] ==> sd[j].speciesId != key
  }

  /** No entry with data has the key `key`. */
  predicate NoDataUnder(sd: seq<MeasurementData>, key: string)
  {
    forall j :: 0 <= j < |sd| && sd[j].data != [] ==> sd[j].speciesId != key
  }

  /** Entry `i` is the first one with a non-empty time vector. */
  predicate FirstWithTime(sd: seq<MeasurementData>, i: nat)
  {
    i < |sd| && sd[i].time != [] && forall j :: 0 <= j < i ==> sd[j].time == []
  }

  /** A key no entry with data carries keeps its base value; the last entry with data under a key gives its own. */
  lemma {:induction false} DataMapValue(base: map<string, seq<real>>, sd: seq<MeasurementData>, key: string)
    ensures NoDataUnder(sd, key) && key in base ==> key in DataMap(base, sd) && DataMap(base, sd)[key] == base[key]
    ensures forall i: nat :: LastWithData(sd, i, key) ==> key in DataMap(base, sd) && DataMap(base, sd)[key] == sd[i].data
    decreases |sd|
  {
    if sd != [] {
      var front := sd[..|sd| - 1];
      DataMapValue(base, front, key);
      assert forall k :: 0 <= k < |front| ==> front[k] == sd[k];
      assert forall i: nat :: LastWithData(sd, i, key) && i < |front| ==> LastWithData(front, i, key);
    }
  }

  /** A measurement without any time vector is reported as such. */
  lemma MeasurementMapNoTimes(doc: Document, id: string, meas: Measurement)
    requires GetById(doc.measurements, MeasurementIdOf, id) == Ok(meas)
    requires forall j :: 0 <= j < |meas.speciesData| ==> meas.speciesData[j].time == []
    ensures MeasurementMap(doc, id) == Err("No time vectors found")
  {
    TimesNone(meas.speciesData);
  }

  /** The keys of a table are "time" and the species identifiers of the entries with data. */
  lemma MeasurementMapKeys(doc: Document, id: string, meas: Measurement)
    requires GetById(doc.measurements, MeasurementIdOf, id) == Ok(meas)
    requires MeasurementMap(doc, id).Ok?
    ensures MeasurementMap(doc, id).value.Keys ==
      {"time"} + set k | 0 <= k < |meas.speciesData| && meas.speciesData[k].data != [] :: meas.speciesData[k].speciesId
  {
    var times := Times(meas.speciesData);
    DataMapKeys(map["time" := times[0]], meas.speciesData);
  }

  /** "time" maps to the first non-empty time vector unless a species "time" with data overwrites it. */
  lemma MeasurementMapTime(doc: Document, id: string, meas: Measurement, i: nat)
    requires GetById(doc.measurements, MeasurementIdOf, id) == Ok(meas)
    requires MeasurementMap(doc, id).Ok?
    requires FirstWithTime(meas.speciesData, i)
    ensures "time" in MeasurementMap(doc, id).value
    ensures NoDataUnder(meas.speciesData, "time") ==> MeasurementMap(doc, id).value["time"] == meas.speciesData[i].time
    ensures forall k: nat :: LastWithData(meas.speciesData, k, "time") ==>
      MeasurementMap(doc, id).value["time"] == meas.speciesData[k].data
  {
    var sd := meas.speciesData;
    TimesFirst(sd, i);
    DataMapKeys(map["time" := Times(sd)[0]], sd);
    DataMapValue(map["time" := Times(sd)[0]], sd, "time");
  }

  /** Each species with data is keyed by its identifier, holding the data of the last such entry. */
  lemma MeasurementMapSpecies(doc: Document, id: string, meas: Measurement, i: nat)
    requires GetById(doc.measurements, MeasurementIdOf, id) == Ok(meas)
    requires MeasurementMap(doc, id).Ok?
    requires i < |meas.speciesData| && LastWithData(meas.speciesData, i, meas.speciesData[i].speciesId)
    ensures meas.speciesData[i].speciesId in MeasurementMap(doc, id).value
    ensures MeasurementMap(doc, id).value[meas.speciesData[i].speciesId] == meas.speciesData[i].data
  {
    var sd := meas.speciesData;
    DataMapValue(map["time" := Times(sd)[0]], sd, sd[i].speciesId);
  }

  /** A measurement that does not exist is reported by its identifier. */
  lemma MeasurementMapMissing(doc: Document, id: string)
    requires forall j :: 0 <= j < |doc.measurements| ==> doc.measurements[j].id != id
    ensures MeasurementMap(doc, id) == Err(id + " not found")
  {
  }
}
