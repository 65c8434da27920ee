/**
 * The service layer over the unit repository. The SQLite tables are
 * modelled as two sequences in table order: the `pd` rows (one per
 * measured unit) and the `pd_models` pairs (id, name).
 */
module Services {
  import opened Wrappers
  import opened Statistics

  type ModelId = string

  /** One row of the `pd` table, without the id the database assigns. */
  datatype PD = PD(
    modelId: ModelId,
    washer1Thickness: real,
    washer2Thickness: real,
    springLength: real,
    finalPressure: real,
    openingPressureId: int)

  /** One row of the `pd_models` table. */
  datatype ModelEntry = ModelEntry(id: ModelId, modelName: string)

  /** A service call either completes or raises `ValueError` with a message. */
  datatype Outcome = Done | ValueError(message: string)

  const UnknownModel: string := "Unknown Model"
  const ModelIdRequired: string := "Model ID is required."
  const ModelNameEmpty: string := "Model name cannot be empty."
  const FieldsRequired: string := "Wszystkie pola muszą być wypełnione."

  /**
   * The measurement records of one model, in table order, as the
   * repository query `get_wash1_2_spring_by_model` returns them.
   */
  function ModelRecords(rows: seq<PD>, modelId: ModelId): (records: seq<Record>)
    ensures |records| <= |rows|
    ensures |records| == 0 <==> forall i :: 0 <= i < |rows| ==> rows[i].modelId != modelId
  {
    if |rows| == 0 then []
    else
      var rest := ModelRecords(rows[1..], modelId);
      if rows[0].modelId == modelId then
        [Record(rows[0].washer1Thickness, rows[0].springLength, rows[0].washer2Thickness)] + rest
      else
        assert forall i :: 1 <= i < |rows| ==> rows[i] == rows[1..][i - 1];
        rest
  }

  /** Appending a row adds its record at the end of its own model's records and leaves every other model's alone. */
  lemma {:induction false} ModelRecordsAppend(rows: seq<PD>, row: PD, modelId: ModelId)
    ensures ModelRecords(rows + [row], modelId) ==
      if row.modelId == modelId
      then ModelRecords(rows, modelId) + [Record(row.washer1Thickness, row.springLength, row.washer2Thickness)]
      else ModelRecords(rows, modelId)
  {
    if |rows| > 0 {
      assert (rows + [row])[1..] == rows[1..] + [row];
      ModelRecordsAppend(rows[1..], row, modelId);
    } else {
      assert rows + [row] == [row];
    }
  }

  /** Python truthiness of the six fields checked by `create_model`: non-empty text, non-zero numbers. */
  predicate AllFilled(modelId: ModelId, washer1: real, washer2: real, spring: real, finalPressure: real, openingPressureId: int)
  {
    && modelId != ""
    && washer1 != 0.0
    && washer2 != 0.0
    && spring != 0.0
    && finalPressure != 0.0
    && openingPressureId != 0
  }

  class PDService {
    var rows: seq<PD>
    var models: seq<ModelEntry>

    constructor (rows: seq<PD>, models: seq<ModelEntry>)
      ensures this.rows == rows && this.models == models
    {
      this.rows := rows;
      this.models := models;
    }

    /** `get_model_name`: the name of the first model with the id, else "Unknown Model". */
    method GetModelName(modelId: ModelId) returns (name: string)
      ensures (forall i :: 0 <= i < |models| ==> models[i].id != modelId) ==> name == UnknownModel
      ensures (exists i :: 0 <= i < |models| && models[i].id == modelId) ==>
        exists i :: 0 <= i < |models| && models[i].id == modelId && name == models[i].modelName
          && forall j :: 0 <= j < i ==> models[j].id != modelId
    {
      var k := 0;
      while k < |models|
        invariant 0 <= k <= |models|
        invariant forall j :: 0 <= j < k ==> models[j].id != modelId
      {
        if models[k].id == modelId {
          return models[k].modelName;
        }
        k := k + 1;
      }
      return UnknownModel;
    }

    /** `get_model_stats`: the statistics of the model's records. */
    function GetModelStats(modelId: ModelId): (stats: Option<Stats>)
      reads this
      ensures stats.None? <==> forall i :: 0 <= i < |rows| ==> rows[i].modelId != modelId
      ensures stats.Some? ==> stats.value.avgTotal == stats.value.avgLower + stats.value.avgUpper + stats.value.avgSpring
    {
      ComputeStats(ModelRecords(rows, modelId))
    }

    /** `create_model`: refuses the unit unless all six fields are truthy, otherwise adds it. */
    method CreateModel(
      modelId: ModelId,
      washer1Thickness: real,
      washer2Thickness: real,
      springLength: real,
      finalPressure: real,
      openingPressureId: int)
      returns (outcome: Outcome)
      modifies this
      ensures outcome.ValueError? <==>
        !AllFilled(modelId, washer1Thickness, washer2Thickness, springLength, finalPressure, openingPressureId)
      ensures outcome.ValueError? ==> outcome.message == FieldsRequired && rows == old(rows)
      ensures outcome.Done? ==>
        rows == old(rows) + [PD(modelId, washer1Thickness, washer2Thickness, springLength, finalPressure, openingPressureId)]
      ensures models == old(models)
    {
      var pd := PD(modelId, washer1Thickness, washer2Thickness, springLength, finalPressure, openingPressureId);
      if !AllFilled(modelId, washer1Thickness, washer2Thickness, springLength, finalPressure, openingPressureId) {
        return ValueError(FieldsRequired);
      }
      rows := rows + [pd];
      return Done;
    }

    /** `add_new`: requires a model id, then inserts the unit with no check on the numbers. */
    method AddNew(
      modelId: ModelId,
      washer1: real,
      washer2: real,
      springLength: real,
      finalPressure: real,
      openingPressure: int)
      returns (outcome: Outcome)
      modifies this
      ensures outcome.ValueError? <==> modelId == ""
      ensures outcome.ValueError? ==> outcome.message == ModelIdRequired && rows == old(rows)
      ensures outcome.Done? ==>
        rows == old(rows) + [PD(modelId, washer1, washer2, springLength, finalPressure, openingPressure)]
      ensures outcome.Done? ==>
        ModelRecords(rows, modelId) == ModelRecords(old(rows), modelId) + [Record(washer1, springLength, washer2)]
      ensures outcome.Done? ==> GetModelStats(modelId).Some?
      ensures models == old(models)
    {
      if modelId == "" {
        return ValueError(ModelIdRequired);
      }
      var row := PD(modelId, washer1, washer2, springLength, finalPressure, openingPressure);
      ModelRecordsAppend(rows, row, modelId);
      rows := rows + [row];
      return Done;
    }

    /**
     * `add_model`: refuses an empty name, otherwise adds one model.
     * `assignedId` is the id the database gives the new row.
     */
    method AddModel(modelName: string, assignedId: ModelId) returns (outcome: Outcome)
      modifies this
      ensures outcome.ValueError? <==> modelName == ""
      ensures outcome.ValueError? ==> outcome.message == ModelNameEmpty && models == old(models)
      ensures outcome.Done? ==> models == old(models) + [ModelEntry(assignedId, modelName)]
      ensures rows == old(rows)
    {
      if modelName == "" {
        return ValueError(ModelNameEmpty);
      }
      models := models + [ModelEntry(assignedId, modelName)];
      return Done;
    }
  }
}
