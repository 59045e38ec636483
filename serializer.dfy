/**
  The prediction records the face predictor returns and their JSON form
  in the `/recognize` response: each `FacePrediction(box, prediction,
  probability)` becomes `{box: {xmin, ymin, xmax, ymax}, prediction,
  probability}`, and the whole list becomes `{result: [...]}`.
 */
module Serializer {
  import opened Wrappers

  /** A face region in pixel space; no ordering between the corners is imposed. */
  datatype BoundingBox = BoundingBox(xmin: int, ymin: int, xmax: int, ymax: int)

  /** One recognised face: its box, the identity label and the confidence. */
  datatype FacePrediction = FacePrediction(box: BoundingBox, prediction: string, probability: real)

  /** JSON values; an object is a map because key order carries no meaning. */
  datatype Json =
    | JInt(i: int)
    | JNumber(r: real)
    | JString(s: string)
    | JArray(items: seq<Json>)
    | JObject(fields: map<string, Json>)

  function BoxToJson(b: BoundingBox): Json {
    JObject(map["xmin" := JInt(b.xmin), "ymin" := JInt(b.ymin), "xmax" := JInt(b.xmax), "ymax" := JInt(b.ymax)])
  }

  function PredictionToJson(p: FacePrediction): Json {
    JObject(map["box" := BoxToJson(p.box), "prediction" := JString(p.prediction), "probability" := JNumber(p.probability)])
  }

  /** The predictor's list, entry by entry, in the order received. */
  function PredictionsToJson(ps: seq<FacePrediction>): seq<Json> {
    if ps == [] then [] else [PredictionToJson(ps[0])] + PredictionsToJson(ps[1..])
  }

  /** The success body `{"result": [...]}`. */
  function ResultBody(ps: seq<FacePrediction>): Json {
    JObject(map["result" := JArray(PredictionsToJson(ps))])
  }

  /** Reads an integer field of an object. */
  function IntField(fields: map<string, Json>, key: string): Option<int> {
    if key in fields && fields[key].JInt? then Some(fields[key].i) else None
  }

  /** The inverse of BoxToJson: a box back from its JSON object. */
  function JsonToBox(j: Json): Option<BoundingBox> {
    if !j.JObject? then None
    else
      match (IntField(j.fields, "xmin"), IntField(j.fields, "ymin"), IntField(j.fields, "xmax"), IntField(j.fields, "ymax"))
      case (Some(x0), Some(y0), Some(x1), Some(y1)) => Some(BoundingBox(x0, y0, x1, y1))
      case _ => None
  }

  /** The inverse of PredictionToJson. */
  function JsonToPrediction(j: Json): Option<FacePrediction> {
    if !j.JObject? || "box" !in j.fields || "prediction" !in j.fields || "probability" !in j.fields then None
    else if !j.fields["prediction"].JString? || !j.fields["probability"].JNumber? then None
    else
      match JsonToBox(j.fields["box"])
      case None => None
      case Some(b) => Some(FacePrediction(b, j.fields["prediction"].s, j.fields["probability"].r))
  }

  /** The inverse of PredictionsToJson: fails if any entry is not a prediction. */
  function JsonToPredictions(items: seq<Json>): Option<seq<FacePrediction>> {
    if items == [] then Some([])
    else
      match (JsonToPrediction(items[0]), JsonToPredictions(items[1..]))
      case (Some(p), Some(rest)) => Some([p] + rest)
      case _ => None
  }

  /** The inverse of ResultBody. */
  function ParseResultBody(body: Json): Option<seq<FacePrediction>> {
    if body.JObject? && "result" in body.fields && body.fields["result"].JArray? then
      JsonToPredictions(body.fields["result"].items)
    else None
  }

  /** A box object has exactly the four coordinate keys and loses nothing,
      whatever the order of its corners. */
  lemma BoxRoundTrip(b: BoundingBox)
    ensures BoxToJson(b).JObject? && BoxToJson(b).fields.Keys == {"xmin", "ymin", "xmax", "ymax"}
    ensures JsonToBox(BoxToJson(b)) == Some(b)
  {
  }

  /** A prediction object has exactly the keys box, prediction and probability,
      and the label, the probability and every coordinate come back unchanged. */
  lemma PredictionRoundTrip(p: FacePrediction)
    ensures PredictionToJson(p).JObject? && PredictionToJson(p).fields.Keys == {"box", "prediction", "probability"}
    ensures PredictionToJson(p).fields["prediction"] == JString(p.prediction)
    ensures PredictionToJson(p).fields["probability"] == JNumber(p.probability)
    ensures JsonToPrediction(PredictionToJson(p)) == Some(p)
  {
    BoxRoundTrip(p.box);
  }

  /** Serialising the list keeps its length and order: entry i is prediction i. */
  lemma {:induction false} PredictionsToJsonPointwise(ps: seq<FacePrediction>)
    ensures |PredictionsToJson(ps)| == |ps|
    ensures forall i :: 0 <= i < |ps| ==> PredictionsToJson(ps)[i] == PredictionToJson(ps[i])
  {
    if ps != [] {
      PredictionsToJsonPointwise(ps[1..]);
    }
  }

  /** Reading the serialised list back gives the predictor's list exactly. */
  lemma {:induction false} PredictionsRoundTrip(ps: seq<FacePrediction>)
    ensures JsonToPredictions(PredictionsToJson(ps)) == Some(ps)
  {
    if ps != [] {
      PredictionRoundTrip(ps[0]);
      PredictionsRoundTrip(ps[1..]);
      assert PredictionsToJson(ps)[1..] == PredictionsToJson(ps[1..]);
      assert [ps[0]] + ps[1..] == ps;
    }
  }

  /** The success body carries exactly the predictor's list, nothing lost or reordered. */
  lemma ResultBodyRoundTrip(ps: seq<FacePrediction>)
    ensures ResultBody(ps).JObject? && ResultBody(ps).fields.Keys == {"result"}
    ensures ParseResultBody(ResultBody(ps)) == Some(ps)
  {
    PredictionsRoundTrip(ps);
  }

  /** Different predictor outputs give different bodies. */
  lemma ResultBodyInjective(ps: seq<FacePrediction>, qs: seq<FacePrediction>)
    ensures ResultBody(ps) == ResultBody(qs) <==> ps == qs
  {
    ResultBodyRoundTrip(ps);
    ResultBodyRoundTrip(qs);
  }
}
