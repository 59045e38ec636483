/**
  The `POST /recognize` controller: validate the limit first; on success
  decode the upload, ask the predictor for faces with the decoded image
  and the validated limit, and answer 200 with the serialised list; on a
  validation error answer 400 with the error's message. The decoder and
  the predictor are injected functions, and every call made to them is
  recorded in the outcome.
 */
module Recognizer {
  import opened Wrappers
  import opened Decimal
  import opened Limit
  import opened Serializer

  const StatusOk: nat := 200

  /** An uploaded multipart file: its bytes and the client's filename. */
  datatype Upload = Upload(content: seq<bv8>, filename: string)

  /** The parts of the request the controller looks at. */
  datatype Request = Request(file: Option<Upload>, limit: Option<string>)

  datatype Response = Response(status: nat, body: Json)

  /** A call made to a collaborator, with its arguments. */
  datatype Call<Img> =
    | DecodeCall(file: Option<Upload>)
    | PredictCall(image: Img, limit: nat)

  /** The response together with the collaborator calls, in the order made. */
  datatype Outcome<Img> = Outcome(response: Response, calls: seq<Call<Img>>)

  /** The 400 answer for a validation error: `{"message": ...}`. */
  function ErrorResponse(e: LimitError): Response {
    Response(Status(e), JObject(map["message" := JString(Message(e))]))
  }

  function Recognize<Img>(req: Request, decode: Option<Upload> -> Img,
                          predict: (Img, nat) -> seq<FacePrediction>): Outcome<Img>
  {
    match ValidateLimit(req.limit)
    case Err(e) => Outcome(ErrorResponse(e), [])
    case Ok(limit) =>
      var image := decode(req.file);
      Outcome(Response(StatusOk, ResultBody(predict(image, limit))),
              [DecodeCall(req.file), PredictCall(image, limit)])
  }

  /** The arguments the predictor received, if it was called. */
  function PredictorArgs<Img>(o: Outcome<Img>): Option<(Img, nat)> {
    if |o.calls| == 2 && o.calls[1].PredictCall? then Some((o.calls[1].image, o.calls[1].limit)) else None
  }

  /** The upload the decoder received, if it was called. */
  function DecoderArg<Img>(o: Outcome<Img>): Option<Option<Upload>> {
    if |o.calls| >= 1 && o.calls[0].DecodeCall? then Some(o.calls[0].file) else None
  }

  /** A valid limit: 200; the decoder gets the upload unchanged (so its filename too);
      the predictor gets exactly the decoder's image and the validated limit; and
      the body reads back as exactly the predictor's list. */
  lemma RecognizeAccepted<Img>(req: Request, decode: Option<Upload> -> Img,
                               predict: (Img, nat) -> seq<FacePrediction>, limit: nat)
    requires ValidateLimit(req.limit) == Ok(limit)
    ensures var o := Recognize(req, decode, predict);
      && o.response.status == 200
      && DecoderArg(o) == Some(req.file)
      && PredictorArgs(o) == Some((decode(req.file), limit))
      && ParseResultBody(o.response.body) == Some(predict(decode(req.file), limit))
  {
    ResultBodyRoundTrip(predict(decode(req.file), limit));
  }

  /** On success the `result` array has one entry per prediction, in order,
      each the JSON form of that prediction. */
  lemma RecognizeResultArray<Img>(req: Request, decode: Option<Upload> -> Img,
                                  predict: (Img, nat) -> seq<FacePrediction>, limit: nat)
    requires ValidateLimit(req.limit) == Ok(limit)
    ensures var o := Recognize(req, decode, predict);
      var ps := predict(decode(req.file), limit);
      && o.response.body.JObject? && "result" in o.response.body.fields
      && o.response.body.fields["result"].JArray?
      && |o.response.body.fields["result"].items| == |ps|
      && forall i :: 0 <= i < |ps| ==> o.response.body.fields["result"].items[i] == PredictionToJson(ps[i])
  {
    PredictionsToJsonPointwise(predict(decode(req.file), limit));
  }

  /** A rejected limit: 400 with the error's message, and neither collaborator is called. */
  lemma RecognizeRejected<Img>(req: Request, decode: Option<Upload> -> Img,
                               predict: (Img, nat) -> seq<FacePrediction>, e: LimitError)
    requires ValidateLimit(req.limit) == Err(e)
    ensures var o := Recognize(req, decode, predict);
      && o.response.status == 400
      && o.response.body == JObject(map["message" := JString(Message(e))])
      && o.calls == []
  {
  }

  /** No `limit` parameter, with or without a file: 200 and predictor limit 0. */
  lemma RecognizeWithoutLimit<Img>(file: Option<Upload>, decode: Option<Upload> -> Img,
                                   predict: (Img, nat) -> seq<FacePrediction>)
    ensures var o := Recognize(Request(file, None), decode, predict);
      o.response.status == 200 && PredictorArgs(o) == Some((decode(file), 0))
  {
  }

  /** `limit=k` for a natural number k: 200 and predictor limit exactly k
      (so `limit=0` is "no limit", the same as no parameter). */
  lemma RecognizeWithLimit<Img>(file: Option<Upload>, k: nat, decode: Option<Upload> -> Img,
                                predict: (Img, nat) -> seq<FacePrediction>)
    ensures var o := Recognize(Request(file, Some(NatToString(k))), decode, predict);
      o.response.status == 200 && PredictorArgs(o) == Some((decode(file), k))
  {
    ValidateNatural(k);
  }

  /** `limit=-k` for k > 0: 400 "Limit value is invalid", no collaborator called. */
  lemma RecognizeNegativeLimit<Img>(file: Option<Upload>, k: nat, decode: Option<Upload> -> Img,
                                    predict: (Img, nat) -> seq<FacePrediction>)
    requires k > 0
    ensures var o := Recognize(Request(file, Some("-" + NatToString(k))), decode, predict);
      && o.response == Response(400, JObject(map["message" := JString("Limit value is invalid")]))
      && o.calls == []
  {
    ValidateNegative(k);
  }

  /** A limit that is not an integer: 400 "Limit format is invalid", no collaborator called. */
  lemma RecognizeMalformedLimit<Img>(file: Option<Upload>, s: string, decode: Option<Upload> -> Img,
                                     predict: (Img, nat) -> seq<FacePrediction>)
    requires !IsIntegerLiteral(s)
    ensures var o := Recognize(Request(file, Some(s)), decode, predict);
      && o.response == Response(400, JObject(map["message" := JString("Limit format is invalid")]))
      && o.calls == []
  {
    ValidateFormatError(s);
  }

  /** The limit texts of the endpoint's tests: "0" and "1" reach the predictor
      as 0 and 1; "-1" and "hello" give the two distinct 400s. The absent
      parameter is RecognizeWithoutLimit. */
  lemma RecognizeLimitExamples<Img>(file: Option<Upload>, decode: Option<Upload> -> Img,
                                    predict: (Img, nat) -> seq<FacePrediction>)
    ensures PredictorArgs(Recognize(Request(file, Some("0")), decode, predict)) == Some((decode(file), 0))
    ensures PredictorArgs(Recognize(Request(file, Some("1")), decode, predict)) == Some((decode(file), 1))
    ensures Recognize(Request(file, Some("-1")), decode, predict).response
            == Response(400, JObject(map["message" := JString("Limit value is invalid")]))
    ensures Recognize(Request(file, Some("hello")), decode, predict).response
            == Response(400, JObject(map["message" := JString("Limit format is invalid")]))
  {
    ValidateExamples();
  }

  /** The four predictions of the group-photo scenario. */
  function GroupPhotoPredictions(): seq<FacePrediction> {
    [ FacePrediction(BoundingBox(60, 80, 50, 70), "Joe Bloggs", 0.9),
      FacePrediction(BoundingBox(20, 40, 10, 30), "Fred Bloggs", 0.85),
      FacePrediction(BoundingBox(25, 45, 15, 35), "John Smith", 0.91),
      FacePrediction(BoundingBox(36, 40, 35, 39), "Igor Shaw", 0.89) ]
  }

  /** The JSON record the group-photo scenario expects for one face. */
  function ExpectedEntry(xmax: int, xmin: int, ymax: int, ymin: int, name: string, probability: real): Json {
    JObject(map["box" := JObject(map["xmax" := JInt(xmax), "xmin" := JInt(xmin), "ymax" := JInt(ymax), "ymin" := JInt(ymin)]),
                "prediction" := JString(name), "probability" := JNumber(probability)])
  }

  /** Only a proof step of RecognizeGroupPhoto: the two map equalities that let
      the verifier match a serialised entry with the test's key order. */
  lemma EntryStep(p: FacePrediction)
    ensures PredictionToJson(p) == ExpectedEntry(p.box.xmax, p.box.xmin, p.box.ymax, p.box.ymin, p.prediction, p.probability)
  {
    var e := ExpectedEntry(p.box.xmax, p.box.xmin, p.box.ymax, p.box.ymin, p.prediction, p.probability);
    assert BoxToJson(p.box).fields == e.fields["box"].fields;
    assert PredictionToJson(p).fields == e.fields;
  }

  /** Uploading `group-photo.jpg` with a predictor that returns the four records:
      200, the decoder sees the filename unchanged, the predictor sees the decoded
      image, and `result` is the expected list in the same order, boxes with
      xmin > xmax included. */
  lemma RecognizeGroupPhoto<Img>(decode: Option<Upload> -> Img, predict: (Img, nat) -> seq<FacePrediction>)
    requires predict(decode(Some(Upload([], "group-photo.jpg"))), 0) == GroupPhotoPredictions()
    ensures var upload := Upload([], "group-photo.jpg");
      var o := Recognize(Request(Some(upload), None), decode, predict);
      && o.response.status == 200
      && DecoderArg(o) == Some(Some(upload))
      && PredictorArgs(o).Some? && PredictorArgs(o).value.0 == decode(Some(upload))
      && o.response.body.JObject? && "result" in o.response.body.fields
      && o.response.body.fields["result"] == JArray([
           ExpectedEntry(50, 60, 70, 80, "Joe Bloggs", 0.9),
           ExpectedEntry(10, 20, 30, 40, "Fred Bloggs", 0.85),
           ExpectedEntry(15, 25, 35, 45, "John Smith", 0.91),
           ExpectedEntry(35, 36, 39, 40, "Igor Shaw", 0.89)])
  {
    var ps := GroupPhotoPredictions();
    PredictionsToJsonPointwise(ps);
    var items := PredictionsToJson(ps);
    EntryStep(ps[0]);
    EntryStep(ps[1]);
    EntryStep(ps[2]);
    EntryStep(ps[3]);
    assert items[0] == ExpectedEntry(50, 60, 70, 80, "Joe Bloggs", 0.9);
    assert items[1] == ExpectedEntry(10, 20, 30, 40, "Fred Bloggs", 0.85);
    assert items[2] == ExpectedEntry(15, 25, 35, 45, "John Smith", 0.91);
    assert items[3] == ExpectedEntry(35, 36, 39, 40, "Igor Shaw", 0.89);
  }

  /** No file and no limit: the request still completes with 200, and an empty
      predictor answer gives `{"result": []}`. */
  lemma RecognizeNoFile<Img>(decode: Option<Upload> -> Img, predict: (Img, nat) -> seq<FacePrediction>)
    requires predict(decode(None), 0) == []
    ensures Recognize(Request(None, None), decode, predict).response
            == Response(200, JObject(map["result" := JArray([])]))
  {
  }
}
