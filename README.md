# CompreFace `POST /recognize`: limit validation and result shaping

This project models the face-recognition endpoint `POST /recognize` of
CompreFace. As modelled here, a request goes through four steps:

1. It reads the optional `limit` query parameter.
2. It turns that parameter into a non-negative limit, where 0 means "no limit",
   or rejects it with one of two 400 errors:
   - `"Limit format is invalid"` when the text is not an integer;
   - `"Limit value is invalid"` when the integer is negative.
3. On a valid limit (the order is a modelling decision, see below), it decodes the uploaded file with an image decoder
   (`imageio.imread`) and calls the face predictor (`get_face_predictions`)
   with the decoded image and the limit.
4. It answers 200 with `{"result": [...]}`. Each `FacePrediction(box,
   prediction, probability)` becomes `{"box": {"xmin", "ymin", "xmax",
   "ymax"}, "prediction", "probability"}`.

The controller's own source is not part of this model. The behaviour
modelled is the behaviour its test module pins down, and each lemma below
cites the test lines it models.

Modules:

- `Wrappers`: `Option` and `Result`.
- `Decimal`: the integer syntax (an optional `+` or `-`, then one or more
  ASCII digits), `ParseInt`, and its partner `NatToString`, the canonical
  rendering of a natural number. Round trips in both directions are proved.
- `Limit`: the error type, the error messages, and `ValidateLimit`.
- `Serializer`: `BoundingBox`, `FacePrediction`, a JSON value type (objects
  are maps, because key order carries no meaning), and the serialiser. Its
  partner is an inverse decoder, used to prove the serialisation lossless.
- `Recognizer`: `Recognize`.
  - The decoder and the predictor are passed in as functions.
  - The image type is a type parameter.
  - The outcome records every call made to the two collaborators, with its
    arguments. This is how "the decoder received the file with its filename"
    and "the predictor received the decoded image and the limit" are stated.

Design decisions (none of them is pinned by the tests):

- Order of steps: the model validates the limit first. On a 400 it makes no
  decoder call and no predictor call. The tests do not assert this either
  way; the model follows the endpoint's documented fail-fast design.
- Truncation: the tests never show whether the controller cuts the
  predictor's list down to the limit. The only non-empty predictor answer
  (the group-photo test) comes with no limit, and the tests that pass a
  limit mock an empty answer. The model leaves truncation to the predictor,
  so `result` is the predictor's whole list, in order.
- No upload: the model still calls the decoder, with `None`, and then calls
  the predictor. The test without a file reads the predictor's arguments,
  so the predictor must run. The `{"result": []}` of `RecognizeNoFile`
  comes from the predictor's empty answer, not from the missing file.

## Model

| member | source | states |
|---|---|---|
| Decimal.DigitsValueOfNatToString | src/api/test/mlmodel_endpoints/test_recognize_faces.py:59-66 | reading back the decimal rendering of any natural number gives that number |
| Decimal.NatToStringOfDigitsValue | src/api/test/mlmodel_endpoints/test_recognize_faces.py:59-66 | rendering the value of any digit string without leading zeros gives that string back |
| Decimal.DigitsValueZero | src/api/test/mlmodel_endpoints/test_recognize_faces.py:49-56 | a digit string denotes 0 exactly when all its digits are '0' |
| Decimal.ParseNatToString | src/api/test/mlmodel_endpoints/test_recognize_faces.py:53-66 | the rendering of `k` parses as the integer `k` |
| Decimal.ParseNegatedNatToString | src/api/test/mlmodel_endpoints/test_recognize_faces.py:73 | `"-"` followed by the rendering of `k` parses as `-k` |
| Decimal.ParseIntDefined | src/api/test/mlmodel_endpoints/test_recognize_faces.py:79-86 | a string parses exactly when it is an integer literal |
| Decimal.ParseIntNegative | src/api/test/mlmodel_endpoints/test_recognize_faces.py:69-76 | a string parses to a negative number exactly when it is `-` followed by digits that are not all zero |
| Limit.ValidateNatural | src/api/test/mlmodel_endpoints/test_recognize_faces.py:49-66 | the decimal text of any `k >= 0` is accepted as exactly `k`, so "0" gives 0 and "1" gives 1 |
| Limit.ValidateNegative | src/api/test/mlmodel_endpoints/test_recognize_faces.py:69-76 | `-k` with `k > 0` is rejected with the value error |
| Limit.ValidateFormatError | src/api/test/mlmodel_endpoints/test_recognize_faces.py:79-86 | the format error occurs exactly when the text is not an integer literal |
| Limit.ValidateValueError | src/api/test/mlmodel_endpoints/test_recognize_faces.py:69-76 | the value error occurs exactly when the text is `-` followed by digits that are not all zero |
| Limit.ValidateAccepted | src/api/test/mlmodel_endpoints/test_recognize_faces.py:49-66 | an accepted limit is the number the text denotes, and its canonical text is accepted as the same limit |
| Limit.ValidateCanonical | src/api/test/mlmodel_endpoints/test_recognize_faces.py:59-66 | every canonical digit string is accepted, as the number whose rendering it is |
| Limit.ValidateExamples | src/api/test/mlmodel_endpoints/test_recognize_faces.py:39-86 | absent gives 0, "0" gives 0, "1" gives 1, "-1" gives the value error, "hello" gives the format error |
| Limit.ErrorsDistinct | src/api/test/mlmodel_endpoints/test_recognize_faces.py:69-86 | both errors are status 400, and their messages differ, so a message identifies its error |
| Serializer.BoxRoundTrip | src/api/test/mlmodel_endpoints/test_recognize_faces.py:11-26 | a box becomes an object with exactly the keys xmin, ymin, xmax, ymax, and it decodes back to the same box even when xmin > xmax |
| Serializer.PredictionRoundTrip | src/api/test/mlmodel_endpoints/test_recognize_faces.py:11-26 | a prediction becomes an object with exactly the keys box, prediction, probability; the label and the probability are copied unchanged, and the object decodes back to the prediction |
| Serializer.PredictionsToJsonPointwise | src/api/test/mlmodel_endpoints/test_recognize_faces.py:36 | the serialised list has the predictor's length, and entry i is the JSON form of prediction i |
| Serializer.PredictionsRoundTrip | src/api/test/mlmodel_endpoints/test_recognize_faces.py:36 | decoding the serialised list gives the predictor's list exactly |
| Serializer.ResultBodyRoundTrip | src/api/test/mlmodel_endpoints/test_recognize_faces.py:36 | the success body has the single key `result` and decodes back to the predictor's list |
| Serializer.ResultBodyInjective | src/api/test/mlmodel_endpoints/test_recognize_faces.py:36 | two predictor outputs give the same body exactly when they are equal |
| Recognizer.RecognizeAccepted | src/api/test/mlmodel_endpoints/test_recognize_faces.py:28-36 | on a valid limit the status is 200; the decoder receives the upload unchanged, with its filename; the predictor receives exactly the decoder's image and the validated limit; the body decodes to exactly the predictor's output |
| Recognizer.RecognizeResultArray | src/api/test/mlmodel_endpoints/test_recognize_faces.py:36 | on success the `result` array has one entry per prediction, in order, each the JSON form of that prediction |
| Recognizer.RecognizeRejected | src/api/test/mlmodel_endpoints/test_recognize_faces.py:69-86 | on a rejected limit the status is 400, the body is `{"message": <the error's message>}`, and no collaborator is called |
| Recognizer.RecognizeWithoutLimit | src/api/test/mlmodel_endpoints/test_recognize_faces.py:39-46 | no `limit`, with or without a file: status 200, and the predictor is called with limit 0 |
| Recognizer.RecognizeWithLimit | src/api/test/mlmodel_endpoints/test_recognize_faces.py:49-66 | `limit=k` for any natural k: status 200, and the predictor is called with limit exactly k, so `limit=0` behaves like no parameter |
| Recognizer.RecognizeNegativeLimit | src/api/test/mlmodel_endpoints/test_recognize_faces.py:69-76 | `limit=-k` with k > 0: 400, "Limit value is invalid", and no collaborator is called |
| Recognizer.RecognizeMalformedLimit | src/api/test/mlmodel_endpoints/test_recognize_faces.py:79-86 | a non-integer limit: 400, "Limit format is invalid", and no collaborator is called |
| Recognizer.RecognizeLimitExamples | src/api/test/mlmodel_endpoints/test_recognize_faces.py:39-86 | "0" and "1" reach the predictor as 0 and 1; "-1" and "hello" give the two distinct 400 responses (the absent parameter is `RecognizeWithoutLimit`) |
| Recognizer.RecognizeGroupPhoto | src/api/test/mlmodel_endpoints/test_recognize_faces.py:10-36 | the group-photo scenario: status 200, the decoder sees `group-photo.jpg`, the predictor sees the decoded image, and `result` equals the four expected records in order |
| Recognizer.RecognizeNoFile | src/api/test/mlmodel_endpoints/test_recognize_faces.py:43-45 | no file and no limit: status 200, and with an empty predictor answer the body is `{"result": []}` |

## Left out

- HTTP and Flask plumbing (the test client, multipart encoding, the JSON wire text): the model gives the response as a status and a JSON value.
- Image decoding (`imageio.imread`) and face prediction (`get_face_predictions`) are foreign library and ML calls. The model takes them as function parameters and records the arguments they were called with.
- Decoder or predictor failures: the tests do not exercise them. In the model both collaborators are total, so the internal-error response is not modelled.
- numpy `int32` and `float64`: coordinates are `int`, and the probability is a `real` that is copied through. Floating-point behaviour is not modelled.
- Decimal.ParseInt: accepts an optional `+` or `-` and then ASCII digits only. Python's `int()` also accepts surrounding whitespace, `_` between digits and non-ASCII decimal digits. The model treats all of these as format errors; the tests do not pin them.
- Mocks, pytest fixtures and `call_args` introspection are test scaffolding. They become the recorded collaborator calls of `Recognize`.
- Truncation of the predictor's list to the limit by the controller: the model performs none (see the design decisions above).
- Concurrency between requests: each request is a pure function application here.
