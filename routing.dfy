/**
 * The decision `process_message` takes once the language model has
 * answered: which response record the HTTP handler returns, given the
 * model's reply, the JSON parser, the numeric conversions, the scoring
 * endpoint's reply and the explanation request's reply — all inputs here.
 */
module Routing {
  import opened Wrappers
  import opened PyStr
  import opened PyJson
  import opened ReplyText
  import opened DescriptiveLookup

  datatype Status = Success | Error

  /**
   * The `prediction` record sent to the client, or an HTTP 500 (every
   * exception the handler turns into an `HTTPException`).
   */
  datatype Response =
    | Prediction(message: string, clusters: Json, explanation: string, status: Status)
    | InternalError

  /** The eleven fields after `int()`/`float()` conversion. */
  datatype Fields = Fields(
    numPer: int, numAdu: int, numMen: int, numNoc: int, totHab: int, tfaTotal: real,
    roomType: int, channel: int, country: int, segment: int, agency: int)

  /** What the scoring endpoint answered: a status and, when its body is JSON, the decoded body. */
  datatype LambdaReply = LambdaHttp(status: int, body: Option<Json>) | LambdaUnreachable

  function ErrorReply(message: string): (r: Response)
    ensures r.Prediction? && r.status == Status.Error && r.clusters == JList([]) && r.explanation == ""
  {
    Prediction(message, JList([]), "", Status.Error)
  }

  const MissingPrefix: string := "Faltan los siguientes campos: "
  const PredictionPrefix: string := "La predicción del cluster es: "

  /**
   * `', '.join(v)`: a list of strings, the characters of a string or the
   * keys of a dict; anything else raises.
   */
  function JoinNames(v: Json): Option<string> {
    match v
    case JList(items) =>
      if forall i :: 0 <= i < |items| ==> items[i].JStr? then
        Some(Join(", ", seq(|items|, i requires 0 <= i < |items| => items[i].s)))
      else None
    case JStr(s) => Some(Join(", ", seq(|s|, i requires 0 <= i < |s| => [s[i]])))
    case JObj(entries) => Some(Join(", ", seq(|entries|, i requires 0 <= i < |entries| => entries[i].0)))
    case _ => None
  }

  /**
   * `cluster_id in CLUSTER_DESCRIPTIONS` (keys 0 to 4): `True`/`False` and
   * integral floats hash like the ints; lists and dicts are unhashable.
   */
  function IsDescribedCluster(id: Json): Option<bool> {
    match id
    case JInt(i) => Some(0 <= i <= 4)
    case JBool(_) => Some(true)
    case JFloat(x, _) => Some(x == 0.0 || x == 1.0 || x == 2.0 || x == 3.0 || x == 4.0)
    case JList(_) => None
    case JObj(_) => None
    case _ => Some(false)
  }

  /** `isinstance(v, int)` (a `bool` is an `int` in Python). */
  predicate IsPyInt(v: Json) { v.JInt? || v.JBool? }

  /** The explanation used when the explanation request fails. */
  function BasicExplanation(id: Json, fields: Fields, segments: Dictionary): string {
    "Esta reserva coincide con el cluster " + Str(id)
    + " debido a sus características principales: " + IntToString(fields.numPer)
    + " personas, " + IntToString(fields.numNoc) + " noches de estancia, y segmento "
    + Str(DescriptiveValue(segments, JInt(fields.segment))) + "."
  }

  /** The response for a cluster id taken from the scoring endpoint's reply. */
  function ClusterResponse(info: Json, id: Json, fields: Fields, analysis: Option<string>, segments: Dictionary): (r: Response)
    ensures r.Prediction? ==> r.status == Status.Success && r.message == PredictionPrefix + Str(id)
  {
    var clusters := if IsPyInt(id) then JList([id]) else info;
    match IsDescribedCluster(id)
    case None => InternalError
    case Some(false) =>
      Prediction(PredictionPrefix + Str(id), clusters, NewClusterExplanation(Str(id)), Status.Success)
    case Some(true) =>
      Prediction(PredictionPrefix + Str(id), clusters, Explanation(id, fields, analysis, segments), Status.Success)
  }

  /**
   * The explanation of a described cluster: the cleaned reply of the
   * explanation request, or the basic explanation when that request fails.
   */
  function Explanation(id: Json, fields: Fields, analysis: Option<string>, segments: Dictionary): string {
    match analysis
    case Some(content) => Strip(CleanExplanation(Strip(content)))
    case None => BasicExplanation(id, fields, segments)
  }

  /** The explanation given for a cluster without a description. */
  function NewClusterExplanation(idText: string): string {
    "Este es un nuevo cluster (" + idText + ") que aún no tiene una descripción detallada. Analizando el perfil de la reserva..."
  }

  const NoClusterResponse: Response :=
    Prediction("No se pudo determinar el cluster", JList([]), "No se pudo determinar el cluster para esta reserva.", Status.Success)

  /** The handling of the scoring endpoint's decoded reply body. */
  function LambdaResponse(data: Json, fields: Fields, analysis: Option<string>, segments: Dictionary): (r: Response)
    ensures r.Prediction? ==> r.status == Status.Success
  {
    match data
    case JObj(o) =>
      ClustersResponse(Lookup(o, "clusters"), fields, analysis, segments)
    case JList(items) => if JStr("clusters") in items then InternalError else NoClusterResponse
    case JStr(s) => if Contains(s, "clusters") then InternalError else NoClusterResponse
    case _ => InternalError
  }

  /**
   * The handling of the `"clusters"` entry of that body, if any: a list
   * is answered for its first element, anything else for itself.
   */
  function ClustersResponse(found: Option<Json>, fields: Fields, analysis: Option<string>, segments: Dictionary): (r: Response)
    ensures r.Prediction? ==> r.status == Status.Success
  {
    match found
    case None => NoClusterResponse
    case Some(info) =>
      if info.JList? then
        if info.items == [] then InternalError
        else ClusterResponse(info, info.items[0], fields, analysis, segments)
      else ClusterResponse(info, info, fields, analysis, segments)
  }

  /**
   * The response of `process_message` for the language model's reply
   * `reply`: cleaned, parsed with `loads` (an object, or `None` when the
   * text is not JSON), validated, converted with `convert`, scored
   * (`lambda`) and explained (`analysis`, `None` when that request fails).
   * `convert` fails with `Some(msg)` for a `ValueError` or `TypeError`
   * whose text is `msg`, and with `None` for any other exception, such
   * as the `OverflowError` of `int()` on an infinite float.
   */
  function Route(reply: string, loads: string -> Option<Object>, convert: Object -> Result<Fields, Option<string>>,
                 lambda: LambdaReply, analysis: Option<string>, segments: Dictionary): (r: Response)
    ensures r.Prediction? && r.status == Status.Error ==> r.clusters == JList([]) && r.explanation == ""
  {
    var cleaned := CleanJsonResponse(Strip(reply));
    match loads(cleaned)
    case None => Prediction(cleaned, JList([]), "", Status.Success)
    case Some(parsed) => ParsedResponse(parsed, convert, lambda, analysis, segments)
  }

  /** The handling of a reply that parsed as a JSON object. */
  function ParsedResponse(parsed: Object, convert: Object -> Result<Fields, Option<string>>,
                          lambda: LambdaReply, analysis: Option<string>, segments: Dictionary): (r: Response)
    ensures r.Prediction? && r.status == Status.Error ==> r.clusters == JList([]) && r.explanation == ""
  {
    if HasKey(parsed, "missing") then
      match JoinNames(Get(parsed, "missing"))
      case None => InternalError
      case Some(names) => ErrorReply(MissingPrefix + names)
    else
      var missing := MissingFields(parsed);
      if missing != [] then ErrorReply(MissingPrefix + Join(", ", missing))
      else
        match convert(parsed)
        case Failure(Some(msg)) => ErrorReply("Error en el formato de los datos: " + msg)
        case Failure(None) => InternalError
        case Success(fields) => ScoredResponse(fields, lambda, analysis, segments)
  }

  /** The handling of the scoring endpoint's reply for the converted fields. */
  function ScoredResponse(fields: Fields, lambda: LambdaReply, analysis: Option<string>, segments: Dictionary): (r: Response)
    ensures r.Prediction? ==> r.status == Status.Success
  {
    match lambda
    case LambdaHttp(200, Some(data)) => LambdaResponse(data, fields, analysis, segments)
    case _ => InternalError
  }

  /** A reply that is not JSON is passed through, cleaned, as a successful message. */
  lemma NotJsonIsMessage(reply: string, loads: string -> Option<Object>, convert: Object -> Result<Fields, Option<string>>,
                         lambda: LambdaReply, analysis: Option<string>, segments: Dictionary)
    requires loads(CleanJsonResponse(Strip(reply))) == None
    ensures Route(reply, loads, convert, lambda, analysis, segments)
      == Prediction(CleanJsonResponse(Strip(reply)), JList([]), "", Status.Success)
  {
  }

  /** A reply that parses as an object is handled by `ParsedResponse`. */
  lemma ParsedIsHandled(reply: string, loads: string -> Option<Object>, convert: Object -> Result<Fields, Option<string>>,
                        lambda: LambdaReply, analysis: Option<string>, segments: Dictionary, parsed: Object)
    requires loads(CleanJsonResponse(Strip(reply))) == Some(parsed)
    ensures Route(reply, loads, convert, lambda, analysis, segments) == ParsedResponse(parsed, convert, lambda, analysis, segments)
  {
  }

  /**
   * A `"missing"` key short-circuits: the response is an error with no
   * clusters, decided before validation, conversion or scoring.
   */
  lemma MissingKeyShortCircuits(parsed: Object,
                                convert: Object -> Result<Fields, Option<string>>, convert': Object -> Result<Fields, Option<string>>,
                                lambda: LambdaReply, lambda': LambdaReply,
                                analysis: Option<string>, analysis': Option<string>, segments: Dictionary)
    requires HasKey(parsed, "missing")
    ensures var r := ParsedResponse(parsed, convert, lambda, analysis, segments);
      && r == ParsedResponse(parsed, convert', lambda', analysis', segments)
      && (r.InternalError? || (r.status == Status.Error && r.clusters == JList([]) && r.message[..|MissingPrefix|] == MissingPrefix))
  {
  }

  /** Without a `"missing"` key, absent or null required fields are reported, all of them and in order. */
  lemma MissingFieldsReported(parsed: Object, convert: Object -> Result<Fields, Option<string>>,
                              lambda: LambdaReply, analysis: Option<string>, segments: Dictionary)
    requires !HasKey(parsed, "missing") && MissingFields(parsed) != []
    ensures ParsedResponse(parsed, convert, lambda, analysis, segments) == ErrorReply(MissingPrefix + Join(", ", MissingFields(parsed)))
  {
  }

  /**
   * A complete reply whose conversion raises `ValueError` or `TypeError`
   * is reported with the exception's message.
   */
  lemma ConversionErrorReported(parsed: Object, convert: Object -> Result<Fields, Option<string>>,
                                lambda: LambdaReply, analysis: Option<string>, segments: Dictionary, msg: string)
    requires !HasKey(parsed, "missing") && MissingFields(parsed) == [] && convert(parsed) == Failure(Some(msg))
    ensures ParsedResponse(parsed, convert, lambda, analysis, segments)
      == ErrorReply("Error en el formato de los datos: " + msg)
  {
  }

  /**
   * Any other exception of the conversion (an `OverflowError` for an
   * infinite number) escapes that handler and gives HTTP 500.
   */
  lemma ConversionCrashIsInternal(parsed: Object, convert: Object -> Result<Fields, Option<string>>,
                                  lambda: LambdaReply, analysis: Option<string>, segments: Dictionary)
    requires !HasKey(parsed, "missing") && MissingFields(parsed) == [] && convert(parsed) == Failure(None)
    ensures ParsedResponse(parsed, convert, lambda, analysis, segments) == InternalError
  {
  }

  /** A scoring endpoint that is unreachable or answers with a status other than 200 gives HTTP 500. */
  lemma ScoringFailureIsInternal(fields: Fields, lambda: LambdaReply, analysis: Option<string>, segments: Dictionary)
    requires lambda.LambdaUnreachable? || lambda.status != 200 || lambda.body.None?
    ensures ScoredResponse(fields, lambda, analysis, segments) == InternalError
  {
  }

  /** A `"clusters"` value that is an int, or a list starting with one, selects that int as the cluster id. */
  lemma ScoredCluster(fields: Fields, body: Object, id: int, analysis: Option<string>, segments: Dictionary)
    requires Lookup(body, "clusters") == Some(JInt(id)) || StartsWithId(Lookup(body, "clusters"), id)
    ensures ScoredResponse(fields, LambdaHttp(200, Some(JObj(body))), analysis, segments)
      == ClusterResponse(Lookup(body, "clusters").value, JInt(id), fields, analysis, segments)
  {
    ScoredIsLambda(fields, body, analysis, segments);
    if Lookup(body, "clusters") == Some(JInt(id)) {
      ScalarCluster(fields, id, analysis, segments);
    } else {
      ListedCluster(fields, Lookup(body, "clusters").value.items, id, analysis, segments);
    }
  }

  /** `found` is a list whose first element is the int `id`. */
  predicate StartsWithId(found: Option<Json>, id: int) {
    found.Some? && found.value.JList? && found.value.items != [] && found.value.items[0] == JInt(id)
  }

  lemma ScoredIsLambda(fields: Fields, body: Object, analysis: Option<string>, segments: Dictionary)
    ensures ScoredResponse(fields, LambdaHttp(200, Some(JObj(body))), analysis, segments)
      == ClustersResponse(Lookup(body, "clusters"), fields, analysis, segments)
  {
  }

  /**
   * A list starting with an int cluster id is answered exactly as that int
   * alone would be: the response lists the id alone, and the rest of the
   * list plays no part.
   */
  lemma ListedCluster(fields: Fields, items: seq<Json>, id: int, analysis: Option<string>, segments: Dictionary)
    requires items != [] && items[0] == JInt(id)
    ensures ClustersResponse(Some(JList(items)), fields, analysis, segments)
      == ClusterResponse(JList(items), JInt(id), fields, analysis, segments)
    ensures ClustersResponse(Some(JList(items)), fields, analysis, segments)
      == ClustersResponse(Some(JInt(id)), fields, analysis, segments)
  {
  }

  /** An int `"clusters"` value is itself the cluster id. */
  lemma ScalarCluster(fields: Fields, id: int, analysis: Option<string>, segments: Dictionary)
    ensures ClustersResponse(Some(JInt(id)), fields, analysis, segments)
      == ClusterResponse(JInt(id), JInt(id), fields, analysis, segments)
  {
  }

  /** A score outside 0..4 is reported as a new cluster, listed alone. */
  lemma UndescribedClusterIsNew(info: Json, fields: Fields, id: int, analysis: Option<string>, segments: Dictionary)
    requires id < 0 || id > 4
    ensures ClusterResponse(info, JInt(id), fields, analysis, segments)
      == Prediction(PredictionPrefix + IntToString(id), JList([JInt(id)]), NewClusterExplanation(IntToString(id)), Status.Success)
  {
    StrOfInt(id);
    assert IsDescribedCluster(JInt(id)) == Some(false);
  }

  /**
   * A described cluster (0..4) with a successful explanation request carries
   * the cleaned explanation (no '*', single-spaced, ending in '.', as
   * `ReplyText.CleanExplanation` states).
   */
  lemma DescribedClusterExplained(info: Json, fields: Fields, id: int, content: string, segments: Dictionary)
    requires 0 <= id <= 4
    ensures ClusterResponse(info, JInt(id), fields, Some(content), segments)
      == Prediction(PredictionPrefix + IntToString(id), JList([JInt(id)]), CleanExplanation(Strip(content)), Status.Success)
  {
    DescribedClusterResponse(info, fields, id, Some(content), segments);
    assert Explanation(JInt(id), fields, Some(content), segments) == CleanExplanation(Strip(content)) by {
      CleanExplanationStripped(Strip(content));
    }
  }

  /** A described cluster (0..4) is announced, listed alone and given the explanation. */
  lemma DescribedClusterResponse(info: Json, fields: Fields, id: int, analysis: Option<string>, segments: Dictionary)
    requires 0 <= id <= 4
    ensures ClusterResponse(info, JInt(id), fields, analysis, segments)
      == Prediction(PredictionPrefix + IntToString(id), JList([JInt(id)]), Explanation(JInt(id), fields, analysis, segments), Status.Success)
  {
    StrOfInt(id);
    assert IsDescribedCluster(JInt(id)) == Some(true);
  }

  lemma StrOfInt(id: int)
    ensures Str(JInt(id)) == IntToString(id)
  {
  }

  /** The cleaned explanation has no surrounding whitespace, so the final `strip()` keeps it. */
  lemma CleanExplanationStripped(content: string)
    ensures Strip(CleanExplanation(content)) == CleanExplanation(content)
  {
    var e := CleanExplanation(content);
    assert !IsSpace(e[0]) && !IsSpace(e[|e| - 1]);
  }

  /** A described cluster whose explanation request fails gets the basic explanation built from the fields. */
  lemma DescribedClusterBasic(info: Json, fields: Fields, id: int, segments: Dictionary)
    requires 0 <= id <= 4
    ensures ClusterResponse(info, JInt(id), fields, None, segments)
      == Prediction(PredictionPrefix + IntToString(id), JList([JInt(id)]), BasicExplanation(JInt(id), fields, segments), Status.Success)
  {
    DescribedClusterResponse(info, fields, id, None, segments);
  }

  /** A reply body without a `"clusters"` key reports that no cluster could be determined. */
  lemma NoClustersKey(fields: Fields, body: Object, analysis: Option<string>, segments: Dictionary)
    requires !HasKey(body, "clusters")
    ensures ScoredResponse(fields, LambdaHttp(200, Some(JObj(body))), analysis, segments) == NoClusterResponse
  {
  }
}
