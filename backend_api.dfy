/**
 * The Flask backend that serves the dashboard and the subject page:
 * `submit_disabilities` chooses the next page from the selected needs,
 * and `scrap_sub` rejects a request without a subject before asking the
 * language model for a description.
 */
module BackendApi {
  import opened Wrappers
  import Dashboard
  import Text

  /**
   * The `disabilities` value of the request body, as far as Python's `in`
   * can observe it: a JSON array (non-string elements as `None`, since they
   * never equal a string), a string (where `in` is a substring test), an
   * object (where `in` tests the keys), or a value `in` rejects with
   * `TypeError` (null, a number, a boolean), with that exception's message.
   */
  datatype Disabilities =
    | Missing
    | Array(items: seq<Option<string>>)
    | Str(s: string)
    | Object(keys: seq<string>)
    | NotIterable(error: string)

  /** The parsed request body: a JSON object with the field of interest, or anything else,
    * on which `data.get` raises an exception with message `error`. */
  datatype Body<T> = NotAnObject(error: string) | Fields(field: T)

  /** A JSON response: status code, `success` flag, the next route on success and the
    * exception's message on failure. */
  datatype RouteReply = RouteReply(code: int, success: bool, nextRoute: Option<string>, error: Option<string>)

  /** Python's `name in value`; `None` when it raises `TypeError`. */
  function Mentions(value: Disabilities, name: string): (r: Option<bool>)
    ensures r.None? <==> value.NotIterable?
    ensures value.Missing? ==> r == Some(false)
    ensures value.Array? ==> (r == Some(true) <==> Some(name) in value.items)
  {
    match value
    case Missing => Some(false)
    case Array(items) => Some(Some(name) in items)
    case Str(s) => Some(Text.Contains(s, name))
    case Object(keys) => Some(name in keys)
    case NotIterable(_) => None
  }

  /** `submit_disabilities`: '/blind' wins over '/deaf', which wins over '/general'; errors give 500. */
  function SubmitDisabilities(body: Body<Disabilities>): (r: RouteReply)
    ensures r.code == 200 <==> r.success
    ensures r.success <==> r.nextRoute.Some?
    ensures r.code == 200 || r.code == 500
    ensures r.success ==> r.nextRoute.value in {"/blind", "/deaf", "/general"}
    ensures r.code == 500 <==> body.NotAnObject? || body.field.NotIterable?
    ensures r.success <==> r.error.None?
    ensures body.NotAnObject? ==> r.error == Some(body.error)
    ensures body.Fields? && body.field.NotIterable? ==> r.error == Some(body.field.error)
    ensures body.Fields? && body.field.Missing? ==> r == RouteReply(200, true, Some("/general"), None)
    ensures body.Fields? && Mentions(body.field, Dashboard.VisualImpairment) == Some(true)
            ==> r.nextRoute == Some("/blind")
    ensures body.Fields? && Mentions(body.field, Dashboard.VisualImpairment) == Some(false)
            && Mentions(body.field, Dashboard.HearingImpairment) == Some(true)
            ==> r.nextRoute == Some("/deaf")
    ensures body.Fields? && Mentions(body.field, Dashboard.VisualImpairment) == Some(false)
            && Mentions(body.field, Dashboard.HearingImpairment) == Some(false)
            ==> r.nextRoute == Some("/general")
  {
    match body
    case NotAnObject(error) => RouteReply(500, false, None, Some(error))
    case Fields(value) =>
      match Mentions(value, Dashboard.VisualImpairment)
      case None => RouteReply(500, false, None, Some(value.error))
      case Some(visual) =>
        if visual then RouteReply(200, true, Some("/blind"), None)
        else
          var hearing := Mentions(value, Dashboard.HearingImpairment).value;
          if hearing then RouteReply(200, true, Some("/deaf"), None)
          else RouteReply(200, true, Some("/general"), None)
  }

  /** The list the dashboard holds, as the JSON array it would post. */
  function AsArray(selected: seq<string>): (r: Disabilities)
    ensures r.Array? && |r.items| == |selected|
    ensures forall i :: 0 <= i < |selected| ==> r.items[i] == Some(selected[i])
  {
    if selected == [] then Array([])
    else Array([Some(selected[0])] + AsArray(selected[1..]).items)
  }

  /**
   * The server and the dashboard agree on the priority: for the same list,
   * the server answers '/blind', '/deaf', '/general' exactly when the
   * dashboard goes to '/subject_b', '/audial', '/general'.
   */
  lemma RoutesAgree(selected: seq<string>)
    ensures var server := SubmitDisabilities(Fields(AsArray(selected))).nextRoute;
            var page := Dashboard.HandleSubmit(selected, "").path;
            (server == Some("/blind") <==> page == "/subject_b")
            && (server == Some("/deaf") <==> page == "/audial")
            && (server == Some("/general") <==> page == "/general")
  {
    var items := AsArray(selected).items;
    forall name ensures Some(name) in items <==> name in selected {
      if Some(name) in items {
        var i :| 0 <= i < |items| && items[i] == Some(name);
        assert selected[i] == name;
      }
      if name in selected {
        var i :| 0 <= i < |selected| && selected[i] == name;
        assert items[i] == Some(name);
      }
    }
  }

  /** A JSON response of `scrap_sub`. */
  datatype SubjectReply = SubjectReply(code: int, success: Option<bool>, description: Option<string>, error: Option<string>)

  /** The decision `scrap_sub` makes before calling the model. */
  datatype SubjectDecision = SubjectRejected | Describe(subject: string) | SubjectFailed(error: string)

  /** What `get_response` gave: the description, or the message of an exception it raised. */
  datatype ModelAnswer = Answered(text: string) | Raised(error: string)

  /** The subject guard; a missing subject and the empty string are both falsy in Python. */
  function ScrapSubject(body: Body<Option<string>>): (r: SubjectDecision)
    ensures r.SubjectFailed? <==> body.NotAnObject?
    ensures r.SubjectFailed? ==> r.error == body.error
    ensures r.SubjectRejected? <==> body.Fields? && (body.field.None? || body.field.value == "")
    ensures r.Describe? ==> body == Fields(Some(r.subject)) && r.subject != ""
  {
    match body
    case NotAnObject(error) => SubjectFailed(error)
    case Fields(subject) =>
      if subject.None? || subject.value == "" then
        SubjectRejected
      else Describe(subject.value)
  }

  /**
   * The response once the decision is made: a rejection is a 400 with the error
   * message, otherwise `answer` is what `get_response` gave.
   */
  function SubjectResponse(decision: SubjectDecision, answer: ModelAnswer): (r: SubjectReply)
    ensures r.code == 400 <==> decision.SubjectRejected?
    ensures r.code == 400 ==> r == SubjectReply(400, None, None, Some("Subject not provided"))
    ensures r.code == 200 <==> decision.Describe? && answer.Answered?
    ensures r.code == 200 ==> r == SubjectReply(200, Some(true), Some(answer.text), None)
    ensures r.code == 500 <==> decision.SubjectFailed? || (decision.Describe? && answer.Raised?)
    ensures decision.SubjectFailed? ==> r == SubjectReply(500, Some(false), None, Some(decision.error))
    ensures decision.Describe? && answer.Raised? ==> r == SubjectReply(500, Some(false), None, Some(answer.error))
  {
    match decision
    case SubjectRejected => SubjectReply(400, None, None, Some("Subject not provided"))
    case SubjectFailed(error) => SubjectReply(500, Some(false), None, Some(error))
    case Describe(_) =>
      match answer
      case Answered(text) => SubjectReply(200, Some(true), Some(text), None)
      case Raised(error) => SubjectReply(500, Some(false), None, Some(error))
  }

  /** The model is consulted only for a truthy subject: every empty-input request gets 400, whatever the model would say. */
  lemma EmptySubjectNeverReachesModel(description: ModelAnswer, other: ModelAnswer)
    ensures SubjectResponse(ScrapSubject(Fields(None)), description)
         == SubjectResponse(ScrapSubject(Fields(Some(""))), other)
    ensures SubjectResponse(ScrapSubject(Fields(None)), description).code == 400
  {
  }
}
