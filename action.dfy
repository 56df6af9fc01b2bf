/** The schedule-for-use action: the request handler that resolves the
    location, caches and validates a POSTed form, sends the request email and
    answers with a redirect or a re-rendered form. */
module ScheduleForUse {
  import opened Php
  import opened Locations
  import opened Validation
  import opened Notification

  /** The request URI; only its query part matters here. */
  datatype Uri = Uri(path: string, query: string)

  /** An HTTP request: its method, query parameters, parsed body and URI. */
  datatype Request = Request(verb: string, query: Query, body: map<string, string>, uri: Uri)

  /** A user message with its level ("success", "danger", ...). */
  datatype Notice = Notice(level: string, message: string)

  /** The template context the view is rendered with. */
  datatype ViewArgs = ViewArgs(messages: seq<Notice>, query: Query, location: Option<Key>,
                               session: Submission, errors: seq<Field>)

  datatype Response = Redirect(status: int, location: Uri) | Render(template: string, args: ViewArgs)

  /** The time functions of one request, left uninterpreted: `strtotime`,
      `date('Y-m-d', ...)` and `strtotime('+3 weekdays')`. */
  datatype Clock = Clock(strToTime: string -> Option<int>, dateYmd: int -> string, threeWeekdays: int)

  const SuccessMessage := "Your request has been sent."

  /** `$req->getParsedBodyParam($field)`: null when the field was not posted. */
  function BodyParam(req: Request, f: Field): Option<string>
  {
    Lookup(req.body, FieldName(f))
  }

  /** The submitted values of all six fields, as the POST branch stores them. */
  function Submitted(req: Request): (s: Submission)
    ensures forall f :: f in s && s[f] == BodyParam(req, f)
    ensures s != map[]
  {
    var s := map f | f in Fields :: BodyParam(req, f);
    assert forall f :: f in s by {
      forall f ensures f in s { assert Fields[Position(f)] == f; }
    }
    assert Name in s;
    s
  }

  class ScheduleForUseAction {
    /** The configured locations, in declaration order. */
    const locations: Table
    /** `preg_match` of a configured title pattern against the Location parameter. */
    const pregMatch: Matcher
    /** `filter_var(..., FILTER_VALIDATE_EMAIL)` succeeding. */
    const validEmail: string -> bool

    /** The session slot `catalog_schedule`; the empty map when unset. */
    var catalogSchedule: Submission
    /** The flash messages added for the next request. */
    var flash: seq<Notice>

    constructor(locations: Table, pregMatch: Matcher, validEmail: string -> bool, stored: Submission)
      ensures this.locations == locations && this.pregMatch == pregMatch && this.validEmail == validEmail
      ensures catalogSchedule == stored && flash == []
    {
      this.locations := locations;
      this.pregMatch := pregMatch;
      this.validEmail := validEmail;
      catalogSchedule := stored;
      flash := [];
    }

    /** The validator's library functions during a request. */
    function Checking(clock: Clock): Checks
    {
      Checks(validEmail, clock.strToTime, clock.threeWeekdays)
    }

    /** A location was resolved from the query and the form was POSTed. */
    predicate Posted(req: Request)
    {
      Resolved(GetLocation(req.query, locations, pregMatch)) && req.verb == "POST"
    }

    /** The formatted date of the subject line. */
    function Formatted(s: Submission, clock: Clock): string
    {
      FormattedDate(AsString(Get(s, Date)), clock.strToTime, clock.dateYmd)
    }

    /** The mailer's outcome for the POSTed fields. */
    function Mailed(req: Request, clock: Clock, send: Message -> Delivery): Outcome
      requires Posted(req)
    {
      SendEmail(req.query, Submitted(req), locations, pregMatch, Formatted(Submitted(req), clock), send)
    }

    /** The message of the request error that the CSRF check, the validator
        or the mailer raises for a POSTed form, if any (`csrf` is the CSRF
        check's error): the first of the three that fails decides it. */
    function Failure(req: Request, csrf: Option<string>, clock: Clock, send: Message -> Delivery): (r: Option<string>)
      requires Posted(req)
      ensures csrf.Some? ==> r == csrf
      ensures csrf.None? && Validate(Submitted(req), [], Checking(clock)).1.Fail? ==>
                r == Some(Validate(Submitted(req), [], Checking(clock)).1.message)
      ensures csrf.None? && Validate(Submitted(req), [], Checking(clock)).1 == Pass ==>
                (r.None? <==> Mailed(req, clock, send) == Pass) &&
                (Mailed(req, clock, send).Fail? ==> r == Some(Mailed(req, clock, send).message))
    {
      var s := Submitted(req);
      if csrf.Some? then csrf
      else if Validate(s, [], Checking(clock)).1.Fail? then Some(Validate(s, [], Checking(clock)).1.message)
      else match Mailed(req, clock, send)
        case Pass => None
        case Fail(m) => Some(m)
    }

    /** `validateRequest`: the completeness loop over the fields, then the
        email, phone and date checks, each appending its tag and stopping. */
    method ValidateRequest(session: Submission, errors0: seq<Field>, clock: Clock)
      returns (errors: seq<Field>, outcome: Outcome)
      ensures (errors, outcome) == Validate(session, errors0, Checking(clock))
    {
      errors := errors0;
      for i := 0 to |Fields|
        invariant errors == errors0 + MissingIn(Fields[..i], session)
      {
        assert Fields[..i + 1][..i] == Fields[..i];
        if Fields[i] != Comments && Empty(Get(session, Fields[i])) {
          errors := errors + [Fields[i]];
        }
      }
      assert Fields[..|Fields|] == Fields;
      if errors != [] {
        return errors, Fail(MissingFieldsMessage);
      }
      if !validEmail(AsString(Get(session, Email))) {
        errors := errors + [Email];
        return errors, Fail(InvalidEmailMessage);
      }
      if DigitCount(AsString(Get(session, Tel))) < MinPhoneDigits {
        errors := errors + [Tel];
        return errors, Fail(InvalidPhoneMessage);
      }
      if TooEarly(clock.strToTime(AsString(Get(session, Date))), clock.threeWeekdays) {
        errors := errors + [Date];
        return errors, Fail(DateTooSoonMessage);
      }
      outcome := Pass;
    }

    /** The POST branch of `__invoke` up to the response: it collects the
        posted fields, then checks the CSRF token and, when that passes,
        validates the fields and sends the email; `failure` is the message of
        the request error raised, if any. */
    method HandlePost(req: Request, csrf: Option<string>, clock: Clock, send: Message -> Delivery)
      returns (session: Submission, errors: seq<Field>, failure: Option<string>)
      requires Posted(req)
      ensures session == Submitted(req)
      ensures errors == if csrf.None? then Validate(Submitted(req), [], Checking(clock)).0 else []
      ensures failure == Failure(req, csrf, clock, send)
    {
      session := map[];
      for i := 0 to |Fields|
        invariant session == map f | f in Fields[..i] :: BodyParam(req, f)
      {
        assert Fields[..i + 1] == Fields[..i] + [Fields[i]];
        session := session[Fields[i] := BodyParam(req, Fields[i])];
      }
      assert Fields[..|Fields|] == Fields;
      errors := [];
      failure := None;
      if csrf.Some? {
        failure := csrf;
      } else {
        var outcome;
        errors, outcome := ValidateRequest(session, errors, clock);
        if outcome.Fail? {
          failure := Some(outcome.message);
        } else {
          var sent := SendEmail(req.query, session, locations, pregMatch, Formatted(session, clock), send);
          if sent.Fail? {
            failure := Some(sent.message);
          }
        }
      }
    }

    /** `__invoke`. A POST for a resolved location always stores the submitted
        fields in the session; when no request error is raised it adds the
        success flash and redirects to the same URI without a query; otherwise,
        and on every other request, it renders the form, with a danger
        message appended after a failed POST and the cached fields filled in
        when nothing was posted. */
    method Invoke(req: Request, pending: seq<Notice>, csrf: Option<string>, clock: Clock, send: Message -> Delivery)
      returns (res: Response)
      modifies this
      ensures catalogSchedule == if Posted(req) then Submitted(req) else old(catalogSchedule)
      ensures res.Redirect? <==> Posted(req) && Failure(req, csrf, clock, send).None?
      ensures res.Redirect? ==> res == Redirect(302, req.uri.(query := "")) &&
                                flash == old(flash) + [Notice("success", SuccessMessage)]
      ensures res.Render? ==>
                flash == old(flash) &&
                res.template == TemplateName("action") &&
                res.args.messages == pending + (if Posted(req) then [Notice("danger", Failure(req, csrf, clock, send).value)] else []) &&
                res.args.query == req.query &&
                res.args.location == GetLocation(req.query, locations, pregMatch) &&
                res.args.session == (if Posted(req) then Submitted(req)
                                     else if Resolved(GetLocation(req.query, locations, pregMatch)) && old(catalogSchedule) != map[]
                                     then old(catalogSchedule) else map[]) &&
                res.args.errors == (if Posted(req) && csrf.None? then Validate(Submitted(req), [], Checking(clock)).0 else [])
    {
      var messages := pending;
      var query := req.query;
      var location := GetLocation(query, locations, pregMatch);
      var session: Submission := map[];
      var errors: seq<Field> := [];
      if Resolved(location) {
        if req.verb == "POST" {
          var failure;
          session, errors, failure := HandlePost(req, csrf, clock, send);
          catalogSchedule := session;
          if failure.None? {
            flash := flash + [Notice("success", SuccessMessage)];
            return Redirect(302, req.uri.(query := ""));
          }
          messages := messages + [Notice("danger", failure.value)];
        }
        if session == map[] && catalogSchedule != map[] {
          session := catalogSchedule;
        }
      }
      res := Render(TemplateName("action"), ViewArgs(messages, query, location, session, errors));
    }
  }

  /** A POST for a resolved location leaves its fields in the session, so the
      next GET for a resolved location shows them again, whether the POST
      failed or succeeded. */
  method PostThenGet(action: ScheduleForUseAction, post: Request, get: Request, csrf: Option<string>,
                     clock: Clock, send: Message -> Delivery)
    returns (first: Response, second: Response)
    requires action.Posted(post)
    requires Resolved(GetLocation(get.query, action.locations, action.pregMatch)) && get.verb == "GET"
    modifies action
    ensures first.Render? ==> first.args.session == Submitted(post)
    ensures second.Render? && second.args.session == Submitted(post)
  {
    first := action.Invoke(post, [], csrf, clock, send);
    second := action.Invoke(get, [], None, clock, send);
  }

  /** Every request error belongs to one taxonomy: the CSRF check's message,
      one of the four validation messages or one of the two mailer messages;
      none is raised exactly when the CSRF check, the validator and the
      mailer all succeed. */
  lemma FailureCauses(action: ScheduleForUseAction, req: Request, csrf: Option<string>, clock: Clock,
                      send: Message -> Delivery)
    requires action.Posted(req)
    ensures action.Failure(req, csrf, clock, send).None? <==>
              csrf.None? && Validate(Submitted(req), [], action.Checking(clock)).1 == Pass &&
              send(Compose(req.query, Submitted(req), action.locations, action.pregMatch,
                           action.Formatted(Submitted(req), clock))) == Sent
    ensures action.Failure(req, csrf, clock, send).Some? ==>
              (csrf.Some? && action.Failure(req, csrf, clock, send) == csrf) ||
              action.Failure(req, csrf, clock, send).value in
                {MissingFieldsMessage, InvalidEmailMessage, InvalidPhoneMessage, DateTooSoonMessage,
                 CouldNotSendMessage, UnexpectedErrorMessage}
  {
  }
}
