/**
 * The response interpreter of the calendar-ai edge function: what the handler
 * does with the language model's reply once it has been handed to `JSON.parse`.
 *
 * A reply with an `events` array becomes a list of events (the multi-event
 * path); any other reply becomes one event, reconciled field by field with
 * the event being edited when there is one (the single-event path). A reply
 * that does not parse, or whose processing throws, becomes a low-confidence
 * reply asking for more details.
 *
 * The model call, the prompt text and `JSON.parse` are not modelled: the
 * parsed reply is an input, with each string field absent, `null` or a string.
 */
module CalendarAi {
  import opened Wrappers
  import opened Text
  import opened CalendarTime

  /** A JSON field meant to hold a string: absent (`undefined`), `null`, or a string. */
  datatype JsField = Absent | Null | Str(s: string)

  /** The fields of `context.editingEvent` that reconciliation falls back to. */
  datatype EditingEvent = EditingEvent(
    title: JsField, startTime: JsField, endTime: JsField,
    location: JsField, description: JsField, color: JsField)

  /** The fields of the request context that the interpreter reads. */
  datatype RequestContext = RequestContext(timezone: string, isEditing: bool, editingEvent: Option<EditingEvent>)

  /** A `startDate` string and what `new Date` makes of it; an absent or `null` one is `None`. */
  datatype DateField = DateField(text: string, date: CalendarDate)

  /** The event fields of a parsed reply, or of one element of its `events` array. */
  datatype ParsedEvent = ParsedEvent(
    title: JsField, startDate: Option<DateField>, startTime: JsField,
    endTime: JsField, description: JsField, location: JsField,
    color: JsField)

  /**
   * The reply's `events` field: absent, present but not an array, or an array
   * whose elements are objects (`Some`) or `null` (`None`).
   */
  datatype EventsField = NoEvents | EventsNotArray | EventsArray(items: seq<Option<ParsedEvent>>)

  /**
   * The parsed JSON reply of the model. An absent or `null` `confidence` or
   * `questions` is `None`: `||` treats the two alike.
   */
  datatype ParsedReply = ParsedReply(
    events: EventsField, fields: ParsedEvent, confidence: Option<real>,
    questions: Option<seq<string>>, chatMessage: JsField)

  /**
   * What `JSON.parse(responseText)` did. `ParseFailed` also stands for a reply
   * that parses to `null`, since reading `parsed.events` then throws in the
   * same `try`.
   */
  datatype ParseOutcome = ParseFailed | Parsed(reply: ParsedReply)

  /**
   * What the model call produced: no content, a rejected call (with the
   * message of what it threw, or `Unknown error`), or content handed to
   * `JSON.parse`.
   */
  datatype Completion = NoContent | CallRejected(details: string) | Content(outcome: ParseOutcome)

  /** One element of the multi-event reply's `events`. */
  datatype OutEvent = OutEvent(
    title: JsField, startTime: string, endTime: string,
    description: JsField, location: JsField, color: string, confidence: real)

  /** The JSON body the handler returns; an absent field is left out of the JSON, a `null` one kept. */
  datatype Reply =
    | MultipleEvents(
        events: seq<OutEvent>, confidence: real, questions: seq<string>,
        chatResponse: string, originalInput: string)
    | SingleEvent(
        title: JsField, startTime: JsField, endTime: JsField,
        description: JsField, location: JsField, color: string,
        confidence: real, questions: seq<string>, chatResponse: string, originalInput: string)
    | NotUnderstood(confidence: real, questions: seq<string>, chatResponse: string, originalInput: string)

  /** The HTTP outcome of the handler: 400, 500 or 200 with a reply. */
  datatype HandlerResult = BadRequest | ServerError(details: string) | Ok(reply: Reply)

  // ------------------------------------------------------------ JavaScript values

  /** A string field is truthy when it is a non-empty string; `null` and absence are falsy. */
  predicate Truthy(o: JsField) {
    o.Str? && o.s != ""
  }

  predicate DateTruthy(o: Option<DateField>) {
    o.Some? && o.value.text != ""
  }

  /** `o || fallback` for a string field and a string fallback. */
  function OrElse(o: JsField, fallback: string): (r: string)
    ensures Truthy(o) ==> r == o.s
    ensures !Truthy(o) ==> r == fallback
  {
    if Truthy(o) then o.s else fallback
  }

  /** `${o}` in a template literal: `null` prints as `null`, an absent field as `undefined`. */
  function Show(o: JsField): (r: string)
    ensures o.Str? ==> r == o.s
    ensures o.Null? ==> r == "null"
    ensures o.Absent? ==> r == "undefined"
  {
    match o
    case Str(s) => s
    case Null => "null"
    case Absent => "undefined"
  }

  /** `parsed.confidence || 80`: an absent, `null` or zero confidence becomes 80. */
  function ConfidenceOr80(c: Option<real>): (r: real)
    ensures r != 0.0
    ensures c.Some? && c.value != 0.0 ==> r == c.value
    ensures c.None? || c.value == 0.0 ==> r == 80.0
  {
    if c.Some? && c.value != 0.0 then c.value else 80.0
  }

  predicate IsEditing(ctx: RequestContext) {
    ctx.isEditing && ctx.editingEvent.Some?
  }

  // ------------------------------------------------------------ per-event work

  /**
   * `startTime` or `endTime` of one event: built only when both the date and
   * that time field are truthy, otherwise the empty string.
   */
  function EventTime(date: Option<DateField>, time: JsField): (r: Stamp)
    ensures !(DateTruthy(date) && Truthy(time)) ==> r == Stamp("")
    ensures DateTruthy(date) && Truthy(time) ==> r == LocalDateTime(date.value.date, time.s)
  {
    if DateTruthy(date) && Truthy(time) then LocalDateTime(date.value.date, time.s) else Stamp("")
  }

  /** Processing one element throws exactly when one of its two times throws. */
  predicate Throws(e: ParsedEvent) {
    EventTime(e.startDate, e.startTime).RangeError? || EventTime(e.startDate, e.endTime).RangeError?
  }

  /** A `null` element throws at `event.startDate`; an object throws when one of its times does. */
  predicate ElementThrows(x: Option<ParsedEvent>) {
    x.None? || Throws(x.value)
  }

  /** The `map` callback over `parsed.events`; `None` when it throws. */
  function ProcessEvent(x: Option<ParsedEvent>, confidence: Option<real>): (r: Option<OutEvent>)
    ensures r.None? <==> ElementThrows(x)
    ensures r.Some? ==> r.value.title == x.value.title && r.value.description == x.value.description && r.value.location == x.value.location
    ensures r.Some? ==> r.value.color == OrElse(x.value.color, "blue") && r.value.confidence == ConfidenceOr80(confidence)
    ensures r.Some? ==>
      && r.value.startTime == EventTime(x.value.startDate, x.value.startTime).text
      && r.value.endTime == EventTime(x.value.startDate, x.value.endTime).text
    ensures r.Some? && r.value.startTime != "" ==> DateTruthy(x.value.startDate) && Truthy(x.value.startTime)
    ensures r.Some? && r.value.endTime != "" ==> DateTruthy(x.value.startDate) && Truthy(x.value.endTime)
  {
    if x.None? then None else
    var e := x.value;
    var st := EventTime(e.startDate, e.startTime);
    var et := EventTime(e.startDate, e.endTime);
    if st.RangeError? || et.RangeError? then None
    else Some(OutEvent(e.title, st.text, et.text, e.description, e.location, OrElse(e.color, "blue"), ConfidenceOr80(confidence)))
  }

  /** `parsed.events.map(...)`: same length and order, or `None` when any element throws. */
  function ProcessEvents(items: seq<Option<ParsedEvent>>, confidence: Option<real>): (r: Option<seq<OutEvent>>)
    ensures r.None? <==> exists i :: 0 <= i < |items| && ElementThrows(items[i])
    ensures r.Some? ==> |r.value| == |items|
    ensures r.Some? ==> forall i :: 0 <= i < |items| ==> ProcessEvent(items[i], confidence) == Some(r.value[i])
  {
    if items == [] then Some([])
    else
      match ProcessEvent(items[0], confidence)
      case None => None
      case Some(first) =>
        match ProcessEvents(items[1..], confidence)
        case None =>
          assert exists i :: 0 <= i < |items[1..]| && ElementThrows(items[1..][i]);
          var i :| 0 <= i < |items[1..]| && ElementThrows(items[1..][i]);
          assert ElementThrows(items[i + 1]);
          None
        case Some(rest) =>
          assert forall i :: 1 <= i < |items| ==> items[i] == items[1..][i - 1];
          Some([first] + rest)
  }

  // ------------------------------------------------------------ replies

  const NotUnderstoodOpening := "I couldn't understand "
  const NotUnderstoodClosing := ". Could you be more specific about the event details?"
  const TroubleResponse := "I'm having trouble understanding your request. Could you provide more details?"

  /** The input in double quotes, as the fallback question quotes it. */
  function Quoted(input: string): string {
    "\"" + input + "\""
  }

  /** The reply built in the `catch` after `JSON.parse` or the processing fails. */
  function NotUnderstoodReply(input: string): (r: Reply)
    ensures r.NotUnderstood? && r.confidence == 20.0 && r.originalInput == input
    ensures |r.questions| == 1 && Contains(r.questions[0], Quoted(input))
  {
    ContainsMiddle(NotUnderstoodOpening, Quoted(input), NotUnderstoodClosing);
    NotUnderstood(20.0, [NotUnderstoodOpening + Quoted(input) + NotUnderstoodClosing], TroubleResponse, input)
  }

  /** The `isMultipleEvents` field: absent from the parse-failure reply. */
  function IsMultipleEvents(r: Reply): Option<bool> {
    match r
    case MultipleEvents(_, _, _, _, _) => Some(true)
    case SingleEvent(_, _, _, _, _, _, _, _, _, _) => Some(false)
    case NotUnderstood(_, _, _, _) => None
  }

  /**
   * The multi-event reply for the processed events: confidence defaults to
   * 80, questions to none, and the default chat response counts the events.
   */
  function MultiReply(input: string, p: ParsedReply, evs: seq<OutEvent>): (r: Reply)
    ensures r.MultipleEvents? && r.events == evs && r.originalInput == input
    ensures r.confidence == ConfidenceOr80(p.confidence) && r.questions == p.questions.GetOr([])
    ensures Truthy(p.chatMessage) ==> r.chatResponse == p.chatMessage.s
    ensures !Truthy(p.chatMessage) ==> r.chatResponse == "I've scheduled " + NatToString(|evs|) + " events for you."
  {
    MultipleEvents(
      evs, ConfidenceOr80(p.confidence), p.questions.GetOr([]),
      OrElse(p.chatMessage, "I've scheduled " + NatToString(|evs|) + " events for you."),
      input)
  }

  /** `o || orig`: the original value replaces a falsy new one. */
  function UnlessFalsy(o: JsField, orig: JsField): (r: JsField)
    ensures Truthy(o) ==> r == o
    ensures !Truthy(o) ==> r == orig
    ensures Truthy(r) <==> Truthy(o) || Truthy(orig)
  {
    if Truthy(o) then o else orig
  }

  /** `o !== undefined ? o : orig`: the original value replaces only an absent new one; `null` is kept. */
  function UnlessAbsent(o: JsField, orig: JsField): (r: JsField)
    ensures !o.Absent? ==> r == o
    ensures o.Absent? ==> r == orig
    ensures r.Absent? <==> o.Absent? && orig.Absent?
  {
    if !o.Absent? then o else orig
  }

  /**
   * The single-event reply, once both times are built: confidence and
   * questions default as in the multi-event reply; without an edited event the
   * fields are the reply's and both times are the built ones; the default chat
   * response names the final title and start time, and says `updated`
   * whenever `isEditing` is set, even with no edited event.
   */
  function SingleReply(input: string, ctx: RequestContext, p: ParsedReply, startTime: string, endTime: string): (r: Reply)
    ensures r.SingleEvent? && r.originalInput == input
    ensures r.confidence == ConfidenceOr80(p.confidence) && r.questions == p.questions.GetOr([])
    ensures !IsEditing(ctx) ==>
      && r.title == p.fields.title && r.location == p.fields.location && r.description == p.fields.description
      && r.startTime == Str(startTime) && r.endTime == Str(endTime)
    ensures Truthy(p.chatMessage) ==> r.chatResponse == p.chatMessage.s
    ensures !Truthy(p.chatMessage) ==>
      r.chatResponse == "I've " + (if ctx.isEditing then "updated" else "scheduled") + " \"" + Show(r.title) + "\" for " + Show(r.startTime)
  {
    var e := p.fields;
    var (title, start, end, location, description, color) :=
      if IsEditing(ctx) then
        var orig := ctx.editingEvent.value;
        (UnlessFalsy(e.title, orig.title),
         UnlessFalsy(Str(startTime), orig.startTime),
         UnlessFalsy(Str(endTime), orig.endTime),
         UnlessAbsent(e.location, orig.location),
         UnlessAbsent(e.description, orig.description),
         OrElse(e.color, OrElse(orig.color, "blue")))
      else
        (e.title, Str(startTime), Str(endTime), e.location, e.description, OrElse(e.color, "blue"));
    var verb := if ctx.isEditing then "updated" else "scheduled";
    SingleEvent(
      title, start, end, description, location, color,
      ConfidenceOr80(p.confidence), p.questions.GetOr([]),
      OrElse(p.chatMessage, "I've " + verb + " \"" + Show(title) + "\" for " + Show(start)),
      input)
  }

  /**
   * What the handler returns for a reply that `JSON.parse` did or did not
   * accept: always echoing the input; the multi-event reply only for an
   * `events` array, the single-event reply only without one, and otherwise
   * the fallback reply.
   */
  function Interpret(input: string, ctx: RequestContext, outcome: ParseOutcome): (r: Reply)
    ensures r.originalInput == input
    ensures outcome.ParseFailed? ==> r == NotUnderstoodReply(input)
    ensures r.MultipleEvents? ==> outcome.Parsed? && outcome.reply.events.EventsArray?
    ensures r.SingleEvent? ==> outcome.Parsed? && !outcome.reply.events.EventsArray?
    ensures r.NotUnderstood? ==> r == NotUnderstoodReply(input)
  {
    match outcome
    case ParseFailed => NotUnderstoodReply(input)
    case Parsed(p) =>
      if p.events.EventsArray? then
        match ProcessEvents(p.events.items, p.confidence)
        case None => NotUnderstoodReply(input)
        case Some(evs) => MultiReply(input, p, evs)
      else if Throws(p.fields) then NotUnderstoodReply(input)
      else
        SingleReply(input, ctx, p, EventTime(p.fields.startDate, p.fields.startTime).text,
                    EventTime(p.fields.startDate, p.fields.endTime).text)
  }

  /** `if (startDate && time) { x = createLocalDateTime(...) }` with `x` starting as `''`. */
  method BuildEventTime(date: Option<DateField>, time: JsField, timezone: string) returns (r: Stamp)
    ensures r == EventTime(date, time)
  {
    r := Stamp("");
    if DateTruthy(date) && Truthy(time) {
      r := CreateLocalDateTime(date.value.date, time.s, timezone);
    }
  }

  /**
   * The single-event reply as the handler writes it: six `final*` variables
   * are set from the parsed reply and, when an event is being edited,
   * overwritten field by field.
   */
  method ReconcileSingle(input: string, ctx: RequestContext, parsed: ParsedReply, startTime: string, endTime: string)
    returns (r: Reply)
    ensures r == SingleReply(input, ctx, parsed, startTime, endTime)
  {
    var e := parsed.fields;
    var finalTitle := e.title;
    var finalStartTime := Str(startTime);
    var finalEndTime := Str(endTime);
    var finalLocation := e.location;
    var finalDescription := e.description;
    var finalColor := OrElse(e.color, "blue");

    if ctx.isEditing && ctx.editingEvent.Some? {
      var orig := ctx.editingEvent.value;
      finalTitle := if Truthy(e.title) then e.title else orig.title;
      finalStartTime := if startTime != "" then Str(startTime) else orig.startTime;
      finalEndTime := if endTime != "" then Str(endTime) else orig.endTime;
      finalLocation := if !e.location.Absent? then e.location else orig.location;
      finalDescription := if !e.description.Absent? then e.description else orig.description;
      finalColor := if Truthy(e.color) then e.color.s else if Truthy(orig.color) then orig.color.s else "blue";
    }

    var verb := if ctx.isEditing then "updated" else "scheduled";
    r := SingleEvent(
      finalTitle, finalStartTime, finalEndTime, finalDescription, finalLocation, finalColor,
      ConfidenceOr80(parsed.confidence), parsed.questions.GetOr([]),
      OrElse(parsed.chatMessage, "I've " + verb + " \"" + Show(finalTitle) + "\" for " + Show(finalStartTime)),
      input);
  }

  /**
   * The body of the handler's inner `try`: parse outcome, multi-event path,
   * the two times of the single-event path, reconciliation; a throw from any
   * of them lands in the `catch`.
   */
  method InterpretResponse(input: string, ctx: RequestContext, outcome: ParseOutcome) returns (r: Reply)
    ensures r == Interpret(input, ctx, outcome)
  {
    if outcome.ParseFailed? {
      return NotUnderstoodReply(input);
    }
    var parsed := outcome.reply;
    if parsed.events.EventsArray? {
      var processed := ProcessEvents(parsed.events.items, parsed.confidence);
      if processed.None? {
        return NotUnderstoodReply(input);
      }
      return MultiReply(input, parsed, processed.value);
    }
    var e := parsed.fields;
    var startTime := BuildEventTime(e.startDate, e.startTime, ctx.timezone);
    if startTime.RangeError? {
      return NotUnderstoodReply(input);
    }
    var endTime := BuildEventTime(e.startDate, e.endTime, ctx.timezone);
    if endTime.RangeError? {
      return NotUnderstoodReply(input);
    }
    r := ReconcileSingle(input, ctx, parsed, startTime.text, endTime.text);
  }

  /**
   * The request handler around the interpreter: an empty input is a 400; a
   * rejected model call or an empty completion is a 500 carrying the error's
   * message; any completion content is answered with a 200.
   */
  function Handle(input: string, ctx: RequestContext, completion: Completion): (r: HandlerResult)
    ensures input == "" <==> r.BadRequest?
    ensures r.ServerError? <==> input != "" && !completion.Content?
    ensures input != "" && completion.NoContent? ==> r == ServerError("No response from AI")
    ensures input != "" && completion.CallRejected? ==> r == ServerError(completion.details)
    ensures r.Ok? ==> r.reply == Interpret(input, ctx, completion.outcome) && r.reply.originalInput == input
  {
    if input == "" then BadRequest
    else match completion
      case NoContent => ServerError("No response from AI")
      case CallRejected(details) => ServerError(details)
      case Content(outcome) => Ok(Interpret(input, ctx, outcome))
  }

  // ------------------------------------------------------------ properties

  /**
   * The multi-event path is taken exactly when `events` is an array and no
   * element throws; it keeps the length and order of the array, and every
   * element gets the reply's confidence (80 when absent, `null` or zero), its own
   * colour (`blue` when that is falsy) and times built from its own fields.
   */
  lemma MultiEventPath(input: string, ctx: RequestContext, outcome: ParseOutcome)
    ensures var r := Interpret(input, ctx, outcome);
      r.MultipleEvents? <==>
        outcome.Parsed? && outcome.reply.events.EventsArray?
        && forall i :: 0 <= i < |outcome.reply.events.items| ==> !ElementThrows(outcome.reply.events.items[i])
    ensures var r := Interpret(input, ctx, outcome);
      r.MultipleEvents? ==>
        var items := outcome.reply.events.items;
        && IsMultipleEvents(r) == Some(true)
        && |r.events| == |items|
        && r.confidence == ConfidenceOr80(outcome.reply.confidence)
        && forall i :: 0 <= i < |items| ==>
             && items[i].Some?
             && r.events[i].title == items[i].value.title
             && r.events[i].color == OrElse(items[i].value.color, "blue")
             && r.events[i].confidence == r.confidence
             && r.events[i].startTime == EventTime(items[i].value.startDate, items[i].value.startTime).text
             && r.events[i].endTime == EventTime(items[i].value.startDate, items[i].value.endTime).text
             && (r.events[i].startTime != "" ==> DateTruthy(items[i].value.startDate) && Truthy(items[i].value.startTime))
  {
    var r := Interpret(input, ctx, outcome);
    if r.MultipleEvents? {
      var items := outcome.reply.events.items;
      forall i | 0 <= i < |items|
        ensures ProcessEvent(items[i], outcome.reply.confidence) == Some(r.events[i])
      {
      }
    }
  }

  /** An empty `events` array still selects the multi-event path, with no events. */
  lemma EmptyEventsArray(input: string, ctx: RequestContext, p: ParsedReply)
    requires p.events == EventsArray([])
    ensures var r := Interpret(input, ctx, Parsed(p));
      r.MultipleEvents? && r.events == [] && IsMultipleEvents(r) == Some(true)
  {
  }

  /**
   * Without an `events` array the reply describes one event: `isMultipleEvents`
   * is false, confidence defaults to 80 and questions to none, and the times
   * are the built ones, empty unless the date and that time are both given.
   */
  lemma SingleEventPath(input: string, ctx: RequestContext, p: ParsedReply)
    requires !p.events.EventsArray? && !Throws(p.fields)
    ensures var r := Interpret(input, ctx, Parsed(p));
      && r.SingleEvent? && IsMultipleEvents(r) == Some(false) && r.originalInput == input
      && r.confidence == (if p.confidence.Some? && p.confidence.value != 0.0 then p.confidence.value else 80.0)
      && r.questions == (if p.questions.Some? then p.questions.value else [])
      && (!IsEditing(ctx) ==>
            && r.startTime == Str(EventTime(p.fields.startDate, p.fields.startTime).text)
            && r.endTime == Str(EventTime(p.fields.startDate, p.fields.endTime).text))
      && (!IsEditing(ctx) && !(DateTruthy(p.fields.startDate) && Truthy(p.fields.startTime)) ==> r.startTime == Str(""))
      && (!IsEditing(ctx) && !(DateTruthy(p.fields.startDate) && Truthy(p.fields.endTime)) ==> r.endTime == Str(""))
  {
  }

  /**
   * Editing reconciliation: title, start and end fall back to the original
   * when the new value is falsy; location and description only when it is
   * absent (a `null` one is kept); the colour is the reply's, else the
   * original's, else `blue`.
   */
  lemma EditReconciliation(input: string, ctx: RequestContext, p: ParsedReply)
    requires IsEditing(ctx) && !p.events.EventsArray? && !Throws(p.fields)
    ensures var r := Interpret(input, ctx, Parsed(p));
      var e, orig := p.fields, ctx.editingEvent.value;
      var st := EventTime(e.startDate, e.startTime).text;
      var et := EventTime(e.startDate, e.endTime).text;
      && r.SingleEvent?
      && r.title == (if e.title.Str? && e.title.s != "" then e.title else orig.title)
      && r.startTime == (if st != "" then Str(st) else orig.startTime)
      && r.endTime == (if et != "" then Str(et) else orig.endTime)
      && r.location == (if e.location.Absent? then orig.location else e.location)
      && r.description == (if e.description.Absent? then orig.description else e.description)
      && r.color == (if Truthy(e.color) then e.color.s else if Truthy(orig.color) then orig.color.s else "blue")
  {
  }

  /** An empty-string location in the reply is kept over the original (only `undefined` falls back). */
  lemma EmptyLocationKept(input: string, ctx: RequestContext, p: ParsedReply)
    requires IsEditing(ctx) && !p.events.EventsArray? && !Throws(p.fields)
    requires p.fields.location == Str("")
    ensures Interpret(input, ctx, Parsed(p)).location == Str("")
  {
  }

  /** A `null` location in the reply clears the original one: only `undefined` falls back. */
  lemma NullLocationKept(input: string, ctx: RequestContext, p: ParsedReply)
    requires IsEditing(ctx) && !p.events.EventsArray? && !Throws(p.fields)
    requires p.fields.location == Null
    ensures Interpret(input, ctx, Parsed(p)).location == Null
  {
  }

  /** A `null` title in the reply is falsy: the original title is kept. */
  lemma NullTitleFallsBack(input: string, ctx: RequestContext, p: ParsedReply)
    requires IsEditing(ctx) && !p.events.EventsArray? && !Throws(p.fields)
    requires p.fields.title == Null
    ensures Interpret(input, ctx, Parsed(p)).title == ctx.editingEvent.value.title
  {
  }

  /** One `null` element of `events` makes the `map` throw: the reply is the fallback reply. */
  lemma NullElementFallsBack(input: string, ctx: RequestContext, p: ParsedReply, k: nat)
    requires p.events.EventsArray? && k < |p.events.items| && p.events.items[k].None?
    ensures Interpret(input, ctx, Parsed(p)) == NotUnderstoodReply(input)
  {
    assert ElementThrows(p.events.items[k]);
  }

  /** Without an edited event the colour is the reply's, or `blue` when it is falsy. */
  lemma ColorWithoutEditing(input: string, ctx: RequestContext, p: ParsedReply)
    requires !IsEditing(ctx) && !p.events.EventsArray? && !Throws(p.fields)
    ensures var r := Interpret(input, ctx, Parsed(p));
      r.SingleEvent? && r.title == p.fields.title && r.location == p.fields.location
      && r.description == p.fields.description
      && r.color == (if Truthy(p.fields.color) then p.fields.color.s else "blue")
  {
  }

  /** Editing "Standup" in "Room A" with a reply that renames it only keeps the location. */
  lemma StandupExample(input: string, tz: string, p: ParsedReply, orig: EditingEvent)
    requires orig.title == Str("Standup") && orig.location == Str("Room A")
    requires p.events == NoEvents
    requires p.fields == ParsedEvent(Str("Standup (moved)"), None, Absent, Absent, Absent, Absent, Absent)
    ensures var r := Interpret(input, RequestContext(tz, true, Some(orig)), Parsed(p));
      r.SingleEvent? && r.title == Str("Standup (moved)") && r.location == Str("Room A")
  {
  }

  /**
   * A reply that is not JSON gives confidence 20, one question quoting the
   * input verbatim, no event fields and no `isMultipleEvents`.
   */
  lemma ParseFailure(input: string, ctx: RequestContext)
    ensures var r := Interpret(input, ctx, ParseFailed);
      && r.NotUnderstood? && r.confidence == 20.0 && IsMultipleEvents(r).None?
      && |r.questions| == 1 && Contains(r.questions[0], Quoted(input))
  {
  }

  /** `"noon"` holds no `H:MM`, and on an invalid date it makes `toISOString` throw. */
  lemma NoonHasNoTime()
    ensures !HasTimePattern("noon") && LocalDateTime(InvalidDate, "noon") == RangeError
  {
    forall i: nat | i < 4 ensures !ShortTimeAt("noon", i) {
      assert !IsDigit("noon"[i]);
    }
  }

  /**
   * When building either time of a single event throws, the handler's inner
   * `catch` answers as if the reply had not been JSON.
   */
  lemma SingleEventThrowFallsBack(input: string, ctx: RequestContext, p: ParsedReply)
    requires !p.events.EventsArray? && Throws(p.fields)
    ensures Interpret(input, ctx, Parsed(p)) == Interpret(input, ctx, ParseFailed)
  {
  }

  /** An unparsable date with the time "noon" makes the start time throw. */
  lemma InvalidNoonThrows(e: ParsedEvent, dateText: string)
    requires dateText != ""
    requires e.startDate == Some(DateField(dateText, InvalidDate)) && e.startTime == Str("noon")
    ensures Throws(e)
  {
    NoonHasNoTime();
    assert EventTime(e.startDate, e.startTime) == LocalDateTime(InvalidDate, "noon");
  }

  /**
   * A `startDate` that does not parse, with a time that holds no `H:MM`,
   * makes `toISOString` throw inside the same `try` as `JSON.parse`: the
   * reply is the parse-failure reply.
   */
  lemma InvalidDateWithoutTime(input: string, ctx: RequestContext, p: ParsedReply, dateText: string)
    requires dateText != ""
    requires p.events == NoEvents
    requires p.fields.startDate == Some(DateField(dateText, InvalidDate)) && p.fields.startTime == Str("noon")
    ensures Interpret(input, ctx, Parsed(p)) == NotUnderstoodReply(input)
  {
    InvalidNoonThrows(p.fields, dateText);
    SingleEventThrowFallsBack(input, ctx, p);
  }
}
