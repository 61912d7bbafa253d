/**
 * The post-processing of the client-side AI calendar service: the fallback
 * results of `parseEventDescription`, the JSON extraction and merge of
 * `handleFollowUp`, and the timestamp extraction of
 * `generateSchedulingSuggestions`.
 *
 * The model call is an input (it failed, or it returned some text), and so is
 * `JSON.parse`, given as a function from text to an object or a failure.
 */
module Assistant {
  import opened Wrappers
  import opened Text

  /** A JSON value. */
  datatype Json =
    | JNull
    | JBool(b: bool)
    | JNum(n: real)
    | JStr(s: string)
    | JArr(items: seq<Json>)
    | JObj(fields: map<string, Json>)

  /** A plain object: `AIResponse` and `Partial<AIResponse>` are such objects. */
  type JsonObject = map<string, Json>

  /**
   * What the step before reading the reply gave. `CallFailed` stands for any
   * throw there: the prompt's `toISOString`, the rejected model call.
   * `Completed` carries `completion.choices[0]?.message?.content`, with `""`
   * for no content.
   */
  datatype Completion = CallFailed | Completed(content: string)

  /** JavaScript truthiness of a JSON value. */
  predicate IsTruthy(v: Json) {
    match v
    case JNull => false
    case JBool(b) => b
    case JNum(n) => n != 0.0
    case JStr(s) => s != ""
    case JArr(_) => true
    case JObj(_) => true
  }

  predicate FieldTruthy(o: JsonObject, key: string) {
    key in o && IsTruthy(o[key])
  }

  /** `{ ...base, ...over }`: every key of either, the value of `over` where both have one. */
  predicate IsSpread(r: JsonObject, base: JsonObject, over: JsonObject) {
    && r.Keys == base.Keys + over.Keys
    && (forall k :: k in over ==> r[k] == over[k])
    && (forall k :: k in base && k !in over ==> r[k] == base[k])
  }

  // ------------------------------------------------------------ parseEventDescription

  const RephraseQuestion := "I encountered an error processing your request. Could you please try rephrasing your event description?"

  function NotUnderstoodQuestion(input: string): (q: string)
    ensures Contains(q, "\"" + input + "\"")
  {
    ContainsMiddle("I couldn't fully understand ", "\"" + input + "\"", ". Could you please provide more details about the date and time?");
    "I couldn't fully understand " + ("\"" + input + "\"") + ". Could you please provide more details about the date and time?"
  }

  /**
   * The result of `parseEventDescription`: the parsed object with
   * `originalInput` overwritten, a confidence-20 question when the text is not
   * JSON, or a confidence-0 request to rephrase when the call fails or
   * returns nothing.
   */
  function ParseEventDescription(input: string, completion: Completion, parse: string -> Option<JsonObject>): (r: JsonObject)
    ensures "originalInput" in r && r["originalInput"] == JStr(input)
    ensures completion.CallFailed? || completion.content == "" ==>
      r.Keys == {"originalInput", "confidence", "questions"}
      && r["confidence"] == JNum(0.0) && r["questions"] == JArr([JStr(RephraseQuestion)])
    ensures completion.Completed? && completion.content != "" && parse(completion.content).None? ==>
      && r.Keys == {"originalInput", "confidence", "questions"} && r["confidence"] == JNum(20.0)
      && r["questions"].JArr? && |r["questions"].items| == 1 && r["questions"].items[0].JStr?
      && Contains(r["questions"].items[0].s, "\"" + input + "\"")
    ensures completion.Completed? && completion.content != "" && parse(completion.content).Some? ==>
      IsSpread(r, parse(completion.content).value, map["originalInput" := JStr(input)])
  {
    if completion.CallFailed? || completion.content == "" then
      map["originalInput" := JStr(input), "confidence" := JNum(0.0), "questions" := JArr([JStr(RephraseQuestion)])]
    else
      match parse(completion.content)
      case Some(parsed) => parsed + map["originalInput" := JStr(input)]
      case None =>
        map["originalInput" := JStr(input), "confidence" := JNum(20.0),
            "questions" := JArr([JStr(NotUnderstoodQuestion(input))])]
  }

  // ------------------------------------------------------------ handleFollowUp

  const TroubleMessage := "I'm having trouble processing that. Could you please clarify?"
  const MoreDetailsMessage := "Could you provide more details?"

  /** The index of the last `c` in `s` before index `upTo`. */
  function LastIndexOf(s: string, c: char, upTo: nat): (r: Option<nat>)
    requires upTo <= |s|
    ensures r.Some? ==> r.value < upTo && s[r.value] == c && forall k :: r.value < k < upTo ==> s[k] != c
    ensures r.None? ==> forall k :: 0 <= k < upTo ==> s[k] != c
  {
    if upTo == 0 then None
    else if s[upTo - 1] == c then Some(upTo - 1)
    else LastIndexOf(s, c, upTo - 1)
  }

  /** Where the JSON object sits in the reply: the indices of its first and last characters. */
  datatype Span = Span(first: nat, last: nat)

  /**
   * The span `/\{[\s\S]*\}/` matches: from the first `{` to the last `}`, when
   * a `}` follows the first `{`.
   */
  function JsonSpan(s: string): (r: Option<Span>)
    ensures r.Some? ==>
      var i, j := r.value.first, r.value.last;
      && i < j < |s| && s[i] == '{' && s[j] == '}'
      && (forall k :: 0 <= k < i ==> s[k] != '{')
      && (forall k :: j < k < |s| ==> s[k] != '}')
  {
    match IndexOf(s, "{", 0)
    case None => None
    case Some(i) =>
      assert s[i..i + 1] == "{";
      assert forall k :: 0 <= k < i ==> s[k] != '{' by {
        forall k | 0 <= k < i ensures s[k] != '{' {
          assert !OccursAt("{", s, k);
          assert s[k..k + 1] == [s[k]];
        }
      }
      match LastIndexOf(s, '}', |s|)
      case Some(j) => if i < j then Some(Span(i, j)) else None
      case None => None
  }

  /** The pattern fails to match exactly when no `}` follows any `{`. */
  lemma NoSpanIffNoBracePair(s: string)
    ensures JsonSpan(s).None? <==> forall i, j :: 0 <= i < j < |s| ==> !(s[i] == '{' && s[j] == '}')
  {
    match IndexOf(s, "{", 0)
    case None =>
      forall i | 0 <= i < |s| ensures s[i] != '{' {
        assert !OccursAt("{", s, i);
        assert s[i..i + 1] == [s[i]];
      }
    case Some(i) =>
      assert s[i..i + 1] == "{";
      forall k | 0 <= k < i ensures s[k] != '{' {
        assert !OccursAt("{", s, k);
        assert s[k..k + 1] == [s[k]];
      }
  }

  /** Removing the span with `replace` removes exactly that stretch of the text. */
  lemma ReplaceSpan(s: string, i: nat, j: nat)
    requires i <= j < |s| && s[i] == '{' && forall k :: 0 <= k < i ==> s[k] != '{'
    ensures ReplaceFirst(s, s[i..j + 1], "") == s[..i] + s[j + 1..]
  {
    var span := s[i..j + 1];
    assert OccursAt(span, s, i);
    forall k: nat | k < i ensures !OccursAt(span, s, k) {
      if k + |span| <= |s| { assert s[k..k + |span|][0] == s[k] != '{'; }
    }
    assert IndexOf(s, span, 0) == Some(i);
  }

  /** What `handleFollowUp` resolves to. */
  datatype FollowUpReply = FollowUpReply(message: string, updatedEventData: JsonObject, isComplete: bool)

  /** The JSON span of a reply and the object it parses to. */
  datatype Extraction = Extraction(span: Span, data: JsonObject)

  /** The span of `text` and its parse, when there is a span and it parses. */
  function Extract(text: string, parse: string -> Option<JsonObject>): (r: Option<Extraction>)
    ensures r.Some? ==> r.value.span.first < r.value.span.last < |text|
  {
    match JsonSpan(text)
    case None => None
    case Some(sp) =>
      match parse(text[sp.first..sp.last + 1])
      case None => None
      case Some(data) => Some(Extraction(sp, data))
  }

  /** The reply with the span cut out and trimmed, or the default question when nothing is left. */
  function Leftover(text: string, sp: Span): (m: string)
    requires sp.first <= sp.last < |text|
    ensures m != ""
  {
    var rest := Trim(text[..sp.first] + text[sp.last + 1..]);
    if rest == "" then MoreDetailsMessage else rest
  }

  /** The extracted object names a title, a start and an end. */
  predicate HasEssentials(o: JsonObject) {
    FieldTruthy(o, "title") && FieldTruthy(o, "startTime") && FieldTruthy(o, "endTime")
  }

  /** `handleFollowUp` after the model call. */
  function FollowUp(partialEventData: JsonObject, completion: Completion, parse: string -> Option<JsonObject>): (r: FollowUpReply)
    ensures r.message != ""
    ensures completion.CallFailed? || completion.content == "" ==> r == FollowUpReply(TroubleMessage, partialEventData, false)
    ensures r.isComplete ==> completion.Completed? && Extract(completion.content, parse).Some?
  {
    if completion.CallFailed? || completion.content == "" then
      FollowUpReply(TroubleMessage, partialEventData, false)
    else
      match Extract(completion.content, parse)
      case None => FollowUpReply(completion.content, partialEventData, false)
      case Some(x) => FollowUpReply(Leftover(completion.content, x.span), partialEventData + x.data, HasEssentials(x.data))
  }

  /** `FollowUp` on a reply whose span parses. */
  lemma FollowUpParsedLeftover(partialEventData: JsonObject, text: string, parse: string -> Option<JsonObject>, sp: Span, extracted: JsonObject)
    requires JsonSpan(text) == Some(sp) && parse(text[sp.first..sp.last + 1]) == Some(extracted)
    ensures FollowUp(partialEventData, Completed(text), parse)
      == FollowUpReply(Leftover(text, sp), partialEventData + extracted, HasEssentials(extracted))
  {
    assert Extract(text, parse) == Some(Extraction(sp, extracted));
  }

  /** The leftover message is what `replace` and `trim` make of the reply. */
  lemma LeftoverByReplace(text: string, sp: Span)
    requires sp.first <= sp.last < |text| && text[sp.first] == '{'
    requires forall k :: 0 <= k < sp.first ==> text[k] != '{'
    ensures var m := Trim(ReplaceFirst(text, text[sp.first..sp.last + 1], ""));
      Leftover(text, sp) == if m == "" then MoreDetailsMessage else m
  {
    ReplaceSpan(text, sp.first, sp.last);
    var rest := text[..sp.first] + text[sp.last + 1..];
    assert ReplaceFirst(text, text[sp.first..sp.last + 1], "") == rest;
    assert Leftover(text, sp) == if Trim(rest) == "" then MoreDetailsMessage else Trim(rest);
  }

  /** `FollowUp` on a reply whose span parses, in the terms `handleFollowUp` computes it. */
  lemma FollowUpParsed(partialEventData: JsonObject, text: string, parse: string -> Option<JsonObject>, sp: Span, extracted: JsonObject)
    requires JsonSpan(text) == Some(sp) && parse(text[sp.first..sp.last + 1]) == Some(extracted)
    ensures var m := Trim(ReplaceFirst(text, text[sp.first..sp.last + 1], ""));
      FollowUp(partialEventData, Completed(text), parse)
      == FollowUpReply(if m == "" then MoreDetailsMessage else m, partialEventData + extracted,
                       FieldTruthy(extracted, "title") && FieldTruthy(extracted, "startTime") && FieldTruthy(extracted, "endTime"))
  {
    FollowUpParsedLeftover(partialEventData, text, parse, sp, extracted);
    LeftoverByReplace(text, sp);
  }

  /** `handleFollowUp` as written: cut the span out with `replace`, then fall back on a default message. */
  method HandleFollowUp(partialEventData: JsonObject, completion: Completion, parse: string -> Option<JsonObject>)
    returns (message: string, updatedEventData: JsonObject, isComplete: bool)
    ensures FollowUpReply(message, updatedEventData, isComplete) == FollowUp(partialEventData, completion, parse)
  {
    if completion.CallFailed? || completion.content == "" {
      return TroubleMessage, partialEventData, false;
    }
    var responseText := completion.content;
    message := responseText;
    updatedEventData := partialEventData;
    isComplete := false;

    var jsonMatch := JsonSpan(responseText);
    if jsonMatch.Some? {
      var span := jsonMatch.value;
      var jsonText := responseText[span.first..span.last + 1];
      var parsed := parse(jsonText);
      if parsed.Some? {
        var extracted := parsed.value;
        updatedEventData := partialEventData + extracted;
        message := Trim(ReplaceFirst(responseText, jsonText, ""));
        isComplete := FieldTruthy(extracted, "title") && FieldTruthy(extracted, "startTime") && FieldTruthy(extracted, "endTime");
        FollowUpParsed(partialEventData, responseText, parse, span, extracted);
      } else {
        FollowUpWithoutExtraction(partialEventData, responseText, parse);
      }
    } else {
      FollowUpWithoutExtraction(partialEventData, responseText, parse);
    }
    if message == "" {
      message := MoreDetailsMessage;
    }
  }

  /** Without a parsable JSON span the data gathered so far is returned unchanged and incomplete. */
  lemma FollowUpWithoutExtraction(partialEventData: JsonObject, text: string, parse: string -> Option<JsonObject>)
    requires text != ""
    requires JsonSpan(text).None? || parse(text[JsonSpan(text).value.first..JsonSpan(text).value.last + 1]).None?
    ensures FollowUp(partialEventData, Completed(text), parse) == FollowUpReply(text, partialEventData, false)
  {
  }

  /**
   * With a parsable span the data is the spread of the extracted object over
   * the partial data, completeness is judged on the extracted object alone,
   * and the message is the rest of the reply.
   */
  lemma FollowUpWithExtraction(partialEventData: JsonObject, text: string, parse: string -> Option<JsonObject>, sp: Span, extracted: JsonObject)
    requires JsonSpan(text) == Some(sp) && parse(text[sp.first..sp.last + 1]) == Some(extracted)
    ensures var r := FollowUp(partialEventData, Completed(text), parse);
      var rest := Trim(text[..sp.first] + text[sp.last + 1..]);
      && IsSpread(r.updatedEventData, partialEventData, extracted)
      && (r.isComplete <==> FieldTruthy(extracted, "title") && FieldTruthy(extracted, "startTime") && FieldTruthy(extracted, "endTime"))
      && r.message == (if rest == "" then MoreDetailsMessage else rest)
  {
    FollowUpParsedLeftover(partialEventData, text, parse, sp, extracted);
    LeftoverIsRest(text, sp);
  }

  // Proof step for FollowUpWithExtraction, kept apart so that its case split
  // does not share a context with the merged-object reasoning.
  lemma LeftoverIsRest(text: string, sp: Span)
    requires sp.first <= sp.last < |text|
    ensures var rest := Trim(text[..sp.first] + text[sp.last + 1..]);
      Leftover(text, sp) == if rest == "" then MoreDetailsMessage else rest
  {
    var rest := Trim(text[..sp.first] + text[sp.last + 1..]);
    if rest == "" {
      assert Leftover(text, sp) == MoreDetailsMessage;
    } else {
      assert Leftover(text, sp) == rest;
    }
  }

  /** A complete follow-up carries a title, a start and an end in the merged data. */
  lemma CompleteHasEssentials(partialEventData: JsonObject, completion: Completion, parse: string -> Option<JsonObject>)
    ensures var r := FollowUp(partialEventData, completion, parse);
      r.isComplete ==> HasEssentials(r.updatedEventData)
  {
  }

  /** A field gathered earlier keeps its value unless the extracted object sets it. */
  lemma EarlierFieldsKept(partialEventData: JsonObject, completion: Completion, parse: string -> Option<JsonObject>, key: string)
    requires key in partialEventData
    ensures var data := FollowUp(partialEventData, completion, parse).updatedEventData;
      var x := if completion.Completed? && completion.content != "" then Extract(completion.content, parse) else None;
      key in data
      && data[key] == (if x.Some? && key in x.value.data then x.value.data[key] else partialEventData[key])
  {
  }

  // ------------------------------------------------------------ generateSchedulingSuggestions

  /**
   * What `\d{4}-\d{2}-\d{2}T\d{2}:\d{2}:\d{2}` demands at offset `j`: a dash at
   * 4 and 7, a `T` at 10, a colon at 13 and 16, a digit everywhere else.
   */
  predicate FitsAt(c: char, j: int) {
    if j == 4 || j == 7 then c == '-'
    else if j == 10 then c == 'T'
    else if j == 13 || j == 16 then c == ':'
    else IsDigit(c)
  }

  /** The character at offset `j` from index `i` of `s` exists and fits there. */
  predicate FitsFrom(s: string, i: nat, j: nat) {
    i + j < |s| && FitsAt(s[i + j], j)
  }

  /** `\d{4}-\d{2}-\d{2}T\d{2}:\d{2}:\d{2}` at index `i` of `s`. */
  predicate IsoDateTimeAt(s: string, i: nat) {
    i + 19 <= |s| && forall j: nat :: j < 19 ==> FitsFrom(s, i, j)
  }

  /** A string that is exactly one such timestamp. */
  predicate IsIsoDateTime(t: string) {
    |t| == 19 && IsoDateTimeAt(t, 0)
  }

  /**
   * Where the global regular expression matches, scanning from `from`: each
   * match is taken whole and the scan resumes after it.
   */
  function MatchPositions(s: string, from: nat): (ps: seq<nat>)
    decreases |s| - from
    ensures forall k :: 0 <= k < |ps| ==> from <= ps[k] && IsoDateTimeAt(s, ps[k])
    ensures forall k :: 0 < k < |ps| ==> ps[k - 1] + 19 <= ps[k]
    ensures ps == [] <==> forall i: nat :: from <= i ==> !IsoDateTimeAt(s, i)
    ensures ps != [] ==> forall i: nat :: from <= i < ps[0] ==> !IsoDateTimeAt(s, i)
  {
    if from + 19 > |s| then []
    else if IsoDateTimeAt(s, from) then [from] + MatchPositions(s, from + 19)
    else MatchPositions(s, from + 1)
  }

  /**
   * No match is skipped: between the end of one match and the start of the
   * next, and after the end of the last, no timestamp starts.
   */
  lemma MatchPositionsMissNothing(s: string, from: nat)
    ensures var ps := MatchPositions(s, from);
      forall k, i: nat :: 0 < k < |ps| && ps[k - 1] + 19 <= i < ps[k] ==> !IsoDateTimeAt(s, i)
    ensures var ps := MatchPositions(s, from);
      ps != [] ==> forall i: nat :: ps[|ps| - 1] + 19 <= i ==> !IsoDateTimeAt(s, i)
  {
    var ps := MatchPositions(s, from);
    forall k, i: nat | 0 < k < |ps| && ps[k - 1] + 19 <= i < ps[k] ensures !IsoDateTimeAt(s, i) {
      NoMatchInGap(s, from, k, i);
    }
    if ps != [] {
      NothingAfterLast(s, from, ps[|ps| - 1]);
    }
  }

  /** One index in the gap before match `k`. */
  lemma {:induction false} NoMatchInGap(s: string, from: nat, k: nat, i: nat)
    requires 0 < k < |MatchPositions(s, from)|
    requires MatchPositions(s, from)[k - 1] + 19 <= i < MatchPositions(s, from)[k]
    decreases |s| - from
    ensures !IsoDateTimeAt(s, i)
  {
    var ps := MatchPositions(s, from);
    if IsoDateTimeAt(s, from) {
      var rest := MatchPositions(s, from + 19);
      assert ps == [from] + rest;
      if k == 1 {
        assert ps[0] == from && ps[1] == rest[0];
      } else {
        assert ps[k - 1] == rest[k - 2] && ps[k] == rest[k - 1];
        NoMatchInGap(s, from + 19, k - 1, i);
      }
    } else {
      assert ps == MatchPositions(s, from + 1);
      NoMatchInGap(s, from + 1, k, i);
    }
  }

  /** Scanning again from the end of the last match, at `last`, finds nothing. */
  lemma {:induction false} NothingAfterLast(s: string, from: nat, last: nat)
    requires MatchPositions(s, from) != []
    requires last == MatchPositions(s, from)[|MatchPositions(s, from)| - 1]
    decreases |s| - from
    ensures MatchPositions(s, last + 19) == []
  {
    var ps := MatchPositions(s, from);
    if from + 19 <= |s| {
      if IsoDateTimeAt(s, from) {
        var rest := MatchPositions(s, from + 19);
        assert ps == [from] + rest;
        if rest == [] {
          assert ps == [from];
        } else {
          assert ps[|ps| - 1] == rest[|rest| - 1];
          NothingAfterLast(s, from + 19, last);
        }
      } else {
        assert ps == MatchPositions(s, from + 1);
        NothingAfterLast(s, from + 1, last);
      }
    }
  }

  /** `response.match(dateTimeRegex) || []`: the text of every match, in order. */
  function AllDateTimes(s: string): (r: seq<string>)
    ensures r == [] <==> forall i: nat :: !IsoDateTimeAt(s, i)
    ensures |r| == |MatchPositions(s, 0)|
    ensures forall k :: 0 <= k < |r| ==> r[k] == s[MatchPositions(s, 0)[k]..MatchPositions(s, 0)[k] + 19]
  {
    var ps := MatchPositions(s, 0);
    seq(|ps|, k requires 0 <= k < |ps| => s[ps[k]..ps[k] + 19])
  }

  /**
   * At most five suggestions, each an ISO timestamp found in the reply, in the
   * order they appear there and without overlapping; the first is the
   * leftmost; a failed call gives none.
   */
  function GenerateSchedulingSuggestions(completion: Completion): (r: seq<string>)
    ensures |r| <= 5
    ensures completion.CallFailed? ==> r == []
    ensures completion.Completed? ==>
      var s, ps := completion.content, MatchPositions(completion.content, 0);
      && |r| == (if |ps| < 5 then |ps| else 5)
      && (forall k :: 0 <= k < |r| ==> IsIsoDateTime(r[k]) && r[k] == s[ps[k]..ps[k] + 19])
      && (forall k :: 0 < k < |r| ==> ps[k - 1] + 19 <= ps[k])
      && (r == [] <==> forall i: nat :: !IsoDateTimeAt(s, i))
  {
    match completion
    case CallFailed => []
    case Completed(content) =>
      var all := AllDateTimes(content);
      var r := if |all| <= 5 then all else all[..5];
      SuggestionsAreTimestamps(content, r);
      r
  }

  lemma SuggestionsAreTimestamps(s: string, r: seq<string>)
    requires |r| <= |MatchPositions(s, 0)|
    requires forall k :: 0 <= k < |r| ==> r[k] == s[MatchPositions(s, 0)[k]..MatchPositions(s, 0)[k] + 19]
    ensures forall k :: 0 <= k < |r| ==> IsIsoDateTime(r[k])
  {
    var ps := MatchPositions(s, 0);
    forall k | 0 <= k < |r| ensures IsIsoDateTime(r[k]) {
      assert IsoDateTimeAt(s, ps[k]);
      forall j: nat | j < 19 ensures FitsFrom(r[k], 0, j) {
        assert FitsFrom(s, ps[k], j);
        assert r[k][0 + j] == s[ps[k] + j];
      }
    }
  }
}
