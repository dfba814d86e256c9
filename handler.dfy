/**
  `DRFExceptionHandler`: turns an exception raised by a view into an error
  response, and sends a Telegram alert (an HTML text) for the exceptions it
  does not know.
 */
module ExceptionHandler {
  import opened Strings
  import opened Values

  /** The exception classes the handler names, apart from `CustomException`. */
  datatype ExceptionType =
    | ValidationError | Http404 | PermissionDenied | NotAuthenticated | AuthenticationFailed
    | NotFound | MethodNotAllowed | NotAcceptable | UnsupportedMediaType | Throttled

  /**
    A raised exception: a `CustomException` with its message key and context
    (`context or {}`), or any other exception, known by its class name, its
    `str()` and the named classes it is an instance of.
   */
  datatype Exc =
    | CustomException(messageKey: string, context: map<string, string>)
    | Raised(className: string, text: string, isA: set<ExceptionType>)

  /** `EXCEPTION_MAPPING`, in its declaration order. */
  function Mapping(): seq<(ExceptionType, string)>
  {
    [ (ValidationError, "VALIDATION_ERROR"),
      (Http404, "NOT_FOUND"),
      (PermissionDenied, "PERMISSION_DENIED"),
      (NotAuthenticated, "AUTHENTICATION_FAILED"),
      (AuthenticationFailed, "AUTHENTICATION_FAILED"),
      (NotFound, "NOT_FOUND"),
      (MethodNotAllowed, "METHOD_NOT_ALLOWED"),
      (NotAcceptable, "NOT_ACCEPTABLE"),
      (UnsupportedMediaType, "UNSUPPORTED_MEDIA_TYPE"),
      (Throttled, "THROTTLED") ]
  }

  /** `SKIP_TELEGRAM_EXCEPTIONS` without `CustomException`. */
  function SkipTypes(): set<ExceptionType>
  {
    {ValidationError, Http404, PermissionDenied, NotAuthenticated, AuthenticationFailed,
     NotFound, MethodNotAllowed, NotAcceptable, UnsupportedMediaType, Throttled}
  }

  /** The code of the first mapping entry whose class the exception is an instance of. */
  function FirstCode(isA: set<ExceptionType>, mapping: seq<(ExceptionType, string)>): (r: Option<string>)
    ensures r.Some? <==> exists i :: 0 <= i < |mapping| && mapping[i].0 in isA
    decreases |mapping|
  {
    if |mapping| == 0 then None
    else if mapping[0].0 in isA then Some(mapping[0].1)
    else
      assert forall i :: 1 <= i < |mapping| ==> mapping[i] == mapping[1..][i - 1];
      FirstCode(isA, mapping[1..])
  }

  /** The code found is that of the first entry whose class matches: earlier entries do not match. */
  lemma {:induction false} FirstCodeIsFirst(isA: set<ExceptionType>, mapping: seq<(ExceptionType, string)>)
    ensures var r := FirstCode(isA, mapping);
      r.Some? ==> exists i :: 0 <= i < |mapping| && mapping[i].0 in isA && r.value == mapping[i].1
                              && forall j :: 0 <= j < i ==> mapping[j].0 !in isA
    decreases |mapping|
  {
    if |mapping| > 0 && mapping[0].0 !in isA {
      FirstCodeIsFirst(isA, mapping[1..]);
      var r := FirstCode(isA, mapping[1..]);
      if r.Some? {
        var i :| 0 <= i < |mapping[1..]| && mapping[1..][i].0 in isA && r.value == mapping[1..][i].1
                 && forall j :: 0 <= j < i ==> mapping[1..][j].0 !in isA;
        assert mapping[i + 1] == mapping[1..][i];
        assert forall j :: 0 <= j < i + 1 ==> mapping[j].0 !in isA by {
          forall j | 0 <= j < i + 1 ensures mapping[j].0 !in isA {
            if j > 0 {
              assert mapping[j] == mapping[1..][j - 1];
            }
          }
        }
      }
    }
  }

  /** An entry that matches after only non-matching entries gives the code. */
  lemma {:induction false} FirstCodeAt(isA: set<ExceptionType>, mapping: seq<(ExceptionType, string)>, i: nat)
    requires i < |mapping| && mapping[i].0 in isA
    requires forall j :: 0 <= j < i ==> mapping[j].0 !in isA
    ensures FirstCode(isA, mapping) == Some(mapping[i].1)
    decreases i
  {
    if i > 0 {
      assert mapping[0].0 !in isA;
      assert mapping[1..][i - 1] == mapping[i];
      FirstCodeAt(isA, mapping[1..], i - 1);
    }
  }

  /** `_handle_known_exception`: the response for a mapped exception, none otherwise. */
  function KnownCode(isA: set<ExceptionType>): Option<string>
  {
    FirstCode(isA, Mapping())
  }

  /**
    The two authentication classes share a code, and so do the two not-found
    classes; an exception that is an instance of none of the mapped classes
    has no code.
   */
  lemma KnownCodes()
    ensures KnownCode({NotAuthenticated}) == Some("AUTHENTICATION_FAILED")
    ensures KnownCode({AuthenticationFailed}) == Some("AUTHENTICATION_FAILED")
    ensures KnownCode({Http404}) == Some("NOT_FOUND")
    ensures KnownCode({NotFound}) == Some("NOT_FOUND")
    ensures KnownCode({}) == None
    ensures KnownCode({ValidationError, NotFound}) == Some("VALIDATION_ERROR")
  {
    var m := Mapping();
    FirstCodeAt({NotAuthenticated}, m, 3);
    FirstCodeAt({AuthenticationFailed}, m, 4);
    FirstCodeAt({Http404}, m, 1);
    FirstCodeAt({NotFound}, m, 5);
    FirstCodeAt({ValidationError, NotFound}, m, 0);
  }

  /** The error response `CustomResponse.error` builds: message key, context, and the exception text if passed. */
  datatype Response = ErrorResponse(messageKey: string, context: map<string, string>, detail: Option<string>)

  /** An exception neither custom nor mapped: the handler treats it as critical. */
  predicate IsUnknown(e: Exc)
  {
    e.Raised? && KnownCode(e.isA).None?
  }

  /** `_should_skip_telegram_alert`. */
  predicate ShouldSkipAlert(e: Exc)
  {
    e.CustomException? || exists t :: t in e.isA && t in SkipTypes()
  }

  /** Every mapped class is in the skip tuple. */
  lemma MappedTypesSkipped()
    ensures forall i :: 0 <= i < |Mapping()| ==> Mapping()[i].0 in SkipTypes()
  {
  }

  /** Every class of the skip tuple but `CustomException` has a mapping entry. */
  lemma MappingCovers(t: ExceptionType)
    ensures exists i :: 0 <= i < |Mapping()| && Mapping()[i].0 == t
  {
    var m := Mapping();
    var i := match t
      case ValidationError => 0
      case Http404 => 1
      case PermissionDenied => 2
      case NotAuthenticated => 3
      case AuthenticationFailed => 4
      case NotFound => 5
      case MethodNotAllowed => 6
      case NotAcceptable => 7
      case UnsupportedMediaType => 8
      case Throttled => 9;
    assert m[i].0 == t;
  }

  /** The handler alerts exactly for the exceptions `_should_skip_telegram_alert` does not skip. */
  lemma UnknownIffNotSkipped(e: Exc)
    ensures IsUnknown(e) <==> !ShouldSkipAlert(e)
  {
    if e.Raised? {
      MappedTypesSkipped();
      if t :| t in e.isA && t in SkipTypes() {
        MappingCovers(t);
      }
    }
  }

  /** The response `handle_exception` returns. */
  function Dispatch(e: Exc, context: map<string, string>): (r: Response)
    ensures e.CustomException? ==> r == ErrorResponse(e.messageKey, e.context, None)
    ensures e.Raised? && KnownCode(e.isA).Some? ==> r == ErrorResponse(KnownCode(e.isA).value, context, Some(e.text))
    ensures IsUnknown(e) ==> r == ErrorResponse("UNKNOWN_ERROR", context, None)
  {
    match e
    case CustomException(key, ctx) => ErrorResponse(key, ctx, None)
    case Raised(_, text, isA) =>
      var code := KnownCode(isA);
      if code.Some? then ErrorResponse(code.value, context, Some(text)) else ErrorResponse("UNKNOWN_ERROR", context, None)
  }

  /** A custom exception's response does not depend on the handler context: the mapping is never consulted. */
  lemma CustomIgnoresContext(key: string, ctx: map<string, string>, c1: map<string, string>, c2: map<string, string>)
    ensures Dispatch(CustomException(key, ctx), c1) == Dispatch(CustomException(key, ctx), c2)
  {
  }

  // ---------------------------------------------------------------------
  // HTML escaping.
  // ---------------------------------------------------------------------

  function EscapeChar(c: char): string
  {
    if c == '&' then "&amp;"
    else if c == '<' then "&lt;"
    else if c == '>' then "&gt;"
    else if c == '"' then "&quot;"
    else if c == '\'' then "&#x27;"
    else [c]
  }

  predicate IsHtmlSpecial(c: char)
  {
    c == '<' || c == '>' || c == '"' || c == '\''
  }

  /** Each character replaced by its entity, every other character kept, in order. */
  function EscapeChars(s: string): (r: string)
    ensures forall i :: 0 <= i < |r| ==> !IsHtmlSpecial(r[i])
    ensures |r| >= |s|
    decreases |s|
  {
    if |s| == 0 then []
    else
      var rest := EscapeChars(s[1..]);
      var e := EscapeChar(s[0]);
      assert forall i :: 0 <= i < |e| ==> !IsHtmlSpecial(e[i]);
      assert forall i :: |e| <= i < |e + rest| ==> (e + rest)[i] == rest[i - |e|];
      e + rest
  }

  /** `_escape_html`. */
  function EscapeHtml(text: string): (r: string)
    ensures text == "" ==> r == "N/A"
    ensures forall i :: 0 <= i < |r| ==> !IsHtmlSpecial(r[i])
  {
    if text == "" then "N/A" else EscapeChars(text)
  }

  /** Decoding of the five entities `_escape_html` produces. */
  function Unescape(s: string): string
    decreases |s|
  {
    if |s| == 0 then []
    else if StartsWith(s, "&amp;") then "&" + Unescape(s[5..])
    else if StartsWith(s, "&lt;") then "<" + Unescape(s[4..])
    else if StartsWith(s, "&gt;") then ">" + Unescape(s[4..])
    else if StartsWith(s, "&quot;") then "\"" + Unescape(s[6..])
    else if StartsWith(s, "&#x27;") then "'" + Unescape(s[6..])
    else [s[0]] + Unescape(s[1..])
  }

  lemma CharDiffers(x: string, p: string, k: nat)
    requires k < |x| && k < |p| && x[k] != p[k]
    ensures !StartsWith(x, p)
  {
    if |p| <= |x| {
      assert x[..|p|][k] == x[k];
    }
  }

  /** An entity is recognised by its second character, a plain character by its first. */
  lemma NoOtherEntity(x: string)
    requires |x| > 0
    ensures x[0] != '&' ==> !StartsWith(x, "&amp;") && !StartsWith(x, "&lt;") && !StartsWith(x, "&gt;")
                            && !StartsWith(x, "&quot;") && !StartsWith(x, "&#x27;")
    ensures |x| > 1 && x[1] != 'a' ==> !StartsWith(x, "&amp;")
    ensures |x| > 1 && x[1] != 'l' ==> !StartsWith(x, "&lt;")
    ensures |x| > 1 && x[1] != 'g' ==> !StartsWith(x, "&gt;")
    ensures |x| > 1 && x[1] != 'q' ==> !StartsWith(x, "&quot;")
  {
    if x[0] != '&' {
      CharDiffers(x, "&amp;", 0);
      CharDiffers(x, "&lt;", 0);
      CharDiffers(x, "&gt;", 0);
      CharDiffers(x, "&quot;", 0);
      CharDiffers(x, "&#x27;", 0);
    }
    if |x| > 1 {
      if x[1] != 'a' { CharDiffers(x, "&amp;", 1); }
      if x[1] != 'l' { CharDiffers(x, "&lt;", 1); }
      if x[1] != 'g' { CharDiffers(x, "&gt;", 1); }
      if x[1] != 'q' { CharDiffers(x, "&quot;", 1); }
    }
  }

  lemma UnescapeOne(c: char, rest: string)
    ensures Unescape(EscapeChar(c) + rest) == [c] + Unescape(rest)
  {
    var e := EscapeChar(c);
    var x := e + rest;
    assert x[..|e|] == e && x[|e|..] == rest;
    assert x[0] == e[0] && (|e| > 1 ==> x[1] == e[1]);
    NoOtherEntity(x);
  }

  /** Escaping loses nothing: decoding the entities gives back the text. */
  lemma {:induction false} EscapeRoundTrip(s: string)
    ensures Unescape(EscapeChars(s)) == s
    decreases |s|
  {
    if |s| > 0 {
      EscapeRoundTrip(s[1..]);
      UnescapeOne(s[0], EscapeChars(s[1..]));
      assert [s[0]] + s[1..] == s;
    }
  }

  // ---------------------------------------------------------------------
  // Alert details and text.
  // ---------------------------------------------------------------------

  /**
    The request as far as the alert uses it: the client address found for it
    (possibly none or empty), its `META`, and its `path` and `method`
    attributes when it has them.
   */
  datatype Request = Request(clientIp: Option<string>, meta: map<string, string>, path: Option<string>, verb: Option<string>)

  /** The last 2000 characters of the formatted traceback, or a placeholder when there is none. */
  function SafeTraceback(tb: string): (r: string)
    ensures tb == "" || Strip(tb) == "NoneType: None" ==> r == "No traceback available"
    ensures tb != "" && Strip(tb) != "NoneType: None" ==>
              EndsWith(tb, r) && |r| == (if |tb| < 2000 then |tb| else 2000)
  {
    if tb != "" && Strip(tb) != "NoneType: None" then
      (if |tb| <= 2000 then tb else tb[|tb| - 2000..])
    else "No traceback available"
  }

  datatype ErrorDetails = ErrorDetails(
    traceback: string, message: string, clientIp: string, port: string, requestPath: string, requestMethod: string)

  function OrUnknown(v: Option<string>): string
  {
    if v.Some? then v.value else "unknown"
  }

  /** `_extract_error_details`, for an exception of class `className` whose `str()` is `text`. */
  function ExtractErrorDetails(request: Option<Request>, className: string, text: string, tb: string): (d: ErrorDetails)
    ensures d.traceback == SafeTraceback(tb)
    ensures request.None? ==> d.clientIp == "unknown" && d.port == "unknown" && d.requestPath == "unknown" && d.requestMethod == "unknown"
    ensures d.clientIp != ""
    ensures request.Some? && request.value.clientIp.Some? && request.value.clientIp.value != "" ==> d.clientIp == request.value.clientIp.value
  {
    var ip := if request.Some? && request.value.clientIp.Some? then request.value.clientIp.value else "unknown";
    var port := if request.Some? && "REMOTE_PORT" in request.value.meta then request.value.meta["REMOTE_PORT"] else "unknown";
    var path := if request.Some? then OrUnknown(request.value.path) else "unknown";
    var verb := if request.Some? then OrUnknown(request.value.verb) else "unknown";
    ErrorDetails(
      SafeTraceback(tb),
      className + ": " + text + "\n" + "Path: " + verb + " " + path,
      if ip != "" then ip else "unknown",
      port, path, verb)
  }

  function AlertHeader(): string
  {
    "\U{274C} <b>Exception Alert</b> \U{274C}\n\n"
  }

  function Code(text: string): string
  {
    "<code>" + text + "</code>"
  }

  function MessageLine(d: ErrorDetails): string
  {
    "<b>\U{270D}\U{FE0F} Message:</b> " + Code(EscapeHtml(d.message)) + "\n\n"
  }

  function TracebackLine(d: ErrorDetails): string
  {
    "<b>\U{1F516} Traceback:</b> " + Code(EscapeHtml(d.traceback)) + "\n\n"
  }

  function AddressLine(d: ErrorDetails): string
  {
    "<b>\U{1F310} IP Address/Port:</b> " + Code(EscapeHtml(d.clientIp) + ":" + EscapeHtml(d.port)) + "\n\n"
  }

  /** `_format_telegram_message`. */
  function FormatTelegramMessage(d: ErrorDetails): string
  {
    AlertHeader() + MessageLine(d) + TracebackLine(d) + AddressLine(d)
  }

  lemma ContainsMiddle(a: string, b: string, c: string)
    ensures Contains(a + b + c, b)
  {
    assert (a + b + c)[|a|..|a| + |b|] == b;
    assert OccursAt(a + b + c, b, |a|);
  }

  lemma ContainsExtends(x: string, y: string, w: string)
    ensures Contains(x, w) ==> Contains(x + y, w) && Contains(y + x, w)
  {
    if Contains(x, w) {
      var i :| OccursAt(x, w, i);
      assert (x + y)[i..i + |w|] == x[i..i + |w|];
      assert OccursAt(x + y, w, i);
      assert (y + x)[|y| + i..|y| + i + |w|] == x[i..i + |w|];
      assert OccursAt(y + x, w, |y| + i);
    }
  }

  /** A word inside one of four lines occurs in their concatenation. */
  lemma ContainsInLines(h: string, l1: string, l2: string, l3: string, w: string)
    requires Contains(l1, w) || Contains(l2, w) || Contains(l3, w)
    ensures Contains(h + l1 + l2 + l3, w)
  {
    ContainsExtends(l1, h, w);
    ContainsExtends(l2, h + l1, w);
    ContainsExtends(h + l1, l2, w);
    ContainsExtends(l3, h + l1 + l2, w);
    ContainsExtends(h + l1 + l2, l3, w);
  }

  lemma MessageEmbedded(d: ErrorDetails)
    ensures Contains(FormatTelegramMessage(d), Code(EscapeHtml(d.message)))
  {
    ContainsMiddle("<b>\U{270D}\U{FE0F} Message:</b> ", Code(EscapeHtml(d.message)), "\n\n");
    ContainsInLines(AlertHeader(), MessageLine(d), TracebackLine(d), AddressLine(d), Code(EscapeHtml(d.message)));
  }

  lemma TracebackEmbedded(d: ErrorDetails)
    ensures Contains(FormatTelegramMessage(d), Code(EscapeHtml(d.traceback)))
  {
    ContainsMiddle("<b>\U{1F516} Traceback:</b> ", Code(EscapeHtml(d.traceback)), "\n\n");
    ContainsInLines(AlertHeader(), MessageLine(d), TracebackLine(d), AddressLine(d), Code(EscapeHtml(d.traceback)));
  }

  lemma AddressEmbedded(d: ErrorDetails)
    ensures Contains(FormatTelegramMessage(d), Code(EscapeHtml(d.clientIp) + ":" + EscapeHtml(d.port)))
  {
    var ci := Code(EscapeHtml(d.clientIp) + ":" + EscapeHtml(d.port));
    ContainsMiddle("<b>\U{1F310} IP Address/Port:</b> ", ci, "\n\n");
    ContainsInLines(AlertHeader(), MessageLine(d), TracebackLine(d), AddressLine(d), ci);
  }

  /**
    The alert text starts with the fixed header and embeds, each inside a
    `<code>` element, the escaped message, the escaped traceback and the
    escaped `ip:port`.
   */
  lemma AlertEmbedsDetails(d: ErrorDetails)
    ensures var m := FormatTelegramMessage(d);
      && StartsWith(m, AlertHeader())
      && Contains(m, Code(EscapeHtml(d.message)))
      && Contains(m, Code(EscapeHtml(d.traceback)))
      && Contains(m, Code(EscapeHtml(d.clientIp) + ":" + EscapeHtml(d.port)))
  {
    var h := AlertHeader();
    var rest := MessageLine(d) + TracebackLine(d) + AddressLine(d);
    assert FormatTelegramMessage(d) == h + rest;
    assert (h + rest)[..|h|] == h;
    MessageEmbedded(d);
    TracebackEmbedded(d);
    AddressEmbedded(d);
  }

  // ---------------------------------------------------------------------
  // Handling, with the alert channel as state.
  // ---------------------------------------------------------------------

  /** The Telegram alerts sent and the alert failures logged. */
  class AlertLog {
    var alerts: seq<string>
    var failures: nat

    constructor ()
      ensures alerts == [] && failures == 0
    {
      alerts := [];
      failures := 0;
    }

    /** `alert_to_telegram`, or `logger.error` when building or sending the alert raised. */
    method Record(text: string, failed: bool)
      modifies this
      ensures failed ==> alerts == old(alerts) && failures == old(failures) + 1
      ensures !failed ==> alerts == old(alerts) + [text] && failures == old(failures)
    {
      if failed {
        failures := failures + 1;
      } else {
        alerts := alerts + [text];
      }
    }
  }

  /**
    `_handle_unknown_exception`: tries to alert, and answers `UNKNOWN_ERROR`
    whether or not the alert could be built and sent (`alertFails`).
   */
  method HandleUnknownException(log: AlertLog, className: string, text: string, context: map<string, string>,
                                request: Option<Request>, tb: string, alertFails: bool)
    returns (resp: Response)
    modifies log
    ensures resp == ErrorResponse("UNKNOWN_ERROR", context, None)
    ensures !alertFails ==>
              log.alerts == old(log.alerts) + [FormatTelegramMessage(ExtractErrorDetails(request, className, text, tb))]
              && log.failures == old(log.failures)
    ensures alertFails ==> log.alerts == old(log.alerts) && log.failures == old(log.failures) + 1
  {
    var details := ExtractErrorDetails(request, className, text, tb);
    var message := FormatTelegramMessage(details);
    log.Record(message, alertFails);
    resp := ErrorResponse("UNKNOWN_ERROR", context, None);
  }

  /** `handle_exception`: custom first, then the mapping, then the unknown path with its alert. */
  method HandleException(log: AlertLog, e: Exc, context: map<string, string>, request: Option<Request>, tb: string,
                         alertFails: bool)
    returns (resp: Response)
    modifies log
    ensures resp == Dispatch(e, context)
    ensures !IsUnknown(e) ==> log.alerts == old(log.alerts) && log.failures == old(log.failures)
    ensures IsUnknown(e) && !alertFails ==>
              log.alerts == old(log.alerts) + [FormatTelegramMessage(ExtractErrorDetails(request, e.className, e.text, tb))]
    ensures IsUnknown(e) && alertFails ==> log.alerts == old(log.alerts) && log.failures == old(log.failures) + 1
  {
    if e.CustomException? {
      resp := ErrorResponse(e.messageKey, e.context, None);
      return;
    }
    var code := KnownCode(e.isA);
    if code.Some? {
      resp := ErrorResponse(code.value, context, Some(e.text));
      return;
    }
    resp := HandleUnknownException(log, e.className, e.text, context, request, tb, alertFails);
  }
}
