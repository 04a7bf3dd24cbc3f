/** Event records, the in-process bus, and the journal file. */
module Events {
  import opened Sequences
  import opened Sanitizer

  const SEVERITIES: set<string> := {"debug", "info", "warning", "error", "critical"}
  const MAX_SUMMARY := 500

  const RESERVED_KEYS: set<string> := {
    "type", "summary", "message", "severity", "engine", "source", "safe_for_logs", "event_id", "timestamp", "details"}

  datatype Event = Event(
    kind: string, summary: string, severity: string, engine: Option<string>, source: Option<string>,
    details: seq<Member>, safeForLogs: bool, eventId: string, timestamp: string)

  /** What `publish` accepts. */
  datatype RawEvent = Ready(event: Event) | Value(json: Json) | Unusable

  /** What the outside supplies: a fresh identifier, the time, and `str` of non-string values. */
  datatype Ambient = Ambient(freshId: string, now: string, render: Json -> string)

  ghost predicate Reasonable(ambient: Ambient)
  {
    0 < |ambient.freshId| <= 64 && ambient.now != "" && forall v :: ambient.render(v) != ""
  }

  function CleanDetails(details: seq<Member>): seq<Member> { SanitizeDetails(details, RULES) }

  lemma CleanDetailsMeaning(details: seq<Member>)
    ensures CleanMembers(CleanDetails(details), MAX_DEPTH, RULES)
    ensures CleanDetails(CleanDetails(details)) == CleanDetails(details)
  {
    RulesAreSound();
    SanitizeDetailsMeaning(details, RULES);
  }

  function Get(members: seq<Member>, key: string): Json
  {
    if members == [] then Null
    else if members[0].key == key then members[0].value
    else Get(members[1..], key)
  }

  predicate HasKey(members: seq<Member>, key: string)
  {
    exists m <- members :: m.key == key
  }

  predicate Truthy(v: Json)
  {
    match v
    case Null => false
    case Bool(b) => b
    case Num(n) => n != 0.0
    case Str(s) => s != ""
    case Arr(items) => items != []
    case Obj(members) => members != []
  }

  function Text(v: Json, ambient: Ambient): string
  {
    if v.Str? then v.s else ambient.render(v)
  }

  /** `str(v or "")` */
  function TextOr(v: Json, otherwise: string, ambient: Ambient): string
  {
    if Truthy(v) then Text(v, ambient) else otherwise
  }

  function RStrip(s: string): string
  {
    if s != "" && IsSpace(s[|s| - 1]) then RStrip(s[..|s| - 1]) else s
  }

  function Strip(s: string): string { RStrip(LStrip(s)) }

  function ValidSeverity(v: Json, ambient: Ambient): string
  {
    Normalized(Lower(TextOr(v, "", ambient)), SEVERITIES, "info")
  }

  function OptionalText(v: Json, ambient: Ambient): Option<string>
  {
    if Truthy(v) then Some(Take(Text(v, ambient), 64)) else None
  }

  function Unreserved(members: seq<Member>): seq<Member>
  {
    if members == [] then []
    else (if members[0].key in RESERVED_KEYS then [] else [members[0]]) + Unreserved(members[1..])
  }

  function KindOf(raw: seq<Member>, ambient: Ambient): string
  {
    Strip(TextOr(Get(raw, "type"), "", ambient))
  }

  /** The text that becomes the summary, before it is cut. */
  function SummaryText(raw: seq<Member>, ambient: Ambient): string
  {
    TextOr(Get(raw, "summary"), TextOr(Get(raw, "message"), "", ambient), ambient)
  }

  function SummaryOf(raw: seq<Member>, ambient: Ambient): string
  {
    Take(SummaryText(raw, ambient), MAX_SUMMARY)
  }

  function DetailsOf(raw: seq<Member>): seq<Member>
  {
    CleanDetails(if Get(raw, "details").Obj? then Get(raw, "details").members else Unreserved(raw))
  }

  function SafeForLogsOf(raw: seq<Member>): bool
  {
    !HasKey(raw, "safe_for_logs") || Truthy(Get(raw, "safe_for_logs"))
  }

  function EventIdOf(raw: seq<Member>, ambient: Ambient): string
  {
    Take(TextOr(Get(raw, "event_id"), ambient.freshId, ambient), 64)
  }

  /** `Event.from_raw` on a dict. */
  function FromDict(raw: seq<Member>, ambient: Ambient): Option<Event>
  {
    var kind := KindOf(raw, ambient);
    if kind == "" || |kind| > 128 then None
    else Some(Event(
      kind, SummaryOf(raw, ambient), ValidSeverity(Get(raw, "severity"), ambient),
      OptionalText(Get(raw, "engine"), ambient), OptionalText(Get(raw, "source"), ambient),
      DetailsOf(raw), SafeForLogsOf(raw), EventIdOf(raw, ambient),
      TextOr(Get(raw, "timestamp"), ambient.now, ambient)))
  }

  /** `Event.from_raw`: an `Event` passes as it is. */
  function FromRaw(raw: RawEvent, ambient: Ambient): Option<Event>
  {
    match raw
    case Ready(event) => Some(event)
    case Value(Str(s)) => FromDict([Member("type", Str(s))], ambient)
    case Value(Obj(members)) => FromDict(members, ambient)
    case _ => None
  }

  function OptionalJson(v: Option<string>): Json { if v.Some? then Str(v.value) else Null }

  /** `to_dict` */
  function ToDict(e: Event): seq<Member>
  {
    [Member("event_id", Str(e.eventId)), Member("timestamp", Str(e.timestamp)), Member("type", Str(e.kind)),
     Member("severity", Str(e.severity)), Member("engine", OptionalJson(e.engine)),
     Member("source", OptionalJson(e.source)), Member("summary", Str(e.summary)),
     Member("details", Obj(e.details)), Member("safe_for_logs", Bool(e.safeForLogs))]
  }

  // ---------------------------------------------------------------- round trip

  /** An event type that `from_raw` takes. */
  predicate UsableKind(kind: string) { 0 < |Strip(kind)| <= 128 }

  ghost predicate ShortText(v: Option<string>) { v.Some? ==> 0 < |v.value| <= 64 }

  /** An event in normal form. */
  ghost predicate Normal(e: Event)
  {
    && 0 < |e.kind| <= 128 && Strip(e.kind) == e.kind
    && |e.summary| <= MAX_SUMMARY
    && e.severity in SEVERITIES
    && ShortText(e.engine) && ShortText(e.source)
    && CleanDetails(e.details) == e.details
    && 0 < |e.eventId| <= 64
    && e.timestamp != ""
  }

  lemma {:induction false} RStripMeaning(s: string)
    ensures RStrip(s) <= s
    ensures RStrip(s) == "" || !IsSpace(RStrip(s)[|RStrip(s)| - 1])
    ensures RStrip(RStrip(s)) == RStrip(s)
  {
    if s != "" && IsSpace(s[|s| - 1]) {
      RStripMeaning(s[..|s| - 1]);
    }
  }

  lemma {:induction false} LStripMeaning(s: string)
    ensures LStrip(s) == "" || !IsSpace(LStrip(s)[0])
  {
    if s != "" && IsSpace(s[0]) {
      LStripMeaning(s[1..]);
    }
  }

  lemma {:induction false} RStripEnd(s: string) returns (tail: string)
    ensures s == RStrip(s) + tail && forall c <- tail :: IsSpace(c)
  {
    tail := "";
    if s != "" && IsSpace(s[|s| - 1]) {
      tail := RStripEnd(s[..|s| - 1]);
      assert s == RStrip(s) + (tail + [s[|s| - 1]]);
      tail := tail + [s[|s| - 1]];
    }
  }

  lemma {:induction false} LStripStart(s: string) returns (head: string)
    ensures s == head + LStrip(s) && forall c <- head :: IsSpace(c)
  {
    head := "";
    if s != "" && IsSpace(s[0]) {
      head := LStripStart(s[1..]);
      assert s == ([s[0]] + head) + LStrip(s);
      head := [s[0]] + head;
    }
  }

  /** White space at both ends goes, and only that. */
  lemma StripMeaning(s: string) returns (head: string, tail: string)
    ensures s == head + Strip(s) + tail && forall c <- head + tail :: IsSpace(c)
    ensures Strip(s) != "" ==> !IsSpace(Strip(s)[0]) && !IsSpace(Strip(s)[|Strip(s)| - 1])
  {
    head := LStripStart(s);
    tail := RStripEnd(LStrip(s));
    assert s == head + (Strip(s) + tail) == head + Strip(s) + tail;
    LStripMeaning(s);
    RStripMeaning(LStrip(s));
  }

  lemma StripTwice(s: string)
    ensures Strip(Strip(s)) == Strip(s)
  {
    LStripMeaning(s);
    RStripMeaning(LStrip(s));
  }

  lemma {:induction false} LowerOfLowercase(s: string)
    requires forall i :: 0 <= i < |s| ==> 'a' <= s[i] <= 'z'
    ensures Lower(s) == s
  {
    if s != "" {
      LowerOfLowercase(s[1..]);
    }
  }

  lemma SeverityLetters(s: string)
    requires s in SEVERITIES
    ensures s != "" && forall i :: 0 <= i < |s| ==> 'a' <= s[i] <= 'z'
  {
  }

  lemma SeveritiesAreLower(s: string)
    requires s in SEVERITIES
    ensures Lower(s) == s && s != ""
  {
    SeverityLetters(s);
    LowerOfLowercase(s);
  }

  lemma {:induction false} GetAt(members: seq<Member>, key: string, i: nat)
    requires i < |members| && members[i].key == key
    requires forall j :: 0 <= j < i ==> members[j].key != key
    ensures Get(members, key) == members[i].value
  {
    if i > 0 {
      assert members[0].key != key;
      GetAt(members[1..], key, i - 1);
    }
  }

  lemma {:induction false} GetAbsent(members: seq<Member>, key: string)
    requires forall j :: 0 <= j < |members| ==> members[j].key != key
    ensures Get(members, key) == Null
  {
    if members != [] {
      GetAbsent(members[1..], key);
    }
  }

  const EVENT_KEYS: seq<string> := [
    "event_id", "timestamp", "type", "severity", "engine", "source", "summary", "details", "safe_for_logs"]

  lemma EventKeysDiffer()
    ensures forall i, j :: 0 <= i < j < |EVENT_KEYS| ==> EVENT_KEYS[i] != EVENT_KEYS[j]
  {
    var lengths := [8, 9, 4, 8, 6, 6, 7, 7, 13];
    assert forall i :: 0 <= i < |EVENT_KEYS| ==> |EVENT_KEYS[i]| == lengths[i];
    assert EVENT_KEYS[0][0] == 'e' && EVENT_KEYS[3][0] == 's';
    assert EVENT_KEYS[4][0] == 'e' && EVENT_KEYS[5][0] == 's';
    assert EVENT_KEYS[6][0] == 's' && EVENT_KEYS[7][0] == 'd';
  }

  lemma NoMessageKey()
    ensures "message" !in EVENT_KEYS
  {
    var m := "message";
    assert |m| == 7 && m[0] == 'm';
  }

  /** Looking up one of the keys `to_dict` writes. */
  lemma GetOfToDict(e: Event, i: nat)
    requires i < |EVENT_KEYS|
    ensures Get(ToDict(e), EVENT_KEYS[i]) == ToDict(e)[i].value
  {
    EventKeysDiffer();
    var d := ToDict(e);
    assert forall j :: 0 <= j < |d| ==> d[j].key == EVENT_KEYS[j];
    GetAt(d, EVENT_KEYS[i], i);
  }

  lemma NoMessage(e: Event)
    ensures Get(ToDict(e), "message") == Null && HasKey(ToDict(e), "safe_for_logs")
  {
    NoMessageKey();
    var d := ToDict(e);
    assert forall j :: 0 <= j < |d| ==> d[j].key == EVENT_KEYS[j] && EVENT_KEYS[j] in EVENT_KEYS;
    GetAbsent(d, "message");
    assert d[8] in d;
  }

  /** Each text field comes back as it was exactly when it fits its field. */
  lemma TextFieldsRoundTrip(e: Event, ambient: Ambient)
    requires Reasonable(ambient)
    ensures var d := ToDict(e);
      && (SummaryOf(d, ambient) == e.summary <==> |e.summary| <= MAX_SUMMARY)
      && (EventIdOf(d, ambient) == e.eventId <==> 0 < |e.eventId| <= 64)
      && (TextOr(Get(d, "timestamp"), ambient.now, ambient) == e.timestamp <==> e.timestamp != "")
  {
    NoMessage(e);
    GetOfToDict(e, 0);
    GetOfToDict(e, 1);
    GetOfToDict(e, 6);
  }

  lemma KindRoundTrips(e: Event, ambient: Ambient)
    ensures KindOf(ToDict(e), ambient) == Strip(e.kind)
  {
    GetOfToDict(e, 2);
  }

  lemma OptionalFieldsRoundTrip(e: Event, ambient: Ambient)
    requires Reasonable(ambient)
    ensures var d := ToDict(e);
      && (OptionalText(Get(d, "engine"), ambient) == e.engine <==> ShortText(e.engine))
      && (OptionalText(Get(d, "source"), ambient) == e.source <==> ShortText(e.source))
  {
    GetOfToDict(e, 4);
    GetOfToDict(e, 5);
  }

  function Normalized(text: string, allowed: set<string>, default_: string): string
  {
    if text in allowed then text else default_
  }

  lemma NormalizedFixpoint(s: string, lowered: string, allowed: set<string>, default_: string)
    requires default_ in allowed && (s in allowed ==> lowered == s)
    ensures Normalized(lowered, allowed, default_) == s <==> s in allowed
  {
  }

  lemma SeverityFixpoint(s: string, ambient: Ambient)
    ensures ValidSeverity(Str(s), ambient) == s <==> s in SEVERITIES
  {
    if s in SEVERITIES {
      SeveritiesAreLower(s);
    }
    NormalizedFixpoint(s, Lower(s), SEVERITIES, "info");
  }

  lemma SeverityRoundTrips(e: Event, ambient: Ambient)
    ensures ValidSeverity(Get(ToDict(e), "severity"), ambient) == e.severity <==> e.severity in SEVERITIES
  {
    GetOfToDict(e, 3);
    assert Get(ToDict(e), "severity") == Str(e.severity);
    SeverityFixpoint(e.severity, ambient);
  }

  lemma DetailsRoundTrip(e: Event)
    ensures DetailsOf(ToDict(e)) == CleanDetails(e.details)
    ensures SafeForLogsOf(ToDict(e)) == e.safeForLogs
  {
    NoMessage(e);
    GetOfToDict(e, 7);
    GetOfToDict(e, 8);
  }

  /** Reading back what `to_dict` wrote reproduces the event exactly when it is in normal form. */
  lemma RoundTrip(e: Event, ambient: Ambient)
    requires Reasonable(ambient)
    ensures FromRaw(Value(Obj(ToDict(e))), ambient) == Some(e) <==> Normal(e)
  {
    KindRoundTrips(e, ambient);
    TextFieldsRoundTrip(e, ambient);
    OptionalFieldsRoundTrip(e, ambient);
    SeverityRoundTrips(e, ambient);
    DetailsRoundTrip(e);
    FieldsRoundTrip(ToDict(e), e, ambient);
  }

  lemma FieldsRoundTrip(d: seq<Member>, e: Event, ambient: Ambient)
    requires KindOf(d, ambient) == Strip(e.kind)
    requires SummaryOf(d, ambient) == e.summary <==> |e.summary| <= MAX_SUMMARY
    requires EventIdOf(d, ambient) == e.eventId <==> 0 < |e.eventId| <= 64
    requires TextOr(Get(d, "timestamp"), ambient.now, ambient) == e.timestamp <==> e.timestamp != ""
    requires OptionalText(Get(d, "engine"), ambient) == e.engine <==> ShortText(e.engine)
    requires OptionalText(Get(d, "source"), ambient) == e.source <==> ShortText(e.source)
    requires ValidSeverity(Get(d, "severity"), ambient) == e.severity <==> e.severity in SEVERITIES
    requires DetailsOf(d) == CleanDetails(e.details) && SafeForLogsOf(d) == e.safeForLogs
    ensures FromDict(d, ambient) == Some(e) <==> Normal(e)
  {
  }

  lemma KindIsNormal(raw: seq<Member>, ambient: Ambient)
    ensures Strip(KindOf(raw, ambient)) == KindOf(raw, ambient)
  {
    StripTwice(TextOr(Get(raw, "type"), "", ambient));
  }

  lemma TextsAreNormal(raw: seq<Member>, ambient: Ambient)
    requires Reasonable(ambient)
    ensures |SummaryOf(raw, ambient)| <= MAX_SUMMARY && 0 < |EventIdOf(raw, ambient)| <= 64
    ensures TextOr(Get(raw, "timestamp"), ambient.now, ambient) != ""
  {
    TextIsNotEmpty(Get(raw, "event_id"), ambient.freshId, ambient);
    TextIsNotEmpty(Get(raw, "timestamp"), ambient.now, ambient);
  }

  lemma TextIsNotEmpty(v: Json, otherwise: string, ambient: Ambient)
    requires Reasonable(ambient) && otherwise != ""
    ensures TextOr(v, otherwise, ambient) != ""
  {
  }

  lemma OptionalTextIsShort(v: Json, ambient: Ambient)
    requires Reasonable(ambient)
    ensures ShortText(OptionalText(v, ambient))
  {
  }

  lemma SeverityIsValid(v: Json, ambient: Ambient)
    ensures ValidSeverity(v, ambient) in SEVERITIES
  {
    assert "info" in SEVERITIES;
  }

  lemma DetailsAreClean(raw: seq<Member>)
    ensures CleanDetails(DetailsOf(raw)) == DetailsOf(raw)
  {
    CleanDetailsMeaning(if Get(raw, "details").Obj? then Get(raw, "details").members else Unreserved(raw));
  }

  lemma NormalFields(e: Event)
    requires 0 < |e.kind| <= 128 && Strip(e.kind) == e.kind && |e.summary| <= MAX_SUMMARY
    requires e.severity in SEVERITIES && ShortText(e.engine) && ShortText(e.source)
    requires CleanDetails(e.details) == e.details && 0 < |e.eventId| <= 64 && e.timestamp != ""
    ensures Normal(e)
  {
  }

  lemma DictIsNormal(raw: seq<Member>, ambient: Ambient)
    requires Reasonable(ambient) && FromDict(raw, ambient).Some?
    ensures Normal(FromDict(raw, ambient).value)
  {
    KindIsNormal(raw, ambient);
    TextsAreNormal(raw, ambient);
    OptionalTextIsShort(Get(raw, "engine"), ambient);
    OptionalTextIsShort(Get(raw, "source"), ambient);
    SeverityIsValid(Get(raw, "severity"), ambient);
    DetailsAreClean(raw);
    NormalFields(FromDict(raw, ambient).value);
  }

  /** Whatever is accepted, other than a ready-made `Event`, comes out in normal form. */
  lemma AcceptedIsNormal(raw: RawEvent, ambient: Ambient)
    requires Reasonable(ambient) && !raw.Ready?
    requires FromRaw(raw, ambient).Some?
    ensures Normal(FromRaw(raw, ambient).value)
  {
    DictIsNormal(if raw.json.Str? then [Member("type", raw.json)] else raw.json.members, ambient);
  }

  // ---------------------------------------------------------------- ready-made events

  /** What `publish` accepts is in normal form if and only if it did not come ready-made in
      another form. */
  lemma AcceptedIsNormalIff(raw: RawEvent, ambient: Ambient)
    requires Reasonable(ambient) && FromRaw(raw, ambient).Some?
    ensures Normal(FromRaw(raw, ambient).value) <==> (raw.Ready? ==> Normal(raw.event))
  {
    if !raw.Ready? {
      AcceptedIsNormal(raw, ambient);
    }
  }

  lemma PasswordIsSensitive()
    ensures IsSensitiveKey("password")
  {
    var key := "password";
    LowerOfLowercase(key);
    assert Dashes(key) == key;
    assert key in SENSITIVE_KEYS;
  }

  /** A case: a ready-made event keeps a password in its details. */
  lemma ReadyEventKeepsSecret(e: Event, secret: string, ambient: Ambient)
    requires e.details == [Member("password", Str(secret))]
    ensures FromRaw(Ready(e), ambient) == Some(e) && !Normal(e)
  {
    PasswordIsSensitive();
    CleanDetailsMeaning(e.details);
    assert e.details[0] in e.details;
  }

  // ---------------------------------------------------------------- texts that are only cut

  predicate LooksSecret(s: string) { LooksLikeSecretUri(s, SECRET_URI_SCHEMES) }

  ghost predicate KeepsScheme(s: string, n: nat) { SchemeWithin(s, n, SECRET_URI_SCHEMES) }

  lemma CutTextLooksSecretIff(s: string, n: nat)
    ensures LooksSecret(Take(s, n)) <==> KeepsScheme(s, n)
  {
    SchemesAreAscii();
    CutLooksSecretIff(s, n, SECRET_URI_SCHEMES);
  }

  predicate SomeLooksSecret(v: Option<string>) { v.Some? && LooksSecret(v.value) }

  /** A value that is given, as text, keeps its scheme in front of the cut of a short field. */
  ghost predicate KeepsSchemeIn(v: Json, ambient: Ambient) { Truthy(v) && KeepsScheme(Text(v, ambient), 64) }

  lemma OptionalTextLooksSecretIff(v: Json, ambient: Ambient)
    ensures SomeLooksSecret(OptionalText(v, ambient)) <==> KeepsSchemeIn(v, ambient)
  {
    CutTextLooksSecretIff(Text(v, ambient), 64);
  }

  /** The summary, the engine, the source and the identifier of an accepted dict are cut, not
      scrubbed: each of them looks like a listed URI if and only if the text given for it does, and
      the scheme is in front of the cut. */
  lemma UnscrubbedTextsIff(raw: seq<Member>, ambient: Ambient)
    requires FromDict(raw, ambient).Some?
    ensures var e := FromDict(raw, ambient).value;
      && (LooksSecret(e.summary) <==> KeepsScheme(SummaryText(raw, ambient), MAX_SUMMARY))
      && (SomeLooksSecret(e.engine) <==> KeepsSchemeIn(Get(raw, "engine"), ambient))
      && (SomeLooksSecret(e.source) <==> KeepsSchemeIn(Get(raw, "source"), ambient))
      && (LooksSecret(e.eventId) <==> KeepsScheme(TextOr(Get(raw, "event_id"), ambient.freshId, ambient), 64))
  {
    CutTextLooksSecretIff(SummaryText(raw, ambient), MAX_SUMMARY);
    OptionalTextLooksSecretIff(Get(raw, "engine"), ambient);
    OptionalTextLooksSecretIff(Get(raw, "source"), ambient);
    CutTextLooksSecretIff(TextOr(Get(raw, "event_id"), ambient.freshId, ambient), 64);
    DictTexts(raw, ambient);
  }

  lemma DictTexts(raw: seq<Member>, ambient: Ambient)
    requires FromDict(raw, ambient).Some?
    ensures var e := FromDict(raw, ambient).value;
      && e.summary == SummaryOf(raw, ambient) && e.eventId == EventIdOf(raw, ambient)
      && e.engine == OptionalText(Get(raw, "engine"), ambient)
      && e.source == OptionalText(Get(raw, "source"), ambient)
  {
  }

  lemma StartsWithScheme(uri: string)
    requires "vless://" <= uri
    ensures LooksSecret(uri)
  {
    var scheme := "vless://";
    assert uri == scheme + uri[|scheme|..];
    SchemeLooksSecret(scheme, uri[|scheme|..], SECRET_URI_SCHEMES);
  }

  /** A case: a proxy URI that is given as the summary is in the event, whatever its type. */
  lemma SummaryKeepsUri(kind: string, uri: string, ambient: Ambient)
    requires UsableKind(kind) && "vless://" <= uri && |uri| <= MAX_SUMMARY
    ensures var e := FromRaw(Value(Obj([Member("type", Str(kind)), Member("summary", Str(uri))])), ambient);
      e.Some? && e.value.summary == uri && LooksSecret(e.value.summary)
  {
    var raw := [Member("type", Str(kind)), Member("summary", Str(uri))];
    assert |"type"| == 4 && |"summary"| == 7;
    GetAt(raw, "type", 0);
    GetAt(raw, "summary", 1);
    StartsWithScheme(uri);
  }

  // ---------------------------------------------------------------- which field comes from where

  /** A bare string is an event of that type with everything else at its default. */
  lemma BareStringIsType(s: string, ambient: Ambient)
    ensures FromRaw(Value(Str(s)), ambient) ==
      if !UsableKind(s) then None
      else Some(Event(Strip(s), "", "info", None, None, [], true, Take(ambient.freshId, 64), ambient.now))
  {
    var raw := [Member("type", Str(s))];
    OnlyKey(raw);
    assert Strip("") == "";
    NoText(ambient);
    assert raw[0].key in RESERVED_KEYS;
    assert Unreserved(raw) == [] + Unreserved(raw[1..]) == [];
    assert forall m <- raw :: m.key == "type";
    assert |"safe_for_logs"| == 13 && |"type"| == 4;
  }

  /** A missing field reads as `null`. */
  lemma OnlyKey(raw: seq<Member>)
    requires |raw| == 1 && raw[0].key == "type"
    ensures forall key <- EVENT_KEYS + ["message"] :: key != "type" ==> Get(raw, key) == Null
    ensures Get(raw, "type") == raw[0].value
  {
    assert raw[1..] == [];
    forall key | key in EVENT_KEYS + ["message"] && key != "type"
      ensures Get(raw, key) == Null
    {
      GetAbsent(raw, key);
    }
  }

  lemma NoText(ambient: Ambient)
    ensures TextOr(Null, "", ambient) == "" && ValidSeverity(Null, ambient) == "info"
    ensures OptionalText(Null, ambient) == None
  {
    assert Lower("") == "";
    SeverityLettersNotEmpty();
  }

  lemma SeverityLettersNotEmpty()
    ensures "" !in SEVERITIES
  {
  }

  /** The summary is that of the dict; and if that is missing or empty, the message. */
  lemma MessageIsFallback(raw: seq<Member>, text: string, ambient: Ambient)
    requires FromDict(raw, ambient).Some?
    ensures Get(raw, "summary") == Str(text) && text != "" ==> FromDict(raw, ambient).value.summary == Take(text, 500)
    ensures Get(raw, "summary") in {Null, Str("")} && Get(raw, "message") == Str(text) ==>
      FromDict(raw, ambient).value.summary == Take(text, 500)
  {
  }

  /** A value that Python takes for false counts as missing; any other becomes text, cut at 64. */
  lemma EmptyValueIsMissing(raw: seq<Member>, v: Json, ambient: Ambient)
    requires FromDict(raw, ambient).Some?
    ensures
      var field := if v in {Null, Bool(false), Num(0.0), Str(""), Arr([]), Obj([])} then None
        else Some(Take(if v.Str? then v.s else ambient.render(v), 64));
      && (Get(raw, "engine") == v ==> FromDict(raw, ambient).value.engine == field)
      && (Get(raw, "source") == v ==> FromDict(raw, ambient).value.source == field)
  {
  }

  /** A listed severity is taken in any case; any other text is read as `info`. */
  lemma SeverityInAnyCase(raw: seq<Member>, text: string, severity: string, ambient: Ambient)
    requires FromDict(raw, ambient).Some? && Get(raw, "severity") == Str(text)
    ensures severity in SEVERITIES && SpelledAs(text, severity) ==> FromDict(raw, ambient).value.severity == severity
    ensures Lower(text) !in SEVERITIES ==> FromDict(raw, ambient).value.severity == "info"
  {
    if severity in SEVERITIES && SpelledAs(text, severity) {
      SeverityLetters(severity);
      LowerSpelling(text, severity);
    }
    if text == "" {
      assert Lower("") == "";
    }
  }

  function Unreservedness(): string -> bool { key => key !in RESERVED_KEYS }

  lemma {:induction false} UnreservedKeys(members: seq<Member>)
    ensures Keys(Unreserved(members)) == Keep(Keys(members), Unreservedness())
  {
    if members != [] {
      UnreservedKeys(members[1..]);
      assert Keys(members)[1..] == Keys(members[1..]);
      var rest := Unreserved(members[1..]);
      assert forall m: Member :: Keys([m] + rest) == [m.key] + Keys(rest);
      assert [] + rest == rest;
    }
  }

  /** The details are the member of that name if it is an object, and otherwise all members that are
      no field of an event; of these exactly the ones with a listed key go. */
  lemma DetailKeys(raw: seq<Member>, ambient: Ambient)
    requires FromDict(raw, ambient).Some?
    ensures var given := if Get(raw, "details").Obj? then Keys(Get(raw, "details").members)
        else Keep(Keys(raw), key => key !in RESERVED_KEYS);
      Keys(FromDict(raw, ambient).value.details) == Keep(given, key => !IsListed(key))
  {
    UnreservedKeys(raw);
    KeepSame(Keys(raw), Unreservedness(), key => key !in RESERVED_KEYS);
    ListedKeysGo(if Get(raw, "details").Obj? then Get(raw, "details").members else Unreserved(raw), 0);
  }

  /** An event is safe for logs unless the dict says otherwise. */
  lemma SafeUnlessSaidOtherwise(raw: seq<Member>, ambient: Ambient)
    requires FromDict(raw, ambient).Some?
    ensures (forall m <- raw :: m.key != "safe_for_logs") ==> FromDict(raw, ambient).value.safeForLogs
    ensures (exists m <- raw :: m.key == "safe_for_logs") && Get(raw, "safe_for_logs").Bool? ==>
      FromDict(raw, ambient).value.safeForLogs == Get(raw, "safe_for_logs").b
  {
  }
}
