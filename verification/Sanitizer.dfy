/** Scrubbing event details before anyone sees them. */
module Sanitizer {
  import opened Sequences

  /** A JSON value. Objects keep the order of their members. */
  datatype Json =
    | Null
    | Bool(b: bool)
    | Num(n: real)
    | Str(s: string)
    | Arr(items: seq<Json>)
    | Obj(members: seq<Member>)

  datatype Member = Member(key: string, value: Json)

  const REDACTED := "[redacted]"
  const TRUNCATED := "[truncated]"
  const ELLIPSIS := "\U{2026}[truncated]"
  const MAX_STRING_VALUE := 1000
  const MAX_DEPTH := 6

  const SENSITIVE_KEYS: set<string> := {
    "password", "passwd", "secret", "token", "api_key", "apikey",
    "private_key", "privatekey", "psk", "passphrase", "authorization",
    "auth", "cookie", "credential", "credentials", "uri", "config_uri",
    "config", "subscription", "seed", "private"}

  const SENSITIVE_KEY_SUFFIXES: set<string> := {
    "_password", "_passwd", "_token", "_secret", "_psk", "_passphrase",
    "_api_key", "_apikey", "_private_key", "_credential", "_uri", "_config_uri"}

  const SECRET_URI_SCHEMES: set<string> := {
    "vless://", "vmess://", "trojan://", "ss://", "ssr://",
    "hysteria://", "hysteria2://", "hy2://", "tuic://", "wireguard://",
    "wg://", "ssh://", "ftp://"}

  // ---------------------------------------------------------------- strings

  /** Lower-casing one character, as far as ASCII letters can come out of it: beside the
      ASCII capitals these are the Kelvin sign and the dotted capital I. */
  function LowerChar(c: char): string
  {
    if 'A' <= c <= 'Z' then [(c as int + 32) as char]
    else if c == '\U{212A}' then "k"
    else if c == '\U{0130}' then "i\U{0307}"
    else [c]
  }

  function Lower(s: string): string
  {
    if s == "" then "" else LowerChar(s[0]) + Lower(s[1..])
  }

  /** The characters `str.strip` removes. */
  predicate IsSpace(c: char)
  {
    || '\U{0009}' <= c <= '\U{000D}' || '\U{001C}' <= c <= '\U{0020}'
    || c in {'\U{0085}', '\U{00A0}', '\U{1680}', '\U{2028}', '\U{2029}', '\U{202F}', '\U{205F}', '\U{3000}'}
    || '\U{2000}' <= c <= '\U{200A}'
  }

  function LStrip(s: string): string
  {
    if s != "" && IsSpace(s[0]) then LStrip(s[1..]) else s
  }

  predicate EndsWith(s: string, suffix: string)
  {
    |suffix| <= |s| && s[|s| - |suffix|..] == suffix
  }

  function Dashes(s: string): string
  {
    seq(|s|, i requires 0 <= i < |s| => if s[i] == '-' then '_' else s[i])
  }

  /** `_is_sensitive_key` */
  predicate IsSensitiveKey(name: string)
  {
    var normalized := Dashes(Lower(name));
    normalized in SENSITIVE_KEYS || exists suffix <- SENSITIVE_KEY_SUFFIXES :: EndsWith(normalized, suffix)
  }

  /** `_looks_like_secret_uri` */
  predicate LooksLikeSecretUri(value: string, schemes: set<string>)
  {
    StartsWithAny(LStrip(Lower(value)), schemes)
  }

  predicate StartsWithAny(s: string, prefixes: set<string>)
  {
    exists prefix <- prefixes :: prefix <= s
  }

  // ---------------------------------------------------------------- values

  /** What to look for and what to put instead. */
  datatype Rules = Rules(
    schemes: set<string>, isSensitive: string -> bool, redacted: string, truncated: string, mark: string)

  const RULES := Rules(SECRET_URI_SCHEMES, IsSensitiveKey, REDACTED, TRUNCATED, ELLIPSIS)

  /** Replace what starts with a listed scheme, and cut what is too long. */
  function SanitizeString(s: string, rules: Rules): string
  {
    if LooksLikeSecretUri(s, rules.schemes) then rules.redacted
    else if |s| > MAX_STRING_VALUE then s[..MAX_STRING_VALUE] + rules.mark
    else s
  }

  /** `sanitize_value` on JSON-shaped values. */
  function SanitizeValue(value: Json, depth: nat, rules: Rules): Json
    decreases value, 1
  {
    if depth > MAX_DEPTH then Str(rules.truncated)
    else match value
      case Str(s) => Str(SanitizeString(s, rules))
      case Obj(members) => Obj(SanitizeMembers(members, depth + 1, rules))
      case Arr(items) => Arr(SanitizeItems(items, depth + 1, rules))
      case _ => value
  }

  function SanitizeItems(items: seq<Json>, depth: nat, rules: Rules): (r: seq<Json>)
    ensures |r| == |items|
    decreases items, 0
  {
    if items == [] then []
    else [SanitizeValue(items[0], depth, rules)] + SanitizeItems(items[1..], depth, rules)
  }

  function SanitizeMembers(members: seq<Member>, depth: nat, rules: Rules): seq<Member>
    decreases members, 0
  {
    if members == [] then []
    else
      var rest := SanitizeMembers(members[1..], depth, rules);
      if rules.isSensitive(members[0].key) then rest
      else [Member(members[0].key, SanitizeValue(members[0].value, depth, rules))] + rest
  }

  /** `sanitize_details` */
  function SanitizeDetails(details: seq<Member>, rules: Rules): seq<Member>
  {
    if details == [] then [] else SanitizeValue(Obj(details), 0, rules).members
  }

  // ---------------------------------------------------------------- what the result looks like

  ghost predicate CleanString(s: string, rules: Rules)
  {
    |s| <= MAX_STRING_VALUE + |rules.mark| && !LooksLikeSecretUri(s, rules.schemes)
  }

  /** No sensitive key and no listed URI at any depth, no overlong string, and at most
      `height` levels of nesting. */
  ghost predicate CleanValue(value: Json, height: int, rules: Rules)
    decreases value, 1
  {
    height >= 0 &&
    match value
    case Str(s) => CleanString(s, rules)
    case Arr(items) => CleanItems(items, height - 1, rules)
    case Obj(members) => CleanMembers(members, height - 1, rules)
    case _ => true
  }

  ghost predicate CleanItems(items: seq<Json>, height: int, rules: Rules)
    decreases items, 0
  {
    forall item <- items :: CleanValue(item, height, rules)
  }

  ghost predicate CleanMembers(members: seq<Member>, height: int, rules: Rules)
    decreases members, 0
  {
    forall m <- members :: !rules.isSensitive(m.key) && CleanValue(m.value, height, rules)
  }

  // ---------------------------------------------------------------- string lemmas

  /** The white-space characters one by one. */
  lemma SpacesOneByOne(c: char)
    ensures IsSpace(c) <==> c in {
      '\U{0009}', '\U{000A}', '\U{000B}', '\U{000C}', '\U{000D}', '\U{001C}', '\U{001D}', '\U{001E}',
      '\U{001F}', '\U{0020}', '\U{0085}', '\U{00A0}', '\U{1680}', '\U{2000}', '\U{2001}', '\U{2002}',
      '\U{2003}', '\U{2004}', '\U{2005}', '\U{2006}', '\U{2007}', '\U{2008}', '\U{2009}', '\U{200A}',
      '\U{2028}', '\U{2029}', '\U{202F}', '\U{205F}', '\U{3000}'}
  {
  }

  /** ASCII letters come out of ASCII letters, of the Kelvin sign, and of the dotted capital I, which
      becomes an `i` with the dot as a character of its own behind it. */
  lemma AsciiLettersOf(c: char)
    ensures (exists d <- LowerChar(c) :: 'a' <= d <= 'z') <==>
      'a' <= c <= 'z' || 'A' <= c <= 'Z' || c == '\U{212A}' || c == '\U{0130}'
    ensures LowerChar('\U{212A}') == "k" && LowerChar('\U{0130}') == "i\U{0307}"
  {
    var lowered := LowerChar(c);
    assert lowered[0] in lowered;
  }

  lemma {:induction false} LowerConcat(a: string, b: string)
    ensures Lower(a + b) == Lower(a) + Lower(b)
  {
    if a == "" {
      assert a + b == b;
    } else {
      assert (a + b)[1..] == a[1..] + b;
      LowerConcat(a[1..], b);
    }
  }

  lemma {:induction false} LStripConcat(a: string, b: string)
    ensures LStrip(a + b) == if LStrip(a) == "" then LStrip(b) else LStrip(a) + b
  {
    if a == "" {
      assert a + b == b;
    } else {
      assert (a + b)[1..] == a[1..] + b;
      LStripConcat(a[1..], b);
    }
  }

  lemma {:induction false} LowerIsIdentity(s: string)
    requires forall i :: 0 <= i < |s| ==> LowerChar(s[i]) == [s[i]]
    ensures Lower(s) == s
  {
    if s != "" {
      LowerIsIdentity(s[1..]);
    }
  }

  ghost predicate AsciiNames(names: set<string>)
  {
    forall name <- names :: name != "" && name[0] != '[' && forall i :: 0 <= i < |name| ==> name[i] < '\U{0080}'
  }

  lemma SchemesAreAscii()
    ensures AsciiNames(SECRET_URI_SCHEMES)
  {
  }

  /** A cut mark that no ASCII name contains and that lower-casing leaves alone. */
  ghost predicate IsMark(mark: string)
  {
    mark != "" && mark[0] == '\U{2026}' && Lower(mark) == LStrip(mark) == mark
  }

  lemma TruncatedIsPlain()
    ensures forall c <- TRUNCATED :: LowerChar(c) == [c]
  {
    var plain := {'[', 't', 'r', 'u', 'n', 'c', 'a', 'e', 'd', ']'};
    assert forall c <- plain :: LowerChar(c) == [c];
    assert forall c <- TRUNCATED :: c in plain;
  }

  lemma MarkOf(mark: string, rest: string)
    requires mark == ['\U{2026}'] + rest && forall c <- rest :: LowerChar(c) == [c]
    ensures IsMark(mark)
  {
    assert LowerChar('\U{2026}') == ['\U{2026}'];
    LowerIsIdentity(mark);
  }

  lemma EllipsisIsMark()
    ensures IsMark(ELLIPSIS) && |ELLIPSIS| == 12
  {
    TruncatedIsPlain();
    MarkOf(ELLIPSIS, TRUNCATED);
  }

  /** Cutting a string short and marking the cut cannot make it start with an ASCII name it
      did not start with. */
  lemma CutStringStaysInnocent(head: string, tail: string, mark: string, names: set<string>)
    requires AsciiNames(names) && IsMark(mark)
    requires !LooksLikeSecretUri(head + tail, names)
    ensures !LooksLikeSecretUri(head + mark, names)
  {
    LowerConcat(head, mark);
    LowerConcat(head, tail);
    LStripConcat(Lower(head), mark);
    LStripConcat(Lower(head), Lower(tail));
    var stripped := LStrip(Lower(head));
    var cut := stripped + mark;
    assert cut[|stripped|] == '\U{2026}';
    forall name | name in names
      ensures !(name <= cut)
    {
      assert name <= stripped ==> name <= LStrip(Lower(head + tail));
      assert name <= cut && |name| <= |stripped| ==> name <= stripped;
      assert |name| > |stripped| && name[|stripped|] != cut[|stripped|] ==> !(name <= cut);
    }
  }

  /** What `LStrip` takes away. */
  function Leading(s: string): nat
  {
    if s != "" && IsSpace(s[0]) then 1 + Leading(s[1..]) else 0
  }

  lemma {:induction false} LeadingMeaning(s: string)
    ensures Leading(s) <= |s| && LStrip(s) == s[Leading(s)..]
    ensures LStrip(s) != "" ==> !IsSpace(LStrip(s)[0])
  {
    if s != "" && IsSpace(s[0]) {
      LeadingMeaning(s[1..]);
    }
  }

  /** `s` looks like a listed URI, and the scheme is in the first `n` characters. */
  ghost predicate SchemeWithin(s: string, n: nat, schemes: set<string>)
  {
    exists scheme <- schemes :: scheme <= LStrip(Lower(s)) && Leading(Lower(s)) + |scheme| <= |Lower(Take(s, n))|
  }

  lemma {:induction false} LeadingConcat(a: string, b: string)
    requires LStrip(a) != ""
    ensures Leading(a + b) == Leading(a)
  {
    if IsSpace(a[0]) {
      assert (a + b)[1..] == a[1..] + b;
      LeadingConcat(a[1..], b);
    }
  }

  lemma {:induction false} BlankLeads(a: string, b: string)
    requires LStrip(a) == ""
    ensures Leading(a + b) >= |a|
  {
    if a != "" {
      assert (a + b)[1..] == a[1..] + b;
      BlankLeads(a[1..], b);
    }
  }

  /** A cut string looks like a listed URI if and only if the whole does and its scheme is kept. */
  lemma CutLooksSecretIff(s: string, n: nat, schemes: set<string>)
    requires AsciiNames(schemes)
    ensures LooksLikeSecretUri(Take(s, n), schemes) <==> SchemeWithin(s, n, schemes)
  {
    var head := Take(s, n);
    var a, b := Lower(head), Lower(s[|head|..]);
    assert s == head + s[|head|..];
    LowerConcat(head, s[|head|..]);
    LStripConcat(a, b);
    LeadingMeaning(a);
    if LStrip(a) == "" {
      BlankLeads(a, b);
    } else {
      LeadingConcat(a, b);
      forall scheme | scheme in schemes
        ensures scheme <= LStrip(a) <==> scheme <= LStrip(a) + b && |scheme| <= |LStrip(a)|
      {
      }
    }
  }

  lemma SchemeLooksSecret(scheme: string, rest: string, schemes: set<string>)
    requires scheme in schemes && scheme != "" && !IsSpace(scheme[0])
    requires forall i :: 0 <= i < |scheme| ==> LowerChar(scheme[i]) == [scheme[i]]
    ensures LooksLikeSecretUri(scheme + rest, schemes)
  {
    LowerConcat(scheme, rest);
    LowerIsIdentity(scheme);
  }

  lemma BracketedIsInnocent(s: string, names: set<string>)
    requires AsciiNames(names) && s != "" && s[0] == '['
    ensures !LooksLikeSecretUri(s, names)
  {
    assert Lower(s) == ['['] + Lower(s[1..]);
    assert LStrip(Lower(s))[0] == '[';
  }

  /** Markers that the rules themselves leave alone. */
  ghost predicate SoundRules(rules: Rules)
  {
    && AsciiNames(rules.schemes) && IsMark(rules.mark)
    && 0 < |rules.redacted| <= MAX_STRING_VALUE && rules.redacted[0] == '['
    && 0 < |rules.truncated| <= MAX_STRING_VALUE && rules.truncated[0] == '['
  }

  lemma RulesAreSound()
    ensures SoundRules(RULES)
  {
    SchemesAreAscii();
    EllipsisIsMark();
  }

  lemma SanitizeStringMeaning(s: string, rules: Rules)
    requires SoundRules(rules)
    ensures CleanString(SanitizeString(s, rules), rules)
    ensures SanitizeString(SanitizeString(s, rules), rules) == SanitizeString(s, rules)
  {
    BracketedIsInnocent(rules.redacted, rules.schemes);
    if !LooksLikeSecretUri(s, rules.schemes) && |s| > MAX_STRING_VALUE {
      var head, tail := s[..MAX_STRING_VALUE], s[MAX_STRING_VALUE..];
      assert head + tail == s;
      CutStringStaysInnocent(head, tail, rules.mark, rules.schemes);
      assert (head + rules.mark)[..MAX_STRING_VALUE] == head;
    }
  }

  // ---------------------------------------------------------------- main results

  /** Sanitizing gives a clean value, and sanitizing that again changes nothing. */
  ghost predicate Settled(value: Json, depth: nat, rules: Rules)
    requires depth <= MAX_DEPTH + 1
  {
    var v := SanitizeValue(value, depth, rules);
    CleanValue(v, MAX_DEPTH + 1 - depth, rules) && SanitizeValue(v, depth, rules) == v
  }

  /** Every value settles, at every depth. */
  lemma {:induction false} SanitizeValueMeaning(value: Json, depth: nat, rules: Rules)
    requires depth <= MAX_DEPTH + 1 && SoundRules(rules)
    ensures Settled(value, depth, rules)
    decreases value, 1
  {
    if depth > MAX_DEPTH {
      DeepMeaning(value, depth, rules);
    } else {
      match value
      case Str(s) => StringMeaning(value, depth, rules);
      case Arr(items) =>
        SanitizeItemsMeaning(items, depth + 1, rules);
        ArrayMeaning(value, depth, rules);
      case Obj(members) =>
        SanitizeMembersMeaning(members, depth + 1, rules);
        ObjectMeaning(value, depth, rules);
      case _ => SimpleMeaning(value, depth, rules);
    }
  }

  lemma DeepMeaning(value: Json, depth: nat, rules: Rules)
    requires depth == MAX_DEPTH + 1 && SoundRules(rules)
    ensures Settled(value, depth, rules)
  {
    BracketedIsInnocent(rules.truncated, rules.schemes);
  }

  lemma StringMeaning(value: Json, depth: nat, rules: Rules)
    requires depth <= MAX_DEPTH && SoundRules(rules) && value.Str?
    ensures Settled(value, depth, rules)
  {
    SanitizeStringMeaning(value.s, rules);
  }

  lemma SimpleMeaning(value: Json, depth: nat, rules: Rules)
    requires depth <= MAX_DEPTH && (value.Null? || value.Bool? || value.Num?)
    ensures Settled(value, depth, rules)
  {
  }

  lemma ArrayMeaning(value: Json, depth: nat, rules: Rules)
    requires depth <= MAX_DEPTH && value.Arr?
    requires var r := SanitizeItems(value.items, depth + 1, rules);
      CleanItems(r, MAX_DEPTH - depth, rules) && SanitizeItems(r, depth + 1, rules) == r
    ensures Settled(value, depth, rules)
  {
  }

  lemma ObjectMeaning(value: Json, depth: nat, rules: Rules)
    requires depth <= MAX_DEPTH && value.Obj?
    requires var r := SanitizeMembers(value.members, depth + 1, rules);
      CleanMembers(r, MAX_DEPTH - depth, rules) && SanitizeMembers(r, depth + 1, rules) == r
    ensures Settled(value, depth, rules)
  {
  }

  lemma {:induction false} SanitizeItemsMeaning(items: seq<Json>, depth: nat, rules: Rules)
    requires depth <= MAX_DEPTH + 1 && SoundRules(rules)
    ensures var r := SanitizeItems(items, depth, rules);
      CleanItems(r, MAX_DEPTH + 1 - depth, rules) && SanitizeItems(r, depth, rules) == r
    decreases items, 0
  {
    if items != [] {
      SanitizeValueMeaning(items[0], depth, rules);
      SanitizeItemsMeaning(items[1..], depth, rules);
      var r := SanitizeItems(items, depth, rules);
      assert r[1..] == SanitizeItems(items[1..], depth, rules);
    }
  }

  lemma {:induction false} SanitizeMembersMeaning(members: seq<Member>, depth: nat, rules: Rules)
    requires depth <= MAX_DEPTH + 1 && SoundRules(rules)
    ensures var r := SanitizeMembers(members, depth, rules);
      CleanMembers(r, MAX_DEPTH + 1 - depth, rules) && SanitizeMembers(r, depth, rules) == r
    decreases members, 0
  {
    if members != [] {
      SanitizeValueMeaning(members[0].value, depth, rules);
      SanitizeMembersMeaning(members[1..], depth, rules);
      var r := SanitizeMembers(members, depth, rules);
      if !rules.isSensitive(members[0].key) {
        assert r[1..] == SanitizeMembers(members[1..], depth, rules);
      }
    }
  }

  /** Nothing to scrub: no sensitive key, no listed URI, short strings, shallow nesting. */
  ghost predicate InnocentValue(value: Json, height: int, rules: Rules)
    decreases value
  {
    height >= 0 &&
    match value
    case Str(s) => |s| <= MAX_STRING_VALUE && !LooksLikeSecretUri(s, rules.schemes)
    case Arr(items) => forall item <- items :: InnocentValue(item, height - 1, rules)
    case Obj(members) => forall m <- members :: !rules.isSensitive(m.key) && InnocentValue(m.value, height - 1, rules)
    case _ => true
  }

  /** Sanitizing takes nothing away that need not go. */
  lemma {:induction false} InnocentValuesPass(value: Json, depth: nat, rules: Rules)
    requires InnocentValue(value, MAX_DEPTH - depth, rules)
    ensures SanitizeValue(value, depth, rules) == value
    decreases value, 1
  {
    match value
    case Arr(items) => InnocentItemsPass(items, depth + 1, rules);
    case Obj(members) => InnocentMembersPass(members, depth + 1, rules);
    case _ =>
  }

  lemma {:induction false} InnocentItemsPass(items: seq<Json>, depth: nat, rules: Rules)
    requires forall item <- items :: InnocentValue(item, MAX_DEPTH - depth, rules)
    ensures SanitizeItems(items, depth, rules) == items
    decreases items, 0
  {
    if items != [] {
      assert items[0] in items && forall item <- items[1..] :: item in items;
      InnocentValuesPass(items[0], depth, rules);
      InnocentItemsPass(items[1..], depth, rules);
    }
  }

  lemma {:induction false} InnocentMembersPass(members: seq<Member>, depth: nat, rules: Rules)
    requires forall m <- members :: !rules.isSensitive(m.key) && InnocentValue(m.value, MAX_DEPTH - depth, rules)
    ensures SanitizeMembers(members, depth, rules) == members
    decreases members, 0
  {
    if members != [] {
      assert members[0] in members && forall m <- members[1..] :: m in members;
      InnocentValuesPass(members[0].value, depth, rules);
      InnocentMembersPass(members[1..], depth, rules);
    }
  }

  function Keys(members: seq<Member>): seq<string>
  {
    seq(|members|, i requires 0 <= i < |members| => members[i].key)
  }

  function HarmlessKeys(keys: seq<string>, rules: Rules): seq<string>
  {
    Keep(keys, key => !rules.isSensitive(key))
  }

  /** Exactly the members with harmless keys are kept, in order. */
  lemma {:induction false} KeptMembers(members: seq<Member>, depth: nat, rules: Rules)
    ensures Keys(SanitizeMembers(members, depth, rules)) == HarmlessKeys(Keys(members), rules)
  {
    if members != [] {
      KeptMembers(members[1..], depth, rules);
      assert Keys(members)[1..] == Keys(members[1..]);
      var rest := SanitizeMembers(members[1..], depth, rules);
      assert forall m: Member :: Keys([m] + rest) == [m.key] + Keys(rest);
    }
  }

  lemma SanitizeDetailsMeaning(details: seq<Member>, rules: Rules)
    requires SoundRules(rules)
    ensures CleanMembers(SanitizeDetails(details, rules), MAX_DEPTH, rules)
    ensures SanitizeDetails(SanitizeDetails(details, rules), rules) == SanitizeDetails(details, rules)
  {
    if details != [] {
      SanitizeMembersMeaning(details, 1, rules);
    }
  }

  // ---------------------------------------------------------------- which keys, which strings

  /** The lower-cased key, with underscores for dashes, is a listed name or ends with a listed suffix. */
  predicate IsListed(key: string)
  {
    var folded := Dashes(Lower(key));
    folded in SENSITIVE_KEYS || exists j :: 0 <= j <= |folded| && folded[j..] in SENSITIVE_KEY_SUFFIXES
  }

  lemma SensitiveIff(key: string)
    ensures IsSensitiveKey(key) <==> IsListed(key)
  {
    var folded := Dashes(Lower(key));
    if suffix :| suffix in SENSITIVE_KEY_SUFFIXES && EndsWith(folded, suffix) {
      assert folded[|folded| - |suffix|..] in SENSITIVE_KEY_SUFFIXES;
    }
    if j :| 0 <= j <= |folded| && folded[j..] in SENSITIVE_KEY_SUFFIXES {
      assert EndsWith(folded, folded[j..]);
    }
  }

  lemma {:induction false} KeepSame(keys: seq<string>, f: string -> bool, g: string -> bool)
    requires forall key :: f(key) == g(key)
    ensures Keep(keys, f) == Keep(keys, g)
  {
    if keys != [] {
      KeepSame(keys[1..], f, g);
    }
  }

  /** Of the members of an event's details, and of every object in them, exactly those with a listed
      key go; the others stay, in order. */
  lemma ListedKeysGo(members: seq<Member>, depth: nat)
    ensures Keys(SanitizeMembers(members, depth, RULES)) == Keep(Keys(members), key => !IsListed(key))
    ensures Keys(SanitizeDetails(members, RULES)) == Keep(Keys(members), key => !IsListed(key))
  {
    forall key
      ensures IsSensitiveKey(key) <==> IsListed(key)
    {
      SensitiveIff(key);
    }
    KeepSame(Keys(members), key => !RULES.isSensitive(key), key => !IsListed(key));
    KeptMembers(members, depth, RULES);
    KeptMembers(members, 1, RULES);
  }

  /** `text` is `name` but for capitals, and dashes in place of underscores. */
  ghost predicate SpelledAs(text: string, name: string)
  {
    && |text| == |name|
    && forall i :: 0 <= i < |name| ==>
        || text[i] == name[i]
        || (text[i] == '-' && name[i] == '_')
        || ('A' <= text[i] <= 'Z' && text[i] as int + 32 == name[i] as int)
  }

  ghost predicate LettersAndUnderscores(name: string)
  {
    forall i :: 0 <= i < |name| ==> 'a' <= name[i] <= 'z' || name[i] == '_'
  }

  lemma FoldedChar(c: char, d: char)
    requires c == d || (c == '-' && d == '_') || ('A' <= c <= 'Z' && c as int + 32 == d as int)
    requires 'a' <= d <= 'z' || d == '_'
    ensures Dashes(LowerChar(c)) == [d]
  {
  }

  lemma {:induction false} FoldedSpelling(text: string, name: string)
    requires SpelledAs(text, name) && LettersAndUnderscores(name)
    ensures Dashes(Lower(text)) == name
  {
    if text != "" {
      assert name == [name[0]] + name[1..];
      FoldedChar(text[0], name[0]);
      FoldedSpelling(text[1..], name[1..]);
      DashesConcat(LowerChar(text[0]), Lower(text[1..]));
    }
  }

  lemma DashesConcat(a: string, b: string)
    ensures Dashes(a + b) == Dashes(a) + Dashes(b)
  {
  }

  lemma NamesAreLetters()
    ensures forall name <- SENSITIVE_KEYS :: LettersAndUnderscores(name)
  {
  }

  lemma SuffixesAreLetters()
    ensures forall suffix <- SENSITIVE_KEY_SUFFIXES :: LettersAndUnderscores(suffix)
  {
  }

  /** Every listed name and every key with a listed suffix is sensitive, in any spelling. */
  lemma ListedInAnySpelling(prefix: string, text: string, name: string)
    requires SpelledAs(text, name)
    ensures name in SENSITIVE_KEYS ==> IsListed(text)
    ensures name in SENSITIVE_KEY_SUFFIXES ==> IsListed(prefix + text)
  {
    if name in SENSITIVE_KEYS {
      NamesAreLetters();
      FoldedSpelling(text, name);
    }
    if name in SENSITIVE_KEY_SUFFIXES {
      SuffixesAreLetters();
      FoldedSpelling(text, name);
      LowerConcat(prefix, text);
      DashesConcat(Lower(prefix), Lower(text));
      var folded := Dashes(Lower(prefix + text));
      assert folded[|folded| - |name|..] == name;
    }
  }

  /** So no member of such a key is left in the details of an event. */
  lemma NoSensitiveKeyIsLeft(details: seq<Member>, m: Member, prefix: string, text: string, name: string)
    requires m in SanitizeDetails(details, RULES) && SpelledAs(text, name)
    ensures name in SENSITIVE_KEYS ==> m.key != text
    ensures name in SENSITIVE_KEY_SUFFIXES ==> m.key != prefix + text
  {
    var kept := SanitizeDetails(details, RULES);
    var i :| 0 <= i < |kept| && kept[i] == m;
    ListedKeysGo(details, 0);
    KeepMembers(Keys(details), key => !IsListed(key));
    assert Keys(kept)[i] == m.key && Keys(kept)[i] in Keys(kept);
    ListedInAnySpelling(prefix, text, name);
  }

  /** No capitals, no letter outside ASCII, and no underscore that a dash could stand for. */
  ghost predicate LowerPlain(name: string)
  {
    forall i :: 0 <= i < |name| ==> name[i] < '\U{0080}' && !('A' <= name[i] <= 'Z') && name[i] != '_'
  }

  lemma {:induction false} LowerSpelling(text: string, name: string)
    requires SpelledAs(text, name) && LowerPlain(name)
    ensures Lower(text) == name
  {
    if text != "" {
      LowerSpelling(text[1..], name[1..]);
      assert name == [name[0]] + name[1..];
    }
  }

  lemma {:induction false} SpacesAreStripped(space: string, rest: string)
    requires forall c <- space :: IsSpace(c)
    ensures LStrip(Lower(space + rest)) == LStrip(Lower(rest))
  {
    if space == "" {
      assert space + rest == rest;
    } else {
      assert space[0] in space && forall c <- space[1..] :: c in space;
      assert (space + rest)[1..] == space[1..] + rest;
      SpacesAreStripped(space[1..], rest);
      var lowered := Lower(space[1..] + rest);
      assert Lower(space + rest) == [space[0]] + lowered;
      assert ([space[0]] + lowered)[1..] == lowered;
    }
  }

  /** Scheme names as the listed ones are. */
  ghost predicate PlainSchemes(schemes: set<string>)
  {
    forall scheme <- schemes :: scheme != "" && 'a' <= scheme[0] <= 'z' && LowerPlain(scheme)
  }

  lemma SchemesArePlain()
    ensures PlainSchemes(SECRET_URI_SCHEMES)
  {
    SchemesStartWithLetters();
    SchemesAreLowerPlain();
  }

  lemma SchemesStartWithLetters()
    ensures forall scheme <- SECRET_URI_SCHEMES :: scheme != "" && 'a' <= scheme[0] <= 'z'
  {
  }

  lemma SchemesAreLowerPlain()
    ensures forall scheme <- SECRET_URI_SCHEMES :: LowerPlain(scheme)
  {
  }

  lemma LetterStays(s: string)
    requires s != "" && 'a' <= s[0] <= 'z'
    ensures LStrip(s) == s
  {
  }

  /** A string that starts, behind any white space, with a listed scheme in any case is replaced. */
  lemma SchemesAreRedacted(space: string, text: string, scheme: string, rest: string, rules: Rules)
    requires PlainSchemes(rules.schemes) && scheme in rules.schemes && SpelledAs(text, scheme)
    requires forall c <- space :: IsSpace(c)
    ensures SanitizeString(space + text + rest, rules) == rules.redacted
  {
    LowerSpelling(text, scheme);
    SpacesAreStripped(space, text + rest);
    LowerConcat(text, rest);
    LetterStays(scheme + Lower(rest));
    assert space + text + rest == space + (text + rest);
    assert scheme <= scheme + Lower(rest);
  }

  /** Every other string stays, cut behind 1000 characters. */
  lemma OtherStringsStay(s: string, rules: Rules)
    requires forall scheme <- rules.schemes :: !(scheme <= LStrip(Lower(s)))
    ensures SanitizeString(s, rules) == if |s| <= 1000 then s else s[..1000] + rules.mark
  {
  }

  /** What the program puts in place of what it removes. */
  lemma MarkersOfRules()
    ensures RULES.schemes == SECRET_URI_SCHEMES
    ensures RULES.redacted == "[redacted]" && RULES.truncated == "[truncated]"
    ensures RULES.mark == "\U{2026}[truncated]"
  {
  }

  /** A value inside arrays (`None`) and objects of one member. */
  function Nested(value: Json, shape: seq<Option<string>>): Json
  {
    if shape == [] then value else Around(Nested(value, shape[1..]), shape[0])
  }

  function Around(inner: Json, key: Option<string>): Json
  {
    if key == None then Arr([inner]) else Obj([Member(key.value, inner)])
  }

  /** What lies seven levels deep or deeper is cut off, and nothing else is, if no key is sensitive. */
  lemma {:induction false} NestingIsCut(value: Json, shape: seq<Option<string>>, depth: nat, rules: Rules)
    requires depth <= 7 && forall key <- shape :: key.Some? ==> !rules.isSensitive(key.value)
    ensures SanitizeValue(Nested(value, shape), depth, rules) ==
      if |shape| + depth > 6 then Nested(Str(rules.truncated), shape[..7 - depth])
      else Nested(SanitizeValue(value, depth + |shape|, rules), shape)
    decreases |shape|
  {
    if shape != [] && depth <= 6 {
      assert shape[0] in shape && forall key <- shape[1..] :: key in shape;
      NestingIsCut(value, shape[1..], depth + 1, rules);
      OneInside(Nested(value, shape[1..]), shape[0], depth, rules);
      if |shape| + depth > 6 {
        assert shape[..7 - depth][1..] == shape[1..][..6 - depth];
      }
    }
  }

  lemma OneInside(inner: Json, key: Option<string>, depth: nat, rules: Rules)
    requires depth <= 6 && (key.Some? ==> !rules.isSensitive(key.value))
    ensures SanitizeValue(Around(inner, key), depth, rules) == Around(SanitizeValue(inner, depth + 1, rules), key)
  {
    if key == None {
      OneItem(inner, depth + 1, rules);
    } else {
      OneMember(Member(key.value, inner), depth + 1, rules);
    }
  }

  lemma OneItem(item: Json, depth: nat, rules: Rules)
    ensures SanitizeItems([item], depth, rules) == [SanitizeValue(item, depth, rules)]
  {
    assert [item][1..] == [] && SanitizeItems([], depth, rules) == [];
  }

  lemma OneMember(m: Member, depth: nat, rules: Rules)
    requires !rules.isSensitive(m.key)
    ensures SanitizeMembers([m], depth, rules) == [Member(m.key, SanitizeValue(m.value, depth, rules))]
  {
    assert [m][1..] == [] && SanitizeMembers([], depth, rules) == [];
  }
}
