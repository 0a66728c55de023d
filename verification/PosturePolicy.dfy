/**
 The device posture policy (`clantodesk-posture.php`): what a rule means, the evaluator that applies a
 policy to a device, and the public listing of the rules.

 Regular expressions, version comparison, dates and the clock are parameters (`Env`).
 */
module PosturePolicy {
  import opened Options
  import opened Text

  /**
   A decoded JSON value as PHP sees it: lists and objects are both arrays.  A list's keys are its indices
   in decimal, since PHP does not tell "0" from 0 in a key.
   */
  datatype Json =
    | Null
    | Bool(b: bool)
    | Int(i: int)
    | Float(text: string)
    | Str(s: string)
    | Arr(entries: seq<Entry>)

  datatype Entry = Entry(key: string, value: Json)

  /** `$a[k] ?? null`. */
  function Field(a: seq<Entry>, k: string): Json {
    if a == [] then Null else if a[0].key == k then a[0].value else Field(a[1..], k)
  }

  predicate HasValue(a: seq<Entry>, v: Json) {
    exists i :: 0 <= i < |a| && a[i].value == v
  }

  predicate AllStrings(a: seq<Entry>) {
    forall i :: 0 <= i < |a| ==> a[i].value.Str?
  }

  /** Reading a date or a time zone: PHP's date functions can also raise, on a NUL byte for one. */
  datatype Reading<+T> = Read(value: T) | Unreadable | Raised

  datatype Env = Env(
    preg: (string, string) -> Option<bool>,       // None: invalid pattern or a matching error
    versionGte: (string, string) -> bool,
    versionLt: (string, string) -> bool,
    number: Json -> Option<real>,                 // None: not numeric
    scalarText: Json -> string,
    day: string -> Reading<int>,                  // a date written YYYY-MM-DD
    today: int,
    tooFar: int -> bool,                          // going back that many days raises
    clock: string -> Reading<(int, int)>)         // ISO weekday and minute of the day in a time zone

  type Posture = map<string, string>

  // ----- Operators on one field -----

  /** What becomes of a check: `Invalid` is a malformed rule, `Crash` an exception that ends the request. */
  datatype Check = Pass | Fail | Invalid | Crash

  function Decide(b: bool): Check { if b then Pass else Fail }

  predicate IsScalar(v: Json) { v.Bool? || v.Int? || v.Float? || v.Str? }

  predicate PhpBlank(c: char) { c == ' ' || c == '\t' || c == '\n' || c == '\r' || c as int == 0 || c as int == 11 }

  function PhpTrim(s: string): string {
    if s == "" then s
    else if PhpBlank(s[0]) then PhpTrim(s[1..])
    else if PhpBlank(s[|s| - 1]) then PhpTrim(s[..|s| - 1])
    else s
  }

  function Trimmed(pieces: seq<string>): seq<string> {
    if pieces == [] then []
    else (if PhpTrim(pieces[0]) != "" then [PhpTrim(pieces[0])] else []) + Trimmed(pieces[1..])
  }

  /** The elements of a list field; empty or unknown is the empty list. */
  function SplitList(v: string): seq<string> {
    if v == "" || v == "unknown" then [] else Trimmed(Split(v, "|"))
  }

  /** An element matches; an error while matching counts as no match. */
  predicate Hit(env: Env, pattern: string, item: string) { env.preg(pattern, item) == Some(true) }

  predicate ListOp(op: string) { op == "any_match" || op == "none_match" || op == "all_match" }

  /** What a list operator asks of the elements. */
  ghost predicate ListMet(env: Env, op: string, pattern: string, items: seq<string>) {
    match op
    case "any_match" => exists i :: 0 <= i < |items| && Hit(env, pattern, items[i])
    case "none_match" => forall i :: 0 <= i < |items| ==> !Hit(env, pattern, items[i])
    case _ => items != [] && forall i :: 0 <= i < |items| ==> Hit(env, pattern, items[i])
  }

  predicate HasArray(a: seq<Entry>) { exists i :: 0 <= i < |a| && a[i].value.Arr? }

  predicate TextIn(env: Env, v: string, a: seq<Entry>) {
    exists i :: 0 <= i < |a| && (if a[i].value.Null? then "" else env.scalarText(a[i].value)) == v
  }

  /** The date is read first; the limit is worked out only for something that is a date. */
  function DateWithin(env: Env, v: string, days: int): Check {
    match env.day(v)
    case Raised => Crash
    case Unreadable => Fail
    case Read(d) => if env.tooFar(days) then Crash else Decide(d >= env.today - days)
  }

  /** The operators that look at the value as a whole; anything else is no operator. */
  function EvalPlain(env: Env, op: string, v: string, val: Json): Check {
    match op
    case "eq" => if IsScalar(val) then Decide(v == env.scalarText(val)) else Invalid
    case "ne" => if IsScalar(val) then Decide(v != env.scalarText(val)) else Invalid
    case "in" =>
      if !val.Arr? then Invalid else if HasArray(val.entries) then Crash else Decide(TextIn(env, v, val.entries))
    case "not_in" =>
      if !val.Arr? then Invalid else if HasArray(val.entries) then Crash else Decide(!TextIn(env, v, val.entries))
    case "regex" => if !val.Str? || env.preg(val.s, "").None? then Invalid else Decide(Hit(env, val.s, v))
    case "version_gte" => if IsScalar(val) then Decide(env.versionGte(v, env.scalarText(val))) else Invalid
    case "version_lt" => if IsScalar(val) then Decide(env.versionLt(v, env.scalarText(val))) else Invalid
    case "num_gte" =>
      var bound, given := env.number(val), env.number(Str(v));
      if bound.None? then Invalid else if given.None? then Fail else Decide(given.value >= bound.value)
    case "num_lte" =>
      var bound, given := env.number(val), env.number(Str(v));
      if bound.None? then Invalid else if given.None? then Fail else Decide(given.value <= bound.value)
    case "date_within_days" =>
      if !val.Int? || val.i <= 0 then Invalid else DateWithin(env, v, val.i)
    case "present" => Decide(v != "" && v != "unknown")
    case "not_unknown" => Decide(v != "" && v != "unknown")
    case _ => Invalid
  }

  /** The meaning of an operator on a field's value. */
  ghost function OpMeaning(env: Env, op: string, v: string, val: Json): Check {
    if !ListOp(op) then EvalPlain(env, op, v, val)
    else if !val.Str? || env.preg(val.s, "").None? then Invalid
    else Decide(ListMet(env, op, val.s, SplitList(v)))
  }

  function Opposite(c: Check): Check {
    match c
    case Pass => Fail
    case Fail => Pass
    case _ => c
  }

  /** Operators in pairs are each other's complement, down to the same invalid parameters and exceptions. */
  lemma Complements(env: Env, v: string, val: Json)
    ensures OpMeaning(env, "ne", v, val) == Opposite(OpMeaning(env, "eq", v, val))
    ensures OpMeaning(env, "not_in", v, val) == Opposite(OpMeaning(env, "in", v, val))
    ensures OpMeaning(env, "none_match", v, val) == Opposite(OpMeaning(env, "any_match", v, val))
  {
  }

  /**
   The list operators: all implies any; a value with no elements, unknown included, meets "none" and
   neither of the others.
   */
  lemma ListOperators(env: Env, v: string, val: Json)
    ensures OpMeaning(env, "all_match", v, val).Pass? ==> OpMeaning(env, "any_match", v, val).Pass?
    ensures val.Str? && env.preg(val.s, "").Some? && SplitList(v) == [] ==>
      && OpMeaning(env, "none_match", v, val).Pass?
      && OpMeaning(env, "any_match", v, val).Fail? && OpMeaning(env, "all_match", v, val).Fail?
    ensures SplitList("unknown") == []
  {
    if OpMeaning(env, "all_match", v, val).Pass? {
      assert Hit(env, val.s, SplitList(v)[0]);
    }
  }

  /** Two numeric bounds cut the numbers in two, and what is no number fails both. */
  lemma NumericBounds(env: Env, v: string, val: Json)
    requires env.number(val).Some?
    ensures env.number(Str(v)).None? <==> OpMeaning(env, "num_gte", v, val).Fail? && OpMeaning(env, "num_lte", v, val).Fail?
    ensures OpMeaning(env, "num_gte", v, val).Pass? && OpMeaning(env, "num_lte", v, val).Pass? <==> env.number(Str(v)) == env.number(val)
  {
  }

  /** Allowing more days never turns a date down, as long as one can go back that far. */
  lemma MoreDays(env: Env, v: string, few: int, many: int)
    requires OpMeaning(env, "date_within_days", v, Int(few)).Pass? && few <= many
    ensures OpMeaning(env, "date_within_days", v, Int(many)) == if env.tooFar(many) then Crash else Pass
  {
  }

  /** Whether a rule's parameters are valid does not depend on the device. */
  lemma ValidityIsStatic(env: Env, op: string, v: string, w: string, val: Json)
    ensures OpMeaning(env, op, v, val).Invalid? <==> OpMeaning(env, op, w, val).Invalid?
  {
  }

  /** A nested list in the parameter of a membership test. */
  predicate NestedList(op: string, val: Json) {
    (op == "in" || op == "not_in") && val.Arr? && HasArray(val.entries)
  }

  /** A date that raises when read, or one that is compared with a limit too far back. */
  predicate RaisingDate(env: Env, op: string, v: string, val: Json) {
    && op == "date_within_days" && val.Int? && val.i > 0
    && (env.day(v).Raised? || (env.day(v).Read? && env.tooFar(val.i)))
  }

  /** Membership tests raise on a nested list whatever the device sent; the date test may on what it sent. */
  lemma CrashingOperators(env: Env, op: string, v: string, val: Json)
    ensures OpMeaning(env, op, v, val).Crash? <==> NestedList(op, val) || RaisingDate(env, op, v, val)
  {
  }

  /** The counting loop behind the list operators. */
  method MatchList(env: Env, op: string, pattern: string, items: seq<string>) returns (met: bool)
    requires ListOp(op)
    ensures met == ListMet(env, op, pattern, items)
  {
    var hits := 0;
    for i := 0 to |items|
      invariant 0 <= hits <= i
      invariant hits == 0 <==> forall j :: 0 <= j < i ==> !Hit(env, pattern, items[j])
      invariant hits == i <==> forall j :: 0 <= j < i ==> Hit(env, pattern, items[j])
    {
      if Hit(env, pattern, items[i]) {
        hits := hits + 1;
      }
    }
    if op == "any_match" {
      return hits > 0;
    }
    if op == "none_match" {
      return hits == 0;
    }
    met := items != [] && hits == |items|;
  }

  // ----- Schedules -----

  predicate Digit(c: char) { '0' <= c <= '9' }

  /** A time of day; PCRE's `$` also matches before a final newline, so one is tolerated. */
  function ParseHhmm(v: Json): Option<int> {
    if !v.Str? then None
    else if v.s == "24:00" then Some(1440)
    else if !(|v.s| == 5 || (|v.s| == 6 && v.s[5] == '\n')) then None
    else
      var t := v.s;
      if Digit(t[0]) && Digit(t[1]) && t[2] == ':' && Digit(t[3]) && Digit(t[4])
         && (t[0] == '0' || t[0] == '1' || (t[0] == '2' && t[1] <= '3')) && t[3] <= '5'
      then Some(((t[0] as int - 48) * 10 + (t[1] as int - 48)) * 60 + (t[3] as int - 48) * 10 + (t[4] as int - 48))
      else None
  }

  /** Every time of day lies in the day. */
  lemma HhmmInDay(v: Json)
    requires ParseHhmm(v).Some?
    ensures 0 <= ParseHhmm(v).value <= 1440
    ensures ParseHhmm(v).value == 1440 <==> v == Str("24:00")
  {
  }

  predicate GoodDays(days: seq<Entry>) {
    days != [] && forall i :: 0 <= i < |days| ==> days[i].value.Int? && 1 <= days[i].value.i <= 7
  }

  predicate GoodWindow(w: Json) {
    && w.Arr? && Field(w.entries, "days").Arr? && GoodDays(Field(w.entries, "days").entries)
    && ParseHhmm(Field(w.entries, "from")).Some? && ParseHhmm(Field(w.entries, "to")).Some?
    && ParseHhmm(Field(w.entries, "from")).value < ParseHhmm(Field(w.entries, "to")).value
  }

  /** The moment falls on one of the window's days, in [from, to). */
  predicate Covers(w: Json, weekday: int, minute: int)
    requires GoodWindow(w)
  {
    && HasValue(Field(w.entries, "days").entries, Int(weekday))
    && ParseHhmm(Field(w.entries, "from")).value <= minute < ParseHhmm(Field(w.entries, "to")).value
  }

  /** `None` for a malformed window, otherwise whether it covers the moment. */
  ghost function WindowMeaning(w: Json, weekday: int, minute: int): Option<bool> {
    if !GoodWindow(w) then None else Some(Covers(w, weekday, minute))
  }

  predicate ScheduleHeader(val: Json) {
    && val.Arr? && Field(val.entries, "tz").Str? && Field(val.entries, "windows").Arr?
    && Field(val.entries, "windows").entries != []
  }

  /** A schedule is malformed as soon as any of its windows is; otherwise some window must cover now. */
  ghost function ScheduleMeaning(env: Env, val: Json): Check {
    if !ScheduleHeader(val) then Invalid
    else
      match env.clock(Field(val.entries, "tz").s)
      case Raised => Crash
      case Unreadable => Invalid
      case Read(now) =>
        var windows := Field(val.entries, "windows").entries;
        if exists i :: 0 <= i < |windows| && WindowMeaning(windows[i].value, now.0, now.1).None? then Invalid
        else Decide(exists i :: 0 <= i < |windows| && WindowMeaning(windows[i].value, now.0, now.1) == Some(true))
  }

  method CheckDays(days: seq<Entry>) returns (good: bool)
    ensures good == GoodDays(days)
  {
    if days == [] {
      return false;
    }
    for k := 0 to |days|
      invariant forall j :: 0 <= j < k ==> days[j].value.Int? && 1 <= days[j].value.i <= 7
    {
      if !days[k].value.Int? || days[k].value.i < 1 || days[k].value.i > 7 {
        return false;
      }
    }
    good := true;
  }

  /** One window: malformed, or whether it covers the moment. */
  method CheckWindow(w: Json, day: int, minutes: int) returns (covers: Option<bool>)
    ensures covers == WindowMeaning(w, day, minutes)
  {
    if !w.Arr? || !Field(w.entries, "days").Arr? {
      return None;
    }
    var days := Field(w.entries, "days").entries;
    var good := CheckDays(days);
    var start, end := ParseHhmm(Field(w.entries, "from")), ParseHhmm(Field(w.entries, "to"));
    if !good || start.None? || end.None? || start.value >= end.value {
      return None;
    }
    covers := Some(HasValue(days, Int(day)) && start.value <= minutes < end.value);
  }

  /** The first i windows are well-formed, and `found` says whether one of them covers the moment. */
  ghost predicate Checked(windows: seq<Entry>, i: nat, day: int, minutes: int, found: bool) {
    && i <= |windows|
    && (forall j :: 0 <= j < i ==> WindowMeaning(windows[j].value, day, minutes).Some?)
    && (found <==> exists j :: 0 <= j < i && WindowMeaning(windows[j].value, day, minutes) == Some(true))
  }

  lemma CheckedNext(windows: seq<Entry>, i: nat, day: int, minutes: int, found: bool, covers: bool)
    requires Checked(windows, i, day, minutes, found) && i < |windows|
    requires WindowMeaning(windows[i].value, day, minutes) == Some(covers)
    ensures Checked(windows, i + 1, day, minutes, found || covers)
  {
  }

  method CheckWindows(windows: seq<Entry>, day: int, minutes: int) returns (inside: Option<bool>)
    ensures inside.None? <==> exists i :: 0 <= i < |windows| && WindowMeaning(windows[i].value, day, minutes).None?
    ensures inside.Some? ==> Checked(windows, |windows|, day, minutes, inside.value)
  {
    var found := false;
    for i := 0 to |windows|
      invariant Checked(windows, i, day, minutes, found)
    {
      var covers := CheckWindow(windows[i].value, day, minutes);
      if covers.None? {
        return None;
      }
      CheckedNext(windows, i, day, minutes, found, covers.value);
      found := found || covers.value;
    }
    inside := Some(found);
  }

  method EvalSchedule(env: Env, val: Json) returns (r: Check)
    ensures r == ScheduleMeaning(env, val)
  {
    if !ScheduleHeader(val) {
      return Invalid;
    }
    match env.clock(Field(val.entries, "tz").s) {
      case Raised => r := Crash;
      case Unreadable => r := Invalid;
      case Read(now) =>
        var inside := CheckWindows(Field(val.entries, "windows").entries, now.0, now.1);
        r := if inside.None? then Invalid else Decide(inside.value);
    }
  }

  // ----- End of life -----

  function Undelimited(s: string): string { "~" + Replace(s, "~", "\\~") + "~" }

  /** Everything that is checked of an entry before its date is read. */
  predicate EntryShape(env: Env, e: Json) {
    && e.Arr? && Field(e.entries, "field").Str? && Field(e.entries, "regex").Str? && Field(e.entries, "date").Str?
    && (Field(e.entries, "edition_regex").Null? || Field(e.entries, "edition_regex").Str?)
    && env.preg(Undelimited(Field(e.entries, "regex").s), "").Some?
    && (Field(e.entries, "edition_regex").Str? ==> env.preg(Undelimited(Field(e.entries, "edition_regex").s), "").Some?)
  }

  predicate GoodEntry(env: Env, e: Json) {
    EntryShape(env, e) && env.day(Field(e.entries, "date").s).Read?
  }

  predicate RaisingEntry(env: Env, e: Json) {
    EntryShape(env, e) && env.day(Field(e.entries, "date").s).Raised?
  }

  /** Entry k is the first that is not good. */
  ghost predicate FirstBad(env: Env, table: seq<Entry>, k: nat) {
    k < |table| && !GoodEntry(env, table[k].value) && forall j :: 0 <= j < k ==> GoodEntry(env, table[j].value)
  }

  /** The first entry that is not good raises. */
  ghost predicate TableRaises(env: Env, table: seq<Entry>) {
    exists k: nat :: FirstBad(env, table, k) && RaisingEntry(env, table[k].value)
  }

  predicate EntryMatches(env: Env, posture: Posture, e: Json)
    requires GoodEntry(env, e)
  {
    var edition := if "os_edition" in posture then posture["os_edition"] else "";
    && Field(e.entries, "field").s in posture
    && Hit(env, Undelimited(Field(e.entries, "regex").s), posture[Field(e.entries, "field").s])
    && (Field(e.entries, "edition_regex").Str? ==>
          edition != "" && edition != "unknown" && Hit(env, Undelimited(Field(e.entries, "edition_regex").s), edition))
  }

  ghost predicate FirstMatch(env: Env, posture: Posture, table: seq<Entry>, k: nat) {
    && k < |table| && (forall j :: 0 <= j < |table| ==> GoodEntry(env, table[j].value))
    && EntryMatches(env, posture, table[k].value)
    && forall j :: 0 <= j < k ==> !EntryMatches(env, posture, table[j].value)
  }

  function EolTable(posture: Posture, eol: seq<Entry>): Json {
    var t := Field(eol, if "platform" in posture then posture["platform"] else "");
    if t.Null? then Arr([]) else t
  }

  /** Passes unless the first matching entry's date has gone by; the first entry that is not good, anywhere, spoils the table. */
  ghost function NotEolMeaning(env: Env, posture: Posture, eol: seq<Entry>): Check {
    var table := EolTable(posture, eol);
    if !table.Arr? then Invalid
    else if TableRaises(env, table.entries) then Crash
    else if exists j :: 0 <= j < |table.entries| && !GoodEntry(env, table.entries[j].value) then Invalid
    else Decide(forall k: nat :: FirstMatch(env, posture, table.entries, k) ==>
                  env.today <= env.day(Field(table.entries[k].value.entries, "date").s).value)
  }

  /** The first i entries are good, and `found` is the date of the first of them that matches, entry `at`. */
  ghost predicate Scanned(env: Env, posture: Posture, table: seq<Entry>, i: nat, found: Option<int>, at: nat) {
    && i <= |table| && (forall j :: 0 <= j < i ==> GoodEntry(env, table[j].value))
    && (found.None? ==> forall j :: 0 <= j < i ==> !EntryMatches(env, posture, table[j].value))
    && (found.Some? ==> at < i && EntryMatches(env, posture, table[at].value)
                        && env.day(Field(table[at].value.entries, "date").s) == Read(found.value)
                        && forall j :: 0 <= j < at ==> !EntryMatches(env, posture, table[j].value))
  }

  /** Once the whole table has been scanned its first match decides. */
  lemma ScannedDecides(env: Env, posture: Posture, table: seq<Entry>, found: Option<int>, at: nat)
    requires Scanned(env, posture, table, |table|, found, at)
    ensures !TableRaises(env, table)
    ensures forall k: nat :: FirstMatch(env, posture, table, k) <==> found.Some? && k == at
  {
  }

  method EvalNotEol(env: Env, posture: Posture, eol: seq<Entry>) returns (r: Check)
    ensures r == NotEolMeaning(env, posture, eol)
  {
    var table := EolTable(posture, eol);
    if !table.Arr? {
      return Invalid;
    }
    var entries := table.entries;
    var found: Option<int> := None;
    ghost var at: nat := 0;
    for i := 0 to |entries|
      invariant Scanned(env, posture, entries, i, found, at)
    {
      var e := entries[i].value;
      if !GoodEntry(env, e) {
        assert FirstBad(env, entries, i);
        return if RaisingEntry(env, e) then Crash else Invalid;
      }
      if found.None? && EntryMatches(env, posture, e) {
        found := Some(env.day(Field(e.entries, "date").s).value);
        at := i;
      }
    }
    ScannedDecides(env, posture, entries, found, at);
    r := if found.None? then Pass else Decide(env.today <= found.value);
  }

  // ----- Scope -----

  predicate StringList(v: Json) { v.Null? || (v.Arr? && AllStrings(v.entries)) }

  predicate Member(groups: seq<Entry>, name: string, host: string) {
    Field(groups, name).Arr? && HasValue(Field(groups, name).entries, Str(host))
  }

  ghost predicate Named(rule: seq<Entry>, groups: seq<Entry>, host: string)
    requires StringList(Field(rule, "hosts")) && StringList(Field(rule, "groups"))
  {
    || (Field(rule, "hosts").Arr? && HasValue(Field(rule, "hosts").entries, Str(host)))
    || (Field(rule, "groups").Arr? && exists i :: 0 <= i < |Field(rule, "groups").entries|
                                                 && Member(groups, Field(rule, "groups").entries[i].value.s, host))
  }

  /** Whether a rule is meant for a host; `None` for malformed lists; no host asks for every rule. */
  ghost function ScopeMeaning(rule: seq<Entry>, groups: seq<Entry>, host: Option<string>): Option<bool> {
    if !StringList(Field(rule, "hosts")) || !StringList(Field(rule, "groups")) then None
    else Some((Field(rule, "hosts").Null? && Field(rule, "groups").Null?) || host.None? || Named(rule, groups, host.value))
  }

  method InHostScope(rule: seq<Entry>, groups: seq<Entry>, host: Option<string>) returns (r: Option<bool>)
    ensures r == ScopeMeaning(rule, groups, host)
  {
    var hosts, names := Field(rule, "hosts"), Field(rule, "groups");
    if hosts.Null? && names.Null? {
      return Some(true);
    }
    if !StringList(hosts) || !StringList(names) {
      return None;
    }
    if host.None? {
      return Some(true);
    }
    if hosts.Arr? && HasValue(hosts.entries, Str(host.value)) {
      return Some(true);
    }
    if names.Arr? {
      for i := 0 to |names.entries|
        invariant forall j :: 0 <= j < i ==> !Member(groups, names.entries[j].value.s, host.value)
      {
        if Member(groups, names.entries[i].value.s, host.value) {
          return Some(true);
        }
      }
    }
    r := Some(false);
  }

  // ----- Rules -----

  const MAX_ID_LEN: nat := 128

  datatype Failure = Failure(id: string, message: string, bypassable: bool)

  function ShortId(s: string): string { if |s| <= MAX_ID_LEN then s else s[..MAX_ID_LEN] }

  function RuleId(rule: Json): string {
    if rule.Arr? && Field(rule.entries, "id").Str? then ShortId(Field(rule.entries, "id").s) else "?"
  }

  predicate RuleEnabled(rule: seq<Entry>) { Field(rule, "enabled").Null? || Field(rule, "enabled") == Bool(true) }

  /** A rule without a platform list, or with something that is not a list, is for every platform. */
  predicate ForPlatform(rule: seq<Entry>, platform: string) {
    var p := Field(rule, "platforms");
    !p.Arr? || p.entries == [] || HasValue(p.entries, Str(platform))
  }

  /** `$rule['bypassable'] ?? true`. */
  function BypassableOrTrue(rule: seq<Entry>): Json {
    if Field(rule, "bypassable").Null? then Bool(true) else Field(rule, "bypassable")
  }

  /** The parts of a rule that are checked before its scope. */
  predicate GoodHeader(rule: seq<Entry>) {
    && BypassableOrTrue(rule).Bool?
    && Field(rule, "op").Str?
    && (Field(rule, "unknown_is").Null? || Field(rule, "unknown_is") == Str("pass") || Field(rule, "unknown_is") == Str("fail"))
  }

  /** Whether the answer for an unknown value is settled by the rule rather than by its operator. */
  predicate UnknownSettled(rule: seq<Entry>, op: string, v: string) {
    v == "unknown" && op != "present" && op != "not_unknown" && (!Field(rule, "unknown_is").Null? || !ListOp(op))
  }

  /** What an applicable rule demands of a device. */
  ghost function Demand(env: Env, rule: seq<Entry>, posture: Posture, eol: seq<Entry>): Check
    requires GoodHeader(rule)
  {
    var op, field := Field(rule, "op").s, Field(rule, "field");
    if op == "schedule" then ScheduleMeaning(env, Field(rule, "value"))
    else if op == "not_eol" then NotEolMeaning(env, posture, eol)
    else if !field.Str? then Invalid
    else if field.s !in posture then Decide(Field(rule, "allow_missing") == Bool(true))
    else
      var met := OpMeaning(env, op, posture[field.s], Field(rule, "value"));
      if UnknownSettled(rule, op, posture[field.s]) && (met.Pass? || met.Fail?) then Decide(Field(rule, "unknown_is") == Str("pass"))
      else met
  }

  /** A policy for one request: its rules and tables, the device and the host asking. */
  datatype Case = Case(env: Env, rules: seq<Json>, groups: seq<Entry>, eol: seq<Entry>, posture: Posture, platform: string, host: string)

  /** The rule has something to say about this device: it is a rule, switched on, and for its platform. */
  ghost predicate Applies(c: Case, rule: Json) {
    rule.Arr? && RuleEnabled(rule.entries) && ForPlatform(rule.entries, c.platform)
  }

  /**
   The meaning of one rule: `Pass` also when it does not apply or is meant for other hosts; `Invalid` when
   it is malformed where it matters.
   */
  ghost function RuleMeaning(c: Case, rule: Json): Check {
    if !rule.Arr? then Invalid
    else if !Applies(c, rule) then Pass
    else
      var scope := ScopeMeaning(rule.entries, c.groups, Some(c.host));
      if scope.None? || !GoodHeader(rule.entries) then Invalid
      else if !scope.value then Pass
      else Demand(c.env, rule.entries, c.posture, c.eol)
  }

  method JudgeOp(env: Env, op: string, v: string, val: Json) returns (r: Check)
    ensures r == OpMeaning(env, op, v, val)
  {
    if !ListOp(op) {
      return EvalPlain(env, op, v, val);
    }
    if !val.Str? || env.preg(val.s, "").None? {
      return Invalid;
    }
    var met := MatchList(env, op, val.s, SplitList(v));
    r := Decide(met);
  }

  /** The body of the evaluator's loop. */
  method JudgeRule(c: Case, rule: Json) returns (r: Check)
    ensures r == RuleMeaning(c, rule)
  {
    if !rule.Arr? {
      return Invalid;
    }
    var fields := rule.entries;
    if !RuleEnabled(fields) || !ForPlatform(fields, c.platform) {
      return Pass;
    }
    var scope := InHostScope(fields, c.groups, Some(c.host));
    if scope.None? || !GoodHeader(fields) {
      return Invalid;
    }
    if !scope.value {
      return Pass;
    }
    var op, field := Field(fields, "op").s, Field(fields, "field");
    if op == "schedule" {
      r := EvalSchedule(c.env, Field(fields, "value"));
    } else if op == "not_eol" {
      r := EvalNotEol(c.env, c.posture, c.eol);
    } else if !field.Str? {
      r := Invalid;
    } else if field.s !in c.posture {
      r := Decide(Field(fields, "allow_missing") == Bool(true));
    } else {
      var v := c.posture[field.s];
      r := JudgeOp(c.env, op, v, Field(fields, "value"));
      if UnknownSettled(fields, op, v) && r != Invalid && r != Crash {
        r := Decide(Field(fields, "unknown_is") == Str("pass"));
      }
    }
  }

  // ----- The evaluator -----

  function Malformed(rule: Json): Failure {
    Failure("core:policy:" + RuleId(rule), "policy non valida: " + RuleId(rule), false)
  }

  /** What the evaluator reports of a rule whose header it has checked. */
  function Violation(rule: Json): Failure
    requires rule.Arr? && GoodHeader(rule.entries)
  {
    var id, msg := RuleId(rule), Field(rule.entries, "message");
    Failure(id, if msg.Str? && msg.s != "" then msg.s else "requisito non soddisfatto: " + id, BypassableOrTrue(rule.entries).b)
  }

  datatype Evaluation = Evaluated(failed: seq<Failure>, errors: seq<Failure>) | Aborted

  /** The values a partial function yields along a list. */
  ghost function Collect<T>(f: Json -> Option<T>, rules: seq<Json>): seq<T> {
    if rules == [] then []
    else
      var last := f(rules[|rules| - 1]);
      Collect(f, rules[..|rules| - 1]) + if last.Some? then [last.value] else []
  }

  /** What a rule adds to the ordinary failures, to the policy errors, and whether it ends the request. */
  ghost function AsFailure(c: Case): Json -> Option<Failure> {
    (rule: Json) => if RuleMeaning(c, rule).Fail? then Some(Violation(rule)) else None
  }

  ghost function AsError(c: Case): Json -> Option<Failure> {
    (rule: Json) => if RuleMeaning(c, rule).Invalid? then Some(Malformed(rule)) else None
  }

  ghost predicate Crashes(c: Case, rules: seq<Json>) {
    exists i :: 0 <= i < |rules| && RuleMeaning(c, rules[i]).Crash?
  }

  /** One turn of the loop. */
  method Record(c: Case, rule: Json) returns (judged: Check)
    ensures judged == RuleMeaning(c, rule) && (judged.Fail? ==> rule.Arr? && GoodHeader(rule.entries))
    ensures AsFailure(c)(rule) == if judged.Fail? then Some(Violation(rule)) else None
    ensures AsError(c)(rule) == if judged.Invalid? then Some(Malformed(rule)) else None
  {
    judged := JudgeRule(c, rule);
  }

  method EvaluateRules(c: Case) returns (r: Evaluation)
    ensures r.Aborted? <==> Crashes(c, c.rules)
    ensures r.Evaluated? ==> r.failed == Collect(AsFailure(c), c.rules) && r.errors == Collect(AsError(c), c.rules)
  {
    var failed, errors := [], [];
    ghost var f, g := AsFailure(c), AsError(c);
    for i := 0 to |c.rules|
      invariant !Crashes(c, c.rules[..i])
      invariant failed == Collect(f, c.rules[..i]) && errors == Collect(g, c.rules[..i])
    {
      var rule := c.rules[i];
      assert c.rules[..i + 1][..i] == c.rules[..i];
      var judged := Record(c, rule);
      CrashStep(c, c.rules, i);
      if judged.Crash? {
        return Aborted;
      } else if judged.Invalid? {
        errors := errors + [Malformed(rule)];
      } else if judged.Fail? {
        failed := failed + [Violation(rule)];
      }
    }
    assert c.rules[..|c.rules|] == c.rules;
    r := Evaluated(failed, errors);
  }

  lemma CrashStep(c: Case, rules: seq<Json>, i: nat)
    requires i < |rules| && !Crashes(c, rules[..i])
    ensures Crashes(c, rules[..i + 1]) <==> RuleMeaning(c, rules[i]).Crash?
    ensures RuleMeaning(c, rules[i]).Crash? ==> Crashes(c, rules)
  {
    assert rules[..i + 1] == rules[..i] + [rules[i]];
  }

  // ----- The answer -----

  datatype Answer = Answer(ok: bool, failed: seq<Failure>)

  function Respond(failed: seq<Failure>): Answer { Answer(failed == [], failed) }

  const UNAVAILABLE := Failure("core:unavailable", "verifica non disponibile", false)

  /** Policy errors hide ordinary failures; an exception is answered as unavailable. */
  function AnswerTo(e: Evaluation): Answer {
    match e
    case Aborted => Respond([UNAVAILABLE])
    case Evaluated(failed, errors) => if errors != [] then Respond(errors) else Respond(failed)
  }

  method CheckDevice(c: Case) returns (a: Answer)
    ensures a == Verdict(c)
  {
    var e := EvaluateRules(c);
    a := AnswerTo(e);
  }

  ghost function Verdict(c: Case): Answer {
    if Crashes(c, c.rules) then AnswerTo(Aborted)
    else AnswerTo(Evaluated(Collect(AsFailure(c), c.rules), Collect(AsError(c), c.rules)))
  }

  /** A rule stands in nobody's way: well-formed as far as it is looked at, and met if it is meant for this host. */
  ghost predicate Harmless(c: Case, rule: Json) {
    && rule.Arr?
    && (Applies(c, rule) ==>
          && StringList(Field(rule.entries, "hosts")) && StringList(Field(rule.entries, "groups")) && GoodHeader(rule.entries)
          && (ScopeMeaning(rule.entries, c.groups, Some(c.host)) == Some(true) ==>
                Demand(c.env, rule.entries, c.posture, c.eol).Pass?))
  }

  /**
   The device passes exactly when no enabled, platform-matching rule is malformed and every such rule
   meant for the host is satisfied or excused.
   */
  lemma OkMeaning(c: Case)
    ensures Verdict(c).ok <==> forall i :: 0 <= i < |c.rules| ==> RuleMeaning(c, c.rules[i]).Pass?
    ensures Verdict(c).ok <==> forall i :: 0 <= i < |c.rules| ==> Harmless(c, c.rules[i])
  {
    CollectEmpty(AsFailure(c), c.rules);
    CollectEmpty(AsError(c), c.rules);
    if Verdict(c).ok {
      forall i | 0 <= i < |c.rules|
        ensures RuleMeaning(c, c.rules[i]).Pass?
      {
        assert AsFailure(c)(c.rules[i]).None? && AsError(c)(c.rules[i]).None?;
      }
    }
  }

  lemma {:induction false} CollectEmpty<T>(f: Json -> Option<T>, rules: seq<Json>)
    ensures Collect(f, rules) == [] <==> forall i :: 0 <= i < |rules| ==> f(rules[i]).None?
  {
    if rules != [] {
      CollectEmpty(f, rules[..|rules| - 1]);
      assert forall i :: 0 <= i < |rules| - 1 ==> rules[..|rules| - 1][i] == rules[i];
    }
  }

  // ----- The order of the rules -----

  lemma {:induction false} CollectMember<T>(f: Json -> Option<T>, rules: seq<Json>, x: T)
    ensures x in Collect(f, rules) <==> exists i :: 0 <= i < |rules| && f(rules[i]) == Some(x)
  {
    if rules != [] {
      var init := rules[..|rules| - 1];
      CollectMember(f, init, x);
      if i :| 0 <= i < |rules| && f(rules[i]) == Some(x) {
        assert i < |init| ==> init[i] == rules[i];
      }
      if x in Collect(f, init) {
        var i :| 0 <= i < |init| && f(init[i]) == Some(x);
        assert rules[i] == init[i];
      }
    }
  }

  lemma {:induction false} CollectConcat<T>(f: Json -> Option<T>, a: seq<Json>, b: seq<Json>)
    ensures Collect(f, a + b) == Collect(f, a) + Collect(f, b)
  {
    if b == [] {
      assert a + b == a;
    } else {
      assert (a + b)[..|a + b| - 1] == a + b[..|b| - 1];
      CollectConcat(f, a, b[..|b| - 1]);
    }
  }

  /** Cutting a sequence at a position, and what is left as a bag without the element there. */
  lemma Cut<T>(s: seq<T>, k: nat) returns (a: seq<T>, b: seq<T>)
    requires k < |s|
    ensures s == (a + [s[k]]) + b && multiset(a + b) == multiset(s) - multiset{s[k]}
  {
    a, b := s[..k], s[k + 1..];
    assert s == (a + [s[k]]) + b;
  }

  ghost function Yield<T>(f: Json -> Option<T>, rule: Json): multiset<T> {
    if f(rule).Some? then multiset{f(rule).value} else multiset{}
  }

  /** A rule adds exactly what it yields, wherever it is put. */
  lemma CollectInserted<T>(f: Json -> Option<T>, a: seq<Json>, rule: Json, b: seq<Json>)
    ensures multiset(Collect(f, (a + [rule]) + b)) == multiset(Collect(f, a + b)) + Yield(f, rule)
  {
    CollectConcat(f, a + [rule], b);
    CollectConcat(f, a, b);
    CollectOneMore(f, a, rule);
  }

  lemma CollectOneMore<T>(f: Json -> Option<T>, rules: seq<Json>, rule: Json)
    ensures multiset(Collect(f, rules + [rule])) == multiset(Collect(f, rules)) + Yield(f, rule)
  {
    assert (rules + [rule])[..|rules|] == rules;
  }

  /** Reordering the rules reorders what is collected, and does nothing else to it. */
  lemma {:induction false} CollectPermuted<T>(f: Json -> Option<T>, a: seq<Json>, b: seq<Json>)
    requires multiset(a) == multiset(b)
    ensures multiset(Collect(f, a)) == multiset(Collect(f, b))
    decreases |a|
  {
    assert |multiset(a)| == |a| && |multiset(b)| == |b|;
    if a != [] {
      var k := SameMembers(a, b, 0);
      var p, q := Cut(a, 0);
      var s, t := Cut(b, k);
      CollectPermuted(f, p + q, s + t);
      CollectInserted(f, p, a[0], q);
      CollectInserted(f, s, a[0], t);
    }
  }

  lemma SameMembers(a: seq<Json>, b: seq<Json>, i: nat) returns (j: nat)
    requires multiset(a) == multiset(b) && i < |a|
    ensures j < |b| && b[j] == a[i]
  {
    assert a[i] in multiset(b);
    j :| 0 <= j < |b| && b[j] == a[i];
  }

  /** The same rule means the same whatever list it stands in. */
  lemma MeaningIsLocal(c: Case, rules: seq<Json>, rule: Json)
    ensures RuleMeaning(c.(rules := rules), rule) == RuleMeaning(c, rule)
  {
  }

  /** The answer does not depend on the order of the rules, and neither does what is reported, as a bag. */
  lemma OrderIrrelevant(c: Case, rules: seq<Json>)
    requires multiset(c.rules) == multiset(rules)
    ensures Verdict(c).ok == Verdict(c.(rules := rules)).ok
    ensures multiset(Verdict(c).failed) == multiset(Verdict(c.(rules := rules)).failed)
  {
    var d := c.(rules := rules);
    CrashesPermuted(c, c.rules, rules);
    SameCollections(c, rules);
    CollectPermuted(AsFailure(c), c.rules, rules);
    CollectPermuted(AsError(c), c.rules, rules);
    var f, e := Collect(AsFailure(c), c.rules), Collect(AsError(c), c.rules);
    var f', e' := Collect(AsFailure(c), rules), Collect(AsError(c), rules);
    assert |multiset(e)| == |e| && |multiset(e')| == |e'|;
    assert |multiset(f)| == |f| && |multiset(f')| == |f'|;
  }

  lemma CrashesPermuted(c: Case, a: seq<Json>, b: seq<Json>)
    requires multiset(a) == multiset(b)
    ensures Crashes(c, a) <==> Crashes(c, b)
  {
    if i :| 0 <= i < |a| && RuleMeaning(c, a[i]).Crash? {
      var j := SameMembers(a, b, i);
    }
    if i :| 0 <= i < |b| && RuleMeaning(c, b[i]).Crash? {
      var j := SameMembers(b, a, i);
    }
  }

  lemma SameCollections(c: Case, rules: seq<Json>)
    ensures var d := c.(rules := rules);
      && Collect(AsFailure(d), rules) == Collect(AsFailure(c), rules)
      && Collect(AsError(d), rules) == Collect(AsError(c), rules)
      && (Crashes(d, rules) <==> Crashes(c, rules))
  {
    var d := c.(rules := rules);
    forall rule
      ensures AsFailure(d)(rule) == AsFailure(c)(rule) && AsError(d)(rule) == AsError(c)(rule)
    {
      MeaningIsLocal(c, rules, rule);
    }
    CollectEqual(AsFailure(d), AsFailure(c), rules);
    CollectEqual(AsError(d), AsError(c), rules);
    forall i | 0 <= i < |rules|
      ensures RuleMeaning(d, rules[i]) == RuleMeaning(c, rules[i])
    {
      MeaningIsLocal(c, rules, rules[i]);
    }
  }

  lemma {:induction false} CollectEqual<T>(f: Json -> Option<T>, g: Json -> Option<T>, rules: seq<Json>)
    requires forall rule :: f(rule) == g(rule)
    ensures Collect(f, rules) == Collect(g, rules)
  {
    if rules != [] {
      CollectEqual(f, g, rules[..|rules| - 1]);
    }
  }

  /** Adding rules never turns a refusal into a pass. */
  lemma MoreRulesNeverHelp(c: Case, more: seq<Json>)
    requires Verdict(c.(rules := c.rules + more)).ok
    ensures Verdict(c).ok
  {
    var d := c.(rules := c.rules + more);
    OkMeaning(d);
    forall i | 0 <= i < |c.rules|
      ensures RuleMeaning(c, c.rules[i]).Pass?
    {
      assert d.rules[i] == c.rules[i];
      MeaningIsLocal(c, d.rules, c.rules[i]);
    }
    OkMeaning(c);
  }

  // ----- Malformed rules -----

  /** What a rule in force can raise on: a nested list, a date, a time zone, an entry of the end-of-life table. */
  ghost predicate Raises(c: Case, rule: seq<Entry>) {
    var op, field, val := Field(rule, "op"), Field(rule, "field"), Field(rule, "value");
    if op == Str("schedule") then ScheduleHeader(val) && c.env.clock(Field(val.entries, "tz").s).Raised?
    else if op == Str("not_eol") then
      EolTable(c.posture, c.eol).Arr? && TableRaises(c.env, EolTable(c.posture, c.eol).entries)
    else
      && op.Str? && field.Str? && field.s in c.posture
      && (NestedList(op.s, val) || RaisingDate(c.env, op.s, c.posture[field.s], val))
  }

  /** A rule ends the request with an exception exactly when it is in force for the device and gets to raise one. */
  lemma CrashExactly(c: Case, rule: Json)
    ensures RuleMeaning(c, rule).Crash? <==>
      && Applies(c, rule) && GoodHeader(rule.entries)
      && ScopeMeaning(rule.entries, c.groups, Some(c.host)) == Some(true)
      && Raises(c, rule.entries)
  {
    if Applies(c, rule) && GoodHeader(rule.entries) {
      var op, field := Field(rule.entries, "op").s, Field(rule.entries, "field");
      if field.Str? && field.s in c.posture {
        CrashingOperators(c.env, op, c.posture[field.s], Field(rule.entries, "value"));
      }
    }
  }

  /** Such a rule: one that asks for a field to be in a list that holds the empty list. */
  function Nested(field: string): Json {
    Arr([Entry("op", Str("in")), Entry("field", Str(field)), Entry("value", Arr([Entry("0", Arr([]))]))])
  }

  lemma NestedFields(rule: seq<Entry>, field: string)
    requires Arr(rule) == Nested(field)
    ensures Field(rule, "op") == Str("in") && Field(rule, "field") == Str(field)
    ensures Field(rule, "value") == Arr([Entry("0", Arr([]))])
    ensures forall k :: k !in {"op", "field", "value"} ==> Field(rule, k).Null?
  {
    assert rule[1..][1..] == [rule[2]];
    assert forall k :: Field([rule[2]], k) == if k == "value" then rule[2].value else Null;
    assert forall k :: Field(rule[1..], k) == if k == "field" then rule[1].value else Field([rule[2]], k);
  }

  lemma NestedCrashes(c: Case, field: string)
    requires field in c.posture
    ensures RuleMeaning(c, Nested(field)).Crash?
  {
    NestedFields(Nested(field).entries, field);
    assert [Entry("0", Arr([]))][0].value.Arr?;
    BareRuleCrashes(c, Nested(field));
  }

  lemma BareRuleCrashes(c: Case, rule: Json)
    requires rule.Arr? && Field(rule.entries, "op") == Str("in") && Raises(c, rule.entries)
    requires forall k :: k !in {"op", "field", "value"} ==> Field(rule.entries, k).Null?
    ensures RuleMeaning(c, rule).Crash?
  {
    CrashExactly(c, rule);
  }

  /** Any device that sends the field is refused as if the service were down, whatever the other rules say. */
  lemma NestedListEndsRequest(c: Case, field: string)
    requires field in c.posture && Nested(field) in c.rules
    ensures Verdict(c) == AnswerTo(Aborted)
  {
    NestedCrashes(c, field);
    var i :| 0 <= i < |c.rules| && c.rules[i] == Nested(field);
    assert RuleMeaning(c, c.rules[i]).Crash?;
  }

  ghost predicate SomeMalformed(c: Case) {
    exists i :: 0 <= i < |c.rules| && RuleMeaning(c, c.rules[i]).Invalid?
  }

  /** What the policy errors are: one for each malformed rule, none of them bypassable or "unavailable". */
  lemma ErrorsAre(c: Case)
    ensures Collect(AsError(c), c.rules) != [] <==> SomeMalformed(c)
    ensures UNAVAILABLE !in Collect(AsError(c), c.rules)
    ensures forall f :: f in Collect(AsError(c), c.rules) ==> !f.bypassable
  {
    CollectEmpty(AsError(c), c.rules);
    forall f | f in Collect(AsError(c), c.rules)
      ensures !f.bypassable && f != UNAVAILABLE
    {
      CollectMember(AsError(c), c.rules, f);
      assert f.id[5] == 'p' && UNAVAILABLE.id[5] == 'u';
    }
    if i :| 0 <= i < |c.rules| && RuleMeaning(c, c.rules[i]).Invalid? {
      assert AsError(c)(c.rules[i]).Some?;
    }
  }

  /** Policy errors are what is reported exactly when some rule is malformed and none ends the request. */
  lemma PolicyErrorsExactly(c: Case)
    ensures SomeMalformed(c) && !Crashes(c, c.rules) <==> Verdict(c).failed != [] && Verdict(c).failed == Collect(AsError(c), c.rules)
  {
    ErrorsAre(c);
    if Crashes(c, c.rules) {
      assert UNAVAILABLE in Verdict(c).failed;
    }
  }

  /**
   Fail closed: a malformed rule that applies refuses, and nothing reported can be bypassed; it is itself
   reported exactly when no rule ends the request.
   */
  lemma MalformedRefuses(c: Case, i: nat)
    requires i < |c.rules| && RuleMeaning(c, c.rules[i]).Invalid?
    ensures !Verdict(c).ok
    ensures Malformed(c.rules[i]) in Verdict(c).failed <==> !Crashes(c, c.rules)
    ensures forall f :: f in Verdict(c).failed ==> !f.bypassable
  {
    ErrorsAre(c);
    CollectMember(AsError(c), c.rules, Malformed(c.rules[i]));
    assert AsError(c)(c.rules[i]) == Some(Malformed(c.rules[i]));
  }

  // ----- The public listing -----

  datatype Listed = Listed(id: string, message: string, bypassable: bool, platforms: seq<Json>)

  function Items(a: seq<Entry>): seq<Json> { seq(|a|, i requires 0 <= i < |a| => a[i].value) }

  /** What the listing shows of a rule, of which it has checked only the id. */
  function Listing(rule: Json): Listed
    requires rule.Arr? && Field(rule.entries, "id").Str?
  {
    var id, msg, p := ShortId(Field(rule.entries, "id").s), Field(rule.entries, "message"), Field(rule.entries, "platforms");
    Listed(id, if msg.Null? || !msg.Str? || msg.s == "" then "requisito non soddisfatto: " + id else msg.s,
           BypassableOrTrue(rule.entries) != Bool(false), if p.Arr? then Items(p.entries) else [])
  }

  ghost function AsListed(groups: seq<Entry>, host: Option<string>): Json -> Option<Listed> {
    (rule: Json) =>
      if rule.Arr? && RuleEnabled(rule.entries) && Field(rule.entries, "id").Str?
         && ScopeMeaning(rule.entries, groups, host) != Some(false)
      then Some(Listing(rule)) else None
  }

  method ListRules(rules: seq<Json>, groups: seq<Entry>, host: Option<string>) returns (out: seq<Listed>)
    ensures out == Collect(AsListed(groups, host), rules)
  {
    out := [];
    for i := 0 to |rules|
      invariant out == Collect(AsListed(groups, host), rules[..i])
    {
      var rule := rules[i];
      assert rules[..i + 1][..i] == rules[..i];
      if rule.Arr? && RuleEnabled(rule.entries) && Field(rule.entries, "id").Str? {
        var scope := InHostScope(rule.entries, groups, host);
        if scope != Some(false) {
          out := out + [Listing(rule)];
        }
      }
    }
    assert rules[..|rules|] == rules;
  }

  /** A rule that fails a device is one its host is shown, and as the evaluator reports it: its header was checked. */
  lemma FailedRuleIsListed(c: Case, rule: Json)
    requires RuleMeaning(c, rule).Fail? && Field(rule.entries, "id").Str?
    ensures AsListed(c.groups, Some(c.host))(rule) == Some(Listing(rule))
    ensures Listing(rule).id == Violation(rule).id && Listing(rule).message == Violation(rule).message
    ensures Listing(rule).bypassable == Violation(rule).bypassable
  {
  }

  /**
   The listing agrees with the evaluator: every ordinary failure reported for a host comes from a rule,
   and if that rule has a string id the host's listing shows the same id, message and bypassable flag.
   */
  lemma ListingAgrees(c: Case, f: Failure) returns (i: nat)
    requires f in Collect(AsFailure(c), c.rules)
    ensures i < |c.rules| && c.rules[i].Arr? && RuleMeaning(c, c.rules[i]).Fail? && f == Violation(c.rules[i])
    ensures Field(c.rules[i].entries, "id").Str? ==>
      exists l :: l in Collect(AsListed(c.groups, Some(c.host)), c.rules)
                  && l.id == f.id && l.message == f.message && l.bypassable == f.bypassable
  {
    CollectMember(AsFailure(c), c.rules, f);
    i :| 0 <= i < |c.rules| && AsFailure(c)(c.rules[i]) == Some(f);
    if Field(c.rules[i].entries, "id").Str? {
      FailedRuleIsListed(c, c.rules[i]);
      CollectMember(AsListed(c.groups, Some(c.host)), c.rules, Listing(c.rules[i]));
    }
  }
}
