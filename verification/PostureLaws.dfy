/**
 What the posture operators, rules, schedules and tables do to given inputs: laws that say it in terms of
 the policy's JSON and the device's fields, beside the evaluator and its meaning.
 */
module PostureLaws {
  import opened Options
  import opened Text
  import opened PosturePolicy

  // ----- Fields of a rule -----

  /** A field is the first entry with its key, and null if there is none. */
  lemma {:induction false} FieldExact(a: seq<Entry>, k: string)
    ensures (forall i :: 0 <= i < |a| ==> a[i].key != k) ==> Field(a, k) == Null
    ensures forall i :: 0 <= i < |a| && a[i].key == k && (forall j :: 0 <= j < i ==> a[j].key != k) ==> Field(a, k) == a[i].value
  {
    if a != [] {
      FieldExact(a[1..], k);
      forall i | 0 <= i < |a| && a[i].key == k && (forall j :: 0 <= j < i ==> a[j].key != k)
        ensures Field(a, k) == a[i].value
      {
        if i > 0 {
          assert a[0].key != k && a[1..][i - 1] == a[i];
        }
      }
    }
  }

  // ----- Operators -----

  /** `regex` passes exactly what the pattern matches. */
  lemma RegexExact(env: Env, v: string, pattern: string)
    requires env.preg(pattern, "").Some?
    ensures OpMeaning(env, "regex", v, Str(pattern)) == if env.preg(pattern, v) == Some(true) then Pass else Fail
  {
  }

  /** On a value that is its own only list element it is `any_match`, and `all_match` as well. */
  lemma RegexIsAnyMatch(env: Env, v: string, val: Json)
    requires SplitList(v) == [v]
    ensures OpMeaning(env, "regex", v, val) == OpMeaning(env, "any_match", v, val) == OpMeaning(env, "all_match", v, val)
  {
    assert [v][0] == v;
  }

  /** The comparisons take every value but null and arrays, the patterns strings only. */
  lemma ParametersExact(env: Env, v: string, val: Json)
    ensures OpMeaning(env, "eq", v, val).Invalid? <==> val.Null? || val.Arr?
    ensures OpMeaning(env, "version_gte", v, val).Invalid? <==> val.Null? || val.Arr?
    ensures OpMeaning(env, "version_lt", v, val).Invalid? <==> val.Null? || val.Arr?
    ensures OpMeaning(env, "in", v, val).Invalid? <==> !val.Arr?
  {
  }

  lemma OtherParametersExact(env: Env, v: string, val: Json)
    ensures OpMeaning(env, "regex", v, val).Invalid? <==> !val.Str? || env.preg(val.s, "").None?
    ensures OpMeaning(env, "any_match", v, val).Invalid? <==> OpMeaning(env, "regex", v, val).Invalid?
    ensures OpMeaning(env, "date_within_days", v, val).Invalid? <==> !val.Int? || val.i < 1
    ensures OpMeaning(env, "num_gte", v, val).Invalid? <==> env.number(val).None?
    ensures OpMeaning(env, "num_lte", v, val).Invalid? <==> env.number(val).None?
  {
  }

  /** `eq` on a string passes exactly for that string. */
  lemma EqExact(env: Env, v: string, s: string)
    requires env.scalarText(Str(s)) == s
    ensures OpMeaning(env, "eq", v, Str(s)) == if v == s then Pass else Fail
  {
  }

  /** `in` passes exactly when `eq` passes for one of the list's elements. */
  lemma InExact(env: Env, v: string, a: seq<Entry>)
    requires forall i :: 0 <= i < |a| ==> IsScalar(a[i].value)
    ensures OpMeaning(env, "in", v, Arr(a)).Pass? <==> exists i :: 0 <= i < |a| && OpMeaning(env, "eq", v, a[i].value).Pass?
    ensures OpMeaning(env, "in", v, Arr(a)).Pass? || OpMeaning(env, "in", v, Arr(a)).Fail?
  {
    if i :| 0 <= i < |a| && (if a[i].value.Null? then "" else env.scalarText(a[i].value)) == v {
      assert OpMeaning(env, "eq", v, a[i].value).Pass?;
    }
    if i :| 0 <= i < |a| && OpMeaning(env, "eq", v, a[i].value).Pass? {
      assert TextIn(env, v, a);
    }
  }

  /** A device number above the bound passes `num_gte` alone, one below it `num_lte` alone. */
  lemma NumbersExact(env: Env, v: string, val: Json, device: real, bound: real)
    requires env.number(Str(v)) == Some(device) && env.number(val) == Some(bound)
    ensures OpMeaning(env, "num_gte", v, val) == if device < bound then Fail else Pass
    ensures OpMeaning(env, "num_lte", v, val) == if device > bound then Fail else Pass
  {
  }

  /** Dates pass from n days before today on. */
  lemma DatesExact(env: Env, v: string, n: int, day: int)
    requires n > 0 && !env.tooFar(n) && env.day(v) == Read(day)
    ensures OpMeaning(env, "date_within_days", v, Int(n)) == if day < env.today - n then Fail else Pass
    ensures day == env.today ==> OpMeaning(env, "date_within_days", v, Int(n)).Pass?
  {
  }

  /** The version operators compare the device's version with the rule's, in that order. */
  lemma VersionsExact(env: Env, v: string, s: string)
    requires env.scalarText(Str(s)) == s
    ensures OpMeaning(env, "version_gte", v, Str(s)) == if env.versionGte(v, s) then Pass else Fail
    ensures OpMeaning(env, "version_lt", v, Str(s)) == if env.versionLt(v, s) then Pass else Fail
  {
  }

  /** `present` and `not_unknown` fail exactly on nothing and on "unknown". */
  lemma PresentExact(env: Env, v: string, val: Json)
    ensures OpMeaning(env, "present", v, val) == OpMeaning(env, "not_unknown", v, val)
    ensures OpMeaning(env, "present", v, val) == if v in {"", "unknown"} then Fail else Pass
  {
  }

  /** There are no other operators on a field. */
  lemma NoOtherOperators(env: Env, op: string, v: string, val: Json)
    requires op !in {"eq", "ne", "in", "not_in", "regex", "any_match", "none_match", "all_match"}
    requires op !in {"version_gte", "version_lt", "num_gte", "num_lte", "date_within_days", "present", "not_unknown"}
    ensures OpMeaning(env, op, v, val).Invalid?
  {
  }

  // ----- Lists in one value -----

  predicate Blank(s: string) { forall i :: 0 <= i < |s| ==> PhpBlank(s[i]) }

  lemma {:induction false} TrimBlank(s: string)
    requires Blank(s)
    ensures PhpTrim(s) == ""
  {
    if s != "" {
      TrimBlank(s[1..]);
    }
  }

  /** Blanks around an element that neither begins nor ends with one are trimmed. */
  lemma {:induction false} TrimElement(a: string, x: string, b: string)
    requires Blank(a) && Blank(b) && x != "" && !PhpBlank(x[0]) && !PhpBlank(x[|x| - 1])
    ensures PhpTrim(a + x + b) == x
    decreases |a| + |b|
  {
    var s := a + x + b;
    if a != "" {
      assert s[1..] == a[1..] + x + b;
      TrimElement(a[1..], x, b);
    } else if b != "" {
      assert s[..|s| - 1] == a + x + b[..|b| - 1];
      TrimElement(a, x, b[..|b| - 1]);
    } else {
      assert s == x;
    }
  }

  /** The elements written between bars, blanks around them allowed, are the elements of the list. */
  lemma ListExact(pieces: seq<string>, items: seq<string>)
    requires pieces != [] && |pieces| == |items| && JoinWith(pieces, '|') != "" && JoinWith(pieces, '|') != "unknown"
    requires forall i :: 0 <= i < |pieces| ==> '|' !in pieces[i] && PhpTrim(pieces[i]) == items[i] != ""
    ensures SplitList(JoinWith(pieces, '|')) == items
  {
    SplitJoin(pieces, '|');
    TrimmedExact(pieces, items);
  }

  lemma {:induction false} TrimmedExact(pieces: seq<string>, items: seq<string>)
    requires |pieces| == |items| && forall i :: 0 <= i < |pieces| ==> PhpTrim(pieces[i]) == items[i] != ""
    ensures Trimmed(pieces) == items
  {
    if pieces != [] {
      TrimmedExact(pieces[1..], items[1..]);
      assert items == [items[0]] + items[1..];
    }
  }

  /** Pieces that hold nothing but blanks are no elements. */
  lemma {:induction false} BlanksDropped(a: seq<string>, blank: string, b: seq<string>)
    requires Blank(blank)
    ensures Trimmed(a + [blank] + b) == Trimmed(a + b)
  {
    if a == [] {
      TrimBlank(blank);
      assert a + [blank] + b == [blank] + b && a + b == b;
      assert ([blank] + b)[1..] == b;
    } else {
      BlanksDropped(a[1..], blank, b);
      assert (a + [blank] + b)[1..] == a[1..] + [blank] + b && (a + b)[1..] == a[1..] + b;
    }
  }

  // ----- Whether a rule is asked at all -----

  /** A rule is skipped when it is switched off, for other platforms only, or for other hosts only. */
  lemma Skipped(c: Case, rule: seq<Entry>)
    requires
      || (Field(rule, "enabled") != Null && Field(rule, "enabled") != Bool(true))
      || (exists list :: Field(rule, "platforms") == Arr(list) && list != [] && !HasValue(list, Str(c.platform)))
    ensures RuleMeaning(c, Arr(rule)).Pass?
  {
  }

  lemma OtherHosts(c: Case, rule: seq<Entry>, hosts: seq<Entry>)
    requires Field(rule, "hosts") == Arr(hosts) && AllStrings(hosts) && !HasValue(hosts, Str(c.host)) && Field(rule, "groups").Null?
    requires GoodHeader(rule)
    ensures RuleMeaning(c, Arr(rule)).Pass?
  {
  }

  /** A rule for a group is for the group's hosts. */
  lemma GroupExact(rule: seq<Entry>, groups: seq<Entry>, name: string, hosts: seq<Entry>, host: string)
    requires Field(rule, "hosts").Null? && Field(rule, "groups") == Arr([Entry("0", Str(name))]) && Field(groups, name) == Arr(hosts)
    ensures ScopeMeaning(rule, groups, Some(host)) == Some(exists i :: 0 <= i < |hosts| && hosts[i].value == Str(host))
    ensures ScopeMeaning(rule, groups, None) == Some(true)
  {
    var names := [Entry("0", Str(name))];
    assert names[0].value == Str(name);
  }

  /** The value is a list that holds the string. */
  ghost predicate Lists(v: Json, x: string) {
    v.Arr? && exists i :: 0 <= i < |v.entries| && v.entries[i].value == Str(x)
  }

  /** Switched on, and for this platform: not an array, an empty one, or one that names it. */
  ghost predicate Applicable(c: Case, rule: seq<Entry>) {
    && (Field(rule, "enabled") == Null || Field(rule, "enabled") == Bool(true))
    && (!Field(rule, "platforms").Arr? || Field(rule, "platforms") == Arr([]) || Lists(Field(rule, "platforms"), c.platform))
  }

  /** And for this host: no lists of hosts or groups, or the host is in the list of hosts. */
  ghost predicate InForce(c: Case, rule: seq<Entry>) {
    && Applicable(c, rule) && Field(rule, "groups") == Null
    && (Field(rule, "hosts") == Null || (StringList(Field(rule, "hosts")) && Lists(Field(rule, "hosts"), c.host)))
  }

  /** What is checked of a rule before its operator. */
  ghost predicate WellFormed(rule: seq<Entry>) {
    && (Field(rule, "bypassable") == Null || Field(rule, "bypassable") == Bool(true) || Field(rule, "bypassable") == Bool(false))
    && (Field(rule, "unknown_is") == Null || Field(rule, "unknown_is") == Str("pass") || Field(rule, "unknown_is") == Str("fail"))
    && Field(rule, "op").Str?
  }

  /** An applicable rule that is not well-formed is malformed, whichever hosts it is for. */
  lemma HeaderExact(c: Case, rule: seq<Entry>)
    requires Applicable(c, rule) && !WellFormed(rule)
    ensures RuleMeaning(c, Arr(rule)).Invalid?
  {
    AppliesToPlatform(c, rule);
  }

  lemma AppliesToPlatform(c: Case, rule: seq<Entry>)
    requires Applicable(c, rule)
    ensures Applies(c, Arr(rule))
  {
    var p := Field(rule, "platforms");
    if p.Arr? && p.entries != [] {
      assert HasValue(p.entries, Str(c.platform));
    }
  }

  /** A rule in force asks what its operator, its time table or the end-of-life table demands. */
  lemma InForceDemands(c: Case, rule: seq<Entry>)
    requires InForce(c, rule) && WellFormed(rule)
    ensures GoodHeader(rule) && RuleMeaning(c, Arr(rule)) == Demand(c.env, rule, c.posture, c.eol)
  {
    AppliesToPlatform(c, rule);
    assert Field(rule, "hosts").Arr? ==> HasValue(Field(rule, "hosts").entries, Str(c.host));
  }

  /** A rule on a field the device sent, and knows, asks what its operator asks. */
  lemma AsksItsOperator(c: Case, rule: seq<Entry>, op: string, field: string)
    requires InForce(c, rule) && WellFormed(rule) && Field(rule, "op") == Str(op) && Field(rule, "field") == Str(field)
    requires op != "schedule" && op != "not_eol" && field in c.posture && c.posture[field] != "unknown"
    ensures RuleMeaning(c, Arr(rule)) == OpMeaning(c.env, op, c.posture[field], Field(rule, "value"))
  {
    InForceDemands(c, rule);
  }

  /** The two operators that are not about a field. */
  lemma AsksItsTable(c: Case, rule: seq<Entry>)
    requires InForce(c, rule) && WellFormed(rule)
    ensures Field(rule, "op") == Str("schedule") ==> RuleMeaning(c, Arr(rule)) == ScheduleMeaning(c.env, Field(rule, "value"))
    ensures Field(rule, "op") == Str("not_eol") ==> RuleMeaning(c, Arr(rule)) == NotEolMeaning(c.env, c.posture, c.eol)
  {
    InForceDemands(c, rule);
  }

  /** A field it did not send fails the rule, unless that is allowed; a rule without a field is malformed. */
  lemma MissingField(c: Case, rule: seq<Entry>, op: string)
    requires InForce(c, rule) && WellFormed(rule) && Field(rule, "op") == Str(op) && op != "schedule" && op != "not_eol"
    ensures !Field(rule, "field").Str? ==> RuleMeaning(c, Arr(rule)).Invalid?
    ensures Field(rule, "field").Str? && Field(rule, "field").s !in c.posture ==>
      RuleMeaning(c, Arr(rule)) == if Field(rule, "allow_missing") == Bool(true) then Pass else Fail
  {
    InForceDemands(c, rule);
  }

  /** A field of unknown value: the rule says what becomes of it, failing by default; list operators see no element. */
  lemma UnknownField(c: Case, rule: seq<Entry>, op: string, field: string)
    requires InForce(c, rule) && WellFormed(rule) && Field(rule, "op") == Str(op) && Field(rule, "field") == Str(field)
    requires op != "schedule" && op != "not_eol" && field in c.posture && c.posture[field] == "unknown"
    requires !OpMeaning(c.env, op, "unknown", Field(rule, "value")).Invalid? && !OpMeaning(c.env, op, "unknown", Field(rule, "value")).Crash?
    ensures RuleMeaning(c, Arr(rule)) ==
      if op == "present" || op == "not_unknown" then Fail
      else if Field(rule, "unknown_is") == Str("pass") then Pass
      else if Field(rule, "unknown_is") == Str("fail") then Fail
      else if op == "none_match" then Pass
      else Fail
  {
    InForceDemands(c, rule);
    UnknownDemand(c, rule, op, OpMeaning(c.env, op, "unknown", Field(rule, "value")));
    if op == "present" || op == "not_unknown" {
      PresentExact(c.env, "unknown", Field(rule, "value"));
    } else if ListOp(op) {
      UnknownList(c.env, op, Field(rule, "value"));
    }
  }

  /** Unless the operator itself looks at the unknown value, the rule settles it. */
  lemma UnknownDemand(c: Case, rule: seq<Entry>, op: string, met: Check)
    requires GoodHeader(rule) && Field(rule, "op") == Str(op) && Field(rule, "field").Str? && Field(rule, "field").s in c.posture
    requires op != "schedule" && op != "not_eol" && c.posture[Field(rule, "field").s] == "unknown"
    requires met == OpMeaning(c.env, op, "unknown", Field(rule, "value")) && (met.Pass? || met.Fail?)
    ensures Demand(c.env, rule, c.posture, c.eol) ==
      if op == "present" || op == "not_unknown" || (Field(rule, "unknown_is").Null? && ListOp(op)) then met
      else if Field(rule, "unknown_is") == Str("pass") then Pass
      else Fail
  {
  }

  lemma UnknownList(env: Env, op: string, val: Json)
    requires ListOp(op) && !OpMeaning(env, op, "unknown", val).Invalid?
    ensures OpMeaning(env, op, "unknown", val) == if op == "none_match" then Pass else Fail
  {
    ListOperators(env, "unknown", val);
  }

  /** A device is passed by a single such rule exactly when its value meets the operator. */
  lemma SingleRule(c: Case, rule: seq<Entry>, op: string, field: string)
    requires c.rules == [Arr(rule)] && InForce(c, rule) && WellFormed(rule)
    requires Field(rule, "op") == Str(op) && Field(rule, "field") == Str(field)
    requires op != "schedule" && op != "not_eol" && field in c.posture && c.posture[field] != "unknown"
    ensures Verdict(c).ok <==> OpMeaning(c.env, op, c.posture[field], Field(rule, "value")).Pass?
  {
    OkMeaning(c);
    AsksItsOperator(c, rule, op, field);
    assert c.rules[0] == Arr(rule);
  }

  // ----- What a failure reports -----

  /** The id is cut at 128 characters; the message is the rule's own, or says which requirement was missed. */
  lemma ViolationExact(rule: seq<Entry>, id: string)
    requires GoodHeader(rule) && Field(rule, "id") == Str(id)
    ensures |id| <= 128 ==> Violation(Arr(rule)).id == id
    ensures |id| > 128 ==> Violation(Arr(rule)).id == id[..128]
    ensures forall m :: Field(rule, "message") == Str(m) && m != "" ==> Violation(Arr(rule)).message == m
    ensures Field(rule, "message").Null? ==> Violation(Arr(rule)).message == "requisito non soddisfatto: " + Violation(Arr(rule)).id
    ensures Violation(Arr(rule)).bypassable <==> Field(rule, "bypassable") != Bool(false)
  {
  }

  /** A malformed rule is reported under its id, or "?" if it has none, and cannot be bypassed. */
  lemma MalformedExact(rule: Json)
    ensures Malformed(rule).id == "core:policy:" + RuleId(rule) && !Malformed(rule).bypassable
    ensures !rule.Arr? ==> RuleId(rule) == "?"
    ensures rule.Arr? && !Field(rule.entries, "id").Str? ==> RuleId(rule) == "?"
    ensures forall id :: rule.Arr? && Field(rule.entries, "id") == Str(id) && |id| <= 128 ==> RuleId(rule) == id
  {
  }

  // ----- Times of day -----

  function DigitChar(n: nat): char
    requires n < 10
  {
    (48 + n) as char
  }

  function TwoDigits(n: nat): string
    requires n < 100
  {
    [DigitChar(n / 10), DigitChar(n % 10)]
  }

  /** Every time of the day, written HH:MM, is read as its minute. */
  lemma TimeExact(hour: nat, minute: nat)
    requires hour < 24 && minute < 60
    ensures ParseHhmm(Str(TwoDigits(hour) + ":" + TwoDigits(minute))) == Some(60 * hour + minute)
  {
    var s := TwoDigits(hour) + ":" + TwoDigits(minute);
    assert s[0] == DigitChar(hour / 10) && s[1] == DigitChar(hour % 10) && s[2] == ':';
    assert s[3] == DigitChar(minute / 10) && s[4] == DigitChar(minute % 10);
    assert hour / 10 <= 2 && minute / 10 <= 5;
    if hour / 10 == 2 {
      assert s[0] == '2' && s[1] <= '3' && s != "24:00";
    }
  }

  /** And nothing else is read, but the end of the day, and a final newline. */
  lemma TimesOnly(s: string, t: int)
    requires ParseHhmm(Str(s)) == Some(t)
    ensures (s == "24:00" && t == 1440)
      || (0 <= t < 1440 && |s| >= 5 && s[..5] == TwoDigits(t / 60) + ":" + TwoDigits(t % 60) && (s[5..] == "" || s[5..] == "\n"))
  {
    if s != "24:00" {
      var hour, minute := (s[0] as int - 48) * 10 + (s[1] as int - 48), (s[3] as int - 48) * 10 + (s[4] as int - 48);
      assert t == 60 * hour + minute && 0 <= hour < 24 && 0 <= minute < 60;
      assert t / 60 == hour && t % 60 == minute;
      assert TwoDigits(hour) == [s[0], s[1]] && TwoDigits(minute) == [s[3], s[4]];
      assert s[..5] == [s[0], s[1]] + ":" + [s[3], s[4]];
    }
  }

  // ----- Schedules -----

  /** A window on one day of the week. */
  function DayWindow(day: int, from: string, to: string): Json {
    Arr([Entry("days", Arr([Entry("0", Int(day))])), Entry("from", Str(from)), Entry("to", Str(to))])
  }

  lemma DayWindowFields(day: int, from: string, to: string)
    ensures var w := DayWindow(day, from, to).entries;
      && Field(w, "days") == Arr([Entry("0", Int(day))]) && Field(w, "from") == Str(from) && Field(w, "to") == Str(to)
  {
    var w := DayWindow(day, from, to).entries;
    FieldExact(w, "days");
    FieldExact(w, "from");
    FieldExact(w, "to");
    assert w[0].key == "days" && w[1].key == "from" && w[2].key == "to";
  }

  /** It covers the minutes from its beginning up to its end, exclusive, on that day; an empty or backward one is malformed. */
  lemma WindowExact(day: int, from: string, to: string, f: int, t: int, weekday: int, minute: int)
    requires 1 <= day <= 7 && ParseHhmm(Str(from)) == Some(f) && ParseHhmm(Str(to)) == Some(t)
    ensures WindowMeaning(DayWindow(day, from, to), weekday, minute) ==
      if f >= t then None else Some(weekday == day && f <= minute < t)
  {
    DayWindowFields(day, from, to);
    var days := [Entry("0", Int(day))];
    assert days[0].value == Int(day);
  }

  // ----- End of life -----

  /** An end-of-life entry on one field. */
  function EolEntry(field: string, regex: string, date: string): Json {
    Arr([Entry("field", Str(field)), Entry("regex", Str(regex)), Entry("date", Str(date))])
  }

  lemma EolEntryFields(field: string, regex: string, date: string)
    ensures var e := EolEntry(field, regex, date).entries;
      && Field(e, "field") == Str(field) && Field(e, "regex") == Str(regex) && Field(e, "date") == Str(date)
      && Field(e, "edition_regex").Null?
  {
    var e := EolEntry(field, regex, date).entries;
    FieldExact(e, "field");
    FieldExact(e, "regex");
    FieldExact(e, "date");
    FieldExact(e, "edition_regex");
    assert e[0].key == "field" && e[1].key == "regex" && e[2].key == "date";
  }

  /** The table of the device's platform decides: a matched entry lets the device through up to its date. */
  lemma EolExact(env: Env, posture: Posture, eol: seq<Entry>, platform: string, field: string, regex: string, date: string, day: int)
    requires "platform" in posture && posture["platform"] == platform
    requires Field(eol, platform) == Arr([Entry("0", EolEntry(field, regex, date))])
    requires '~' !in regex && env.preg("~" + regex + "~", "").Some? && env.day(date) == Read(day)
    ensures NotEolMeaning(env, posture, eol) ==
      if field in posture && env.preg("~" + regex + "~", posture[field]) == Some(true) && env.today > day then Fail else Pass
  {
    EolEntryFields(field, regex, date);
    Absent(regex, '~');
    ReplaceNone(regex, "~", "\\~");
    var e, table := EolEntry(field, regex, date), [Entry("0", EolEntry(field, regex, date))];
    assert EolTable(posture, eol) == Arr(table);
    assert table[0].value == e && GoodEntry(env, e);
    assert EntryMatches(env, posture, e) <==> field in posture && env.preg("~" + regex + "~", posture[field]) == Some(true);
    assert EntryMatches(env, posture, e) ==> FirstMatch(env, posture, table, 0);
  }

  /** A delimiter in a table's pattern is escaped. */
  lemma DelimiterEscaped(a: string, b: string)
    requires '~' !in a && '~' !in b
    ensures Undelimited(a + "~" + b) == "~" + (a + "\\~" + b) + "~"
  {
    forall i | 0 <= i < |a|
      ensures !OccursAt(a + "~" + b, "~", i)
    {
      if OccursAt(a + "~" + b, "~", i) {
        OccursChar(a + "~" + b, "~", i, 0);
      }
    }
    ReplaceAt(a, "~", b, "\\~");
    Absent(b, '~');
    ReplaceNone(b, "~", "\\~");
  }

  /** An entry for an edition matches only a device whose edition is known and matches too. */
  lemma EditionExact(env: Env, posture: Posture, e: Json, ed: string)
    requires GoodEntry(env, e) && Field(e.entries, "edition_regex") == Str(ed) && '~' !in ed
    requires '~' !in Field(e.entries, "regex").s
    ensures var field, regex := Field(e.entries, "field").s, Field(e.entries, "regex").s;
      EntryMatches(env, posture, e) <==>
        && field in posture && env.preg("~" + regex + "~", posture[field]) == Some(true)
        && "os_edition" in posture && posture["os_edition"] !in {"", "unknown"}
        && env.preg("~" + ed + "~", posture["os_edition"]) == Some(true)
  {
    Absent(ed, '~');
    ReplaceNone(ed, "~", "\\~");
    Absent(Field(e.entries, "regex").s, '~');
    ReplaceNone(Field(e.entries, "regex").s, "~", "\\~");
  }

  /** A platform without a table has nothing to outlive. */
  lemma NoTable(env: Env, posture: Posture, eol: seq<Entry>)
    requires Field(eol, if "platform" in posture then posture["platform"] else "").Null?
    ensures NotEolMeaning(env, posture, eol).Pass?
  {
  }
}
