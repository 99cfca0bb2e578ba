/**
 Filling the parameters of a triggered pipeline (backend/services/event_reactor.py): placeholders
 are replaced one after the other in every string value of the template.
 */
module TriggerTemplates {
  import opened Prelude
  import opened JsonTrees

  /** The placeholder `{name}` and the text that takes its place. */
  datatype Rule = Rule(name: string, value: string)

  function Pattern(name: string): (p: string)
    ensures p != "" && p[0] == '{'
  {
    "{" + name + "}"
  }

  /** Python's `str.replace`: all occurrences, from left to right, without overlaps. */
  function Replace(s: string, p: string, v: string): string
    requires p != ""
  {
    if s == "" then ""
    else if p <= s then v + Replace(s[|p|..], p, v)
    else [s[0]] + Replace(s[1..], p, v)
  }

  /** The replacements in order, each on the result of the one before. */
  function Sequential(s: string, rules: seq<Rule>): string
    decreases |rules|
  {
    if rules == [] then s
    else Sequential(Replace(s, Pattern(rules[0].name), rules[0].value), rules[1..])
  }

  /** The rule whose placeholder stands at the head of `s`, if any. */
  function Match(s: string, rules: seq<Rule>): (m: Option<Rule>)
    ensures m.Some? ==> m.value in rules && Pattern(m.value.name) <= s
    ensures m.None? ==> forall r | r in rules :: !(Pattern(r.name) <= s)
  {
    if rules == [] then None
    else if Pattern(rules[0].name) <= s then Some(rules[0])
    else Match(s, rules[1..])
  }

  /** Reference definition: one pass from left to right, all placeholders at once. */
  function Simultaneous(s: string, rules: seq<Rule>): string
    decreases |s|
  {
    if s == "" then ""
    else
      match Match(s, rules)
      case Some(r) => r.value + Simultaneous(s[|Pattern(r.name)|..], rules)
      case None => [s[0]] + Simultaneous(s[1..], rules)
  }

  predicate NoBrace(s: string) { '{' !in s && '}' !in s }

  /** Between two opening braces there is a closing one. */
  ghost predicate NotNested(s: string) {
    forall i, j | 0 <= i < j < |s| && s[i] == '{' && s[j] == '{' :: '}' in s[i..j]
  }

  /**
   No text after `v` makes the pattern `p` start inside `v`: no part of `v` from an opening brace on
   begins it or contains it.
   */
  ghost predicate Safe(v: string, p: string) {
    forall i | 0 <= i < |v| && v[i] == '{' :: !(v[i..] <= p) && !(p <= v[i..])
  }

  /** Placeholder names have no braces. */
  ghost predicate Named(rules: seq<Rule>) {
    forall r | r in rules :: NoBrace(r.name)
  }

  /** And every value is safe for the placeholders filled after it. */
  ghost predicate Plain(rules: seq<Rule>) {
    && Named(rules)
    && (forall i, k | 0 <= i < k < |rules| :: Safe(rules[i].value, Pattern(rules[k].name)))
  }

  // ── how replacement acts on the pieces of a string ──

  lemma {:induction false} ReplaceSkips(x: string, y: string, name: string, v: string)
    requires '{' !in x
    ensures Replace(x + y, Pattern(name), v) == x + Replace(y, Pattern(name), v)
  {
    if x == "" {
      assert x + y == y;
    } else {
      assert (x + y)[0] == x[0] && (x + y)[1..] == x[1..] + y;
      ReplaceSkips(x[1..], y, name, v);
    }
  }

  lemma PrefixOf(p: string, v: string, y: string)
    ensures p <= v + y ==> v <= p || p <= v
  {
    if p <= v + y && |v| <= |p| {
      assert forall i | 0 <= i < |v| :: v[i] == (v + y)[i] == p[i];
    } else if p <= v + y {
      assert forall i | 0 <= i < |p| :: p[i] == (v + y)[i] == v[i];
    }
  }

  lemma {:induction false} ReplacePasses(v: string, y: string, p: string, value: string)
    requires p != "" && p[0] == '{' && Safe(v, p)
    ensures Replace(v + y, p, value) == v + Replace(y, p, value)
  {
    if v == "" {
      assert v + y == y;
    } else {
      ConsAppend(v, y);
      ConsAppend(v, Replace(y, p, value));
      assert v[0..] == v;
      PrefixOf(p, v, y);
      SafeRest(v, p);
      hide Safe;
      ReplacePasses(v[1..], y, p, value);
    }
  }

  lemma SafeRest(v: string, p: string)
    requires v != "" && Safe(v, p)
    ensures Safe(v[1..], p)
    ensures v[0] == '{' ==> !(v <= p) && !(p <= v)
  {
    assert v[0..] == v;
    assert forall i | 0 <= i < |v[1..]| :: v[1..][i..] == v[i + 1..];
  }

  /** Position of the first closing brace, or the length. */
  function Closing(s: string): (k: nat)
    ensures k <= |s| && (k < |s| <==> '}' in s)
  {
    if s == "" || s[0] == '}' then 0 else 1 + Closing(s[1..])
  }

  lemma {:induction false} ClosingAfter(x: string, y: string)
    requires '}' !in x && y != "" && y[0] == '}'
    ensures Closing(x + y) == |x|
  {
    if x == "" {
      assert x + y == y;
    } else {
      assert (x + y)[0] == x[0] && (x + y)[1..] == x[1..] + y;
      ClosingAfter(x[1..], y);
    }
  }

  lemma ClosingOfGroup(n: string, y: string)
    requires NoBrace(n)
    ensures Closing(Pattern(n) + y) == |n| + 1
  {
    assert Pattern(n) + y == ("{" + n) + ("}" + y);
    ClosingAfter("{" + n, "}" + y);
  }

  /** A pattern at the head of a braced group is the group. */
  lemma HeadOfGroup(n: string, y: string, name: string)
    requires NoBrace(n) && NoBrace(name)
    ensures Pattern(name) <= Pattern(n) + y <==> name == n
  {
    var p, g := Pattern(name), Pattern(n);
    if p <= g + y {
      assert g + y == p + (g + y)[|p|..];
      ClosingOfGroup(name, (g + y)[|p|..]);
      ClosingOfGroup(n, y);
      assert p == (g + y)[..|p|] == g;
      assert name == p[1..|p| - 1] && n == g[1..|g| - 1];
    }
    assert g <= g + y;
  }

  lemma ReplaceGroup(n: string, y: string, name: string, v: string)
    requires NoBrace(n) && NoBrace(name)
    ensures Replace(Pattern(n) + y, Pattern(name), v)
         == (if name == n then v else Pattern(n)) + Replace(y, Pattern(name), v)
  {
    HeadOfGroup(n, y, name);
    var s := Pattern(n) + y;
    if name == n {
      assert s[|Pattern(n)|..] == y;
    } else {
      var tail := n + "}";
      assert s == ["{"[0]] + (tail + y) && s[1..] == tail + y;
      ReplaceSkips(tail, y, name, v);
      assert Pattern(n) == ["{"[0]] + tail;
    }
  }

  lemma NeedsClosing(s: string, name: string)
    ensures Pattern(name) <= s ==> '}' in s
  {
    assert Pattern(name)[|name| + 1] == '}';
  }

  lemma {:induction false} ReplaceUnclosed(s: string, name: string, v: string)
    requires '}' !in s
    ensures Replace(s, Pattern(name), v) == s
  {
    if s == "" {
    } else {
      NeedsClosing(s, name);
      ReplaceUnclosed(s[1..], name, v);
    }
  }

  lemma {:induction false} SequentialSkips(x: string, y: string, rules: seq<Rule>)
    requires '{' !in x
    ensures Sequential(x + y, rules) == x + Sequential(y, rules)
    decreases |rules|
  {
    if rules == [] {
    } else {
      ReplaceSkips(x, y, rules[0].name, rules[0].value);
      SequentialSkips(x, Replace(y, Pattern(rules[0].name), rules[0].value), rules[1..]);
    }
  }

  lemma {:induction false} SequentialPasses(v: string, y: string, rules: seq<Rule>)
    requires forall r | r in rules :: Safe(v, Pattern(r.name))
    ensures Sequential(v + y, rules) == v + Sequential(y, rules)
    decreases |rules|
  {
    if rules == [] {
    } else {
      var p := Pattern(rules[0].name);
      assert rules[0] in rules;
      ReplacePasses(v, y, p, rules[0].value);
      SequentialPasses(v, Replace(y, p, rules[0].value), rules[1..]);
    }
  }

  /** What becomes of the group `{n}`: the first rule for it wins. */
  function Filled(n: string, rules: seq<Rule>): string {
    if rules == [] then Pattern(n)
    else if rules[0].name == n then rules[0].value
    else Filled(n, rules[1..])
  }

  lemma {:induction false} SequentialGroup(n: string, y: string, rules: seq<Rule>)
    requires NoBrace(n) && Plain(rules)
    ensures Sequential(Pattern(n) + y, rules) == Filled(n, rules) + Sequential(y, rules)
    decreases |rules|
  {
    if rules == [] {
    } else {
      var r := rules[0];
      assert r in rules && Plain(rules[1..]);
      ReplaceGroup(n, y, r.name, r.value);
      var y' := Replace(y, Pattern(r.name), r.value);
      if r.name == n {
        assert forall q | q in rules[1..] :: exists k :: 0 < k < |rules| && rules[k] == q;
        SequentialPasses(r.value, y', rules[1..]);
      } else {
        SequentialGroup(n, y', rules[1..]);
      }
    }
  }

  lemma {:induction false} SequentialUnclosed(s: string, rules: seq<Rule>)
    requires '}' !in s
    ensures Sequential(s, rules) == s
  {
    if rules == [] {
    } else {
      ReplaceUnclosed(s, rules[0].name, rules[0].value);
      SequentialUnclosed(s, rules[1..]);
    }
  }

  // ── the same for the single pass ──

  lemma {:induction false} SimultaneousSkips(x: string, y: string, rules: seq<Rule>)
    requires '{' !in x
    ensures Simultaneous(x + y, rules) == x + Simultaneous(y, rules)
  {
    if x == "" {
      assert x + y == y;
    } else {
      assert (x + y)[0] == x[0] && (x + y)[1..] == x[1..] + y;
      SimultaneousSkips(x[1..], y, rules);
    }
  }

  lemma {:induction false} MatchGroup(n: string, y: string, rules: seq<Rule>)
    requires NoBrace(n) && Named(rules)
    ensures Match(Pattern(n) + y, rules).None? ==> Filled(n, rules) == Pattern(n)
    ensures Match(Pattern(n) + y, rules).Some? ==>
              var r := Match(Pattern(n) + y, rules).value; r.name == n && r.value == Filled(n, rules)
  {
    if rules == [] {
    } else {
      assert rules[0] in rules && Named(rules[1..]);
      HeadOfGroup(n, y, rules[0].name);
      MatchGroup(n, y, rules[1..]);
    }
  }

  lemma SimultaneousGroup(n: string, y: string, rules: seq<Rule>)
    requires NoBrace(n) && Named(rules)
    ensures Simultaneous(Pattern(n) + y, rules) == Filled(n, rules) + Simultaneous(y, rules)
  {
    var s := Pattern(n) + y;
    MatchGroup(n, y, rules);
    hide Named, Match, Filled, NoBrace;
    if Match(s, rules).Some? {
      assert s[|Pattern(n)|..] == y;
    } else {
      var tail := n + "}";
      assert s[1..] == tail + y && s[0] == '{';
      SimultaneousSkips(tail, y, rules);
      assert Pattern(n) == ['{'] + tail;
    }
  }

  lemma {:induction false} SimultaneousUnclosed(s: string, rules: seq<Rule>)
    requires '}' !in s
    ensures Simultaneous(s, rules) == s
  {
    if s == "" {
    } else {
      forall name ensures !(Pattern(name) <= s) {
        NeedsClosing(s, name);
      }
      SimultaneousUnclosed(s[1..], rules);
    }
  }

  // ── the theorem ──

  function FirstBrace(s: string): (k: nat)
    ensures k <= |s| && NoBrace(s[..k]) && (k < |s| ==> s[k] == '{' || s[k] == '}')
  {
    if s == "" || s[0] == '{' || s[0] == '}' then 0 else 1 + FirstBrace(s[1..])
  }

  lemma NotNestedRest(s: string, k: nat)
    requires NotNested(s) && k <= |s|
    ensures NotNested(s[k..])
  {
    forall i, j | 0 <= i < j < |s[k..]| && s[k..][i] == '{' && s[k..][j] == '{' ensures '}' in s[k..][i..j] {
      assert s[k..][i..j] == s[k + i..k + j];
    }
  }

  /**
   For strings without nested braces, names without braces and values that are safe for the
   placeholders filled later, replacing one placeholder after the other is replacing all of them in
   one pass.
   */
  lemma {:induction false} OneByOneIsAtOnce(s: string, rules: seq<Rule>)
    requires NotNested(s) && Plain(rules)
    ensures Sequential(s, rules) == Simultaneous(s, rules)
    decreases |s|
  {
    if s == "" {
      SequentialUnclosed(s, rules);
    } else if s[0] != '{' {
      var x, y := [s[0]], s[1..];
      assert s == x + y;
      NotNestedRest(s, 1);
      OneByOneIsAtOnce(y, rules);
      SequentialSkips(x, y, rules);
      SimultaneousSkips(x, y, rules);
    } else {
      var k := FirstBrace(s[1..]);
      var n := s[1..][..k];
      if k == |s[1..]| {
        assert s == ['{'] + n;
        SequentialUnclosed(s, rules);
        SimultaneousUnclosed(s, rules);
      } else {
        assert s[0..1 + k] == ['{'] + n;
        assert s[1 + k] == s[1..][k] == '}';
        var y := s[k + 2..];
        assert s == Pattern(n) + y;
        NotNestedRest(s, k + 2);
        OneByOneIsAtOnce(y, rules);
        SequentialGroup(n, y, rules);
        SimultaneousGroup(n, y, rules);
      }
    }
  }

  // ── the code ──

  /** The loop of `_replace_value` over the replacements. */
  method ReplaceAll(text: string, rules: seq<Rule>) returns (value: string)
    ensures value == Sequential(text, rules)
  {
    value := text;
    for i := 0 to |rules|
      invariant Sequential(value, rules[i..]) == Sequential(text, rules)
    {
      assert rules[i..][0] == rules[i] && rules[i..][1..] == rules[i + 1..];
      value := ReplaceLoop(value, Pattern(rules[i].name), rules[i].value);
    }
  }

  /** `str.replace` as a scan. */
  method ReplaceLoop(s: string, p: string, v: string) returns (r: string)
    requires p != ""
    ensures r == Replace(s, p, v)
  {
    r := "";
    var rest := s;
    while rest != ""
      invariant r + Replace(rest, p, v) == Replace(s, p, v)
      decreases |rest|
    {
      if p <= rest {
        assert r + (v + Replace(rest[|p|..], p, v)) == (r + v) + Replace(rest[|p|..], p, v);
        r, rest := r + v, rest[|p|..];
      } else {
        assert r + ([rest[0]] + Replace(rest[1..], p, v)) == (r + [rest[0]]) + Replace(rest[1..], p, v);
        r, rest := r + [rest[0]], rest[1..];
      }
    }
  }

  /** The four placeholders, in the order of the replacement table. */
  function EventRules(device: string, account: Option<string>, eventType: string, eventId: string): seq<Rule> {
    [Rule("device_id", device),
     Rule("account_id", match account case None => "" case Some(a) => a),
     Rule("event_type", eventType),
     Rule("event_id", eventId)]
  }

  function Loop(rules: seq<Rule>): string -> string {
    s => Sequential(s, rules)
  }

  function Pass(rules: seq<Rule>): string -> string {
    s => Simultaneous(s, rules)
  }

  function Render(template: Json, rules: seq<Rule>): Json {
    MapStrings(template, Loop(rules))
  }

  /** Ids have no opening brace; then the four rules are plain exactly when the event type is safe. */
  lemma EventRulesArePlain(device: string, account: Option<string>, eventType: string, eventId: string)
    requires '{' !in device && (account.Some? ==> '{' !in account.value)
    ensures Plain(EventRules(device, account, eventType, eventId)) <==> Safe(eventType, Pattern("event_id"))
  {
    NamesHaveNoBraces();
    hide NoBrace, Pattern;
    var rules := EventRules(device, account, eventType, eventId);
    assert rules[2].value == eventType && rules[3].name == "event_id";
    assert forall r | r in rules :: r == rules[0] || r == rules[1] || r == rules[2] || r == rules[3];
    assert forall p :: Safe(rules[0].value, p) && Safe(rules[1].value, p);
  }

  lemma NamesHaveNoBraces()
    ensures NoBrace("device_id") && NoBrace("account_id") && NoBrace("event_type") && NoBrace("event_id")
  {
  }

  lemma GroupsSpelledOut()
    ensures Pattern("device_id") == "{device_id}" && Pattern("account_id") == "{account_id}"
    ensures Pattern("event_type") == "{event_type}" && Pattern("event_id") == "{event_id}"
  {
  }

  /**
   Rendering a template is one simultaneous substitution in each of its strings; keys, shape and
   the other leaves stay.
   */
  lemma RenderIsSimultaneous(template: Json, rules: seq<Rule>)
    requires (forall s | s in Strings(template) :: NotNested(s)) && Plain(rules)
    ensures Render(template, rules) == MapStrings(template, Pass(rules))
    ensures SameShape(template, Render(template, rules))
  {
    hide Sequential, Simultaneous, Plain, NotNested, Strings, MapStrings, SameShape;
    forall s | s in Strings(template) ensures Sequential(s, rules) == Simultaneous(s, rules) {
      OneByOneIsAtOnce(s, rules);
    }
    MapAgrees(template, Loop(rules), Pass(rules));
    MapKeepsShape(template, Loop(rules));
  }

  // ── the exact values ──

  /** A group followed by text without opening braces is replaced if it is the placeholder. */
  lemma FirstRule(n: string, y: string, r: Rule, rest: seq<Rule>)
    requires NoBrace(n) && NoBrace(r.name) && '{' !in y
    ensures Sequential(Pattern(n) + y, [r] + rest)
         == Sequential((if r.name == n then r.value else Pattern(n)) + y, rest)
  {
    ReplaceGroup(n, y, r.name, r.value);
    ReplaceSkips(y, "", r.name, r.value);
    assert y + "" == y;
    assert ([r] + rest)[0] == r && ([r] + rest)[1..] == rest;
  }

  /** The event type, once filled in, is searched for the event id. */
  lemma EventTypeIsFilledAgain(y: string, device: string, account: Option<string>, eventType: string, eventId: string)
    requires '{' !in y
    ensures Sequential(Pattern("event_type") + y, EventRules(device, account, eventType, eventId))
         == Replace(eventType + y, Pattern("event_id"), eventId)
  {
    NamesHaveNoBraces();
    hide Replace, NoBrace, Pattern;
    var rules := EventRules(device, account, eventType, eventId);
    var r0, r1, r2, r3 := rules[0], rules[1], rules[2], rules[3];
    assert rules == [r0] + [r1, r2, r3] && [r1, r2, r3] == [r1] + [r2, r3] && [r2, r3] == [r2] + [r3];
    FirstRule("event_type", y, r0, [r1, r2, r3]);
    FirstRule("event_type", y, r1, [r2, r3]);
    FirstRule("event_type", y, r2, [r3]);
  }

  lemma EventTypeIsFilledOnce(y: string, device: string, account: Option<string>, eventType: string, eventId: string)
    requires '{' !in y
    ensures Simultaneous(Pattern("event_type") + y, EventRules(device, account, eventType, eventId)) == eventType + y
  {
    NamesHaveNoBraces();
    var rules := EventRules(device, account, eventType, eventId);
    FilledEventType(device, account, eventType, eventId);
    hide NoBrace, Pattern, EventRules, Filled, Named, Match;
    SimultaneousGroup("event_type", y, rules);
    SimultaneousSkips(y, "", rules);
    assert y + "" == y && Simultaneous("", rules) == "";
  }

  lemma FilledEventType(device: string, account: Option<string>, eventType: string, eventId: string)
    ensures Filled("event_type", EventRules(device, account, eventType, eventId)) == eventType
    ensures Named(EventRules(device, account, eventType, eventId))
  {
    NamesHaveNoBraces();
    hide NoBrace, Pattern;
    var rules := EventRules(device, account, eventType, eventId);
    assert forall r | r in rules :: r == rules[0] || r == rules[1] || r == rules[2] || r == rules[3];
    assert rules[1..][1..][0] == rules[2];
    assert Filled("event_type", rules[1..][1..]) == eventType;
    assert Filled("event_type", rules[1..]) == eventType;
  }

  lemma FilledByEvent(device: string, account: Option<string>, eventType: string, eventId: string)
    ensures var rules := EventRules(device, account, eventType, eventId);
            && Filled("device_id", rules) == device
            && Filled("account_id", rules) == (if account.Some? then account.value else "")
            && Filled("event_id", rules) == eventId
  {
    var rules := EventRules(device, account, eventType, eventId);
    assert rules[1..][0] == rules[1] && rules[1..][1..][0] == rules[2] && rules[1..][1..][1..][0] == rules[3];
    assert Filled("event_id", rules[1..][1..][1..]) == eventId;
    assert Filled("event_id", rules[1..][1..]) == eventId;
    assert Filled("event_id", rules[1..]) == eventId;
  }

  /**
   The four placeholders become the device, the account (or nothing), the event type and the event id,
   each wherever it stands, for ids without an opening brace and a safe event type.
   */
  lemma PlaceholdersAreFilled(y: string, device: string, account: Option<string>, eventType: string, eventId: string)
    requires '{' !in device && (account.Some? ==> '{' !in account.value) && Safe(eventType, "{event_id}")
    ensures var rules := EventRules(device, account, eventType, eventId);
            && Sequential("{device_id}" + y, rules) == device + Sequential(y, rules)
            && Sequential("{account_id}" + y, rules) ==
               (if account.Some? then account.value else "") + Sequential(y, rules)
            && Sequential("{event_type}" + y, rules) == eventType + Sequential(y, rules)
            && Sequential("{event_id}" + y, rules) == eventId + Sequential(y, rules)
  {
    GroupsSpelledOut();
    NamesHaveNoBraces();
    hide Pattern, NoBrace, Sequential;
    EventRulesArePlain(device, account, eventType, eventId);
    FilledByEvent(device, account, eventType, eventId);
    FilledEventType(device, account, eventType, eventId);
    hide Filled, EventRules, Plain;
    var rules := EventRules(device, account, eventType, eventId);
    SequentialGroup("device_id", y, rules);
    SequentialGroup("account_id", y, rules);
    SequentialGroup("event_type", y, rules);
    SequentialGroup("event_id", y, rules);
  }

  function Opens(s: string): nat {
    if s == "" then 0 else (if s[0] == '{' then 1 else 0) + Opens(s[1..])
  }

  lemma {:induction false} OpensSplit(x: string, y: string)
    ensures Opens(x + y) == Opens(x) + Opens(y)
    ensures Opens(x) == 0 <==> '{' !in x
  {
    if x == "" {
      assert x + y == y;
    } else {
      assert (x + y)[0] == x[0] && (x + y)[1..] == x[1..] + y;
      assert x == [x[0]] + x[1..];
      OpensSplit(x[1..], y);
    }
  }

  lemma OpensOfPattern(n: string)
    requires NoBrace(n)
    ensures Opens(Pattern(n)) == 1
  {
    OpensSplit(n + "}", "");
    assert Pattern(n)[1..] == n + "}";
  }

  /** A replacement takes opening braces away, at least one if the placeholder occurs. */
  lemma {:induction false} ReplaceTakesBraces(t: string, n: string, v: string, at: nat)
    requires NoBrace(n) && '{' !in v && at <= |t|
    ensures Opens(Replace(t, Pattern(n), v)) <= Opens(t)
    ensures Pattern(n) <= t[at..] ==> Opens(Replace(t, Pattern(n), v)) < Opens(t)
    decreases |t|
  {
    var p := Pattern(n);
    if t == "" {
      assert t[at..] == "";
    } else if p <= t {
      var y := t[|p|..];
      assert t == p + y;
      ReplaceTakesBraces(y, n, v, 0);
      OpensOfPattern(n);
      OpensSplit(p, y);
      OpensSplit(v, Replace(y, p, v));
    } else {
      assert t == [t[0]] + t[1..];
      if at == 0 {
        assert t[at..] == t;
        ReplaceTakesBraces(t[1..], n, v, 0);
      } else {
        assert t[at..] == t[1..][at - 1..];
        ReplaceTakesBraces(t[1..], n, v, at - 1);
      }
      assert Replace(t, p, v)[0] == t[0] && Replace(t, p, v)[1..] == Replace(t[1..], p, v);
    }
  }

  /** A template that tells the two apart when the event type is not safe. */
  lemma UnsafeEventType(device: string, account: Option<string>, eventType: string, eventId: string) returns (s: string)
    requires '{' !in eventId && !Safe(eventType, Pattern("event_id"))
    ensures NotNested(s)
    ensures Sequential(s, EventRules(device, account, eventType, eventId))
         != Simultaneous(s, EventRules(device, account, eventType, eventId))
  {
    NamesHaveNoBraces();
    hide NoBrace, Pattern, EventRules, Sequential, Simultaneous, Replace, NotNested, Opens;
    var p := Pattern("event_id");
    var i :| 0 <= i < |eventType| && eventType[i] == '{' && (eventType[i..] <= p || p <= eventType[i..]);
    hide Safe;
    var y := RestOf(eventType[i..], "event_id");
    s := Pattern("event_type") + y;
    GroupNotNested("event_type", y);
    EventTypeIsFilledAgain(y, device, account, eventType, eventId);
    EventTypeIsFilledOnce(y, device, account, eventType, eventId);
    assert (eventType + y)[i..] == eventType[i..] + y;
    ReplaceTakesBraces(eventType + y, "event_id", eventId, i);
  }

  /** What completes a beginning of a placeholder. */
  lemma RestOf(v: string, n: string) returns (y: string)
    requires NoBrace(n) && v != "" && (v <= Pattern(n) || Pattern(n) <= v)
    ensures '{' !in y && Pattern(n) <= v + y
  {
    var p := Pattern(n);
    if p <= v {
      y := "";
      assert v + y == v;
    } else {
      y := p[|v|..];
      assert v + y == p;
      assert forall k | 0 < k < |p| :: p[k] == (n + "}")[k - 1];
    }
  }

  lemma GroupNotNested(n: string, y: string)
    requires NoBrace(n) && '{' !in y
    ensures NotNested(Pattern(n) + y)
  {
    var s := Pattern(n) + y;
    assert forall k | 0 < k < |s| :: s[k] == (n + "}" + y)[k - 1];
  }

  /** On every template without nested braces the loop is one simultaneous pass. */
  ghost predicate LoopIsAtOnce(rules: seq<Rule>) {
    forall s | NotNested(s) :: Sequential(s, rules) == Simultaneous(s, rules)
  }

  /**
   The exact values: device, account and event ids have no braces, the event type is free text. The
   loop is one simultaneous pass on every template without nested braces if and only if no part of
   the event type can become the event id's placeholder.
   */
  lemma LoopIsAtOnceExactly(device: string, account: Option<string>, eventType: string, eventId: string)
    requires '{' !in device && (account.Some? ==> '{' !in account.value) && '{' !in eventId
    ensures LoopIsAtOnce(EventRules(device, account, eventType, eventId)) <==> Safe(eventType, Pattern("event_id"))
  {
    var rules := EventRules(device, account, eventType, eventId);
    EventRulesArePlain(device, account, eventType, eventId);
    hide Sequential, Simultaneous, NotNested, Plain, Safe, EventRules, Pattern;
    if Safe(eventType, Pattern("event_id")) {
      forall s | NotNested(s) ensures Sequential(s, rules) == Simultaneous(s, rules) {
        OneByOneIsAtOnce(s, rules);
      }
    } else {
      var s := UnsafeEventType(device, account, eventType, eventId);
      assert NotNested(s) && Sequential(s, rules) != Simultaneous(s, rules);
    }
  }

  /** For example an event type that is the placeholder itself is filled a second time. */
  lemma BracesInValuesMatter(device: string, account: Option<string>, eventId: string)
    ensures Sequential("{event_type}", EventRules(device, account, "{event_id}", eventId)) == eventId
    ensures Simultaneous("{event_type}", EventRules(device, account, "{event_id}", eventId)) == "{event_id}"
  {
    GroupsSpelledOut();
    var p := Pattern("event_id");
    assert Pattern("event_type") + "" == "{event_type}" && "{event_id}" + "" == "{event_id}" == p + "";
    EventTypeIsFilledAgain("", device, account, "{event_id}", eventId);
    EventTypeIsFilledOnce("", device, account, "{event_id}", eventId);
    NamesHaveNoBraces();
    hide NoBrace, Pattern, Sequential, Simultaneous;
    ReplaceGroup("event_id", "", "event_id", eventId);
    assert Replace("", p, eventId) == "" && eventId + "" == eventId;
  }
}
