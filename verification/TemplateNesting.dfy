/**
 Templates with nested braces: when the loop of `_replace_value` is still one simultaneous pass,
 exactly, for values without opening braces.
 */
module TemplateNesting {
  import opened Prelude
  import opened JsonTrees
  import opened TriggerTemplates

  /** Distinct names without braces, and values without opening braces. */
  ghost predicate Simple(rules: seq<Rule>) {
    && Named(rules)
    && (forall r | r in rules :: '{' !in r.value)
    && (forall i, k | 0 <= i < k < |rules| :: rules[i].name != rules[k].name)
  }

  /**
   An opening brace that heads none of the placeholders of `before` comes to head `{name}` once those
   are filled in, although it did not in the template.
   */
  ghost predicate Completes(s: string, before: seq<Rule>, name: string) {
    exists i :: CompletesAt(s, before, name, i)
  }

  ghost predicate CompletesAt(s: string, before: seq<Rule>, name: string, i: int) {
    && 0 <= i < |s| && s[i] == '{' && Match(s[i..], before).None?
    && !(Pattern(name) <= s[i..]) && Pattern(name) <= Simultaneous(s[i..], before)
  }

  /** No placeholder is completed by filling in the ones before it. */
  ghost predicate Clean(s: string, rules: seq<Rule>) {
    forall k | 0 <= k < |rules| :: !Completes(s, rules[..k], rules[k].name)
  }

  // ── counting placeholders ──

  /** How often `{name}` occurs. */
  function Occurs(s: string, name: string): nat {
    if s == "" then 0 else (if Pattern(name) <= s then 1 else 0) + Occurs(s[1..], name)
  }

  lemma {:induction false} OccursSkips(x: string, y: string, name: string)
    requires '{' !in x
    ensures Occurs(x + y, name) == Occurs(y, name)
  {
    if x == "" {
      assert x + y == y;
    } else {
      assert (x + y)[0] == x[0] && (x + y)[1..] == x[1..] + y;
      OccursSkips(x[1..], y, name);
    }
  }

  lemma OccursGroup(n: string, y: string, name: string)
    requires NoBrace(n) && NoBrace(name)
    ensures Occurs(Pattern(n) + y, name) == (if name == n then 1 else 0) + Occurs(y, name)
  {
    HeadOfGroup(n, y, name);
    var s := Pattern(n) + y;
    assert s[1..] == (n + "}") + y;
    OccursSkips(n + "}", y, name);
  }

  /** A replacement takes one opening brace away for each occurrence. */
  lemma {:induction false} ReplaceCounts(t: string, name: string, v: string)
    requires NoBrace(name) && '{' !in v
    ensures Opens(Replace(t, Pattern(name), v)) + Occurs(t, name) == Opens(t)
    decreases |t|
  {
    var p := Pattern(name);
    if t == "" {
    } else if p <= t {
      var y := t[|p|..];
      assert t == p + y;
      ReplaceCounts(y, name, v);
      OpensOfPattern(name);
      OpensSplit(p, y);
      OpensSplit(v, Replace(y, p, v));
      OccursGroup(name, y, name);
    } else {
      ReplaceCounts(t[1..], name, v);
      assert Replace(t, p, v) == [t[0]] + Replace(t[1..], p, v);
    }
  }

  /** It destroys no other placeholder. */
  lemma {:induction false} ReplaceKeepsOthers(t: string, name: string, v: string, other: string)
    requires NoBrace(name) && NoBrace(other) && name != other && '{' !in v
    ensures Occurs(Replace(t, Pattern(name), v), other) >= Occurs(t, other)
    decreases |t|
  {
    var p, q := Pattern(name), Pattern(other);
    if t == "" {
    } else if p <= t {
      var y := t[|p|..];
      assert t == p + y;
      ReplaceKeepsOthers(y, name, v, other);
      OccursGroup(name, y, other);
      OccursSkips(v, Replace(y, p, v), other);
    } else if q <= t {
      var y := t[|q|..];
      assert t == q + y;
      ReplaceKeepsOthers(y, name, v, other);
      ReplaceGroup(other, y, name, v);
      OccursGroup(other, y, other);
      OccursGroup(other, Replace(y, p, v), other);
    } else {
      ReplaceKeepsOthers(t[1..], name, v, other);
      var rest := Replace(t[1..], p, v);
      assert ([t[0]] + rest)[1..] == rest;
    }
  }

  lemma {:induction false} SequentialKeepsOthers(s: string, rules: seq<Rule>, other: string)
    requires Simple(rules) && NoBrace(other) && forall r | r in rules :: r.name != other
    ensures Occurs(Sequential(s, rules), other) >= Occurs(s, other)
    decreases |rules|
  {
    if rules == [] {
    } else {
      assert rules[0] in rules;
      ReplaceKeepsOthers(s, rules[0].name, rules[0].value, other);
      SimpleRest(rules);
      SequentialKeepsOthers(Replace(s, Pattern(rules[0].name), rules[0].value), rules[1..], other);
    }
  }

  lemma SimpleRest(rules: seq<Rule>)
    requires Simple(rules) && rules != []
    ensures Simple(rules[1..]) && Simple(rules[..|rules| - 1])
  {
  }

  // ── one more rule ──

  lemma {:induction false} SequentialLast(s: string, before: seq<Rule>, r: Rule)
    ensures Sequential(s, before + [r]) == Replace(Sequential(s, before), Pattern(r.name), r.value)
    decreases |before|
  {
    if before == [] {
      assert (before + [r])[1..] == [];
    } else {
      assert (before + [r])[0] == before[0] && (before + [r])[1..] == before[1..] + [r];
      SequentialLast(Replace(s, Pattern(before[0].name), before[0].value), before[1..], r);
    }
  }

  lemma {:induction false} MatchLast(s: string, before: seq<Rule>, r: Rule)
    ensures Match(s, before + [r])
         == if Match(s, before).Some? then Match(s, before) else if Pattern(r.name) <= s then Some(r) else None
  {
    if before == [] {
    } else {
      assert (before + [r])[0] == before[0] && (before + [r])[1..] == before[1..] + [r];
      MatchLast(s, before[1..], r);
    }
  }

  /** The four ways a template can begin, as seen by the rules `before` and the next one. */
  datatype Head = Empty | Before(rule: Rule, rest: string) | Next(rest: string) | Plain(c: char, rest: string)

  function HeadOf(s: string, before: seq<Rule>, r: Rule): Head {
    if s == "" then Empty
    else match Match(s, before)
      case Some(b) => Before(b, s[|Pattern(b.name)|..])
      case None =>
        if Pattern(r.name) <= s then Next(s[|Pattern(r.name)|..]) else Plain(s[0], s[1..])
  }

  /** The single pass with and without the next rule. */
  lemma PassesBy(s: string, before: seq<Rule>, r: Rule)
    requires Named(before) && NoBrace(r.name)
    ensures match HeadOf(s, before, r)
            case Empty => s == "" && Simultaneous(s, before) == Simultaneous(s, before + [r]) == ""
            case Before(b, y) =>
              && b in before && s == Pattern(b.name) + y
              && Simultaneous(s, before) == b.value + Simultaneous(y, before)
              && Simultaneous(s, before + [r]) == b.value + Simultaneous(y, before + [r])
            case Next(y) =>
              && s == Pattern(r.name) + y
              && Simultaneous(s, before) == Pattern(r.name) + Simultaneous(y, before)
              && Simultaneous(s, before + [r]) == r.value + Simultaneous(y, before + [r])
            case Plain(c, y) =>
              && s == [c] + y && !(Pattern(r.name) <= s)
              && Simultaneous(s, before) == [c] + Simultaneous(y, before)
              && Simultaneous(s, before + [r]) == [c] + Simultaneous(y, before + [r])
  {
    MatchLast(s, before, r);
    if HeadOf(s, before, r).Next? {
      NextInPass(s, before, r);
    }
    hide Pattern, Named, NoBrace;
  }

  /** A pass that does not know the placeholder at the head copies it. */
  lemma NextInPass(s: string, before: seq<Rule>, r: Rule)
    requires NoBrace(r.name) && s != "" && Match(s, before).None? && Pattern(r.name) <= s
    ensures var y := s[|Pattern(r.name)|..];
            s == Pattern(r.name) + y && Simultaneous(s, before) == Pattern(r.name) + Simultaneous(y, before)
  {
    var y := s[|Pattern(r.name)|..];
    var tail := r.name + "}";
    assert s == Pattern(r.name) + y && s[1..] == tail + y && Pattern(r.name) == ['{'] + tail;
    SimultaneousSkips(tail, y, before);
    assert Simultaneous(s, before) == ['{'] + Simultaneous(tail + y, before);
    hide Simultaneous, Pattern, NoBrace, Match;
    AppendAssociates(['{'], tail, Simultaneous(y, before));
  }

  /** Completions of a rest are completions of the whole. */
  lemma CompletesLater(s: string, k: nat, before: seq<Rule>, name: string)
    requires k <= |s| && Completes(s[k..], before, name)
    ensures Completes(s, before, name)
  {
    var i :| CompletesAt(s[k..], before, name, i);
    assert s[k..][i..] == s[k + i..];
    assert CompletesAt(s, before, name, k + i);
  }

  /** A completion is at the first character, or in the rest after a group or a character. */
  lemma CompletesHere(s: string, k: nat, before: seq<Rule>, name: string)
    requires 0 < k <= |s| && Completes(s, before, name) && forall i | 0 < i < k :: s[i] != '{'
    ensures CompletesAt(s, before, name, 0) || Completes(s[k..], before, name)
  {
    var i :| CompletesAt(s, before, name, i);
    if i > 0 {
      assert s[k..][i - k..] == s[i..];
      assert CompletesAt(s[k..], before, name, i - k);
    }
  }

  /** The values filled in so far are safe for the next placeholder. */
  ghost predicate Ready(before: seq<Rule>, r: Rule) {
    Named(before) && NoBrace(r.name) && forall b | b in before :: Safe(b.value, Pattern(r.name))
  }

  /** If nothing is completed, one more replacement is one more rule of the single pass. */
  lemma {:induction false} NextRule(s: string, before: seq<Rule>, r: Rule)
    requires Ready(before, r) && !Completes(s, before, r.name)
    ensures Replace(Simultaneous(s, before), Pattern(r.name), r.value) == Simultaneous(s, before + [r])
    decreases |s|
  {
    var p := Pattern(r.name);
    PassesBy(s, before, r);
    hide Simultaneous, Completes, Match, Safe;
    match HeadOf(s, before, r) {
      case Empty =>
      case Before(b, y) =>
        RestClean(s, |Pattern(b.name)|, before, r.name, y);
        NextRule(y, before, r);
        ReplacePasses(b.value, Simultaneous(y, before), p, r.value);
      case Next(y) =>
        RestClean(s, |p|, before, r.name, y);
        NextRule(y, before, r);
        ReplaceGroup(r.name, Simultaneous(y, before), r.name, r.value);
      case Plain(c, y) =>
        RestClean(s, 1, before, r.name, y);
        NextRule(y, before, r);
        NotCompletedHere(s, before, r);
        var rest := Simultaneous(y, before);
        assert ([c] + rest)[0] == c && ([c] + rest)[1..] == rest;
    }
  }

  /** A loop over safe values is the single pass on every template in which nothing is completed. */
  lemma {:induction false} CleanIsEnough(s: string, rules: seq<Rule>)
    requires TriggerTemplates.Plain(rules) && Clean(s, rules)
    ensures Sequential(s, rules) == Simultaneous(s, rules)
    decreases |rules|
  {
    if rules == [] {
      NoRules(s);
    } else {
      var before, r := rules[..|rules| - 1], rules[|rules| - 1];
      assert rules == before + [r];
      PlainPrefix(before, r);
      CleanLast(s, before, r);
      hide Clean, Completes, Simultaneous, Sequential, Replace, Ready;
      CleanIsEnough(s, before);
      SequentialLast(s, before, r);
      NextRule(s, before, r);
    }
  }

  lemma PlainPrefix(before: seq<Rule>, r: Rule)
    requires TriggerTemplates.Plain(before + [r])
    ensures TriggerTemplates.Plain(before) && Ready(before, r)
  {
    hide Safe, NoBrace;
    var rules := before + [r];
    assert rules[|before|] == r && r in rules;
    assert forall i | 0 <= i < |before| :: rules[i] == before[i] && before[i] in rules;
    forall b | b in before ensures Safe(b.value, Pattern(r.name)) {
      var i :| 0 <= i < |before| && before[i] == b;
      assert Safe(rules[i].value, Pattern(rules[|before|].name));
    }
  }

  lemma SimplePrefix(before: seq<Rule>, r: Rule)
    requires Simple(before + [r])
    ensures Simple(before) && NoBrace(r.name) && '{' !in r.value
    ensures forall b | b in before :: b.name != r.name && NoBrace(b.name) && '{' !in b.value
  {
    var rules := before + [r];
    assert rules[|before|] == r && r in rules;
    assert forall i | 0 <= i < |before| :: rules[i] == before[i] && before[i] in rules;
  }

  lemma RestClean(s: string, k: nat, before: seq<Rule>, name: string, y: string)
    requires k <= |s| && y == s[k..] && !Completes(s, before, name)
    ensures !Completes(y, before, name)
  {
    if Completes(y, before, name) {
      CompletesLater(s, k, before, name);
    }
  }

  lemma NotCompletedHere(s: string, before: seq<Rule>, r: Rule)
    requires s != "" && HeadOf(s, before, r).Plain? && Simultaneous(s, before) != ""
    requires Simultaneous(s, before)[0] == s[0]
    ensures CompletesAt(s, before, r.name, 0) <==> Pattern(r.name) <= Simultaneous(s, before)
    ensures !Completes(s, before, r.name) ==> !(Pattern(r.name) <= Simultaneous(s, before))
  {
    assert s[0..] == s;
  }

  /** The next rule takes one opening brace from the pass for each occurrence in the template. */
  lemma {:induction false} NextRuleCounts(s: string, before: seq<Rule>, r: Rule)
    requires Simple(before + [r])
    ensures Opens(Simultaneous(s, before + [r])) + Occurs(s, r.name) == Opens(Simultaneous(s, before))
    decreases |s|
  {
    SimplePrefix(before, r);
    PassesBy(s, before, r);
    hide Simultaneous, Simple, Match, Pattern, NoBrace;
    match HeadOf(s, before, r) {
      case Empty =>
      case Before(b, y) =>
        NextRuleCounts(y, before, r);
        OpensSplit(b.value, Simultaneous(y, before));
        OpensSplit(b.value, Simultaneous(y, before + [r]));
        OccursGroup(b.name, y, r.name);
      case Next(y) =>
        NextRuleCounts(y, before, r);
        OpensOfPattern(r.name);
        OpensSplit(Pattern(r.name), Simultaneous(y, before));
        OpensSplit(r.value, Simultaneous(y, before + [r]));
        OccursGroup(r.name, y, r.name);
      case Plain(c, y) =>
        NextRuleCounts(y, before, r);
        OpensSplit([c], Simultaneous(y, before));
        OpensSplit([c], Simultaneous(y, before + [r]));
        assert s[1..] == y;
    }
  }

  /** A completed placeholder is one more than the template has. */
  lemma {:induction false} CompletionsAreExtra(s: string, before: seq<Rule>, r: Rule)
    requires Simple(before + [r])
    ensures Occurs(Simultaneous(s, before), r.name) >= Occurs(s, r.name)
    ensures Completes(s, before, r.name) ==> Occurs(Simultaneous(s, before), r.name) > Occurs(s, r.name)
    decreases |s|
  {
    SimplePrefix(before, r);
    PassesBy(s, before, r);
    hide Simultaneous, Simple, Completes, Match, NoBrace;
    match HeadOf(s, before, r) {
      case Empty =>
        assert !Completes("", before, r.name) by {
          NothingToComplete(before, r.name);
        }
      case Before(b, y) =>
        CompletionsAreExtra(y, before, r);
        OccursSkips(b.value, Simultaneous(y, before), r.name);
        OccursGroup(b.name, y, r.name);
        CompletedAfter(s, b.name, y, before, r.name);
      case Next(y) =>
        CompletionsAreExtra(y, before, r);
        OccursGroup(r.name, Simultaneous(y, before), r.name);
        OccursGroup(r.name, y, r.name);
        CompletedAfter(s, r.name, y, before, r.name);
      case Plain(c, y) =>
        CompletionsAreExtra(y, before, r);
        var rest := Simultaneous(y, before);
        assert ([c] + rest)[1..] == rest && s[1..] == y;
        NotCompletedHere(s, before, r);
        if Completes(s, before, r.name) {
          CompletesHere(s, 1, before, r.name);
        }
    }
  }

  lemma NothingToComplete(before: seq<Rule>, name: string)
    ensures !Completes("", before, name)
  {
  }

  /** Behind a placeholder that is filled or is the next one itself, completions lie in the rest. */
  lemma CompletedAfter(s: string, n: string, y: string, before: seq<Rule>, name: string)
    requires s == Pattern(n) + y && NoBrace(n) && (n == name || Match(s, before).Some?)
    ensures Completes(s, before, name) ==> Completes(y, before, name)
  {
    if Completes(s, before, name) {
      var k := |Pattern(n)|;
      assert s[k..] == y && s[0..] == s;
      assert forall i | 0 < i < k :: s[i] == (n + "}")[i - 1];
      CompletesHere(s, k, before, name);
    }
  }

  // ── the theorem ──

  lemma {:induction false} LoopAgainstPass(s: string, rules: seq<Rule>)
    requires Simple(rules)
    ensures Clean(s, rules) ==> Sequential(s, rules) == Simultaneous(s, rules)
    ensures Opens(Sequential(s, rules)) <= Opens(Simultaneous(s, rules))
    ensures Opens(Sequential(s, rules)) == Opens(Simultaneous(s, rules)) ==> Clean(s, rules)
    decreases |rules|
  {
    if rules == [] {
      NoRules(s);
    } else {
      var before, r := rules[..|rules| - 1], rules[|rules| - 1];
      assert rules == before + [r];
      SimplePrefix(before, r);
      CleanLast(s, before, r);
      assert Ready(before, r);
      hide Ready, Simple, Clean, Completes, Simultaneous, Sequential, Replace, Occurs, Opens;
      LoopAgainstPass(s, before);
      SequentialLast(s, before, r);
      ReplaceCounts(Sequential(s, before), r.name, r.value);
      SequentialKeepsOthers(s, before, r.name);
      NextRuleCounts(s, before, r);
      CompletionsAreExtra(s, before, r);
      if Clean(s, before) && !Completes(s, before, r.name) {
        NextRule(s, before, r);
      }
    }
  }

  lemma {:induction false} NoRules(s: string)
    ensures Sequential(s, []) == Simultaneous(s, []) == s
  {
    if s == "" {
    } else {
      NoRules(s[1..]);
    }
  }

  lemma CleanLast(s: string, before: seq<Rule>, r: Rule)
    ensures Clean(s, before + [r]) <==> Clean(s, before) && !Completes(s, before, r.name)
  {
    hide Completes;
    var rules := before + [r];
    assert forall k | 0 <= k < |before| :: rules[..k] == before[..k] && rules[k] == before[k];
    assert rules[..|before|] == before && rules[|before|] == r;
  }

  /**
   For values without opening braces and any template, nested braces included: the loop is the
   simultaneous pass if and only if no placeholder is completed by filling in the ones before it.
   */
  lemma OneByOneIsAtOnceExactly(s: string, rules: seq<Rule>)
    requires Simple(rules)
    ensures Sequential(s, rules) == Simultaneous(s, rules) <==> Clean(s, rules)
  {
    LoopAgainstPass(s, rules);
  }

  /** The replacement table of the code is of this kind. */
  lemma EventRulesAreSimple(device: string, account: Option<string>, eventType: string, eventId: string)
    requires '{' !in device && (account.Some? ==> '{' !in account.value) && '{' !in eventType && '{' !in eventId
    ensures Simple(EventRules(device, account, eventType, eventId))
  {
    NamesHaveNoBraces();
    NamesDiffer();
    hide NoBrace;
    var rules := EventRules(device, account, eventType, eventId);
    assert forall r | r in rules :: r == rules[0] || r == rules[1] || r == rules[2] || r == rules[3];
  }

  lemma NamesDiffer()
    ensures "device_id" != "account_id" && "device_id" != "event_type" && "device_id" != "event_id"
    ensures "account_id" != "event_type" && "account_id" != "event_id" && "event_type" != "event_id"
  {
    assert |"device_id"| == 9 && |"event_id"| == 8 && |"account_id"| == |"event_type"| == 10;
    assert "account_id"[0] == 'a' && "event_type"[0] == 'e';
  }

  ghost predicate RendersAtOnce(template: Json, rules: seq<Rule>) {
    Render(template, rules) == MapStrings(template, Pass(rules))
  }

  ghost predicate AllClean(template: Json, rules: seq<Rule>) {
    forall s | s in Strings(template) :: Clean(s, rules)
  }

  /**
   Rendering a whole template is the simultaneous substitution in all of its strings if and only if
   each of them is clean.
   */
  lemma RenderIsSimultaneousExactly(template: Json, device: string, account: Option<string>, eventType: string,
                                    eventId: string)
    requires '{' !in device && (account.Some? ==> '{' !in account.value) && '{' !in eventType && '{' !in eventId
    ensures RendersAtOnce(template, EventRules(device, account, eventType, eventId))
       <==> AllClean(template, EventRules(device, account, eventType, eventId))
  {
    var rules := EventRules(device, account, eventType, eventId);
    EventRulesAreSimple(device, account, eventType, eventId);
    hide Sequential, Simultaneous, Clean, Strings, MapStrings, EventRules, Simple;
    forall s ensures Loop(rules)(s) == Pass(rules)(s) <==> Clean(s, rules) {
      OneByOneIsAtOnceExactly(s, rules);
    }
    MapAgrees(template, Loop(rules), Pass(rules));
  }

  // ── a template that is not ──

  /** Text behind a brace that is still open, followed by some more. */
  function Inside(x: string, rest: string): string {
    ['{'] + (x + rest)
  }

  /** A group inside an open brace: `x` and `y` are the text around it. */
  lemma ReplaceInner(x: string, n: string, y: string, name: string, v: string)
    requires NoBrace(x) && NoBrace(n) && NoBrace(name) && '{' !in y
    ensures Replace(Inside(x, Pattern(n) + y), Pattern(name), v)
         == Inside(x, (if name == n then v else Pattern(n)) + y)
  {
    var s := Inside(x, Pattern(n) + y);
    NotHeaded(x, n, y, name);
    assert s[1..] == x + (Pattern(n) + y) && s[0] == '{';
    ReplaceSkips(x, Pattern(n) + y, name, v);
    ReplaceGroup(n, y, name, v);
    ReplaceSkips(y, "", name, v);
    assert y + "" == y;
  }

  lemma NotHeaded(x: string, n: string, y: string, name: string)
    requires NoBrace(x) && NoBrace(name)
    ensures !(Pattern(name) <= Inside(x, Pattern(n) + y))
  {
    var p, s := Pattern(name), Inside(x, Pattern(n) + y);
    assert s[1 + |x|] == '{' && forall i | 1 <= i < 1 + |x| :: s[i] == x[i - 1];
    assert p[|name| + 1] == '}' && forall i | 1 <= i < |name| + 1 :: p[i] == name[i - 1];
  }

  /** No rule fills the outer brace, so the pass goes on behind it. */
  lemma PassInner(x: string, n: string, y: string, rules: seq<Rule>)
    requires NoBrace(x) && NoBrace(n) && '{' !in y && Named(rules)
    ensures Simultaneous(Inside(x, Pattern(n) + y), rules) == Inside(x, Filled(n, rules) + y)
  {
    var inner := Pattern(n) + y;
    HeadStays(x, n, y, rules);
    hide Simultaneous, Named, NoBrace, Pattern, Match, Filled;
    SimultaneousSkips(x, inner, rules);
    SimultaneousGroup(n, y, rules);
    SimultaneousNone(y, rules);
  }

  lemma SimultaneousNone(y: string, rules: seq<Rule>)
    requires '{' !in y
    ensures Simultaneous(y, rules) == y
  {
    SimultaneousSkips(y, "", rules);
    assert y + "" == y && Simultaneous("", rules) == "";
  }

  lemma HeadStays(x: string, n: string, y: string, rules: seq<Rule>)
    requires NoBrace(x) && Named(rules)
    ensures Simultaneous(Inside(x, Pattern(n) + y), rules) == ['{'] + Simultaneous(x + (Pattern(n) + y), rules)
  {
    var s := Inside(x, Pattern(n) + y);
    assert s[0] == '{' && s[1..] == x + (Pattern(n) + y);
    forall r | r in rules ensures !(Pattern(r.name) <= s) {
      NotHeaded(x, n, y, r.name);
    }
    hide Pattern, Named, NoBrace, Inside;
    assert Match(s, rules).None?;
  }

  /** With no account, the empty text completes the event id's placeholder, and the loop fills it. */
  lemma NestingMatters(device: string, eventType: string, eventId: string)
    requires '{' !in device && '{' !in eventType && '{' !in eventId
    ensures Sequential("{event_{account_id}id}", EventRules(device, None, eventType, eventId)) == eventId
    ensures Simultaneous("{event_{account_id}id}", EventRules(device, None, eventType, eventId)) == "{event_id}"
    ensures !Clean("{event_{account_id}id}", EventRules(device, None, eventType, eventId))
  {
    var rules := EventRules(device, None, eventType, eventId);
    LoopOnNested(device, eventType, eventId);
    PassOnNested(device, eventType, eventId);
    EventRulesAreSimple(device, None, eventType, eventId);
    OneByOneIsAtOnceExactly("{event_{account_id}id}", rules);
    hide *;
    assert "{event_id}"[0] == '{';
  }

  lemma NestedSpelledOut()
    ensures "{event_{account_id}id}" == Inside("event_", Pattern("account_id") + "id}")
    ensures "{event_id}" == Pattern("event_id") + "" == Inside("event_", "" + "id}")
    ensures NoBrace("event_") && '{' !in "id}"
  {
  }

  lemma LoopOnNested(device: string, eventType: string, eventId: string)
    ensures Sequential("{event_{account_id}id}", EventRules(device, None, eventType, eventId)) == eventId
  {
    NestedSpelledOut();
    NamesHaveNoBraces();
    NamesDiffer();
    hide Replace, NoBrace, Pattern, Inside;
    var rules := EventRules(device, None, eventType, eventId);
    var r0, r1, r2, r3 := rules[0], rules[1], rules[2], rules[3];
    assert rules[1..] == [r1, r2, r3] && [r1, r2, r3][1..] == [r2] + [r3] && [r3] == [r3] + [];
    ReplaceInner("event_", "account_id", "id}", "device_id", device);
    ReplaceInner("event_", "account_id", "id}", "account_id", "");
    FirstRule("event_id", "", r2, [r3]);
    FirstRule("event_id", "", r3, []);
    assert eventId + "" == eventId;
  }

  lemma PassOnNested(device: string, eventType: string, eventId: string)
    ensures Simultaneous("{event_{account_id}id}", EventRules(device, None, eventType, eventId)) == "{event_id}"
  {
    NestedSpelledOut();
    NamesHaveNoBraces();
    FilledAccount(device, eventType, eventId);
    FilledEventType(device, None, eventType, eventId);
    hide NoBrace, Pattern, EventRules, Filled, Inside;
    PassInner("event_", "account_id", "id}", EventRules(device, None, eventType, eventId));
  }

  lemma FilledAccount(device: string, eventType: string, eventId: string)
    ensures Filled("account_id", EventRules(device, None, eventType, eventId)) == ""
  {
    NamesDiffer();
    var rules := EventRules(device, None, eventType, eventId);
    assert rules[1..][0] == rules[1];
    assert Filled("account_id", rules[1..]) == "";
  }

  /**
   For values with opening braces a clean template is not needed: an event type that is its own
   placeholder is filled with itself.
   */
  lemma CleanIsNotNeeded(device: string, eventId: string)
    requires '{' !in device
    ensures var rules := EventRules(device, None, "{event_type}", eventId);
            && TriggerTemplates.Plain(rules) && !Clean("{event_{account_id}type}", rules)
            && Sequential("{event_{account_id}type}", rules) == Simultaneous("{event_{account_id}type}", rules)
  {
    OwnPlaceholder();
    NamesHaveNoBraces();
    NamesDiffer();
    PlaceholdersAreSafe("event_type", "event_id");
    hide Safe, NoBrace, Pattern, Inside, Clean, Sequential, Simultaneous;
    EventRulesArePlain(device, None, "{event_type}", eventId);
    LoopOnOwn(device, eventId);
    PassOnOwn(device, eventId);
    OwnIsCompleted(device, eventId);
    NotClean("{event_{account_id}type}", EventRules(device, None, "{event_type}", eventId), 2);
  }

  lemma NotClean(s: string, rules: seq<Rule>, k: nat)
    requires k < |rules| && CompletesAt(s, rules[..k], rules[k].name, 0)
    ensures !Clean(s, rules)
  {
    hide CompletesAt;
    assert Completes(s, rules[..k], rules[k].name);
  }

  lemma OwnIsCompleted(device: string, eventId: string)
    ensures var rules := EventRules(device, None, "{event_type}", eventId);
            CompletesAt("{event_{account_id}type}", rules[..2], rules[2].name, 0)
  {
    var rules := EventRules(device, None, "{event_type}", eventId);
    OwnPlaceholder();
    NamesHaveNoBraces();
    FirstTwo(device, eventId);
    assert rules[2].name == "event_type";
    hide NoBrace, Pattern, Inside, EventRules, Filled, Named, CompletesAt;
    InnerCompletes("event_", "account_id", "type}", rules[..2], "event_type");
  }

  lemma FirstTwo(device: string, eventId: string)
    ensures var before := EventRules(device, None, "{event_type}", eventId)[..2];
            Named(before) && Filled("account_id", before) == ""
  {
    NamesHaveNoBraces();
    NamesDiffer();
    hide NoBrace;
    var before := EventRules(device, None, "{event_type}", eventId)[..2];
    assert before[1..][0] == before[1] && Filled("account_id", before[1..]) == "";
    assert forall r | r in before :: r == before[0] || r == before[1];
  }

  /** A group whose value joins the text around it into a placeholder completes it. */
  lemma InnerCompletes(x: string, n: string, y: string, before: seq<Rule>, name: string)
    requires NoBrace(x) && NoBrace(n) && NoBrace(name) && '{' !in y && Named(before)
    requires Inside(x, Filled(n, before) + y) == Pattern(name)
    ensures CompletesAt(Inside(x, Pattern(n) + y), before, name, 0)
  {
    var s := Inside(x, Pattern(n) + y);
    assert s[0] == '{' && s[0..] == s;
    NotHeaded(x, n, y, name);
    forall r | r in before ensures !(Pattern(r.name) <= s) {
      NotHeaded(x, n, y, r.name);
    }
    PassInner(x, n, y, before);
    hide NoBrace, Pattern, Inside, Named, Filled, Simultaneous;
    assert Match(s, before).None?;
  }

  lemma OwnPlaceholder()
    ensures "{event_{account_id}type}" == Inside("event_", Pattern("account_id") + "type}")
    ensures "{event_type}" == Pattern("event_type") == Pattern("event_type") + "" == Inside("event_", "" + "type}")
    ensures NoBrace("event_") && '{' !in "type}"
  {
    NestedSpelledOut();
    OwnSpelledOut();
  }

  lemma OwnSpelledOut()
    ensures "{event_type}" == Pattern("event_type") == Pattern("event_type") + "" == Inside("event_", "" + "type}")
    ensures '{' !in "type}"
  {
  }

  /** A placeholder is safe for every other one. */
  lemma PlaceholdersAreSafe(a: string, b: string)
    requires NoBrace(a) && NoBrace(b) && a != b
    ensures Safe(Pattern(a), Pattern(b))
  {
    var p, q := Pattern(a), Pattern(b);
    assert forall i | 0 < i < |p| :: p[i] == (a + "}")[i - 1];
    assert p[0..] == p && p + "" == p && q + "" == q;
    HeadOfGroup(a, "", b);
    HeadOfGroup(b, "", a);
  }

  lemma LoopOnOwn(device: string, eventId: string)
    ensures Sequential("{event_{account_id}type}", EventRules(device, None, "{event_type}", eventId)) == "{event_type}"
  {
    OwnPlaceholder();
    NamesHaveNoBraces();
    NamesDiffer();
    hide Replace, NoBrace, Pattern, Inside, Safe;
    var rules := EventRules(device, None, "{event_type}", eventId);
    var r0, r1, r2, r3 := rules[0], rules[1], rules[2], rules[3];
    assert rules[1..] == [r1, r2, r3] && [r1, r2, r3][1..] == [r2] + [r3] && [r3] == [r3] + [];
    ReplaceInner("event_", "account_id", "type}", "device_id", device);
    ReplaceInner("event_", "account_id", "type}", "account_id", "");
    FirstRule("event_type", "", r2, [r3]);
    FirstRule("event_type", "", r3, []);
  }

  lemma PassOnOwn(device: string, eventId: string)
    ensures Simultaneous("{event_{account_id}type}", EventRules(device, None, "{event_type}", eventId))
         == "{event_type}"
  {
    OwnPlaceholder();
    NamesHaveNoBraces();
    FilledAccount(device, "{event_type}", eventId);
    FilledEventType(device, None, "{event_type}", eventId);
    hide NoBrace, Pattern, EventRules, Filled, Inside;
    PassInner("event_", "account_id", "type}", EventRules(device, None, "{event_type}", eventId));
  }
}
