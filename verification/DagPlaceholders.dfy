/**
 Account placeholders in a DAG (backend/services/task_service.py): `{{account.name}}` is replaced
 in every string value. Whatever the account values are, the control graph stays the same.
 */
module DagPlaceholders {
  import opened Prelude
  import opened JsonTrees
  import opened DagGraph

  /**
   The regular expression class \w: the ASCII letters, digits and the underscore, and beyond ASCII
   whatever the engine takes for a word character. Everything here holds for any such class.
   */
  type CharClass = char -> bool

  ghost predicate WordClass(w: CharClass) {
    forall c: char | c < 128 as char ::
      w(c) <==> 'a' <= c <= 'z' || 'A' <= c <= 'Z' || '0' <= c <= '9' || c == '_'
  }

  const OPENING := "{{account."

  /** Length of the longest run of word characters at the head of `s`. */
  function WordLength(s: string, w: CharClass): (n: nat)
    ensures n <= |s| && (forall i | 0 <= i < n :: w(s[i])) && (n < |s| ==> !w(s[n]))
  {
    if s == "" || !w(s[0]) then 0 else 1 + WordLength(s[1..], w)
  }

  /** The name in the placeholder at the head of `s`, if there is one. */
  function Placeholder(s: string, w: CharClass): (name: Option<string>)
    ensures name.Some? ==> |OPENING| + |name.value| + 2 <= |s| && s[0] == '{'
  {
    if OPENING <= s then
      var n := WordLength(s[|OPENING|..], w);
      if n > 0 && "}}" <= s[|OPENING| + n..] then Some(s[|OPENING|..|OPENING| + n]) else None
    else None
  }

  /** The substitution, from left to right; unknown names stay as they are. */
  function ResolveText(s: string, variables: map<string, string>, w: CharClass): string
    decreases |s|
  {
    if s == "" then ""
    else
      match Placeholder(s, w)
      case Some(name) =>
        var end := |OPENING| + |name| + 2;
        (if name in variables then variables[name] else s[..end]) + ResolveText(s[end..], variables, w)
      case None => [s[0]] + ResolveText(s[1..], variables, w)
  }

  function Resolve(dag: Json, variables: map<string, string>, w: CharClass): Json {
    MapStrings(dag, s => ResolveText(s, variables, w))
  }

  /** Names of the placeholders of a string. */
  function Names(s: string, w: CharClass): set<string>
    decreases |s|
  {
    if s == "" then {}
    else
      match Placeholder(s, w)
      case Some(name) => {name} + Names(s[|OPENING| + |name| + 2..], w)
      case None => Names(s[1..], w)
  }

  /** A string none of whose placeholders is known comes back unchanged. */
  lemma {:induction false} UnknownStays(s: string, variables: map<string, string>, w: CharClass)
    requires Names(s, w) !! variables.Keys
    ensures ResolveText(s, variables, w) == s
    decreases |s|
  {
    hide Placeholder;
    if s == "" {
    } else {
      match Placeholder(s, w) {
        case Some(name) =>
          var end := |OPENING| + |name| + 2;
          UnknownStays(s[end..], variables, w);
          assert s == s[..end] + s[end..];
        case None =>
          UnknownStays(s[1..], variables, w);
      }
    }
  }

  /** A subtree without known placeholders comes back unchanged. */
  lemma UnknownTreeStays(dag: Json, variables: map<string, string>, w: CharClass)
    requires forall s | s in Strings(dag) :: Names(s, w) !! variables.Keys
    ensures Resolve(dag, variables, w) == dag
  {
    forall s | s in Strings(dag) ensures ResolveText(s, variables, w) == s {
      UnknownStays(s, variables, w);
    }
    MapFixes(dag, s => ResolveText(s, variables, w));
  }

  lemma {:induction false} NoBraceStays(s: string, variables: map<string, string>, w: CharClass)
    requires '{' !in s
    ensures ResolveText(s, variables, w) == s
    decreases |s|
  {
    if s == "" {
    } else {
      assert s[0] in s;
      NoBraceStays(s[1..], variables, w);
    }
  }

  /** The replaced text of a placeholder between brace-free text and anything else. */
  lemma ResolvesOne(before: string, name: string, after: string, variables: map<string, string>, w: CharClass)
    requires WordClass(w) && '{' !in before && name != "" && forall i | 0 <= i < |name| :: w(name[i])
    ensures ResolveText(before + (OPENING + name + "}}" + after), variables, w)
         == before + ((if name in variables then variables[name] else OPENING + name + "}}")
                      + ResolveText(after, variables, w))
  {
    var rest := OPENING + name + "}}" + after;
    PlaceholderAt(name, after, w);
    ResolvesHead(rest, name, after, variables, w);
    ResolvesAfter(before, rest, variables, w);
  }

  lemma {:induction false} ResolvesAfter(before: string, rest: string, variables: map<string, string>, w: CharClass)
    requires '{' !in before
    ensures ResolveText(before + rest, variables, w) == before + ResolveText(rest, variables, w)
    decreases |before|
  {
    if before == "" {
      assert before + rest == rest;
    } else {
      hide ResolveText;
      var c, tail := before[0], before[1..];
      assert c in before && before == [c] + tail;
      ResolvesAfter(tail, rest, variables, w);
      ResolveSkips(c, tail + rest, variables, w);
      Associate(c, tail, rest);
      Associate(c, tail, ResolveText(rest, variables, w));
    }
  }

  lemma Associate(c: char, x: string, y: string)
    ensures [c] + (x + y) == ([c] + x) + y
  {
  }

  lemma ResolveSkips(c: char, rest: string, variables: map<string, string>, w: CharClass)
    requires c != '{'
    ensures ResolveText([c] + rest, variables, w) == [c] + ResolveText(rest, variables, w)
  {
    assert ([c] + rest)[1..] == rest;
  }

  lemma ResolvesHead(s: string, name: string, after: string, variables: map<string, string>, w: CharClass)
    requires s == OPENING + name + "}}" + after && Placeholder(s, w) == Some(name)
    ensures ResolveText(s, variables, w)
         == (if name in variables then variables[name] else OPENING + name + "}}") + ResolveText(after, variables, w)
  {
    var end := |OPENING| + |name| + 2;
    assert s[end..] == after && s[..end] == OPENING + name + "}}";
  }

  lemma PlaceholderAt(name: string, after: string, w: CharClass)
    requires WordClass(w) && name != "" && forall i | 0 <= i < |name| :: w(name[i])
    ensures Placeholder(OPENING + name + "}}" + after, w) == Some(name)
  {
    var s := OPENING + name + "}}" + after;
    var rest := s[|OPENING|..];
    assert rest == name + "}}" + after;
    assert !w('}') && rest[|name|] == '}';
    assert forall i | 0 <= i < |name| :: rest[i] == name[i];
    assert WordLength(rest, w) == |name|;
    assert s == OPENING + rest && OPENING <= s;
    assert s[|OPENING|..|OPENING| + |name|] == name;
    assert s[|OPENING| + |name|..] == "}}" + after;
    assert "}}" <= "}}" + after;
  }

  // ── the control graph ──

  const ACTION_TYPES: set<string> := {
    "tap", "swipe", "type_text", "sleep", "find_element",
    "key_event", "lua", "screenshot", "condition", "start", "end",
    "launch_app", "stop_app", "clear_app_data",
    "find_first_element", "tap_first_visible", "tap_element",
    "get_element_text", "wait_for_element_gone", "scroll_to",
    "long_press", "double_tap", "scroll",
    "set_variable", "get_variable", "increment_variable",
    "shell", "input_clear", "http_request", "open_url",
    "get_device_info", "assert"
  }

  /** The pattern of a node id: a letter or underscore, then up to 63 word characters or dashes. */
  predicate IdOk(s: string, w: CharClass) {
    && 1 <= |s| <= 64
    && ('a' <= s[0] <= 'z' || 'A' <= s[0] <= 'Z' || s[0] == '_')
    && forall i | 0 < i < |s| :: w(s[i]) || s[i] == '-'
  }

  /** An optional reference: absent and null are the same. */
  datatype Ref = Bad | Good(ref: Option<string>)

  function ParseRef(value: Option<Json>): Ref {
    match value
    case None => Good(None)
    case Some(Null) => Good(None)
    case Some(Str(s)) => Good(Some(s))
    case _ => Bad
  }

  /** A condition's branch: required, and a name. */
  function ParseBranch(value: Option<Json>): Ref {
    match value
    case Some(Str(s)) => if s == "" then Bad else Good(Some(s))
    case _ => Bad
  }

  /** Action type and branches; other actions than conditions have no branches. */
  function ActionOf(kind: Option<Json>, onTrue: Option<Json>, onFalse: Option<Json>)
    : Option<(string, Option<string>, Option<string>)>
  {
    match kind
    case Some(Str(k)) =>
      if k !in ACTION_TYPES then None
      else if k != "condition" then Some((k, None, None))
      else (
        match (ParseBranch(onTrue), ParseBranch(onFalse))
        case (Good(t), Good(f)) => Some((k, t, f))
        case _ => None)
    case _ => None
  }

  function ParseAction(fields: Fields): Option<(string, Option<string>, Option<string>)> {
    ActionOf(Get(fields, "type"), Get(fields, "on_true"), Get(fields, "on_false"))
  }

  function ParseNode(node: Json, w: CharClass): Option<Node> {
    match node
    case Obj(fields) => (
      match (Get(fields, "id"), Get(fields, "action"),
             ParseRef(Get(fields, "on_success")), ParseRef(Get(fields, "on_failure")))
      case (Some(Str(id)), Some(Obj(action)), Good(success), Good(failure)) =>
        if !IdOk(id, w) || ParseAction(action).None? then None
        else
          var (kind, onTrue, onFalse) := ParseAction(action).value;
          Some(Node(id, kind, success, failure, onTrue, onFalse))
      case _ => None)
    case _ => None
  }

  function ParseNodes(items: Items, w: CharClass): Option<seq<Node>> {
    match items
    case NoItems => Some([])
    case Item(head, tail) =>
      match (ParseNode(head, w), ParseNodes(tail, w))
      case (Some(node), Some(nodes)) => Some([node] + nodes)
      case _ => None
  }

  /** The part of a DAG document the graph checks look at. */
  function ParseScript(dag: Json, w: CharClass): Option<Script> {
    match dag
    case Obj(fields) => (
      match (Get(fields, "nodes"), Get(fields, "entry_node"))
      case (Some(Arr(items)), Some(Str(entry))) =>
        if ParseNodes(items, w).None? then None else Some(Script(ParseNodes(items, w).value, entry))
      case _ => None)
    case _ => None
  }

  /** References without braces; every reference to an existing node is of this kind. */
  predicate RefsPlain(node: Node) {
    && (node.onSuccess.Some? ==> '{' !in node.onSuccess.value)
    && (node.onFailure.Some? ==> '{' !in node.onFailure.value)
    && (node.onTrue.Some? ==> '{' !in node.onTrue.value)
    && (node.onFalse.Some? ==> '{' !in node.onFalse.value)
  }

  lemma IdsHaveNoBrace(id: string, w: CharClass)
    requires WordClass(w) && IdOk(id, w)
    ensures '{' !in id
  {
  }

  lemma ActionTypesHaveNoBrace(kind: string)
    requires kind in ACTION_TYPES
    ensures '{' !in kind
  {
  }

  function Resolver(variables: map<string, string>, w: CharClass): string -> string {
    s => ResolveText(s, variables, w)
  }

  function Mapped(value: Option<Json>, f: string -> string): Option<Json> {
    match value case None => None case Some(v) => Some(MapStrings(v, f))
  }

  lemma RefStays(value: Option<Json>, variables: map<string, string>, ref: Option<string>, w: CharClass)
    requires ref.Some? ==> '{' !in ref.value
    ensures ParseRef(value) == Good(ref) ==> ParseRef(Mapped(value, Resolver(variables, w))) == Good(ref)
    ensures ParseBranch(value) == Good(ref) ==> ParseBranch(Mapped(value, Resolver(variables, w))) == Good(ref)
  {
    if ref.Some? {
      NoBraceStays(ref.value, variables, w);
    }
  }

  lemma ActionStays(kind: Option<Json>, onTrue: Option<Json>, onFalse: Option<Json>,
                    variables: map<string, string>, w: CharClass)
    requires ActionOf(kind, onTrue, onFalse).Some?
    requires var (_, t, f) := ActionOf(kind, onTrue, onFalse).value;
             (t.Some? ==> '{' !in t.value) && (f.Some? ==> '{' !in f.value)
    ensures var f := Resolver(variables, w);
            ActionOf(Mapped(kind, f), Mapped(onTrue, f), Mapped(onFalse, f)) == ActionOf(kind, onTrue, onFalse)
  {
    hide ResolveText, ACTION_TYPES, ParseBranch;
    var (k, t, f) := ActionOf(kind, onTrue, onFalse).value;
    KindStays(k, variables, w);
    RefStays(onTrue, variables, t, w);
    RefStays(onFalse, variables, f, w);
  }

  lemma KindStays(kind: string, variables: map<string, string>, w: CharClass)
    requires kind in ACTION_TYPES
    ensures Mapped(Some(Str(kind)), Resolver(variables, w)) == Some(Str(kind))
  {
    ActionTypesHaveNoBrace(kind);
    hide ACTION_TYPES, ResolveText;
    NoBraceStays(kind, variables, w);
  }

  lemma FieldsStay(action: Fields, variables: map<string, string>, w: CharClass)
    requires ParseAction(action).Some?
    requires var (_, t, f) := ParseAction(action).value;
             (t.Some? ==> '{' !in t.value) && (f.Some? ==> '{' !in f.value)
    ensures ParseAction(MapFields(action, Resolver(variables, w))) == ParseAction(action)
  {
    var f := Resolver(variables, w);
    GetMapped(action, "type", f);
    GetMapped(action, "on_true", f);
    GetMapped(action, "on_false", f);
    hide ActionOf;
    ActionStays(Get(action, "type"), Get(action, "on_true"), Get(action, "on_false"), variables, w);
  }

  lemma NodeStays(node: Json, variables: map<string, string>, v: CharClass, w: CharClass)
    requires WordClass(v) && ParseNode(node, v).Some? && RefsPlain(ParseNode(node, v).value)
    ensures ParseNode(MapStrings(node, Resolver(variables, w)), v) == ParseNode(node, v)
  {
    var f := Resolver(variables, w);
    var n := ParseNode(node, v).value;
    var fields := node.fields;
    GetMapped(fields, "id", f);
    GetMapped(fields, "action", f);
    GetMapped(fields, "on_success", f);
    GetMapped(fields, "on_failure", f);
    IdsHaveNoBrace(n.id, v);
    NoBraceStays(n.id, variables, w);
    RefStays(Get(fields, "on_success"), variables, n.onSuccess, w);
    RefStays(Get(fields, "on_failure"), variables, n.onFailure, w);
    FieldsStay(Get(fields, "action").value.fields, variables, w);
    assert MapStrings(node, f) == Obj(MapFields(fields, f));
    hide MapFields, ResolveText, ParseAction, ParseRef, IdOk, RefsPlain, Resolver;
  }

  lemma {:induction false} NodesStay(items: Items, variables: map<string, string>, v: CharClass, w: CharClass)
    requires WordClass(v) && ParseNodes(items, v).Some? && forall n | n in ParseNodes(items, v).value :: RefsPlain(n)
    ensures ParseNodes(MapItems(items, Resolver(variables, w)), v) == ParseNodes(items, v)
  {
    match items {
      case NoItems =>
      case Item(head, tail) =>
        var node, nodes := ParseNode(head, v).value, ParseNodes(tail, v).value;
        assert ParseNodes(items, v).value == [node] + nodes && node in [node] + nodes;
        assert forall n | n in nodes :: n in [node] + nodes;
        NodeStays(head, variables, v, w);
        NodesStay(tail, variables, v, w);
    }
  }

  lemma {:induction false} ParsedIdsOk(items: Items, w: CharClass)
    requires ParseNodes(items, w).Some?
    ensures forall n | n in ParseNodes(items, w).value ::
              IdOk(n.id, w) && (n.kind != "condition" ==> n.onTrue.None? && n.onFalse.None?)
  {
    match items {
      case NoItems =>
      case Item(head, tail) => ParsedIdsOk(tail, w);
    }
  }

  /** A reference to an existing node, or the empty one, has no brace. */
  lemma KnownRefsArePlain(script: Script, node: Node, w: CharClass)
    requires WordClass(w) && RefsKnown(script, script.nodes) && node in script.nodes
    requires forall n | n in script.nodes :: IdOk(n.id, w)
    requires node.kind != "condition" ==> node.onTrue.None? && node.onFalse.None?
    ensures RefsPlain(node)
  {
    forall ref: string | Refers(node, ref) ensures '{' !in ref {
      assert ref in Ids(script);
      IdsHaveNoBrace(ref, w);
    }
  }

  /** The document parses, and its graph passes the checks. */
  ghost predicate Accepts(dag: Json, w: CharClass) {
    ParseScript(dag, w).Some? && Valid(ParseScript(dag, w).value)
  }

  /**
   For every DAG the graph checks accept and all account values, the resolved DAG has the same
   node ids, action types, entry and edges, so the checks accept it too; keys and shape stay. `v` is
   the character class of the id pattern, `w` that of the placeholders.
   */
  lemma ResolveKeepsGraph(dag: Json, variables: map<string, string>, v: CharClass, w: CharClass)
    requires WordClass(v)
    ensures Accepts(dag, v) ==>
              ParseScript(Resolve(dag, variables, w), v) == ParseScript(dag, v)
              && Accepts(Resolve(dag, variables, w), v)
    ensures SameShape(dag, Resolve(dag, variables, w))
  {
    var f := Resolver(variables, w);
    MapAgrees(dag, s => ResolveText(s, variables, w), f);
    MapKeepsShape(dag, f);
    if Accepts(dag, v) {
      ParsedTheSame(dag, variables, v, w);
    }
  }

  lemma ParsedTheSame(dag: Json, variables: map<string, string>, v: CharClass, w: CharClass)
    requires WordClass(v) && Accepts(dag, v)
    ensures ParseScript(MapStrings(dag, Resolver(variables, w)), v) == ParseScript(dag, v)
  {
    var f := Resolver(variables, w);
    var script := ParseScript(dag, v).value;
    var items := Get(dag.fields, "nodes").value.items;
    ParsedIdsOk(items, v);
    forall n | n in script.nodes ensures RefsPlain(n) {
      KnownRefsArePlain(script, n, v);
    }
    NodesStay(items, variables, v, w);
    GetMapped(dag.fields, "nodes", f);
    GetMapped(dag.fields, "entry_node", f);
    IdsHaveNoBrace(script.entry, v);
    NoBraceStays(script.entry, variables, w);
  }
}
