/** JSON values as trees, and the walk that rewrites every string value and nothing else. */
module JsonTrees {
  import opened Prelude

  datatype Json = Null | Bool(bool) | Num(real) | Str(text: string) | Arr(items: Items) | Obj(fields: Fields)
  datatype Items = NoItems | Item(head: Json, tail: Items)
  datatype Fields = NoFields | Field(key: string, value: Json, rest: Fields)

  function MapStrings(j: Json, f: string -> string): Json {
    match j
    case Str(s) => Str(f(s))
    case Arr(items) => Arr(MapItems(items, f))
    case Obj(fields) => Obj(MapFields(fields, f))
    case _ => j
  }

  function MapItems(items: Items, f: string -> string): Items {
    match items
    case NoItems => NoItems
    case Item(head, tail) => Item(MapStrings(head, f), MapItems(tail, f))
  }

  function MapFields(fields: Fields, f: string -> string): Fields {
    match fields
    case NoFields => NoFields
    case Field(key, value, rest) => Field(key, MapStrings(value, f), MapFields(rest, f))
  }

  /** Same keys, same nesting, same leaves except strings. */
  predicate SameShape(a: Json, b: Json) {
    match (a, b)
    case (Str(_), Str(_)) => true
    case (Arr(x), Arr(y)) => SameItems(x, y)
    case (Obj(x), Obj(y)) => SameFields(x, y)
    case _ => a == b
  }

  predicate SameItems(a: Items, b: Items) {
    match (a, b)
    case (Item(x, s), Item(y, t)) => SameShape(x, y) && SameItems(s, t)
    case _ => a == b
  }

  predicate SameFields(a: Fields, b: Fields) {
    match (a, b)
    case (Field(k, x, s), Field(l, y, t)) => k == l && SameShape(x, y) && SameFields(s, t)
    case _ => a == b
  }

  /** Keys, shape and non-string leaves survive any rewriting of the strings. */
  lemma {:induction false} MapKeepsShape(j: Json, f: string -> string)
    ensures SameShape(j, MapStrings(j, f))
    decreases j, 0
  {
    match j {
      case Arr(items) => MapKeepsItems(items, f);
      case Obj(fields) => MapKeepsFields(fields, f);
      case _ =>
    }
  }

  lemma {:induction false} MapKeepsItems(items: Items, f: string -> string)
    ensures SameItems(items, MapItems(items, f))
    decreases items, 1
  {
    match items {
      case NoItems =>
      case Item(head, tail) => MapKeepsShape(head, f); MapKeepsItems(tail, f);
    }
  }

  lemma {:induction false} MapKeepsFields(fields: Fields, f: string -> string)
    ensures SameFields(fields, MapFields(fields, f))
    decreases fields, 1
  {
    match fields {
      case NoFields =>
      case Field(key, value, rest) => MapKeepsShape(value, f); MapKeepsFields(rest, f);
    }
  }

  /** The string values of a tree; keys are not among them. */
  function Strings(j: Json): set<string> {
    match j
    case Str(s) => {s}
    case Arr(items) => StringsOfItems(items)
    case Obj(fields) => StringsOfFields(fields)
    case _ => {}
  }

  function StringsOfItems(items: Items): set<string> {
    match items
    case NoItems => {}
    case Item(head, tail) => Strings(head) + StringsOfItems(tail)
  }

  function StringsOfFields(fields: Fields): set<string> {
    match fields
    case NoFields => {}
    case Field(_, value, rest) => Strings(value) + StringsOfFields(rest)
  }

  /** Two rewritings agree on a tree exactly when they agree on its strings. */
  lemma {:induction false} MapAgrees(j: Json, f: string -> string, g: string -> string)
    ensures MapStrings(j, f) == MapStrings(j, g) <==> forall s | s in Strings(j) :: f(s) == g(s)
    decreases j, 0
  {
    match j {
      case Arr(items) => MapItemsAgree(items, f, g);
      case Obj(fields) => MapFieldsAgree(fields, f, g);
      case _ =>
    }
  }

  lemma {:induction false} MapItemsAgree(items: Items, f: string -> string, g: string -> string)
    ensures MapItems(items, f) == MapItems(items, g) <==> forall s | s in StringsOfItems(items) :: f(s) == g(s)
    decreases items, 1
  {
    match items {
      case NoItems =>
      case Item(head, tail) => MapAgrees(head, f, g); MapItemsAgree(tail, f, g);
    }
  }

  lemma {:induction false} MapFieldsAgree(fields: Fields, f: string -> string, g: string -> string)
    ensures MapFields(fields, f) == MapFields(fields, g) <==> forall s | s in StringsOfFields(fields) :: f(s) == g(s)
    decreases fields, 1
  {
    match fields {
      case NoFields =>
      case Field(key, value, rest) => MapAgrees(value, f, g); MapFieldsAgree(rest, f, g);
    }
  }

  /** A tree on whose strings `f` does nothing comes back unchanged. */
  lemma {:induction false} MapFixes(j: Json, f: string -> string)
    requires forall s | s in Strings(j) :: f(s) == s
    ensures MapStrings(j, f) == j
  {
    var id := (s: string) => s;
    MapAgrees(j, f, id);
    MapIdentity(j, id);
  }

  lemma MapIdentity(j: Json, id: string -> string)
    requires forall s :: id(s) == s
    ensures MapStrings(j, id) == j
    decreases j, 0
  {
    match j {
      case Arr(items) => MapItemsIdentity(items, id);
      case Obj(fields) => MapFieldsIdentity(fields, id);
      case _ =>
    }
  }

  lemma MapItemsIdentity(items: Items, id: string -> string)
    requires forall s :: id(s) == s
    ensures MapItems(items, id) == items
    decreases items, 1
  {
    match items {
      case NoItems =>
      case Item(head, tail) => MapIdentity(head, id); MapItemsIdentity(tail, id);
    }
  }

  lemma MapFieldsIdentity(fields: Fields, id: string -> string)
    requires forall s :: id(s) == s
    ensures MapFields(fields, id) == fields
    decreases fields, 1
  {
    match fields {
      case NoFields =>
      case Field(key, value, rest) => MapIdentity(value, id); MapFieldsIdentity(rest, id);
    }
  }

  /** `dict.get(key)`. */
  function Get(fields: Fields, key: string): Option<Json> {
    match fields
    case NoFields => None
    case Field(k, value, rest) => if k == key then Some(value) else Get(rest, key)
  }

  lemma {:induction false} GetMapped(fields: Fields, key: string, f: string -> string)
    ensures Get(MapFields(fields, f), key) ==
            match Get(fields, key) case None => None case Some(v) => Some(MapStrings(v, f))
  {
    match fields {
      case NoFields =>
      case Field(_, _, rest) => GetMapped(rest, key, f);
    }
  }
}
